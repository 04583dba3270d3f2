/** The non-graphical helpers of the tomography interface's Qt view: turning a
    chosen directory into a UNIX path, naming hidden configuration tables with a
    global sequence number, filling the compute-resource and tool selectors,
    the SCARF credentials, and the image-size limits of `showImage`. Widgets are
    reduced to the text and rows they hold; dialogs and the analysis data
    service are parameters. */
module TomographyView {
  import opened Text
  import opened Wrappers

  // ---------------------------------------------------------------------------
  // Paths
  // ---------------------------------------------------------------------------

  /** A chosen directory as a path on the (UNIX) compute resource: backslashes
      become slashes and a drive prefix "X:" is dropped; a bare drive gives "". */
  function ToUnixPath(path: string): (unix: string)
    ensures '\\' !in unix
    ensures var drop := if |path| >= 2 && path[1] == ':' then 2 else 0;
            |unix| == |path| - drop
            && forall i :: 0 <= i < |unix| ==>
                 unix[i] == (if path[i + drop] == '\\' then '/' else path[i + drop])
  {
    var pp := ReplaceAll(path, '\\', '/');
    if |pp| >= 2 && pp[1] == ':' then (if |pp| == 2 then "" else pp[2..]) else pp
  }

  /** A path that is already UNIX-style comes back unchanged. */
  lemma UnixPathUnchanged(path: string)
    requires '\\' !in path
    requires |path| < 2 || path[1] != ':'
    ensures ToUnixPath(path) == path
  {
    var unix := ToUnixPath(path);
    assert |unix| == |path|;
    forall i | 0 <= i < |path|
      ensures unix[i] == path[i]
    {
      assert path[i] != '\\';
    }
  }

  /** A path field of the view: the line edit showing it and the string that stores it. */
  class PathSetting {
    var shown: string
    var stored: string

    constructor (initial: string)
      ensures shown == "" && stored == initial
    {
      shown := "";
      stored := initial;
    }

    /** The directory the dialog opens in: the shown path, or the last directory
        used by an algorithm dialog when nothing is shown. */
    function StartDirectory(previous: string): (dir: string)
      reads this
      ensures shown != "" ==> dir == shown
      ensures shown == "" ==> dir == previous
    {
      if shown == "" then previous else shown
    }

    /** `processPathBrowseClick` with the dialog's answer `chosen` ("" when cancelled). */
    method ProcessPathBrowseClick(chosen: string)
      modifies this
      ensures chosen == "" ==> shown == old(shown) && stored == old(stored)
      ensures chosen != "" ==> shown == ToUnixPath(chosen) && stored == shown
    {
      if chosen != "" {
        var pp := chosen;
        pp := ReplaceAll(pp, '\\', '/');
        if |pp| >= 2 && pp[1] == ':' {
          if |pp| == 2 {
            pp := "";
          } else {
            pp := pp[2..];
          }
        }
        shown := pp;
        stored := pp;
      }
    }
  }

  // ---------------------------------------------------------------------------
  // Hidden table names
  // ---------------------------------------------------------------------------

  const HiddenPrefix: string := "__TomoConfigTableWS_Seq_"

  /** The hidden name with sequence number `k`. */
  function HiddenName(k: nat): string
  {
    HiddenPrefix + NatToString(k)
  }

  /** Different sequence numbers give different names. */
  lemma HiddenNameInjective(j: nat, k: nat)
    requires HiddenName(j) == HiddenName(k)
    ensures j == k
  {
    assert HiddenName(j)[|HiddenPrefix|..] == NatToString(j);
    assert HiddenName(k)[|HiddenPrefix|..] == NatToString(k);
    NatToStringInjective(j, k);
  }

  /** The names with sequence numbers from `lo` to below `hi`. */
  function NamesBetween(lo: nat, hi: nat): set<string>
    decreases hi
  {
    if hi <= lo then {} else NamesBetween(lo, hi - 1) + {HiddenName(hi - 1)}
  }

  /** No name below `hi` is the name of a number at or above it. */
  lemma {:induction false} NamesBetweenBelow(lo: nat, hi: nat, m: nat)
    requires hi <= m
    ensures HiddenName(m) !in NamesBetween(lo, hi)
    decreases hi
  {
    if lo < hi {
      NamesBetweenBelow(lo, hi - 1, m);
      if HiddenName(m) == HiddenName(hi - 1) {
        HiddenNameInjective(m, hi - 1);
      }
    }
  }

  /** Trying one more name that is taken keeps every tried name taken and leaves
      fewer taken names untried. */
  lemma FewerUntried(existing: set<string>, start: nat, n: nat)
    requires start <= n && HiddenName(n) in existing
    requires NamesBetween(start, n) <= existing
    ensures NamesBetween(start, n + 1) <= existing
    ensures |existing - NamesBetween(start, n + 1)| < |existing - NamesBetween(start, n)|
  {
    var tried, name := NamesBetween(start, n), HiddenName(n);
    NamesBetweenBelow(start, n, n);
    assert NamesBetween(start, n + 1) == tried + {name};
    assert existing - tried == (existing - (tried + {name})) + {name};
  }

  /** The sequence number shared by every view (a static member in the source). */
  class NameSequence {
    var seqNo: nat

    constructor ()
      ensures seqNo == 0
    {
      seqNo := 0;
    }

    /** `createUniqueNameHidden`: try numbered names until one is not among the
        `existing` workspace names; every attempt uses up a sequence number. */
    method CreateUniqueNameHidden(existing: set<string>) returns (name: string)
      modifies this
      ensures seqNo > old(seqNo)
      ensures name == HiddenName(seqNo - 1) && name !in existing
      ensures NamesBetween(old(seqNo), seqNo - 1) <= existing
    {
      ghost var start := seqNo;
      name := HiddenName(seqNo);
      seqNo := seqNo + 1;
      while name in existing
        invariant seqNo > start && name == HiddenName(seqNo - 1)
        invariant NamesBetween(start, seqNo - 1) <= existing
        decreases |existing - NamesBetween(start, seqNo - 1)|
      {
        FewerUntried(existing, start, seqNo - 1);
        name := HiddenName(seqNo);
        seqNo := seqNo + 1;
      }
    }
  }

  /** Two calls never return the same name, whatever the workspaces are in between. */
  lemma SuccessiveNamesDiffer(first: nat, second: nat)
    requires first < second
    ensures HiddenName(first) != HiddenName(second)
  {
    if HiddenName(first) == HiddenName(second) {
      HiddenNameInjective(first, second);
    }
  }

  // ---------------------------------------------------------------------------
  // Selectors and credentials
  // ---------------------------------------------------------------------------

  /** A row of a selector: its text and whether it can be chosen. */
  datatype Row = Row(text: string, enabled: bool)

  /** A combo box: its rows and the text currently selected. */
  class ComboBox {
    var rows: seq<Row>
    var currentText: string

    constructor ()
      ensures rows == [] && currentText == ""
    {
      rows := [];
      currentText := "";
    }

    method Clear()
      modifies this`rows
      ensures rows == []
    {
      rows := [];
    }

    /** Adds a row at the end; a disabled row still shows its text. */
    method AddRow(text: string, enabled: bool)
      modifies this`rows
      ensures rows == old(rows) + [Row(text, enabled)]
    {
      rows := rows + [Row(text, enabled)];
    }
  }

  const ScarfName: string := "SCARF@STFC"

  class View {
    const computeResource: ComboBox
    const runTool: ComboBox
    var scarfUsername: string
    var scarfPassword: string

    predicate Valid()
      reads this
    {
      computeResource != runTool
    }

    constructor ()
      ensures Valid() && fresh(computeResource) && fresh(runTool)
      ensures computeResource.rows == [] && runTool.rows == []
      ensures scarfUsername == "" && scarfPassword == ""
    {
      computeResource := new ComboBox();
      runTool := new ComboBox();
      scarfUsername := "";
      scarfPassword := "";
    }

    /** `setComputeResources`: when there is one flag per name, the selector shows
        one row per name in order, disabled where the flag is false; otherwise
        nothing changes. */
    method SetComputeResources(resources: seq<string>, enabled: seq<bool>)
      requires Valid()
      modifies computeResource`rows
      ensures |resources| != |enabled| ==> computeResource.rows == old(computeResource.rows)
      ensures |resources| == |enabled| ==>
                |computeResource.rows| == |resources|
                && forall i :: 0 <= i < |resources| ==> computeResource.rows[i] == Row(resources[i], enabled[i])
      ensures runTool.rows == old(runTool.rows)
    {
      var cr := computeResource;
      if |resources| != |enabled| {
        return;
      }
      cr.Clear();
      var ri := 0;
      while ri < |resources|
        invariant ri <= |resources|
        invariant |cr.rows| == ri
        invariant forall i :: 0 <= i < ri ==> cr.rows[i] == Row(resources[i], enabled[i])
        invariant runTool.rows == old(runTool.rows)
      {
        cr.AddRow(resources[ri], enabled[ri]);
        ri := ri + 1;
      }
    }

    /** `setReconstructionTools`: the same for the tool selector. */
    method SetReconstructionTools(tools: seq<string>, enabled: seq<bool>)
      requires Valid()
      modifies runTool`rows
      ensures |tools| != |enabled| ==> runTool.rows == old(runTool.rows)
      ensures |tools| == |enabled| ==>
                |runTool.rows| == |tools|
                && forall i :: 0 <= i < |tools| ==> runTool.rows[i] == Row(tools[i], enabled[i])
      ensures computeResource.rows == old(computeResource.rows)
    {
      var rt := runTool;
      if |tools| != |enabled| {
        return;
      }
      rt.Clear();
      var ti := 0;
      while ti < |tools|
        invariant ti <= |tools|
        invariant |rt.rows| == ti
        invariant forall i :: 0 <= i < ti ==> rt.rows[i] == Row(tools[i], enabled[i])
        invariant computeResource.rows == old(computeResource.rows)
      {
        rt.AddRow(tools[ti], enabled[ti]);
        ti := ti + 1;
      }
    }

    /** The user name for the selected compute resource: only SCARF has one. */
    function GetUsername(): (user: string)
      reads this, computeResource
      ensures computeResource.currentText == ScarfName ==> user == scarfUsername
      ensures computeResource.currentText != ScarfName ==> user == "invalid"
    {
      if ScarfName == computeResource.currentText then scarfUsername else "invalid"
    }

    /** The password for the selected compute resource: only SCARF has one. */
    function GetPassword(): (password: string)
      reads this, computeResource
      ensures computeResource.currentText == ScarfName ==> password == scarfPassword
      ensures computeResource.currentText != ScarfName ==> password == "none"
    {
      if ScarfName == computeResource.currentText then scarfPassword else "none"
    }
  }

  // ---------------------------------------------------------------------------
  // Image size
  // ---------------------------------------------------------------------------

  /** The largest width or height an image is drawn with. */
  const MaxDim: nat := 2048 * 16

  /** The largest value of a 64-bit `size_t`, plus one. */
  const SizeLimit: nat := 0x1_0000_0000_0000_0000

  predicate AllDigits(s: string)
  {
    forall i :: 0 <= i < |s| ==> '0' <= s[i] <= '9'
  }

  /** The number a string of decimal digits denotes. */
  function DigitsValue(s: string): nat
    requires AllDigits(s)
  {
    if s == [] then 0 else DigitsValue(s[..|s| - 1]) * 10 + (s[|s| - 1] as int - '0' as int)
  }

  /** `boost::lexical_cast<size_t>` of a log value: decimal digits whose value fits. */
  function ParseSize(s: string): (r: Option<nat>)
    ensures r.Some? ==> r.value < SizeLimit
    ensures r.Some? <==> s != [] && AllDigits(s) && DigitsValue(s) < SizeLimit
  {
    if s != [] && AllDigits(s) && DigitsValue(s) < SizeLimit then Some(DigitsValue(s)) else None
  }

  /** Reading back a number written in decimal gives the number. */
  lemma {:induction false} DigitsValueOfNatToString(n: nat)
    ensures AllDigits(NatToString(n)) && DigitsValue(NatToString(n)) == n
    decreases n
  {
    var s := NatToString(n);
    if n >= 10 {
      DigitsValueOfNatToString(n / 10);
      assert s[..|s| - 1] == NatToString(n / 10);
      assert s[|s| - 1] == DigitChar(n % 10);
    } else {
      assert s == [DigitChar(n)];
    }
  }

  /** A size written in decimal parses back to itself. */
  lemma ParseSizeRoundTrip(n: nat)
    requires n < SizeLimit
    ensures ParseSize(NatToString(n)) == Some(n)
  {
    DigitsValueOfNatToString(n);
  }

  /** The clamp applied to the width and the height. */
  function ClampDimension(v: nat): (d: nat)
    ensures d <= MaxDim
    ensures v < MaxDim ==> d == v
    ensures v >= MaxDim ==> d == MaxDim
  {
    if v >= MaxDim then MaxDim else v
  }

  /** `boost::bad_lexical_cast::what()`. */
  const BadLexicalCast: string := "bad lexical cast: source type value could not be interpreted as target"

  const WidthError: string := "There was a problem while trying to find the width of the image: " + BadLexicalCast
  const HeightError: string := "There was a problem while trying to find the height of the image: " + BadLexicalCast

  /** The width and height of `showImage`, from the "Axis1" and "Axis2" log values;
      the first value that does not parse stops it with the message shown to the user. */
  function ImageSize(widthLog: string, heightLog: string): (r: Result<(nat, nat), string>)
    ensures r.Success? ==> r.value.0 <= MaxDim && r.value.1 <= MaxDim
    ensures ParseSize(widthLog).None? ==>
              r == Failure(WidthError)
    ensures ParseSize(widthLog).Some? && ParseSize(heightLog).None? ==>
              r == Failure(HeightError)
    ensures ParseSize(widthLog).Some? && ParseSize(heightLog).Some? ==>
              r == Success((ClampDimension(ParseSize(widthLog).value), ClampDimension(ParseSize(heightLog).value)))
  {
    match ParseSize(widthLog)
    case None => Failure(WidthError)
    case Some(width) =>
      match ParseSize(heightLog)
      case None => Failure(HeightError)
      case Some(height) => Success((ClampDimension(width), ClampDimension(height)))
  }

  /** Sizes written by the image loader come back clamped to `MaxDim`. */
  lemma ImageSizeOfWrittenSizes(width: nat, height: nat)
    requires width < SizeLimit && height < SizeLimit
    ensures ImageSize(NatToString(width), NatToString(height))
            == Success((if width >= MaxDim then MaxDim else width, if height >= MaxDim then MaxDim else height))
  {
    ParseSizeRoundTrip(width);
    ParseSizeRoundTrip(height);
  }
}
