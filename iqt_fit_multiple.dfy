/** The string and table helpers of the I(Q,t) multi-domain fit workflow:
    the multi-domain function string with its ties and keyword arguments, input
    validation with keyed messages, the output-name derivation and the column
    layout of the transposed parameter table. Workspaces are reduced to the
    numbers the helpers read from them (histogram count, last x value, the
    parameter names and values of the fit table). */
module IqtFitMultiple {
  import opened Text
  import opened Wrappers

  // ---------------------------------------------------------------------------
  // The multi-domain function, its ties and its keyword arguments
  // ---------------------------------------------------------------------------

  const MultiHeader: string := "composite=MultiDomainFunction,NumDeriv=true;"

  /** The member added once per spectrum. The domain index is the literal
      character `i`, not the spectrum number. */
  function CompositeMember(fitFunction: string): string
  {
    "(composite=CompositeFunction,NumDeriv=true,$domains=i;" + fitFunction + ");"
  }

  /** The tie that makes spectrum `i` share the Beta of spectrum 0. */
  function Tie(i: nat): string
  {
    "f" + NatToString(i) + ".f1.Beta=f0.f1.Beta"
  }

  /** The ties of a fit over `n` spectra: one per spectrum after the first, ascending. */
  function Ties(n: nat): (ties: seq<string>)
    ensures |ties| == if n == 0 then 0 else n - 1
    ensures forall k :: 0 <= k < |ties| ==> ties[k] == Tie(k + 1)
  {
    var count: nat := if n == 0 then 0 else n - 1;
    seq(count, k requires 0 <= k < count => Tie(k + 1))
  }

  lemma TiesGrow(i: nat)
    ensures Ties(i + 1) == if i == 0 then [] else Ties(i) + [Tie(i)]
  {
  }

  /** `n` copies of `s` one after the other. */
  function Repeat(s: string, n: nat): (r: string)
    ensures |r| == n * |s|
  {
    if n == 0 then [] else Repeat(s, n - 1) + s
  }

  lemma RepeatGrow(head: string, s: string, i: nat)
    ensures head + Repeat(s, i) + s == head + Repeat(s, i + 1)
  {
    assert Repeat(s, i + 1) == Repeat(s, i) + s;
  }

  /** Block `k` of `Repeat(s, n)` is a copy of `s`: the function string holds one
      member per spectrum. */
  lemma {:induction false} RepeatBlocks(s: string, n: nat, k: nat)
    requires k < n
    ensures (k + 1) * |s| <= n * |s|
    ensures Repeat(s, n)[k * |s| .. (k + 1) * |s|] == s
  {
    var before := Repeat(s, n - 1);
    assert (k + 1) * |s| == k * |s| + |s|;
    assert n * |s| == (n - 1) * |s| + |s|;
    if k == n - 1 {
      assert Repeat(s, n) == before + s;
    } else {
      RepeatBlocks(s, n - 1, k);
      assert (k + 1) * |s| <= (n - 1) * |s|;
      assert Repeat(s, n)[..(n - 1) * |s|] == before;
    }
  }

  /** The value of a keyword argument of the fit: a workspace index or a workspace name. */
  datatype KwargValue = Index(index: nat) | Workspace(name: string)

  function WorkspaceIndexKey(i: nat): string
  {
    "WorkspaceIndex_" + NatToString(i)
  }

  function InputWorkspaceKey(i: nat): string
  {
    "InputWorkspace_" + NatToString(i)
  }

  /** Keys for different spectra, or of different kinds, never collide. */
  lemma KeysDistinct(i: nat, j: nat)
    ensures WorkspaceIndexKey(i) != InputWorkspaceKey(j)
    ensures i != j ==> WorkspaceIndexKey(i) != WorkspaceIndexKey(j)
    ensures i != j ==> InputWorkspaceKey(i) != InputWorkspaceKey(j)
  {
    assert WorkspaceIndexKey(i)[0] == 'W' && InputWorkspaceKey(j)[0] == 'I';
    if WorkspaceIndexKey(i) == WorkspaceIndexKey(j) {
      assert WorkspaceIndexKey(i)[15..] == NatToString(i);
      assert WorkspaceIndexKey(j)[15..] == NatToString(j);
      NatToStringInjective(i, j);
    }
    if InputWorkspaceKey(i) == InputWorkspaceKey(j) {
      assert InputWorkspaceKey(i)[15..] == NatToString(i);
      assert InputWorkspaceKey(j)[15..] == NatToString(j);
      NatToStringInjective(i, j);
    }
  }

  /** `key` is a keyword a fit over `n` spectra passes. */
  predicate IsKwargKey(key: string, n: nat)
  {
    exists j: nat :: j < n && (key == WorkspaceIndexKey(j) || (1 <= j && key == InputWorkspaceKey(j)))
  }

  /** Every spectrum below `n` has its workspace index. */
  predicate HasIndexKwargs(kwargs: map<string, KwargValue>, n: nat)
  {
    forall j: nat :: j < n ==> WorkspaceIndexKey(j) in kwargs && kwargs[WorkspaceIndexKey(j)] == Index(j)
  }

  /** Every spectrum from 1 to below `n` names the workspace `ws`. */
  predicate HasInputKwargs(kwargs: map<string, KwargValue>, n: nat, ws: string)
  {
    forall j: nat :: 1 <= j < n ==> InputWorkspaceKey(j) in kwargs && kwargs[InputWorkspaceKey(j)] == Workspace(ws)
  }

  /** The keyword arguments of a fit over `n` spectra of workspace `ws`: every spectrum
      has its workspace index, every spectrum after the first names the workspace,
      and there is nothing else. */
  predicate KwargsFor(kwargs: map<string, KwargValue>, n: nat, ws: string)
  {
    HasIndexKwargs(kwargs, n) && HasInputKwargs(kwargs, n, ws)
    && (forall key :: key in kwargs ==> IsKwargKey(key, n))
  }

  /** The first spectrum is taken from the workspace given to the fit itself, so it
      never gets an `InputWorkspace_0` keyword. */
  lemma FirstSpectrumHasNoInputWorkspace(kwargs: map<string, KwargValue>, n: nat, ws: string)
    requires KwargsFor(kwargs, n, ws)
    ensures InputWorkspaceKey(0) !in kwargs
  {
    if InputWorkspaceKey(0) in kwargs {
      var j: nat :| j < n && (InputWorkspaceKey(0) == WorkspaceIndexKey(j) || (1 <= j && InputWorkspaceKey(0) == InputWorkspaceKey(j)));
      KeysDistinct(j, 0);
      assert false;
    }
  }

  /** The ties contain no comma, so the joined ties list splits back into the ties. */
  lemma TiesRecoverable(n: nat)
    ensures n <= 1 ==> Join(",", Ties(n)) == ""
    ensures 2 <= n ==> Split(Join(",", Ties(n)), ',') == Ties(n)
  {
    var ties := Ties(n);
    if 2 <= n {
      forall k | 0 <= k < |ties|
        ensures ',' !in ties[k]
      {
        var digits := NatToString(k + 1);
        assert ties[k] == "f" + digits + ".f1.Beta=f0.f1.Beta";
        assert ',' !in digits;
      }
      SplitJoin(ties, ',');
    }
  }

  /** The map after adding the keywords of spectrum `i`. */
  predicate AddsSpectrum(before: map<string, KwargValue>, after: map<string, KwargValue>, i: nat, ws: string)
  {
    if i == 0 then after == before[WorkspaceIndexKey(i) := Index(i)]
    else after == before[WorkspaceIndexKey(i) := Index(i)][InputWorkspaceKey(i) := Workspace(ws)]
  }

  lemma IndexKwargsGrow(before: map<string, KwargValue>, after: map<string, KwargValue>, i: nat, ws: string)
    requires HasIndexKwargs(before, i) && AddsSpectrum(before, after, i, ws)
    ensures HasIndexKwargs(after, i + 1)
  {
    forall j: nat | j < i + 1
      ensures WorkspaceIndexKey(j) in after && after[WorkspaceIndexKey(j)] == Index(j)
    {
      KeysDistinct(j, i);
    }
  }

  lemma InputKwargsGrow(before: map<string, KwargValue>, after: map<string, KwargValue>, i: nat, ws: string)
    requires HasInputKwargs(before, i, ws) && AddsSpectrum(before, after, i, ws)
    ensures HasInputKwargs(after, i + 1, ws)
  {
    forall j: nat | 1 <= j < i + 1
      ensures InputWorkspaceKey(j) in after && after[InputWorkspaceKey(j)] == Workspace(ws)
    {
      KeysDistinct(i, j);
    }
  }

  /** Adding the keywords of spectrum `i` to those of the spectra before it. */
  lemma KwargsGrow(before: map<string, KwargValue>, after: map<string, KwargValue>, i: nat, ws: string)
    requires KwargsFor(before, i, ws) && AddsSpectrum(before, after, i, ws)
    ensures KwargsFor(after, i + 1, ws)
  {
    IndexKwargsGrow(before, after, i, ws);
    InputKwargsGrow(before, after, i, ws);
    forall key | key in after
      ensures IsKwargKey(key, i + 1)
    {
      if key in before {
        var j: nat :| j < i && (key == WorkspaceIndexKey(j) || (1 <= j && key == InputWorkspaceKey(j)));
        assert j < i + 1;
      } else {
        assert key == WorkspaceIndexKey(i) || (1 <= i && key == InputWorkspaceKey(i));
      }
    }
  }

  /** `_create_mutli_domain_func`: the fit function string and keyword arguments
      for a workspace `inputWs` of `numSpectra` spectra. */
  method CreateMultiDomainFunc(fitFunction: string, inputWs: string, numSpectra: nat)
    returns (multi: string, kwargs: map<string, KwargValue>)
    ensures multi == MultiHeader + Repeat(CompositeMember(fitFunction), numSpectra)
                     + "ties=(" + Join(",", Ties(numSpectra)) + ")"
    ensures KwargsFor(kwargs, numSpectra, inputWs)
  {
    multi := MultiHeader;
    var comp := CompositeMember(fitFunction);
    var ties: seq<string> := [];
    kwargs := map[];
    var i := 0;
    while i < numSpectra
      invariant i <= numSpectra
      invariant multi == MultiHeader + Repeat(comp, i)
      invariant ties == Ties(i)
      invariant KwargsFor(kwargs, i, inputWs)
    {
      multi := multi + comp;
      ghost var before := kwargs;
      kwargs := kwargs[WorkspaceIndexKey(i) := Index(i)];
      if i > 0 {
        kwargs := kwargs[InputWorkspaceKey(i) := Workspace(inputWs)];
        ties := ties + [Tie(i)];
      }
      KwargsGrow(before, kwargs, i, inputWs);
      TiesGrow(i);
      RepeatGrow(MultiHeader, comp, i);
      i := i + 1;
    }
    multi := multi + "ties=(" + Join(",", ties) + ")";
  }

  // ---------------------------------------------------------------------------
  // Input validation
  // ---------------------------------------------------------------------------

  function SpecMaxAboveSpectra(numHistograms: nat): string
  {
    "SpecMax must be smaller or equal to the number of spectra in the input workspace, "
      + NatToString(numHistograms)
  }

  const SpecMinNegative: string := "SpecMin can not be less than 0"
  const SpecMaxBelowSpecMin: string := "SpecMax must be more than or equal to SpecMin"

  /** `'%d' % x` of a float truncates toward zero. */
  function EndXAboveRange(maxX: real): string
  {
    "EndX must be less than the highest x value in the workspace, " + IntToString(TruncateReal(maxX))
  }

  const StartXNegative: string := "StartX can not be less than 0"
  const EndXBelowStartX: string := "EndX must be more than StartX"

  /** The input properties `validateInputs` reports on; a problem is keyed by the
      property's name. */
  datatype Property = SpecMin | SpecMax | StartX | EndX

  function PropertyName(p: Property): string
  {
    match p
    case SpecMin => "SpecMin"
    case SpecMax => "SpecMax"
    case StartX => "StartX"
    case EndX => "EndX"
  }

  /** The spectrum-range checks of `validateInputs`, in order; the "SpecMax below
      SpecMin" message replaces the "SpecMax above the spectra" one. */
  method SpectrumIssues(specMin: int, specMax: int, numHistograms: nat)
    returns (issues: map<Property, string>)
    ensures issues.Keys <= {SpecMin, SpecMax}
    ensures SpecMax in issues <==> specMax > numHistograms || specMax < specMin
    ensures specMax < specMin ==> issues[SpecMax] == SpecMaxBelowSpecMin
    ensures specMin <= specMax && specMax > numHistograms ==> issues[SpecMax] == SpecMaxAboveSpectra(numHistograms)
    ensures SpecMin in issues <==> specMin < 0
    ensures specMin < 0 ==> issues[SpecMin] == SpecMinNegative
  {
    issues := map[];
    if specMax > numHistograms {
      issues := issues[SpecMax := SpecMaxAboveSpectra(numHistograms)];
    }
    if specMin < 0 {
      issues := issues[SpecMin := SpecMinNegative];
    }
    if specMax < specMin {
      issues := issues[SpecMax := SpecMaxBelowSpecMin];
    }
  }

  /** The x-range checks of `validateInputs`, in order; the "EndX below StartX" message
      replaces the "EndX above the data" one. */
  method XRangeIssues(startX: real, endX: real, maxX: real)
    returns (issues: map<Property, string>)
    ensures issues.Keys <= {StartX, EndX}
    ensures EndX in issues <==> endX > maxX || startX > endX
    ensures startX > endX ==> issues[EndX] == EndXBelowStartX
    ensures startX <= endX && endX > maxX ==> issues[EndX] == EndXAboveRange(maxX)
    ensures StartX in issues <==> startX < 0.0
    ensures startX < 0.0 ==> issues[StartX] == StartXNegative
  {
    issues := map[];
    if endX > maxX {
      issues := issues[EndX := EndXAboveRange(maxX)];
    }
    if startX < 0.0 {
      issues := issues[StartX := StartXNegative];
    }
    if startX > endX {
      issues := issues[EndX := EndXBelowStartX];
    }
  }

  /** `validateInputs`: the problems with the spectrum and x ranges, keyed by property;
      no problem at all exactly when both ranges are valid. */
  method ValidateInputs(specMin: int, specMax: int, numHistograms: nat,
                        startX: real, endX: real, maxX: real)
    returns (issues: map<Property, string>)
    ensures issues.Keys <= {SpecMin, SpecMax, StartX, EndX}
    ensures SpecMax in issues <==> specMax > numHistograms || specMax < specMin
    ensures specMax < specMin ==> issues[SpecMax] == SpecMaxBelowSpecMin
    ensures specMin <= specMax && specMax > numHistograms ==> issues[SpecMax] == SpecMaxAboveSpectra(numHistograms)
    ensures SpecMin in issues <==> specMin < 0
    ensures specMin < 0 ==> issues[SpecMin] == SpecMinNegative
    ensures EndX in issues <==> endX > maxX || startX > endX
    ensures startX > endX ==> issues[EndX] == EndXBelowStartX
    ensures startX <= endX && endX > maxX ==> issues[EndX] == EndXAboveRange(maxX)
    ensures StartX in issues <==> startX < 0.0
    ensures startX < 0.0 ==> issues[StartX] == StartXNegative
    ensures issues == map[] <==> 0 <= specMin <= specMax <= numHistograms && 0.0 <= startX <= endX <= maxX
  {
    var spectra := SpectrumIssues(specMin, specMax, numHistograms);
    var xs := XRangeIssues(startX, endX, maxX);
    issues := spectra + xs;
  }

  // ---------------------------------------------------------------------------
  // Output names
  // ---------------------------------------------------------------------------

  /** The name the fit writes its outputs under: a last `_`-separated token that
      contains "WORKSPACE" in any case is dropped, otherwise the group name is kept. */
  function OutputWorkspaceName(groupName: string): string
  {
    var chopped := Split(groupName, '_');
    if Contains(Upper(chopped[|chopped| - 1]), "WORKSPACE") then Join("_", chopped[..|chopped| - 1])
    else groupName
  }

  /** Joining one more part appends the separator and the part. */
  lemma {:induction false} JoinSnoc(sep: string, parts: seq<string>, p: string)
    requires 1 <= |parts|
    ensures Join(sep, parts + [p]) == Join(sep, parts) + sep + p
    decreases |parts|
  {
    var all := parts + [p];
    if |parts| == 1 {
      assert all[1..] == [p];
    } else {
      assert all[1..] == parts[1..] + [p];
      JoinSnoc(sep, parts[1..], p);
    }
  }

  /** The output name is the group name, or the group name without its last
      `_`-separated token, which then contains "WORKSPACE"; a group name with no
      `_` whose text contains "WORKSPACE" gives the empty name. */
  lemma OutputNameStripsSuffix(groupName: string)
    ensures var name := OutputWorkspaceName(groupName);
            var last := Split(groupName, '_')[|Split(groupName, '_')| - 1];
            (name == groupName && !Contains(Upper(last), "WORKSPACE"))
            || ('_' in groupName && groupName == name + "_" + last && Contains(Upper(last), "WORKSPACE"))
            || ('_' !in groupName && name == "" && Contains(Upper(groupName), "WORKSPACE"))
  {
    var chopped := Split(groupName, '_');
    var last := chopped[|chopped| - 1];
    JoinSplit(groupName, '_');
    if Contains(Upper(last), "WORKSPACE") {
      if |chopped| == 1 {
        assert Join("_", chopped) == last;
        assert '_' !in groupName;
      } else {
        assert chopped == chopped[..|chopped| - 1] + [last];
        JoinSnoc("_", chopped[..|chopped| - 1], last);
        assert groupName == OutputWorkspaceName(groupName) + "_" + last;
        assert '_' in groupName by {
          assert groupName[|OutputWorkspaceName(groupName)|] == '_';
        }
      }
    }
  }

  /** The fit option: the fit type without its last two characters (Python `[:-2]`). */
  function FitOption(fitType: string): (option: string)
    ensures |fitType| >= 2 ==> |option| == |fitType| - 2
    ensures |fitType| < 2 ==> option == ""
    ensures option <= fitType
  {
    if |fitType| < 2 then "" else fitType[..|fitType| - 2]
  }

  // ---------------------------------------------------------------------------
  // The transposed parameter table
  // ---------------------------------------------------------------------------

  /** The function a parameter belongs to: its name up to the first '.'. */
  function FunctionPrefix(name: string): string
  {
    Split(name, '.')[0]
  }

  /** The parameter name without its function prefix. */
  function Unprefixed(name: string): string
  {
    Join(".", Split(name, '.')[1..])
  }

  /** A name with a '.' is its function prefix, a '.', and its unprefixed name. */
  lemma PrefixAndUnprefixed(name: string)
    requires '.' in name
    ensures name == FunctionPrefix(name) + "." + Unprefixed(name)
  {
    var parts := Split(name, '.');
    JoinSplit(name, '.');
  }

  /** A column of the fit's parameter table without its last (cost-function) row. */
  function WithoutCostFunction<T>(column: seq<T>): (rows: seq<T>)
    ensures rows <= column
    ensures |rows| == if |column| == 0 then 0 else |column| - 1
  {
    if |column| == 0 then [] else column[..|column| - 1]
  }

  /** The index of the first name from `from` on whose prefix differs from the first
      name's, or `|names|` if there is none. */
  function FirstPrefixChange(names: seq<string>, from: nat): (c: nat)
    requires 1 <= |names| && from <= |names|
    ensures from <= c <= |names|
    ensures forall i :: from <= i < c ==> FunctionPrefix(names[i]) == FunctionPrefix(names[0])
    ensures c < |names| ==> FunctionPrefix(names[c]) != FunctionPrefix(names[0])
    decreases |names| - from
  {
    if from == |names| then from
    else if FunctionPrefix(names[from]) != FunctionPrefix(names[0]) then from
    else FirstPrefixChange(names, from + 1)
  }

  /** The parameter count per spectrum as the source computes it: the index of the first
      name of another function, and 0 when every name belongs to the same function. */
  function NumParamsAsWritten(names: seq<string>): nat
    requires 1 <= |names|
  {
    var c := FirstPrefixChange(names, 0);
    if c == |names| then 0 else c
  }

  /** The loop of `transposeFitParametersTable` that finds the parameter count. */
  method CountParameters(names: seq<string>) returns (numParams: nat)
    requires 1 <= |names|
    ensures numParams == NumParamsAsWritten(names)
    ensures numParams == 0 <==> forall i :: 0 <= i < |names| ==> FunctionPrefix(names[i]) == FunctionPrefix(names[0])
    ensures numParams != 0 ==> FunctionPrefix(names[numParams]) != FunctionPrefix(names[0])
  {
    var funcIndex := FunctionPrefix(names[0]);
    numParams := 0;
    var i := 0;
    while i < |names|
      invariant i <= |names|
      invariant forall j :: 0 <= j < i ==> FunctionPrefix(names[j]) == funcIndex
      invariant FirstPrefixChange(names, 0) == FirstPrefixChange(names, i)
    {
      if FunctionPrefix(names[i]) != funcIndex {
        numParams := i;
        break;
      }
      i := i + 1;
    }
  }

  /** The parameter count per spectrum: the index of the first name of another function,
      and all the names when they all belong to one function (a fit of one spectrum). */
  function NumParams(names: seq<string>): (n: nat)
    requires 1 <= |names|
    ensures 1 <= n <= |names|
    ensures forall i :: 0 <= i < n ==> FunctionPrefix(names[i]) == FunctionPrefix(names[0])
    ensures n < |names| ==> FunctionPrefix(names[n]) != FunctionPrefix(names[0])
  {
    FirstPrefixChange(names, 0)
  }

  /** The values `from`, `from + step`, ... below `stop`. */
  function Range(from: int, stop: int, step: nat): (r: seq<int>)
    requires 0 < step
    ensures |r| == 0 <==> from >= stop
    ensures |r| > 0 ==> r[0] == from && r[|r| - 1] < stop <= r[|r| - 1] + step
    ensures forall k :: 0 <= k < |r| ==> from <= r[k] < stop
    ensures forall k :: 0 <= k < |r| - 1 ==> r[k + 1] == r[k] + step
    decreases stop - from
  {
    if from >= stop then [] else [from] + Range(from + step, stop, step)
  }

  /** Python `xrange(0, stop, step)`, the row starts of the transposed table; a zero
      step raises ValueError. */
  function RowStarts(stop: int, step: nat): (r: Result<seq<int>, string>)
    ensures step == 0 <==> r.Failure?
    ensures r.Success? ==> r.value == Range(0, stop, step)
  {
    if step == 0 then Failure("xrange() arg 3 must not be zero") else Success(Range(0, stop, step))
  }

  /** The header row of the transposed table: "axis-1", then each parameter name of the
      first function without its prefix, followed by the same name with "_Err". */
  function ColumnHeaders(names: seq<string>, numParams: nat): (headers: seq<string>)
    requires numParams <= |names|
    ensures |headers| == 1 + 2 * numParams
    ensures headers[0] == "axis-1"
    ensures forall k :: 0 <= k < numParams ==>
              headers[1 + 2 * k] == Unprefixed(names[k]) && headers[2 + 2 * k] == Unprefixed(names[k]) + "_Err"
    decreases numParams
  {
    if numParams == 0 then ["axis-1"]
    else
      var name := Unprefixed(names[numParams - 1]);
      ColumnHeaders(names, numParams - 1) + [name, name + "_Err"]
  }

  /** Values and errors of one row, interleaved. */
  function Interleave(values: seq<real>, errors: seq<real>): (row: seq<real>)
    requires |values| == |errors|
    ensures |row| == 2 * |values|
    ensures forall k :: 0 <= k < |values| ==> row[2 * k] == values[k] && row[2 * k + 1] == errors[k]
  {
    if values == [] then []
    else [values[0], errors[0]] + Interleave(values[1..], errors[1..])
  }

  /** The row of the transposed table that starts at parameter `start`: its position
      `start / numParams`, then each value followed by its error. */
  function Row(values: seq<real>, errors: seq<real>, start: nat, numParams: nat): (row: seq<real>)
    requires |values| == |errors| && 0 < numParams
    requires start + numParams <= |values|
    ensures |row| == 1 + 2 * numParams
    ensures row[0] == start as real / numParams as real
    ensures forall k :: 0 <= k < numParams ==>
              row[1 + 2 * k] == values[start + k] && row[2 + 2 * k] == errors[start + k]
  {
    [start as real / numParams as real] + Interleave(values[start .. start + numParams], errors[start .. start + numParams])
  }

  /** One more step of `step`. */
  lemma MulSucc(k: nat, step: nat)
    ensures (k + 1) * step == k * step + step
  {
  }

  /** Multiplying by a positive step keeps the order of two naturals. */
  lemma MulMonotone(a: nat, b: nat, step: nat)
    requires 1 <= step
    ensures a < b <==> a * step < b * step
  {
    if a < b {
      assert b * step == a * step + (b - a) * step;
    } else {
      assert a * step == b * step + (a - b) * step;
    }
  }

  /** The k-th row start is k times the step. */
  lemma {:induction false} RangeElements(stop: int, step: nat, k: nat)
    requires 0 < step && k < |Range(0, stop, step)|
    ensures Range(0, stop, step)[k] == k * step
    decreases k
  {
    if k > 0 {
      var r := Range(0, stop, step);
      RangeElements(stop, step, k - 1);
      assert r[k] == r[k - 1] + step;
      MulSucc(k - 1, step);
    }
  }

  /** A table of m rows of p parameters: `xrange` gives the m starts 0, p, ..., (m-1)p,
      and each of them leaves room for a whole row, so `Row` can be built at every one. */
  lemma RowsWithinTable(m: nat, p: nat)
    requires 1 <= p
    ensures RowStarts(m * p, p).Success?
    ensures |RowStarts(m * p, p).value| == m
    ensures forall k :: 0 <= k < m ==>
              RowStarts(m * p, p).value[k] == k * p && RowStarts(m * p, p).value[k] + p <= m * p
  {
    var stop := m * p;
    var r := Range(0, stop, p);
    assert RowStarts(stop, p).value == r;
    forall k | 0 <= k < |r|
      ensures r[k] == k * p && k < m
    {
      RangeElements(stop, p, k);
      MulMonotone(k, m, p);
    }
    if |r| < m {
      if |r| == 0 {
        MulMonotone(0, m, p);
      } else {
        var last := |r| - 1;
        RangeElements(stop, p, last);
        MulSucc(last, p);
        MulMonotone(|r|, m, p);
      }
    }
    forall k | 0 <= k < m
      ensures r[k] + p <= stop
    {
      MulSucc(k, p);
      MulMonotone(m, k + 1, p);
    }
  }

  /** With the corrected parameter count, the rows of a table whose names all belong to
      one function cover it in a single row as wide as the header. */
  lemma SingleFunctionTableHasOneRow(names: seq<string>)
    requires 1 <= |names|
    requires forall i :: 0 <= i < |names| ==> FunctionPrefix(names[i]) == FunctionPrefix(names[0])
    ensures NumParams(names) == |names|
    ensures RowStarts(|names|, NumParams(names)) == Success([0])
    ensures |ColumnHeaders(names, NumParams(names))| == 1 + 2 * |names|
  {
    var n := |names|;
    assert NumParams(names) == n;
    var r := Range(0, n, n);
    assert |r| == 1 && r[0] == 0;
    assert r == [0];
  }

  /** As written, a fit of a single spectrum (all parameters under "f0") gets a
      parameter count of 0: no columns but "axis-1", and the row loop's
      `xrange(0, 2, 0)` raises ValueError. */
  lemma SingleSpectrumCountIsZero()
    ensures NumParamsAsWritten(["f0.f0.A0", "f0.f1.Beta"]) == 0
    ensures ColumnHeaders(["f0.f0.A0", "f0.f1.Beta"], 0) == ["axis-1"]
    ensures RowStarts(2, NumParamsAsWritten(["f0.f0.A0", "f0.f1.Beta"])).Failure?
    ensures NumParams(["f0.f0.A0", "f0.f1.Beta"]) == 2
  {
    var names := ["f0.f0.A0", "f0.f1.Beta"];
    assert Split("f0.f0.A0", '.')[0] == "f0";
    assert Split("f0.f1.Beta", '.')[0] == "f0";
    assert FunctionPrefix(names[1]) == FunctionPrefix(names[0]);
  }
}
