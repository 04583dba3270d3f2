/** The registry of managed algorithms (Code/Mantid/Framework/API/src/AlgorithmManager.cpp).

    The manager keeps the algorithms it has created in a double-ended queue,
    oldest first. After each creation it trims the queue from the front down to
    the retention limit, but stops at the first algorithm that is still
    running. The algorithm factory, `initialize()` and `isRunning()` belong to
    code outside this file: their outcomes are parameters here. */
module AlgorithmManagement {
  import opened Wrappers

  /** The identity of an algorithm object (an address in the source). */
  type AlgorithmId = int

  /** A managed algorithm, as far as the manager looks at it. */
  datatype Algorithm = Algorithm(id: AlgorithmId, name: string, category: string)

  /** Used when "algorithms.retained" is missing or below 1. */
  const DefaultRetained: int := 100

  /** The retention limit chosen from the "algorithms.retained" setting. */
  function RetainedLimit(configured: Option<int>): (limit: int)
    ensures limit >= 1
    ensures configured.Some? && configured.value >= 1 ==> limit == configured.value
    ensures configured.None? || configured.value < 1 ==> limit == DefaultRetained
  {
    if configured.None? || configured.value < 1 then DefaultRetained else configured.value
  }

  /** The queue left after trimming: drop from the front while the queue is over
      the limit and the front algorithm is not running. */
  function Evicted(q: seq<Algorithm>, limit: nat, isRunning: Algorithm -> bool): seq<Algorithm>
    decreases |q|
  {
    if |q| > limit && !isRunning(q[0]) then Evicted(q[1..], limit, isRunning) else q
  }

  /** Trimming removes a prefix of idle algorithms and keeps the rest in order;
      it stops only when the queue fits or the front algorithm is running. */
  lemma {:induction false} EvictedCharacterisation(q: seq<Algorithm>, limit: nat, isRunning: Algorithm -> bool)
    ensures var r := Evicted(q, limit, isRunning);
      && |r| <= |q|
      && r == q[|q| - |r|..]
      && (forall i :: 0 <= i < |q| - |r| ==> !isRunning(q[i]))
      && (|r| <= limit || isRunning(r[0]))
      && (|q| - |r| > 0 ==> |r| >= limit)
    decreases |q|
  {
    if |q| > limit && !isRunning(q[0]) {
      var r := Evicted(q[1..], limit, isRunning);
      EvictedCharacterisation(q[1..], limit, isRunning);
      assert q[1..][|q| - 1 - |r|..] == q[|q| - |r|..];
      forall i | 0 <= i < |q| - |r|
        ensures !isRunning(q[i])
      {
        if i > 0 {
          assert q[i] == q[1..][i - 1];
        }
      }
    }
  }

  /** The newest algorithm survives trimming when the limit is at least 1. */
  lemma {:induction false} EvictedKeepsNewest(q: seq<Algorithm>, limit: nat, isRunning: Algorithm -> bool)
    requires limit >= 1 && q != []
    ensures Evicted(q, limit, isRunning) != []
    ensures var r := Evicted(q, limit, isRunning); r[|r| - 1] == q[|q| - 1]
    decreases |q|
  {
    if |q| > limit && !isRunning(q[0]) {
      EvictedKeepsNewest(q[1..], limit, isRunning);
    }
  }

  /** Trimming a queue that is within the limit changes nothing. */
  lemma EvictedWithinLimit(q: seq<Algorithm>, limit: nat, isRunning: Algorithm -> bool)
    requires |q| <= limit
    ensures Evicted(q, limit, isRunning) == q
  {
  }

  /** The first algorithm with the given id, or nothing. */
  function Lookup(q: seq<Algorithm>, id: AlgorithmId): (r: Option<Algorithm>)
    ensures r.None? <==> forall i :: 0 <= i < |q| ==> q[i].id != id
    ensures r.Some? ==> exists i :: 0 <= i < |q| && q[i] == r.value && r.value.id == id
                                    && forall j :: 0 <= j < i ==> q[j].id != id
    decreases |q|
  {
    if q == [] then None
    else if q[0].id == id then Some(q[0])
    else
      var r := Lookup(q[1..], id);
      assert r.Some? ==> exists i :: 0 <= i < |q| - 1 && q[1..][i] == r.value && r.value.id == id
                                    && forall j :: 0 <= j < i ==> q[1..][j].id != id;
      assert r.Some? ==> exists i :: 0 <= i < |q| && q[i] == r.value && r.value.id == id
                                    && forall j :: 0 <= j < i ==> q[j].id != id by {
        if r.Some? {
          var i :| 0 <= i < |q| - 1 && q[1..][i] == r.value && r.value.id == id
                   && forall j :: 0 <= j < i ==> q[1..][j].id != id;
          assert q[i + 1] == r.value;
          forall j | 0 <= j < i + 1 ensures q[j].id != id {
            if j > 0 { assert q[j] == q[1..][j - 1]; }
          }
        }
      }
      r
  }

  /** The text of the `std::runtime_error` that `create` throws in place of a
      runtime error from the factory or from `initialize()`. */
  function CreateErrorMessage(algName: string, what: string): (message: string)
    ensures CreateErrorPrefix <= message
    ensures message[|CreateErrorPrefix|..] == algName + " " + what
  {
    CreateErrorPrefix + algName + " " + what
  }

  const CreateErrorPrefix := "AlgorithmManager:: Unable to create algorithm "

  /** Whether an exception is a `std::runtime_error` (or derived from it), the only
      kind `create` catches, or any other exception. */
  datatype ExceptionKind = RuntimeError | OtherError

  /** An exception: its kind and its `what()` text. */
  datatype Exception = Exception(kind: ExceptionKind, what: string)

  /** What leaves `create` when `e` is thrown inside its try block: a runtime
      error is replaced by a runtime error carrying the prefixed message, any
      other exception passes through unchanged. */
  function Propagated(algName: string, e: Exception): (thrown: Exception)
    ensures e.kind == RuntimeError ==>
              thrown.kind == RuntimeError && CreateErrorPrefix <= thrown.what
              && thrown.what[|CreateErrorPrefix|..] == algName + " " + e.what
    ensures e.kind == OtherError ==> thrown == e
  {
    match e.kind
      case RuntimeError => Exception(RuntimeError, CreateErrorMessage(algName, e.what))
      case OtherError => e
  }

  class AlgorithmManager {
    /** Created algorithms, oldest first (`m_managed_algs`). */
    var managed: seq<Algorithm>
    /** The retention limit (`m_max_no_algs`). */
    var maxNoAlgs: int
    /** AlgorithmStarting notifications posted so far, oldest first. */
    var posted: seq<Algorithm>

    ghost predicate Valid()
      reads this
    {
      maxNoAlgs >= 1
    }

    /** The constructor reads "algorithms.retained" (`configured`, None when missing). */
    constructor (configured: Option<int>)
      ensures Valid()
      ensures maxNoAlgs == RetainedLimit(configured)
      ensures managed == [] && posted == []
    {
      maxNoAlgs := RetainedLimit(configured);
      managed := [];
      posted := [];
    }

    /** `create`: `created` is what the factory returned or threw, `initError`
        what `initialize()` threw, if anything; `isRunning` answers for each
        queued algorithm at the time of trimming. */
    method Create(algName: string, created: Result<Algorithm, Exception>, initError: Option<Exception>,
                  isRunning: Algorithm -> bool)
      returns (r: Result<Algorithm, Exception>)
      requires Valid()
      modifies this`managed
      ensures Valid()
      ensures created.Failure? ==>
                r == Failure(Propagated(algName, created.error)) && managed == old(managed)
      ensures created.Success? && initError.Some? ==>
                r == Failure(Propagated(algName, initError.value))
                && managed == old(managed) + [created.value]
      ensures created.Success? && initError.None? ==>
                r == Success(created.value)
                && managed == Evicted(old(managed) + [created.value], maxNoAlgs, isRunning)
      ensures created.Success? && initError.None? ==>
                managed != [] && managed[|managed| - 1] == created.value
    {
      if created.Failure? {
        return Failure(Propagated(algName, created.error));
      }
      var alg := created.value;
      managed := managed + [alg];
      if initError.Some? {
        return Failure(Propagated(algName, initError.value));
      }
      ghost var queued := managed;
      while |managed| > maxNoAlgs
        invariant Evicted(managed, maxNoAlgs, isRunning) == Evicted(queued, maxNoAlgs, isRunning)
        decreases |managed|
      {
        if !isRunning(managed[0]) {
          managed := managed[1..];
        } else {
          break;
        }
      }
      EvictedKeepsNewest(queued, maxNoAlgs, isRunning);
      r := Success(alg);
    }

    /** `clear`: forget every managed algorithm. */
    method Clear()
      modifies this`managed
      ensures managed == []
    {
      managed := [];
    }

    /** `getAlgorithm`: the first managed algorithm with this id, or null. */
    method GetAlgorithm(id: AlgorithmId) returns (r: Option<Algorithm>)
      ensures r == Lookup(managed, id)
    {
      var i := 0;
      while i < |managed|
        invariant 0 <= i <= |managed|
        invariant forall j :: 0 <= j < i ==> managed[j].id != id
        invariant Lookup(managed, id) == Lookup(managed[i..], id)
      {
        if managed[i].id == id {
          return Some(managed[i]);
        }
        assert managed[i..][1..] == managed[i + 1..];
        i := i + 1;
      }
      r := None;
    }

    /** `getNamesAndCategories`: one (name, category) pair per managed algorithm, in order. */
    method GetNamesAndCategories() returns (r: seq<(string, string)>)
      ensures |r| == |managed|
      ensures forall i :: 0 <= i < |r| ==> r[i] == (managed[i].name, managed[i].category)
    {
      r := [];
      var i := 0;
      while i < |managed|
        invariant 0 <= i <= |managed|
        invariant |r| == i
        invariant forall j :: 0 <= j < i ==> r[j] == (managed[j].name, managed[j].category)
      {
        r := r + [(managed[i].name, managed[i].category)];
        i := i + 1;
      }
    }

    /** `notifyAlgorithmStarting`: post a notification for a managed algorithm;
        an id that is not managed posts nothing. */
    method NotifyAlgorithmStarting(id: AlgorithmId)
      modifies this`posted
      ensures Lookup(managed, id).None? ==> posted == old(posted)
      ensures Lookup(managed, id).Some? ==> posted == old(posted) + [Lookup(managed, id).value]
    {
      var alg := GetAlgorithm(id);
      if alg.None? {
        return;
      }
      posted := posted + [alg.value];
    }
  }
}
