/** Round-robin assignment of spectrum numbers to partitions
    (Framework/Indexing/inc/MantidIndexing/RoundRobinPartitioning.h).

    The partition index is the C++ remainder `spectrumNumber % partitions`,
    which truncates toward zero; Dafny's `%` is Euclidean, so the C++ operator is
    written out as `CppRem`. Spectrum numbers are 32-bit in the source and are
    widened to 64 bits before the remainder, so no overflow can occur and
    unbounded integers model them exactly. */
module RoundRobin {
  import opened Wrappers

  datatype RoundRobinPartitioning = RoundRobinPartitioning(partitions: int)
  {
    /** Every object that the constructor lets through has at least one partition. */
    predicate Valid() { partitions >= 1 }
  }

  const TooFewPartitionsMessage := "RoundRobinPartitioning: There must be at least 1 partition"

  function Abs(x: int): nat { if x < 0 then -x else x }

  /** C++ integer division: the quotient truncated toward zero. */
  function CppDiv(a: int, n: int): int
    requires n != 0
  {
    var q := Abs(a) / Abs(n);
    if (a >= 0) == (n > 0) then q else -q
  }

  /** C++ integer remainder: it takes the sign of the dividend. */
  function CppRem(a: int, n: int): (r: int)
    requires n != 0
    ensures Abs(r) < Abs(n)
    ensures a >= 0 ==> r >= 0
    ensures a <= 0 ==> r <= 0
  {
    var r := Abs(a) % Abs(n);
    if a >= 0 then r else -r
  }

  /** The identity the C++ standard requires of `/` and `%`: (a/n)*n + a%n == a. */
  lemma CppDivisionIdentity(a: int, n: int)
    requires n != 0
    ensures CppDiv(a, n) * n + CppRem(a, n) == a
  {
    var q, r := Abs(a) / Abs(n), Abs(a) % Abs(n);
    var p := q * Abs(n);
    assert Abs(a) == p + r;
    if n > 0 {
      assert CppDiv(a, n) * n == (if a >= 0 then p else -p);
    } else {
      assert q * n == -p;
      assert CppDiv(a, n) * n == (if a >= 0 then p else -p);
    }
  }

  /** Euclidean division has a unique quotient and remainder. */
  lemma EuclideanUnique(a: int, n: int, q: int, r: int)
    requires n > 0 && 0 <= r < n && a == q * n + r
    ensures q == a / n && r == a % n
  {
    var q', r' := a / n, a % n;
    assert (q - q') * n == r' - r;
    if q - q' >= 1 {
      assert false;
    } else if q - q' <= -1 {
      assert false;
    }
  }

  /** Any quotient/remainder pair with the C++ sign rule is the one `CppRem` gives. */
  lemma CppRemUnique(a: int, n: int, q: int, r: int)
    requires n > 0
    requires a == q * n + r
    requires Abs(r) < n
    requires a >= 0 ==> r >= 0
    requires a < 0 ==> r <= 0
    ensures r == CppRem(a, n)
  {
    if a >= 0 {
      EuclideanUnique(a, n, q, r);
    } else {
      assert -a == (-q) * n + (-r);
      EuclideanUnique(-a, n, -q, -r);
    }
  }

  /** The constructor: throws logic_error unless there is at least one partition. */
  function Create(numberOfPartitions: int): (r: Result<RoundRobinPartitioning, string>)
    ensures r.Success? <==> numberOfPartitions >= 1
    ensures r.Success? ==> r.value.Valid() && r.value.partitions == numberOfPartitions
    ensures r.Failure? ==> r.error == TooFewPartitionsMessage
  {
    if numberOfPartitions < 1 then Failure(TooFewPartitionsMessage)
    else Success(RoundRobinPartitioning(numberOfPartitions))
  }

  function NumberOfPartitions(p: RoundRobinPartitioning): int
  {
    p.partitions
  }

  /** The partition a spectrum number belongs to. */
  function IndexOf(p: RoundRobinPartitioning, spectrumNumber: int): (index: int)
    requires p.Valid()
    ensures spectrumNumber >= 0 ==> 0 <= index < NumberOfPartitions(p)
    ensures spectrumNumber < 0 ==> -NumberOfPartitions(p) < index <= 0
  {
    CppRem(spectrumNumber, p.partitions)
  }

  /** The number of partitions reported is the one given to the constructor. */
  lemma NumberOfPartitionsIsConstructorArgument(n: int)
    requires n >= 1
    ensures Create(n).Success? && NumberOfPartitions(Create(n).value) == n
  {
  }

  /** `s` and `s + n` land in the same partition (for non-negative `s`). */
  lemma IndexOfPeriodic(p: RoundRobinPartitioning, s: int)
    requires p.Valid() && s >= 0
    ensures IndexOf(p, s + p.partitions) == IndexOf(p, s)
  {
    var n := p.partitions;
    var q, r := s / n, s % n;
    assert s + n == (q + 1) * n + r;
    CppRemUnique(s + n, n, q + 1, r);
  }

  /** Consecutive non-negative spectrum numbers cycle through 0, 1, ..., n-1, 0, ... */
  lemma IndexOfCycles(p: RoundRobinPartitioning, s: int)
    requires p.Valid() && s >= 0
    ensures IndexOf(p, s + 1) == if IndexOf(p, s) == p.partitions - 1 then 0 else IndexOf(p, s) + 1
  {
    var n := p.partitions;
    var q, r := s / n, s % n;
    if r == n - 1 {
      assert s + 1 == (q + 1) * n + 0;
      CppRemUnique(s + 1, n, q + 1, 0);
    } else {
      assert s + 1 == q * n + (r + 1);
      CppRemUnique(s + 1, n, q, r + 1);
    }
  }

  /** With a single partition every spectrum number, negative ones included, maps to 0. */
  lemma SinglePartition(p: RoundRobinPartitioning, s: int)
    requires p.partitions == 1
    ensures IndexOf(p, s) == 0
  {
  }

  /** Truncation makes the index odd in the spectrum number: -s maps to minus the index of s. */
  lemma IndexOfNegated(p: RoundRobinPartitioning, s: int)
    requires p.Valid()
    ensures IndexOf(p, -s) == -IndexOf(p, s)
  {
  }
}
