/** Crystallographic point groups (Code/Mantid/Framework/Geometry/src/Crystal/PointGroup.cpp).

    A point group stores symmetry operations and the transformation matrices
    they generate; the reflections equivalent to an hkl are the images of hkl
    under those matrices. Here an hkl is an integer triple (the source uses a
    floating-point V3D holding integral values) and a matrix is a 3x3 integer
    matrix. The order of V3D is not part of this model; it is taken to be
    lexicographic on (h, k, l). A symmetry operation is its matrix and its
    order, and applying it to a matrix multiplies from the left. */
module PointGroups {

  datatype HKL = HKL(h: int, k: int, l: int)

  function Negated(v: HKL): HKL
  {
    HKL(-v.h, -v.k, -v.l)
  }

  /** The ordering of hkls: lexicographic on (h, k, l). */
  predicate Less(a: HKL, b: HKL)
  {
    a.h < b.h || (a.h == b.h && (a.k < b.k || (a.k == b.k && a.l < b.l)))
  }

  predicate LessEq(a: HKL, b: HKL)
  {
    a == b || Less(a, b)
  }

  /** `Less` is a strict total order, so a finite set of hkls has one greatest element. */
  lemma LessIsStrictTotalOrder(a: HKL, b: HKL, c: HKL)
    ensures !Less(a, a)
    ensures Less(a, b) && Less(b, c) ==> Less(a, c)
    ensures a == b || Less(a, b) || Less(b, a)
    ensures !(Less(a, b) && Less(b, a))
  {
  }

  ghost predicate IsGreatest(m: HKL, s: set<HKL>)
  {
    m in s && forall y :: y in s ==> LessEq(y, m)
  }

  lemma {:induction false} SetHasGreatest(s: set<HKL>)
    requires s != {}
    ensures exists m :: IsGreatest(m, s)
    decreases |s|
  {
    var x :| x in s;
    var rest := s - {x};
    if rest == {} {
      assert s == {x};
      assert IsGreatest(x, s);
    } else {
      SetHasGreatest(rest);
      var m :| IsGreatest(m, rest);
      if Less(m, x) {
        forall y | y in s ensures LessEq(y, x) {
          if y != x {
            assert y in rest;
            LessIsStrictTotalOrder(y, m, x);
          }
        }
        assert IsGreatest(x, s);
      } else {
        LessIsStrictTotalOrder(x, m, m);
        assert IsGreatest(m, s);
      }
    }
  }

  lemma GreatestUnique(s: set<HKL>, m1: HKL, m2: HKL)
    requires IsGreatest(m1, s) && IsGreatest(m2, s)
    ensures m1 == m2
  {
  }

  /** The greatest element of a non-empty set (what `std::set::rbegin` points to). */
  ghost function Greatest(s: set<HKL>): (m: HKL)
    requires s != {}
    ensures IsGreatest(m, s)
  {
    SetHasGreatest(s);
    var m :| IsGreatest(m, s); m
  }

  datatype Matrix = Matrix(m11: int, m12: int, m13: int,
                           m21: int, m22: int, m23: int,
                           m31: int, m32: int, m33: int)

  function Identity(): Matrix
  {
    Matrix(1, 0, 0, 0, 1, 0, 0, 0, 1)
  }

  function Mul(a: Matrix, b: Matrix): Matrix
  {
    Matrix(a.m11 * b.m11 + a.m12 * b.m21 + a.m13 * b.m31,
           a.m11 * b.m12 + a.m12 * b.m22 + a.m13 * b.m32,
           a.m11 * b.m13 + a.m12 * b.m23 + a.m13 * b.m33,
           a.m21 * b.m11 + a.m22 * b.m21 + a.m23 * b.m31,
           a.m21 * b.m12 + a.m22 * b.m22 + a.m23 * b.m32,
           a.m21 * b.m13 + a.m22 * b.m23 + a.m23 * b.m33,
           a.m31 * b.m11 + a.m32 * b.m21 + a.m33 * b.m31,
           a.m31 * b.m12 + a.m32 * b.m22 + a.m33 * b.m32,
           a.m31 * b.m13 + a.m32 * b.m23 + a.m33 * b.m33)
  }

  /** The matrix times the hkl as a column vector. */
  function Apply(m: Matrix, v: HKL): HKL
  {
    HKL(m.m11 * v.h + m.m12 * v.k + m.m13 * v.l,
        m.m21 * v.h + m.m22 * v.k + m.m23 * v.l,
        m.m31 * v.h + m.m32 * v.k + m.m33 * v.l)
  }

  /** One entry of (A B) v equals the same entry of A (B v). */
  lemma RowTimesProduct(a1: int, a2: int, a3: int,
                        b11: int, b12: int, b13: int,
                        b21: int, b22: int, b23: int,
                        b31: int, b32: int, b33: int,
                        x: int, y: int, z: int)
    ensures (a1 * b11 + a2 * b21 + a3 * b31) * x
          + (a1 * b12 + a2 * b22 + a3 * b32) * y
          + (a1 * b13 + a2 * b23 + a3 * b33) * z
         == a1 * (b11 * x + b12 * y + b13 * z)
          + a2 * (b21 * x + b22 * y + b23 * z)
          + a3 * (b31 * x + b32 * y + b33 * z)
  {
  }

  /** Applying a product is applying its factors in turn. */
  lemma ApplyMul(a: Matrix, b: Matrix, v: HKL)
    ensures Apply(Mul(a, b), v) == Apply(a, Apply(b, v))
  {
    RowTimesProduct(a.m11, a.m12, a.m13, b.m11, b.m12, b.m13, b.m21, b.m22, b.m23,
                    b.m31, b.m32, b.m33, v.h, v.k, v.l);
    RowTimesProduct(a.m21, a.m22, a.m23, b.m11, b.m12, b.m13, b.m21, b.m22, b.m23,
                    b.m31, b.m32, b.m33, v.h, v.k, v.l);
    RowTimesProduct(a.m31, a.m32, a.m33, b.m11, b.m12, b.m13, b.m21, b.m22, b.m23,
                    b.m31, b.m32, b.m33, v.h, v.k, v.l);
  }

  lemma ApplyIdentity(v: HKL)
    ensures Apply(Identity(), v) == v
  {
  }

  /** The order of a symmetry operation: applying it that many times gives the identity. */
  type Order = n: nat | n >= 1 witness 1

  datatype SymmetryOperation = SymmetryOperation(matrix: Matrix, order: Order)

  /** `SymmetryOperation::apply` on a matrix, assumed to multiply from the left
      (the implementation of `apply` is not part of this model). */
  function ApplyOperation(op: SymmetryOperation, m: Matrix): Matrix
  {
    Mul(op.matrix, m)
  }

  /** `m` with the operation applied `times` times. */
  function Iterate(op: SymmetryOperation, m: Matrix, times: nat): Matrix
    decreases times
  {
    if times == 0 then m else ApplyOperation(op, Iterate(op, m, times - 1))
  }

  /** The `count` matrices one obtains from `m` by applying the operation 1, 2, ..., count times. */
  function Powers(op: SymmetryOperation, m: Matrix, count: nat): (ps: seq<Matrix>)
    ensures |ps| == count
    ensures forall j :: 0 <= j < count ==> ps[j] == Iterate(op, m, j + 1)
    decreases count
  {
    if count == 0 then [] else Powers(op, m, count - 1) + [Iterate(op, m, count)]
  }

  /** What one operation adds: for each existing matrix, in order, its order - 1 successive images. */
  function Expansion(ms: seq<Matrix>, op: SymmetryOperation): (added: seq<Matrix>)
    ensures |added| == |ms| * (op.order - 1)
    decreases |ms|
  {
    if ms == [] then []
    else
      var init := ms[..|ms| - 1];
      assert |ms| * (op.order - 1) == |init| * (op.order - 1) + (op.order - 1);
      Expansion(init, op) + Powers(op, ms[|ms| - 1], op.order - 1)
  }

  /** The matrices generated from the identity by the operations in turn
      (International Tables for Crystallography Vol. A, 2006, Table 10.1.2.2). */
  function Generated(ops: seq<SymmetryOperation>): seq<Matrix>
    decreases |ops|
  {
    if ops == [] then [Identity()]
    else
      var before := Generated(ops[..|ops| - 1]);
      before + Expansion(before, ops[|ops| - 1])
  }

  /** The product of the operations' orders. */
  function OrderProduct(ops: seq<SymmetryOperation>): nat
    decreases |ops|
  {
    if ops == [] then 1 else OrderProduct(ops[..|ops| - 1]) * ops[|ops| - 1].order
  }

  /** Each operation multiplies the number of matrices by its order. */
  lemma {:induction false} GeneratedSize(ops: seq<SymmetryOperation>)
    ensures |Generated(ops)| == OrderProduct(ops)
    decreases |ops|
  {
    if ops != [] {
      var before := Generated(ops[..|ops| - 1]);
      var o := ops[|ops| - 1].order;
      GeneratedSize(ops[..|ops| - 1]);
      assert |Generated(ops)| == |before| + |Expansion(before, ops[|ops| - 1])|;
      GrowByFactor(|before|, o);
    }
  }

  lemma GrowByFactor(size: nat, o: Order)
    ensures size + size * (o - 1) == size * o
  {
  }

  /** The matrices generated by a prefix of the operations stay, unchanged, at the front. */
  lemma {:induction false} GeneratedPrefix(ops: seq<SymmetryOperation>, i: nat)
    requires i <= |ops|
    ensures Generated(ops[..i]) <= Generated(ops)
    decreases |ops|
  {
    if i < |ops| {
      GeneratedPrefix(ops[..|ops| - 1], i);
      assert ops[..|ops| - 1][..i] == ops[..i];
    } else {
      assert ops[..i] == ops;
    }
  }

  /** The first generated matrix is the identity, whatever the operations. */
  lemma GeneratedStartsWithIdentity(ops: seq<SymmetryOperation>)
    ensures Generated(ops) != [] && Generated(ops)[0] == Identity()
  {
    GeneratedPrefix(ops, 0);
    assert ops[..0] == [];
  }

  /** A set of matrices that holds the identity and is closed under every operation
      holds every generated matrix: generation never leaves the point group. */
  lemma {:induction false} GeneratedWithin(ops: seq<SymmetryOperation>, group: set<Matrix>)
    requires Identity() in group
    requires forall op, m :: op in ops && m in group ==> ApplyOperation(op, m) in group
    ensures forall m :: m in Generated(ops) ==> m in group
    decreases |ops|
  {
    if ops != [] {
      var init := ops[..|ops| - 1];
      var op := ops[|ops| - 1];
      assert forall o :: o in init ==> o in ops;
      GeneratedWithin(init, group);
      ExpansionWithin(Generated(init), op, group);
    }
  }

  lemma {:induction false} ExpansionWithin(ms: seq<Matrix>, op: SymmetryOperation, group: set<Matrix>)
    requires forall m :: m in ms ==> m in group
    requires forall m :: m in group ==> ApplyOperation(op, m) in group
    ensures forall m :: m in Expansion(ms, op) ==> m in group
    decreases |ms|
  {
    if ms != [] {
      ExpansionWithin(ms[..|ms| - 1], op, group);
      var last := ms[|ms| - 1];
      forall j | 0 <= j <= op.order - 1
        ensures Iterate(op, last, j) in group
      {
        IterateWithin(op, last, j, group);
      }
    }
  }

  lemma {:induction false} IterateWithin(op: SymmetryOperation, m: Matrix, times: nat, group: set<Matrix>)
    requires m in group
    requires forall x :: x in group ==> ApplyOperation(op, x) in group
    ensures Iterate(op, m, times) in group
    decreases times
  {
    if times > 0 {
      IterateWithin(op, m, times - 1, group);
    }
  }

  /** The images of `m` under 1, 2, ..., order - 1 applications of the operation. */
  method SuccessiveImages(op: SymmetryOperation, m: Matrix) returns (images: seq<Matrix>)
    ensures images == Powers(op, m, op.order - 1)
  {
    images := [];
    var transformed := m;
    var i := 0;
    while i < op.order - 1
      invariant 0 <= i <= op.order - 1
      invariant transformed == Iterate(op, m, i)
      invariant images == Powers(op, m, i)
    {
      transformed := ApplyOperation(op, transformed);
      images := images + [transformed];
      i := i + 1;
    }
  }

  /** The middle loop of `generateTransformationMatrices`: each matrix present before
      the operation appends its successive images. */
  method AppendExpansion(op: SymmetryOperation, current: seq<Matrix>) returns (matrices: seq<Matrix>)
    ensures matrices == current + Expansion(current, op)
  {
    matrices := current;
    var c := 0;
    while c < |current|
      invariant 0 <= c <= |current|
      invariant matrices == current + Expansion(current[..c], op)
    {
      var images := SuccessiveImages(op, current[c]);
      matrices := matrices + images;
      assert current[..c + 1][..c] == current[..c];
      c := c + 1;
    }
    assert current[..c] == current;
  }

  /** `generateTransformationMatrices`: starting from the identity, each operation
      appends, for every matrix present before it, that matrix's successive images. */
  method GenerateTransformationMatrices(ops: seq<SymmetryOperation>) returns (matrices: seq<Matrix>)
    ensures matrices == Generated(ops)
    ensures |matrices| == OrderProduct(ops)
    ensures matrices != [] && matrices[0] == Identity()
  {
    matrices := [Identity()];
    var n := 0;
    while n < |ops|
      invariant 0 <= n <= |ops|
      invariant matrices == Generated(ops[..n])
    {
      matrices := AppendExpansion(ops[n], matrices);
      assert ops[..n + 1][..n] == ops[..n];
      n := n + 1;
    }
    assert ops[..n] == ops;
    GeneratedSize(ops);
    GeneratedStartsWithIdentity(ops);
  }

  /** The reflections equivalent to `hkl`: hkl itself and its image under each matrix. */
  function EquivalentSet(matrices: seq<Matrix>, hkl: HKL): (s: set<HKL>)
    ensures hkl in s
  {
    {hkl} + set m | m in matrices :: Apply(m, hkl)
  }

  /** For each matrix, in order, its image of `hkl`. */
  function ImagesOf(matrices: seq<Matrix>, hkl: HKL): (images: seq<HKL>)
    ensures |images| == |matrices|
    ensures forall i :: 0 <= i < |matrices| ==> images[i] == Apply(matrices[i], hkl)
  {
    seq(|matrices|, i requires 0 <= i < |matrices| => Apply(matrices[i], hkl))
  }

  lemma ImagesOfConcat(xs: seq<Matrix>, ys: seq<Matrix>, hkl: HKL)
    ensures ImagesOf(xs + ys, hkl) == ImagesOf(xs, hkl) + ImagesOf(ys, hkl)
  {
  }

  /** The equivalent set holds hkl and exactly the images of hkl. */
  lemma EquivalentSetIsImages(matrices: seq<Matrix>, hkl: HKL, x: HKL)
    ensures x in EquivalentSet(matrices, hkl) <==> x == hkl || x in ImagesOf(matrices, hkl)
  {
    if x in ImagesOf(matrices, hkl) {
      var i :| 0 <= i < |matrices| && ImagesOf(matrices, hkl)[i] == x;
      assert matrices[i] in matrices;
    }
    if x in EquivalentSet(matrices, hkl) && x != hkl {
      var m :| m in matrices && x == Apply(m, hkl);
      var i :| 0 <= i < |matrices| && matrices[i] == m;
      assert ImagesOf(matrices, hkl)[i] == x;
    }
  }

  ghost predicate ClosedUnderProduct(matrices: seq<Matrix>)
  {
    forall a, b :: a in matrices && b in matrices ==> Mul(a, b) in matrices
  }

  /** `inverse` picks, for every stored matrix, a stored matrix that undoes it. */
  ghost predicate HasInverses(matrices: seq<Matrix>, inverse: Matrix -> Matrix)
  {
    forall a :: a in matrices ==> inverse(a) in matrices && Mul(inverse(a), a) == Identity()
  }

  /** The matrices form a group: identity, products and inverses stay in the list. */
  ghost predicate IsGroup(matrices: seq<Matrix>, inverse: Matrix -> Matrix)
  {
    Identity() in matrices && ClosedUnderProduct(matrices) && HasInverses(matrices, inverse)
  }

  /** Some stored matrix maps `a` to each member of its equivalent set. */
  lemma ImageWitness(matrices: seq<Matrix>, a: HKL, b: HKL) returns (m: Matrix)
    requires Identity() in matrices
    requires b in EquivalentSet(matrices, a)
    ensures m in matrices && b == Apply(m, a)
  {
    if b == a {
      ApplyIdentity(a);
      m := Identity();
    } else {
      m :| m in matrices && b == Apply(m, a);
    }
  }

  lemma InverseUndoes(inv: Matrix, m: Matrix, a: HKL)
    requires Mul(inv, m) == Identity()
    ensures Apply(inv, Apply(m, a)) == a
  {
    ApplyMul(inv, m, a);
    ApplyIdentity(a);
  }

  /** Under closure, the equivalents of an equivalent are equivalents. */
  lemma EquivalentSetShrinks(matrices: seq<Matrix>, a: HKL, b: HKL, m: Matrix)
    requires ClosedUnderProduct(matrices)
    requires m in matrices && b == Apply(m, a)
    ensures EquivalentSet(matrices, b) <= EquivalentSet(matrices, a)
  {
    forall x | x in EquivalentSet(matrices, b)
      ensures x in EquivalentSet(matrices, a)
    {
      if x != b {
        var n :| n in matrices && x == Apply(n, b);
        ApplyMul(n, m, a);
        assert Mul(n, m) in matrices;
      }
    }
  }

  /** For a group, equivalence is an equivalence relation: every member of a
      family has the same equivalent set. */
  lemma EquivalentSetOfEquivalent(matrices: seq<Matrix>, inverse: Matrix -> Matrix, a: HKL, b: HKL)
    requires IsGroup(matrices, inverse)
    requires b in EquivalentSet(matrices, a)
    ensures EquivalentSet(matrices, b) == EquivalentSet(matrices, a)
  {
    var m := ImageWitness(matrices, a, b);
    EquivalentSetShrinks(matrices, a, b, m);
    InverseUndoes(inverse(m), m, a);
    EquivalentSetShrinks(matrices, b, a, inverse(m));
  }

  /** Strictly decreasing in the hkl order, hence without repetitions. */
  predicate StrictlyDescending(r: seq<HKL>)
  {
    forall i, j :: 0 <= i < j < |r| ==> Less(r[j], r[i])
  }

  /** The greatest element of a non-empty set, found by a scan. */
  method GreatestOf(s: set<HKL>) returns (m: HKL)
    requires s != {}
    ensures m == Greatest(s)
  {
    var rest := s;
    m :| m in rest;
    rest := rest - {m};
    while rest != {}
      invariant rest <= s && m in s
      invariant forall y :: y in s && y !in rest ==> LessEq(y, m)
      decreases |rest|
    {
      var x :| x in rest;
      if Less(m, x) {
        m := x;
      }
      rest := rest - {x};
    }
    GreatestUnique(s, m, Greatest(s));
  }

  class PointGroup {
    var symmetryOperations: seq<SymmetryOperation>
    var transformationMatrices: seq<Matrix>
    /** The Hermann-Mauguin symbol. */
    const symbolHM: string

    constructor (symbol: string)
      ensures symbolHM == symbol
      ensures symmetryOperations == [] && transformationMatrices == []
    {
      symbolHM := symbol;
      symmetryOperations := [];
      transformationMatrices := [];
    }

    /** `getSymbol`. */
    function GetSymbol(): (symbol: string)
    {
      symbolHM
    }

    /** `addSymmetryOperation`. */
    method AddSymmetryOperation(op: SymmetryOperation)
      modifies this`symmetryOperations
      ensures symmetryOperations == old(symmetryOperations) + [op]
    {
      symmetryOperations := symmetryOperations + [op];
    }

    /** `setTransformationMatrices`. */
    method SetTransformationMatrices(matrices: seq<Matrix>)
      modifies this`transformationMatrices
      ensures transformationMatrices == matrices
    {
      transformationMatrices := matrices;
    }

    /** The `init` of every Laue class: add its generating operations, then store
        the matrices they generate. */
    method Init(ops: seq<SymmetryOperation>)
      modifies this
      ensures symmetryOperations == old(symmetryOperations) + ops
      ensures transformationMatrices == Generated(symmetryOperations)
      ensures |transformationMatrices| == OrderProduct(symmetryOperations)
    {
      var i := 0;
      while i < |ops|
        invariant 0 <= i <= |ops|
        invariant symmetryOperations == old(symmetryOperations) + ops[..i]
      {
        AddSymmetryOperation(ops[i]);
        assert ops[..i + 1] == ops[..i] + [ops[i]];
        i := i + 1;
      }
      assert ops[..i] == ops;
      var matrices := GenerateTransformationMatrices(symmetryOperations);
      SetTransformationMatrices(matrices);
    }

    /** `getEquivalentSet`. */
    method GetEquivalentSet(hkl: HKL) returns (equivalents: set<HKL>)
      ensures equivalents == EquivalentSet(transformationMatrices, hkl)
      ensures hkl in equivalents
    {
      equivalents := {hkl};
      var i := 0;
      while i < |transformationMatrices|
        invariant 0 <= i <= |transformationMatrices|
        invariant equivalents == {hkl} + set m | m in transformationMatrices[..i] :: Apply(m, hkl)
      {
        assert transformationMatrices[..i + 1] == transformationMatrices[..i] + [transformationMatrices[i]];
        equivalents := equivalents + {Apply(transformationMatrices[i], hkl)};
        i := i + 1;
      }
      assert transformationMatrices[..i] == transformationMatrices;
    }

    /** `getReflectionFamily`: the greatest member of the equivalent set. */
    method GetReflectionFamily(hkl: HKL) returns (family: HKL)
      ensures family == Greatest(EquivalentSet(transformationMatrices, hkl))
      ensures family in EquivalentSet(transformationMatrices, hkl)
      ensures forall y :: y in EquivalentSet(transformationMatrices, hkl) ==> LessEq(y, family)
    {
      var equivalents := GetEquivalentSet(hkl);
      family := GreatestOf(equivalents);
    }

    /** `getEquivalents`: the equivalent set from the greatest element down. */
    method GetEquivalents(hkl: HKL) returns (r: seq<HKL>)
      ensures forall x :: x in r <==> x in EquivalentSet(transformationMatrices, hkl)
      ensures |r| == |EquivalentSet(transformationMatrices, hkl)|
      ensures StrictlyDescending(r)
      ensures r != [] && r[0] == Greatest(EquivalentSet(transformationMatrices, hkl))
    {
      var equivalents := GetEquivalentSet(hkl);
      var rest := equivalents;
      r := [];
      while rest != {}
        invariant rest <= equivalents
        invariant forall x :: x in r <==> x in equivalents && x !in rest
        invariant |r| + |rest| == |equivalents|
        invariant StrictlyDescending(r)
        invariant forall x, i :: x in rest && 0 <= i < |r| ==> Less(x, r[i])
        invariant r != [] ==> r[0] == Greatest(equivalents)
        decreases |rest|
      {
        var m := GreatestOf(rest);
        if r == [] {
          GreatestUnique(equivalents, m, Greatest(equivalents));
        }
        r := r + [m];
        rest := rest - {m};
      }
    }
  }

  /** Two hkls of one family get the same reflection family when the stored
      matrices form a group. */
  lemma SameFamily(matrices: seq<Matrix>, inverse: Matrix -> Matrix, a: HKL, b: HKL)
    requires IsGroup(matrices, inverse)
    requires b in EquivalentSet(matrices, a)
    ensures Greatest(EquivalentSet(matrices, b)) == Greatest(EquivalentSet(matrices, a))
  {
    EquivalentSetOfEquivalent(matrices, inverse, a, b);
  }
}
