/** The thirteen Laue classes (Code/Mantid/Framework/Geometry/src/Crystal/PointGroup.cpp,
    `PointGroupLaue1` to `PointGroupLaue13`).

    Each class has a Hermann-Mauguin symbol, a name, a crystal system, a
    closed-form `isEquivalent` predicate listing the hkls equivalent to a given
    one, and an `init` that adds generating symmetry operations named by symbol.
    The matrices behind those symbols come from the symmetry operation factory,
    which is not part of this model: `Realises` states, as a hypothesis, how an
    operation acts on an hkl, with the action each symbol has in the tables. */
module LaueClasses {
  import opened PointGroups

  datatype LaueClass =
    Laue1 | Laue2 | Laue3 | Laue4 | Laue5 | Laue6 | Laue7 | Laue8 | Laue9 | Laue10 | Laue11 | Laue12 | Laue13

  datatype CrystalSystem = Triclinic | Monoclinic | Orthorhombic | Tetragonal | Trigonal | Hexagonal | Cubic

  /** The Hermann-Mauguin symbol each class passes to the `PointGroup` constructor. */
  function Symbol(c: LaueClass): string
  {
    match c
      case Laue1 => "-1"
      case Laue2 => "2/m"
      case Laue3 => "112/m"
      case Laue4 => "mmm"
      case Laue5 => "4/m"
      case Laue6 => "4/mmm"
      case Laue7 => "-3"
      case Laue8 => "-3m1"
      case Laue9 => "-31m"
      case Laue10 => "6/m"
      case Laue11 => "6/mmm"
      case Laue12 => "m-3"
      case Laue13 => "m-3m"
  }

  /** `getName`. */
  function Name(c: LaueClass): string
  {
    match c
      case Laue1 => "-1 (Triclinic)"
      case Laue2 => "1 2/m 1 (Monoclinic, unique axis b)"
      case Laue3 => "1 1 2/m (Monoclinic, unique axis c)"
      case Laue4 => "mmm (Orthorombic)"
      case Laue5 => "4/m (Tetragonal)"
      case Laue6 => "4/mmm (Tetragonal)"
      case Laue7 => "-3 (Trigonal - Hexagonal)"
      case Laue8 => "-3m1 (Trigonal - Rhombohedral)"
      case Laue9 => "-31m (Trigonal - Rhombohedral)"
      case Laue10 => "6/m (Hexagonal)"
      case Laue11 => "6/mmm (Hexagonal)"
      case Laue12 => "m-3 (Cubic)"
      case Laue13 => "m-3m (Cubic)"
  }

  /** `crystalSystem`. */
  function System(c: LaueClass): CrystalSystem
  {
    match c
      case Laue1 => Triclinic
      case Laue2 | Laue3 => Monoclinic
      case Laue4 => Orthorhombic
      case Laue5 | Laue6 => Tetragonal
      case Laue7 | Laue8 | Laue9 => Trigonal
      case Laue10 | Laue11 => Hexagonal
      case Laue12 | Laue13 => Cubic
  }

  /** Different classes carry different symbols, so a symbol identifies its class. */
  lemma SymbolsDistinct(c1: LaueClass, c2: LaueClass)
    requires c1 != c2
    ensures Symbol(c1) != Symbol(c2)
  {
  }

  /** `PointGroupLaue1::isEquivalent`. */
  predicate Laue1Equivalent(hkl: HKL, hkl2: HKL)
  {
    var h, k, l := hkl.h, hkl.k, hkl.l;
    (hkl2.h == h && hkl2.k == k && hkl2.l == l)
    || (hkl2.h == -h && hkl2.k == -k && hkl2.l == -l)
  }

  /** `PointGroupLaue2::isEquivalent`. */
  predicate Laue2Equivalent(hkl: HKL, hkl2: HKL)
  {
    var h, k, l := hkl.h, hkl.k, hkl.l;
    (hkl2.h == h && hkl2.k == k && hkl2.l == l)
    || (hkl2.h == -h && hkl2.k == -k && hkl2.l == -l)
    || (hkl2.h == -h && hkl2.k == k && hkl2.l == -l)
    || (hkl2.h == h && hkl2.k == -k && hkl2.l == l)
  }

  /** `PointGroupLaue3::isEquivalent`. */
  predicate Laue3Equivalent(hkl: HKL, hkl2: HKL)
  {
    var h, k, l := hkl.h, hkl.k, hkl.l;
    (hkl2.h == h && hkl2.k == k && hkl2.l == l)
    || (hkl2.h == -h && hkl2.k == -k && hkl2.l == l)
    || (hkl2.h == -h && hkl2.k == -k && hkl2.l == -l)
    || (hkl2.h == h && hkl2.k == k && hkl2.l == -l)
  }

  /** `PointGroupLaue4::isEquivalent`. */
  predicate Laue4Equivalent(hkl: HKL, hkl2: HKL)
  {
    var h, k, l := hkl.h, hkl.k, hkl.l;
    (hkl2.h == h && hkl2.k == k && hkl2.l == l)
    || (hkl2.h == -h && hkl2.k == -k && hkl2.l == l)
    || (hkl2.h == -h && hkl2.k == k && hkl2.l == -l)
    || (hkl2.h == h && hkl2.k == -k && hkl2.l == -l)
    || (hkl2.h == -h && hkl2.k == -k && hkl2.l == -l)
    || (hkl2.h == h && hkl2.k == k && hkl2.l == -l)
    || (hkl2.h == h && hkl2.k == -k && hkl2.l == l)
    || (hkl2.h == -h && hkl2.k == k && hkl2.l == l)
  }

  /** `PointGroupLaue5::isEquivalent`. */
  predicate Laue5Equivalent(hkl: HKL, hkl2: HKL)
  {
    var h, k, l := hkl.h, hkl.k, hkl.l;
    (hkl2.h == h && hkl2.k == k && hkl2.l == l)
    || (hkl2.h == -h && hkl2.k == -k && hkl2.l == l)
    || (hkl2.h == -k && hkl2.k == h && hkl2.l == l)
    || (hkl2.h == k && hkl2.k == -h && hkl2.l == l)
    || (hkl2.h == -h && hkl2.k == -k && hkl2.l == -l)
    || (hkl2.h == h && hkl2.k == k && hkl2.l == -l)
    || (hkl2.h == k && hkl2.k == -h && hkl2.l == -l)
    || (hkl2.h == -k && hkl2.k == h && hkl2.l == -l)
  }

  /** `PointGroupLaue6::isEquivalent`. */
  predicate Laue6Equivalent(hkl: HKL, hkl2: HKL)
  {
    var h, k, l := hkl.h, hkl.k, hkl.l;
    (hkl2.h == h && hkl2.k == k && hkl2.l == l)
    || (hkl2.h == -h && hkl2.k == -k && hkl2.l == l)
    || (hkl2.h == -k && hkl2.k == h && hkl2.l == l)
    || (hkl2.h == k && hkl2.k == -h && hkl2.l == l)
    || (hkl2.h == -h && hkl2.k == k && hkl2.l == -l)
    || (hkl2.h == h && hkl2.k == -k && hkl2.l == -l)
    || (hkl2.h == k && hkl2.k == h && hkl2.l == -l)
    || (hkl2.h == -k && hkl2.k == -h && hkl2.l == -l)
    || (hkl2.h == -h && hkl2.k == -k && hkl2.l == -l)
    || (hkl2.h == h && hkl2.k == k && hkl2.l == -l)
    || (hkl2.h == k && hkl2.k == -h && hkl2.l == -l)
    || (hkl2.h == -k && hkl2.k == h && hkl2.l == -l)
    || (hkl2.h == h && hkl2.k == -k && hkl2.l == l)
    || (hkl2.h == -h && hkl2.k == k && hkl2.l == l)
    || (hkl2.h == -k && hkl2.k == -h && hkl2.l == l)
    || (hkl2.h == k && hkl2.k == h && hkl2.l == l)
  }

  /** `PointGroupLaue7::isEquivalent`. */
  predicate Laue7Equivalent(hkl: HKL, hkl2: HKL)
  {
    var h, k, l := hkl.h, hkl.k, hkl.l;
    (hkl2.h == h && hkl2.k == k && hkl2.l == l)
    || (hkl2.h == -k && hkl2.k == h-k && hkl2.l == l)
    || (hkl2.h == -h+k && hkl2.k == -h && hkl2.l == l)
    || (hkl2.h == -h && hkl2.k == -k && hkl2.l == -l)
    || (hkl2.h == k && hkl2.k == -h+k && hkl2.l == -l)
    || (hkl2.h == h-k && hkl2.k == h && hkl2.l == -l)
  }

  /** `PointGroupLaue8::isEquivalent`. */
  predicate Laue8Equivalent(hkl: HKL, hkl2: HKL)
  {
    var h, k, l := hkl.h, hkl.k, hkl.l;
    (hkl2.h == h && hkl2.k == k && hkl2.l == l)
    || (hkl2.h == -k && hkl2.k == h-k && hkl2.l == l)
    || (hkl2.h == -h+k && hkl2.k == -h && hkl2.l == l)
    || (hkl2.h == -k && hkl2.k == -h && hkl2.l == -l)
    || (hkl2.h == -h+k && hkl2.k == k && hkl2.l == -l)
    || (hkl2.h == h && hkl2.k == h-k && hkl2.l == -l)
    || (hkl2.h == -h && hkl2.k == -k && hkl2.l == -l)
    || (hkl2.h == k && hkl2.k == -h+k && hkl2.l == -l)
    || (hkl2.h == h-k && hkl2.k == h && hkl2.l == -l)
    || (hkl2.h == k && hkl2.k == h && hkl2.l == l)
    || (hkl2.h == h-k && hkl2.k == -k && hkl2.l == l)
    || (hkl2.h == -h && hkl2.k == -h+k && hkl2.l == l)
  }

  /** `PointGroupLaue9::isEquivalent`. */
  predicate Laue9Equivalent(hkl: HKL, hkl2: HKL)
  {
    var h, k, l := hkl.h, hkl.k, hkl.l;
    (hkl2.h == h && hkl2.k == k && hkl2.l == l)
    || (hkl2.h == -k && hkl2.k == h-k && hkl2.l == l)
    || (hkl2.h == -h+k && hkl2.k == -h && hkl2.l == l)
    || (hkl2.h == -k && hkl2.k == -h && hkl2.l == -l)
    || (hkl2.h == -h+k && hkl2.k == k && hkl2.l == -l)
    || (hkl2.h == h && hkl2.k == h-k && hkl2.l == -l)
    || (hkl2.h == -h && hkl2.k == -k && hkl2.l == -l)
    || (hkl2.h == k && hkl2.k == -h+k && hkl2.l == -l)
    || (hkl2.h == h-k && hkl2.k == h && hkl2.l == -l)
    || (hkl2.h == k && hkl2.k == h && hkl2.l == l)
    || (hkl2.h == h-k && hkl2.k == -k && hkl2.l == l)
    || (hkl2.h == -h && hkl2.k == -h+k && hkl2.l == l)
  }

  /** `PointGroupLaue10::isEquivalent`. */
  predicate Laue10Equivalent(hkl: HKL, hkl2: HKL)
  {
    var h, k, l := hkl.h, hkl.k, hkl.l;
    (hkl2.h == h && hkl2.k == k && hkl2.l == l)
    || (hkl2.h == -k && hkl2.k == h-k && hkl2.l == l)
    || (hkl2.h == -h+k && hkl2.k == -h && hkl2.l == l)
    || (hkl2.h == -h && hkl2.k == -k && hkl2.l == l)
    || (hkl2.h == k && hkl2.k == -h+k && hkl2.l == l)
    || (hkl2.h == h-k && hkl2.k == h && hkl2.l == l)
    || (hkl2.h == -h && hkl2.k == -k && hkl2.l == -l)
    || (hkl2.h == k && hkl2.k == -h+k && hkl2.l == -l)
    || (hkl2.h == h-k && hkl2.k == h && hkl2.l == -l)
    || (hkl2.h == h && hkl2.k == k && hkl2.l == -l)
    || (hkl2.h == -k && hkl2.k == h-k && hkl2.l == -l)
    || (hkl2.h == -h+k && hkl2.k == -h && hkl2.l == -l)
  }

  /** `PointGroupLaue11::isEquivalent`. */
  predicate Laue11Equivalent(hkl: HKL, hkl2: HKL)
  {
    var h, k, l := hkl.h, hkl.k, hkl.l;
    (hkl2.h == h && hkl2.k == k && hkl2.l == l)
    || (hkl2.h == -k && hkl2.k == h-k && hkl2.l == l)
    || (hkl2.h == -h+k && hkl2.k == -h && hkl2.l == l)
    || (hkl2.h == -h && hkl2.k == -k && hkl2.l == l)
    || (hkl2.h == k && hkl2.k == -h+k && hkl2.l == l)
    || (hkl2.h == h-k && hkl2.k == h && hkl2.l == l)
    || (hkl2.h == k && hkl2.k == h && hkl2.l == -l)
    || (hkl2.h == h-k && hkl2.k == -k && hkl2.l == -l)
    || (hkl2.h == -h && hkl2.k == -h+k && hkl2.l == -l)
    || (hkl2.h == -k && hkl2.k == -h && hkl2.l == -l)
    || (hkl2.h == -h+k && hkl2.k == k && hkl2.l == -l)
    || (hkl2.h == h && hkl2.k == h-k && hkl2.l == -l)
    || (hkl2.h == -h && hkl2.k == -k && hkl2.l == -l)
    || (hkl2.h == k && hkl2.k == -h+k && hkl2.l == -l)
    || (hkl2.h == h-k && hkl2.k == h && hkl2.l == -l)
    || (hkl2.h == h && hkl2.k == k && hkl2.l == -l)
    || (hkl2.h == -k && hkl2.k == h-k && hkl2.l == -l)
    || (hkl2.h == -h+k && hkl2.k == -h && hkl2.l == -l)
    || (hkl2.h == -k && hkl2.k == -h && hkl2.l == l)
    || (hkl2.h == -h+k && hkl2.k == k && hkl2.l == l)
    || (hkl2.h == h && hkl2.k == h-k && hkl2.l == l)
    || (hkl2.h == k && hkl2.k == h && hkl2.l == l)
    || (hkl2.h == h-k && hkl2.k == -k && hkl2.l == l)
    || (hkl2.h == -h && hkl2.k == -h+k && hkl2.l == l)
  }

  /** `PointGroupLaue12::isEquivalent`. */
  predicate Laue12Equivalent(hkl: HKL, hkl2: HKL)
  {
    var h, k, l := hkl.h, hkl.k, hkl.l;
    (hkl2.h == h && hkl2.k == k && hkl2.l == l)
    || (hkl2.h == -h && hkl2.k == -k && hkl2.l == l)
    || (hkl2.h == -h && hkl2.k == k && hkl2.l == -l)
    || (hkl2.h == h && hkl2.k == -k && hkl2.l == -l)
    || (hkl2.h == l && hkl2.k == h && hkl2.l == k)
    || (hkl2.h == l && hkl2.k == -h && hkl2.l == -k)
    || (hkl2.h == -l && hkl2.k == -h && hkl2.l == k)
    || (hkl2.h == -l && hkl2.k == h && hkl2.l == -k)
    || (hkl2.h == k && hkl2.k == l && hkl2.l == h)
    || (hkl2.h == -k && hkl2.k == l && hkl2.l == -h)
    || (hkl2.h == k && hkl2.k == -l && hkl2.l == -h)
    || (hkl2.h == -k && hkl2.k == -l && hkl2.l == h)
    || (hkl2.h == -h && hkl2.k == -k && hkl2.l == -l)
    || (hkl2.h == h && hkl2.k == k && hkl2.l == -l)
    || (hkl2.h == h && hkl2.k == -k && hkl2.l == l)
    || (hkl2.h == -h && hkl2.k == k && hkl2.l == l)
    || (hkl2.h == -l && hkl2.k == -h && hkl2.l == -k)
    || (hkl2.h == -l && hkl2.k == h && hkl2.l == k)
    || (hkl2.h == l && hkl2.k == h && hkl2.l == -k)
    || (hkl2.h == l && hkl2.k == -h && hkl2.l == k)
    || (hkl2.h == -k && hkl2.k == -l && hkl2.l == -h)
    || (hkl2.h == k && hkl2.k == -l && hkl2.l == h)
    || (hkl2.h == -k && hkl2.k == l && hkl2.l == h)
    || (hkl2.h == k && hkl2.k == l && hkl2.l == -h)
  }

  /** `PointGroupLaue13::isEquivalent`. */
  predicate Laue13Equivalent(hkl: HKL, hkl2: HKL)
  {
    var h, k, l := hkl.h, hkl.k, hkl.l;
    (hkl2.h == h && hkl2.k == k && hkl2.l == l)
    || (hkl2.h == -h && hkl2.k == -k && hkl2.l == l)
    || (hkl2.h == -h && hkl2.k == k && hkl2.l == -l)
    || (hkl2.h == h && hkl2.k == -k && hkl2.l == -l)
    || (hkl2.h == l && hkl2.k == h && hkl2.l == k)
    || (hkl2.h == l && hkl2.k == -h && hkl2.l == -k)
    || (hkl2.h == -l && hkl2.k == -h && hkl2.l == k)
    || (hkl2.h == -l && hkl2.k == h && hkl2.l == -k)
    || (hkl2.h == k && hkl2.k == l && hkl2.l == h)
    || (hkl2.h == -k && hkl2.k == l && hkl2.l == -h)
    || (hkl2.h == k && hkl2.k == -l && hkl2.l == -h)
    || (hkl2.h == -k && hkl2.k == -l && hkl2.l == h)
    || (hkl2.h == k && hkl2.k == h && hkl2.l == -l)
    || (hkl2.h == -k && hkl2.k == -h && hkl2.l == -l)
    || (hkl2.h == k && hkl2.k == -h && hkl2.l == l)
    || (hkl2.h == -k && hkl2.k == h && hkl2.l == l)
    || (hkl2.h == h && hkl2.k == l && hkl2.l == -k)
    || (hkl2.h == -h && hkl2.k == l && hkl2.l == k)
    || (hkl2.h == -h && hkl2.k == -l && hkl2.l == -k)
    || (hkl2.h == h && hkl2.k == -l && hkl2.l == k)
    || (hkl2.h == l && hkl2.k == k && hkl2.l == -h)
    || (hkl2.h == l && hkl2.k == -k && hkl2.l == h)
    || (hkl2.h == -l && hkl2.k == k && hkl2.l == h)
    || (hkl2.h == -l && hkl2.k == -k && hkl2.l == -h)
    || (hkl2.h == -h && hkl2.k == -k && hkl2.l == -l)
    || (hkl2.h == h && hkl2.k == k && hkl2.l == -l)
    || (hkl2.h == h && hkl2.k == -k && hkl2.l == l)
    || (hkl2.h == -h && hkl2.k == k && hkl2.l == l)
    || (hkl2.h == -l && hkl2.k == -h && hkl2.l == -k)
    || (hkl2.h == -l && hkl2.k == h && hkl2.l == k)
    || (hkl2.h == l && hkl2.k == h && hkl2.l == -k)
    || (hkl2.h == l && hkl2.k == -h && hkl2.l == k)
    || (hkl2.h == -k && hkl2.k == -l && hkl2.l == -h)
    || (hkl2.h == k && hkl2.k == -l && hkl2.l == h)
    || (hkl2.h == -k && hkl2.k == l && hkl2.l == h)
    || (hkl2.h == k && hkl2.k == l && hkl2.l == -h)
    || (hkl2.h == -k && hkl2.k == -h && hkl2.l == l)
    || (hkl2.h == k && hkl2.k == h && hkl2.l == l)
    || (hkl2.h == -k && hkl2.k == h && hkl2.l == -l)
    || (hkl2.h == k && hkl2.k == -h && hkl2.l == -l)
    || (hkl2.h == -h && hkl2.k == -l && hkl2.l == k)
    || (hkl2.h == h && hkl2.k == -l && hkl2.l == -k)
    || (hkl2.h == h && hkl2.k == l && hkl2.l == k)
    || (hkl2.h == -h && hkl2.k == l && hkl2.l == -k)
    || (hkl2.h == -l && hkl2.k == -k && hkl2.l == h)
    || (hkl2.h == -l && hkl2.k == k && hkl2.l == -h)
    || (hkl2.h == l && hkl2.k == -k && hkl2.l == -h)
    || (hkl2.h == l && hkl2.k == k && hkl2.l == h)
  }

  /** `isEquivalent(hkl, hkl2)` of the class: hkl2 is one of the hkls the class lists for hkl. */
  predicate IsEquivalent(c: LaueClass, hkl: HKL, hkl2: HKL)
  {
    match c
      case Laue1 => Laue1Equivalent(hkl, hkl2)
      case Laue2 => Laue2Equivalent(hkl, hkl2)
      case Laue3 => Laue3Equivalent(hkl, hkl2)
      case Laue4 => Laue4Equivalent(hkl, hkl2)
      case Laue5 => Laue5Equivalent(hkl, hkl2)
      case Laue6 => Laue6Equivalent(hkl, hkl2)
      case Laue7 => Laue7Equivalent(hkl, hkl2)
      case Laue8 => Laue8Equivalent(hkl, hkl2)
      case Laue9 => Laue9Equivalent(hkl, hkl2)
      case Laue10 => Laue10Equivalent(hkl, hkl2)
      case Laue11 => Laue11Equivalent(hkl, hkl2)
      case Laue12 => Laue12Equivalent(hkl, hkl2)
      case Laue13 => Laue13Equivalent(hkl, hkl2)
  }

  /** Every class lists hkl itself: `isEquivalent` is reflexive. */
  lemma IsEquivalentReflexive(c: LaueClass, hkl: HKL)
    ensures IsEquivalent(c, hkl, hkl)
  {
  }

  /** Every Laue class contains the inversion, so -hkl is always equivalent to hkl. */
  lemma IsEquivalentCentrosymmetric(c: LaueClass, hkl: HKL)
    ensures IsEquivalent(c, hkl, Negated(hkl))
  {
  }

  /** For "-1" the equivalents of hkl are hkl and -hkl, and nothing else. */
  lemma Laue1Equivalents(hkl: HKL, hkl2: HKL)
    ensures IsEquivalent(Laue1, hkl, hkl2) <==> hkl2 == hkl || hkl2 == Negated(hkl)
  {
  }

  /** "-3m1" and "-31m" accept exactly the same pairs: the two classes share one table. */
  lemma Laue8AndLaue9Coincide(hkl: HKL, hkl2: HKL)
    ensures IsEquivalent(Laue8, hkl, hkl2) <==> IsEquivalent(Laue9, hkl, hkl2)
  {
  }

  /** "m-3" is a subgroup of "m-3m". */
  lemma Laue12WithinLaue13(hkl: HKL, hkl2: HKL)
    requires Laue12Equivalent(hkl, hkl2)
    ensures Laue13Equivalent(hkl, hkl2)
  {
  }

  /** "m-3m" is "m-3" together with the fourfold images of "m-3". */
  lemma Laue13Cosets(a: HKL, b: HKL)
    requires Laue13Equivalent(a, b)
    ensures Laue12Equivalent(a, b) || Laue12Equivalent(a, Action(FourFold001, b))
  {
  }

  /** An hkl of "m-3m" outside "m-3" for `a`: its fourfold image is in "m-3". */
  lemma Laue13FromCoset(a: HKL, v: HKL)
    requires Laue12Equivalent(a, Action(FourFold001, v))
    ensures Laue13Equivalent(a, v)
  {
  }

  /** `isEquivalent` is symmetric. */
  lemma IsEquivalentSymmetric(c: LaueClass, a: HKL, b: HKL)
    requires IsEquivalent(c, a, b)
    ensures IsEquivalent(c, b, a)
  {
    match c
      case Laue1 => SymmetricLaue1(a, b);
      case Laue2 => SymmetricLaue2(a, b);
      case Laue3 => SymmetricLaue3(a, b);
      case Laue4 => SymmetricLaue4(a, b);
      case Laue5 => SymmetricLaue5(a, b);
      case Laue6 => SymmetricLaue6(a, b);
      case Laue7 => SymmetricLaue7(a, b);
      case Laue8 => SymmetricLaue8(a, b);
      case Laue9 => SymmetricLaue9(a, b);
      case Laue10 => SymmetricLaue10(a, b);
      case Laue11 => SymmetricLaue11(a, b);
      case Laue12 => SymmetricLaue12(a, b);
      case Laue13 => SymmetricLaue13(a, b);
  }

  lemma SymmetricLaue1(a: HKL, b: HKL)
    requires Laue1Equivalent(a, b)
    ensures Laue1Equivalent(b, a)
  {
  }

  lemma SymmetricLaue2(a: HKL, b: HKL)
    requires Laue2Equivalent(a, b)
    ensures Laue2Equivalent(b, a)
  {
  }

  lemma SymmetricLaue3(a: HKL, b: HKL)
    requires Laue3Equivalent(a, b)
    ensures Laue3Equivalent(b, a)
  {
  }

  lemma SymmetricLaue4(a: HKL, b: HKL)
    requires Laue4Equivalent(a, b)
    ensures Laue4Equivalent(b, a)
  {
  }

  lemma SymmetricLaue5(a: HKL, b: HKL)
    requires Laue5Equivalent(a, b)
    ensures Laue5Equivalent(b, a)
  {
  }

  lemma SymmetricLaue6(a: HKL, b: HKL)
    requires Laue6Equivalent(a, b)
    ensures Laue6Equivalent(b, a)
  {
  }

  lemma SymmetricLaue7(a: HKL, b: HKL)
    requires Laue7Equivalent(a, b)
    ensures Laue7Equivalent(b, a)
  {
  }

  lemma SymmetricLaue8(a: HKL, b: HKL)
    requires Laue8Equivalent(a, b)
    ensures Laue8Equivalent(b, a)
  {
  }

  lemma SymmetricLaue9(a: HKL, b: HKL)
    requires Laue9Equivalent(a, b)
    ensures Laue9Equivalent(b, a)
  {
  }

  lemma SymmetricLaue10(a: HKL, b: HKL)
    requires Laue10Equivalent(a, b)
    ensures Laue10Equivalent(b, a)
  {
  }

  lemma SymmetricLaue11(a: HKL, b: HKL)
    requires Laue11Equivalent(a, b)
    ensures Laue11Equivalent(b, a)
  {
  }

  lemma SymmetricLaue12(a: HKL, b: HKL)
    requires Laue12Equivalent(a, b)
    ensures Laue12Equivalent(b, a)
  {
  }

  lemma SymmetricLaue13(a: HKL, b: HKL)
    requires Laue13Equivalent(a, b)
    ensures Laue13Equivalent(b, a)
  {
  }

  /** The generating operations that `init` adds, by their factory symbol. */
  datatype Generator =
    | Inversion | TwoFold100 | TwoFold010 | TwoFold001 | Mirror010 | Mirror001 | FourFold001
    | ThreeFold001h | SixFold001h | TwoFold100h | Mirror210h | ThreeFold111

  function GeneratorSymbol(g: Generator): string
  {
    match g
      case Inversion => "-1"
      case TwoFold100 => "2 [100]"
      case TwoFold010 => "2 [010]"
      case TwoFold001 => "2 [001]"
      case Mirror010 => "m [010]"
      case Mirror001 => "m [001]"
      case FourFold001 => "4 [001]"
      case ThreeFold001h => "3 [001]h"
      case SixFold001h => "6 [001]h"
      case TwoFold100h => "2 [100]h"
      case Mirror210h => "m [210]h"
      case ThreeFold111 => "3 [111]"
  }

  function GeneratorOrder(g: Generator): Order
  {
    match g
      case FourFold001 => 4
      case ThreeFold001h | ThreeFold111 => 3
      case SixFold001h => 6
      case _ => 2
  }

  /** How each generator maps an hkl, as the tables list it. */
  function Action(g: Generator, v: HKL): HKL
  {
    var h, k, l := v.h, v.k, v.l;
    match g
      case Inversion => HKL(-h, -k, -l)
      case TwoFold100 => HKL(h, -k, -l)
      case TwoFold010 => HKL(-h, k, -l)
      case TwoFold001 => HKL(-h, -k, l)
      case Mirror010 => HKL(h, -k, l)
      case Mirror001 => HKL(h, k, -l)
      case FourFold001 => HKL(-k, h, l)
      case ThreeFold001h => HKL(-k, h - k, l)
      case SixFold001h => HKL(h - k, h, l)
      case TwoFold100h => HKL(h - k, -k, -l)
      case Mirror210h => HKL(h - k, -k, l)
      case ThreeFold111 => HKL(l, h, k)
  }

  /** The generators each class's `init` adds, in order. */
  function Generators(c: LaueClass): seq<Generator>
  {
    match c
      case Laue1 => [Inversion]
      case Laue2 => [TwoFold010, Mirror010]
      case Laue3 => [TwoFold001, Mirror001]
      case Laue4 => [TwoFold100, TwoFold010, Mirror001]
      case Laue5 => [FourFold001, Mirror001]
      case Laue6 => [FourFold001, Mirror001, TwoFold100]
      case Laue7 => [ThreeFold001h, Inversion]
      case Laue8 => [ThreeFold001h, Inversion, Mirror210h]
      case Laue9 => [ThreeFold001h, Inversion, Mirror210h]
      case Laue10 => [SixFold001h, Inversion]
      case Laue11 => [SixFold001h, TwoFold100h, Mirror001]
      case Laue12 => [ThreeFold111, TwoFold001, Mirror010, Inversion]
      case Laue13 => [ThreeFold111, FourFold001, Mirror010, Inversion]
  }

  /** A symmetry operation realises a generator when it has the generator's order
      and maps every hkl as the generator does. */
  ghost predicate Realises(op: SymmetryOperation, g: Generator)
  {
    op.order == GeneratorOrder(g) && forall v :: Apply(op.matrix, v) == Action(g, v)
  }

  /** `v` with the generator applied `times` times. */
  function ActionIterate(g: Generator, v: HKL, times: nat): HKL
    decreases times
  {
    if times == 0 then v else Action(g, ActionIterate(g, v, times - 1))
  }

  function ActionPowers(g: Generator, v: HKL, count: nat): (vs: seq<HKL>)
    ensures |vs| == count
    decreases count
  {
    if count == 0 then [] else ActionPowers(g, v, count - 1) + [ActionIterate(g, v, count)]
  }

  function ActionExpansion(vs: seq<HKL>, g: Generator): seq<HKL>
    decreases |vs|
  {
    if vs == [] then []
    else ActionExpansion(vs[..|vs| - 1], g) + ActionPowers(g, vs[|vs| - 1], GeneratorOrder(g) - 1)
  }

  /** The hkls that generation reaches from `a`, in the order of the generated matrices. */
  function Orbit(gs: seq<Generator>, a: HKL): seq<HKL>
    decreases |gs|
  {
    if gs == [] then [a]
    else
      var before := Orbit(gs[..|gs| - 1], a);
      before + ActionExpansion(before, gs[|gs| - 1])
  }

  lemma {:induction false} IterateRealised(op: SymmetryOperation, g: Generator, m: Matrix, a: HKL, times: nat)
    requires Realises(op, g)
    ensures Apply(Iterate(op, m, times), a) == ActionIterate(g, Apply(m, a), times)
    decreases times
  {
    if times > 0 {
      IterateRealised(op, g, m, a, times - 1);
      ApplyMul(op.matrix, Iterate(op, m, times - 1), a);
    }
  }

  lemma {:induction false} PowersRealised(op: SymmetryOperation, g: Generator, m: Matrix, a: HKL, count: nat)
    requires Realises(op, g)
    ensures ImagesOf(Powers(op, m, count), a) == ActionPowers(g, Apply(m, a), count)
    decreases count
  {
    if count > 0 {
      PowersRealised(op, g, m, a, count - 1);
      IterateRealised(op, g, m, a, count);
      ImagesOfConcat(Powers(op, m, count - 1), [Iterate(op, m, count)], a);
    }
  }

  lemma {:induction false} ExpansionRealised(op: SymmetryOperation, g: Generator, ms: seq<Matrix>, a: HKL)
    requires Realises(op, g)
    ensures ImagesOf(Expansion(ms, op), a) == ActionExpansion(ImagesOf(ms, a), g)
    decreases |ms|
  {
    if ms != [] {
      var init, last := ms[..|ms| - 1], ms[|ms| - 1];
      ExpansionRealised(op, g, init, a);
      PowersRealised(op, g, last, a, op.order - 1);
      ImagesOfConcat(Expansion(init, op), Powers(op, last, op.order - 1), a);
      assert ImagesOf(ms, a)[..|ms| - 1] == ImagesOf(init, a);
    }
  }

  /** Generation with operations that realise the generators yields, applied to `a`,
      exactly the orbit of `a`. */
  lemma {:induction false} GeneratedRealised(ops: seq<SymmetryOperation>, gs: seq<Generator>, a: HKL)
    requires |ops| == |gs|
    requires forall i :: 0 <= i < |ops| ==> Realises(ops[i], gs[i])
    ensures ImagesOf(Generated(ops), a) == Orbit(gs, a)
    decreases |ops|
  {
    if ops == [] {
      ApplyIdentity(a);
    } else {
      var init := ops[..|ops| - 1];
      var before := Generated(init);
      GeneratedRealised(init, gs[..|gs| - 1], a);
      ExpansionRealised(ops[|ops| - 1], gs[|gs| - 1], before, a);
      ImagesOfConcat(before, Expansion(before, ops[|ops| - 1]), a);
    }
  }

  /** Applying a generator as often as its order gives the hkl back. */
  lemma ActionHasOrder(g: Generator, v: HKL)
    ensures ActionIterate(g, v, GeneratorOrder(g)) == v
  {
    var o := GeneratorOrder(g);
    assert ActionIterate(g, v, 1) == Action(g, v);
    if o >= 3 {
      assert ActionIterate(g, v, 3) == Action(g, Action(g, Action(g, v)));
    }
    if o >= 4 {
      assert ActionIterate(g, v, 4) == Action(g, ActionIterate(g, v, 3));
    }
    if o == 6 {
      assert ActionIterate(g, v, 6) == Action(g, Action(g, ActionIterate(g, v, 4)));
    }
  }

  lemma {:induction false} ActionIterateAdd(g: Generator, v: HKL, i: nat, j: nat)
    ensures ActionIterate(g, ActionIterate(g, v, i), j) == ActionIterate(g, v, i + j)
    decreases j
  {
    if j > 0 {
      ActionIterateAdd(g, v, i, j - 1);
    }
  }

  /** The i-th entry of `ActionPowers` is the (i+1)-th iterate. */
  lemma {:induction false} ActionPowersAt(g: Generator, v: HKL, count: nat, i: nat)
    requires i < count
    ensures ActionPowers(g, v, count)[i] == ActionIterate(g, v, i + 1)
    decreases count
  {
    if i < count - 1 {
      ActionPowersAt(g, v, count - 1, i);
    }
  }

  lemma InActionPowers(g: Generator, v: HKL, count: nat, x: HKL)
    ensures x in ActionPowers(g, v, count) <==> exists j :: 1 <= j <= count && x == ActionIterate(g, v, j)
  {
    var ps := ActionPowers(g, v, count);
    if x in ps {
      var i :| 0 <= i < |ps| && ps[i] == x;
      ActionPowersAt(g, v, count, i);
    }
    if exists j :: 1 <= j <= count && x == ActionIterate(g, v, j) {
      var j :| 1 <= j <= count && x == ActionIterate(g, v, j);
      ActionPowersAt(g, v, count, j - 1);
      assert ps[j - 1] == x;
    }
  }

  lemma {:induction false} InActionExpansion(vs: seq<HKL>, g: Generator, x: HKL)
    ensures x in ActionExpansion(vs, g) <==>
            exists v, j :: v in vs && 1 <= j < GeneratorOrder(g) && x == ActionIterate(g, v, j)
    decreases |vs|
  {
    if vs != [] {
      var init, last := vs[..|vs| - 1], vs[|vs| - 1];
      InActionExpansion(init, g, x);
      InActionPowers(g, last, GeneratorOrder(g) - 1, x);
      assert vs == init + [last];
      if x in ActionExpansion(vs, g) && x !in ActionExpansion(init, g) {
        var j :| 1 <= j <= GeneratorOrder(g) - 1 && x == ActionIterate(g, last, j);
        assert last in vs;
      }
      if exists v, j :: v in vs && 1 <= j < GeneratorOrder(g) && x == ActionIterate(g, v, j) {
        var v, j :| v in vs && 1 <= j < GeneratorOrder(g) && x == ActionIterate(g, v, j);
        if v != last {
          assert v in init;
        }
      }
    }
  }

  /** The orbit after one more generator: the earlier orbit, then the expansion. */
  lemma OrbitAppend(gs: seq<Generator>, g: Generator, a: HKL)
    ensures Orbit(gs + [g], a) == Orbit(gs, a) + ActionExpansion(Orbit(gs, a), g)
  {
    assert (gs + [g])[..|gs|] == gs;
  }

  lemma OrbitStepForward(gs: seq<Generator>, g: Generator, a: HKL, x: HKL) returns (j: nat)
    requires x in Orbit(gs + [g], a)
    ensures j < GeneratorOrder(g) && ActionIterate(g, x, j) in Orbit(gs, a)
  {
    var o := GeneratorOrder(g);
    var before := Orbit(gs, a);
    OrbitAppend(gs, g, a);
    if x in before {
      j := 0;
    } else {
      assert x in ActionExpansion(before, g);
      InActionExpansion(before, g, x);
      var v, i :| v in before && 1 <= i < o && x == ActionIterate(g, v, i);
      ActionIterateAdd(g, v, i, o - i);
      ActionHasOrder(g, v);
      j := o - i;
    }
  }

  lemma OrbitStepBackward(gs: seq<Generator>, g: Generator, a: HKL, x: HKL, j: nat)
    requires j < GeneratorOrder(g) && ActionIterate(g, x, j) in Orbit(gs, a)
    ensures x in Orbit(gs + [g], a)
  {
    var o := GeneratorOrder(g);
    var before := Orbit(gs, a);
    OrbitAppend(gs, g, a);
    if j > 0 {
      var v := ActionIterate(g, x, j);
      ActionIterateAdd(g, x, j, o - j);
      ActionHasOrder(g, x);
      InActionExpansion(before, g, x);
      assert x in ActionExpansion(before, g);
    }
  }

  /** One more generator of order n: x joins the orbit when one of x, g(x), ...,
      g^(n-1)(x) was already in it. */
  lemma OrbitStep(gs: seq<Generator>, g: Generator, a: HKL, x: HKL)
    ensures x in Orbit(gs + [g], a) <==>
            exists j :: 0 <= j < GeneratorOrder(g) && ActionIterate(g, x, j) in Orbit(gs, a)
  {
    if x in Orbit(gs + [g], a) {
      var j := OrbitStepForward(gs, g, a, x);
    }
    if exists j :: 0 <= j < GeneratorOrder(g) && ActionIterate(g, x, j) in Orbit(gs, a) {
      var j :| 0 <= j < GeneratorOrder(g) && ActionIterate(g, x, j) in Orbit(gs, a);
      OrbitStepBackward(gs, g, a, x, j);
    }
  }

  /** Some power of `g` below its order takes `x` into `s`, the powers written out. */
  predicate SomePowerIn(g: Generator, x: HKL, s: seq<HKL>)
  {
    var o := GeneratorOrder(g);
    x in s || Action(g, x) in s
    || (o >= 3 && Action(g, Action(g, x)) in s)
    || (o >= 4 && Action(g, Action(g, Action(g, x))) in s)
    || (o >= 5 && Action(g, Action(g, Action(g, Action(g, x)))) in s)
    || (o >= 6 && Action(g, Action(g, Action(g, Action(g, Action(g, x))))) in s)
  }

  /** The first four powers of a generator, written out. */
  lemma ActionIterateSmall(g: Generator, x: HKL)
    ensures ActionIterate(g, x, 1) == Action(g, x)
    ensures ActionIterate(g, x, 2) == Action(g, Action(g, x))
    ensures ActionIterate(g, x, 3) == Action(g, Action(g, Action(g, x)))
    ensures ActionIterate(g, x, 4) == Action(g, Action(g, Action(g, Action(g, x))))
    ensures ActionIterate(g, x, 5) == Action(g, Action(g, Action(g, Action(g, Action(g, x)))))
  {
    assert ActionIterate(g, x, 3) == Action(g, ActionIterate(g, x, 2));
    assert ActionIterate(g, x, 4) == Action(g, ActionIterate(g, x, 3));
    assert ActionIterate(g, x, 5) == Action(g, ActionIterate(g, x, 4));
  }

  /** A power of `g` below its order that takes `x` into `s`, as `SomePowerIn` writes it out. */
  lemma PowerIn(g: Generator, x: HKL, s: seq<HKL>, j: nat)
    requires j < GeneratorOrder(g) && ActionIterate(g, x, j) in s
    ensures SomePowerIn(g, x, s)
  {
    ActionIterateSmall(g, x);
    var o := GeneratorOrder(g);
    assert o <= 6;
    if j == 0 {
      assert x in s;
    } else if j == 1 {
      assert Action(g, x) in s;
    } else if j == 2 {
      assert o >= 3 && Action(g, Action(g, x)) in s;
    } else if j == 3 {
      assert o >= 4 && Action(g, Action(g, Action(g, x))) in s;
    } else if j == 4 {
      assert o >= 5 && Action(g, Action(g, Action(g, Action(g, x)))) in s;
    } else {
      assert o >= 6 && Action(g, Action(g, Action(g, Action(g, Action(g, x))))) in s;
    }
  }

  lemma OrbitStageForward(gs: seq<Generator>, n: nat, a: HKL, x: HKL)
    requires n < |gs| && x in Orbit(gs[..n + 1], a)
    ensures SomePowerIn(gs[n], x, Orbit(gs[..n], a))
  {
    var g := gs[n];
    assert gs[..n + 1] == gs[..n] + [g];
    var j := OrbitStepForward(gs[..n], g, a, x);
    PowerIn(g, x, Orbit(gs[..n], a), j);
  }

  lemma OrbitStageBackward(gs: seq<Generator>, n: nat, a: HKL, x: HKL)
    requires n < |gs| && SomePowerIn(gs[n], x, Orbit(gs[..n], a))
    ensures x in Orbit(gs[..n + 1], a)
  {
    var g, before := gs[n], Orbit(gs[..n], a);
    assert gs[..n + 1] == gs[..n] + [g];
    ActionIterateSmall(g, x);
    var o := GeneratorOrder(g);
    var j := if x in before then 0
      else if Action(g, x) in before then 1
      else if o >= 3 && Action(g, Action(g, x)) in before then 2
      else if o >= 4 && Action(g, Action(g, Action(g, x))) in before then 3
      else if o >= 5 && Action(g, Action(g, Action(g, Action(g, x)))) in before then 4
      else 5;
    OrbitStepBackward(gs[..n], g, a, x, j);
  }

  /** One stage of generation: x is reached with the first n + 1 generators exactly
      when one of x, g(x), ..., g^(order-1)(x) is reached with the first n. */
  lemma OrbitStageAt(gs: seq<Generator>, n: nat, a: HKL, x: HKL)
    requires n < |gs|
    ensures x in Orbit(gs[..n + 1], a) <==> SomePowerIn(gs[n], x, Orbit(gs[..n], a))
  {
    if x in Orbit(gs[..n + 1], a) {
      OrbitStageForward(gs, n, a, x);
    }
    if SomePowerIn(gs[n], x, Orbit(gs[..n], a)) {
      OrbitStageBackward(gs, n, a, x);
    }
  }

  lemma OrbitStage(gs: seq<Generator>, n: nat, a: HKL)
    requires n < |gs|
    ensures forall x :: x in Orbit(gs[..n + 1], a) <==> SomePowerIn(gs[n], x, Orbit(gs[..n], a))
  {
    forall x {
      OrbitStageAt(gs, n, a, x);
    }
  }

  /* The generators of each class keep its equivalents of `a` among themselves. */

  lemma Laue1Closed(g: Generator, a: HKL, v: HKL)
    requires g in Generators(Laue1) && Laue1Equivalent(a, v)
    ensures Laue1Equivalent(a, Action(g, v))
  {
    match g
      case Inversion =>
      case _ => assert false;
  }


  lemma Laue2Closed(g: Generator, a: HKL, v: HKL)
    requires g in Generators(Laue2) && Laue2Equivalent(a, v)
    ensures Laue2Equivalent(a, Action(g, v))
  {
    match g
      case TwoFold010 =>
      case Mirror010 =>
      case _ => assert false;
  }


  lemma Laue3Closed(g: Generator, a: HKL, v: HKL)
    requires g in Generators(Laue3) && Laue3Equivalent(a, v)
    ensures Laue3Equivalent(a, Action(g, v))
  {
    match g
      case TwoFold001 =>
      case Mirror001 =>
      case _ => assert false;
  }


  lemma Laue4Closed(g: Generator, a: HKL, v: HKL)
    requires g in Generators(Laue4) && Laue4Equivalent(a, v)
    ensures Laue4Equivalent(a, Action(g, v))
  {
    match g
      case TwoFold100 =>
      case TwoFold010 =>
      case Mirror001 =>
      case _ => assert false;
  }


  lemma Laue5Closed(g: Generator, a: HKL, v: HKL)
    requires g in Generators(Laue5) && Laue5Equivalent(a, v)
    ensures Laue5Equivalent(a, Action(g, v))
  {
    match g
      case FourFold001 =>
      case Mirror001 =>
      case _ => assert false;
  }


  lemma Laue6Closed(g: Generator, a: HKL, v: HKL)
    requires g in Generators(Laue6) && Laue6Equivalent(a, v)
    ensures Laue6Equivalent(a, Action(g, v))
  {
    match g
      case FourFold001 =>
      case Mirror001 =>
      case TwoFold100 =>
      case _ => assert false;
  }


  lemma Laue7Closed(g: Generator, a: HKL, v: HKL)
    requires g in Generators(Laue7) && Laue7Equivalent(a, v)
    ensures Laue7Equivalent(a, Action(g, v))
  {
    match g
      case ThreeFold001h =>
      case Inversion =>
      case _ => assert false;
  }


  lemma Laue10Closed(g: Generator, a: HKL, v: HKL)
    requires g in Generators(Laue10) && Laue10Equivalent(a, v)
    ensures Laue10Equivalent(a, Action(g, v))
  {
    match g
      case SixFold001h =>
      case Inversion =>
      case _ => assert false;
  }


  lemma Laue8ClosedUnderThreeFold001h(a: HKL, v: HKL)
    requires Laue8Equivalent(a, v)
    ensures Laue8Equivalent(a, Action(ThreeFold001h, v))
  {
  }

  lemma Laue8ClosedUnderInversion(a: HKL, v: HKL)
    requires Laue8Equivalent(a, v)
    ensures Laue8Equivalent(a, Action(Inversion, v))
  {
  }

  lemma Laue8ClosedUnderMirror210h(a: HKL, v: HKL)
    requires Laue8Equivalent(a, v)
    ensures Laue8Equivalent(a, Action(Mirror210h, v))
  {
  }


  lemma Laue9ClosedUnderThreeFold001h(a: HKL, v: HKL)
    requires Laue9Equivalent(a, v)
    ensures Laue9Equivalent(a, Action(ThreeFold001h, v))
  {
  }

  lemma Laue9ClosedUnderInversion(a: HKL, v: HKL)
    requires Laue9Equivalent(a, v)
    ensures Laue9Equivalent(a, Action(Inversion, v))
  {
  }

  lemma Laue9ClosedUnderMirror210h(a: HKL, v: HKL)
    requires Laue9Equivalent(a, v)
    ensures Laue9Equivalent(a, Action(Mirror210h, v))
  {
  }


  lemma Laue11ClosedUnderSixFold001h(a: HKL, v: HKL)
    requires Laue11Equivalent(a, v)
    ensures Laue11Equivalent(a, Action(SixFold001h, v))
  {
  }

  lemma Laue11ClosedUnderTwoFold100h(a: HKL, v: HKL)
    requires Laue11Equivalent(a, v)
    ensures Laue11Equivalent(a, Action(TwoFold100h, v))
  {
  }

  lemma Laue11ClosedUnderMirror001(a: HKL, v: HKL)
    requires Laue11Equivalent(a, v)
    ensures Laue11Equivalent(a, Action(Mirror001, v))
  {
  }


  lemma Laue12ClosedUnderThreeFold111(a: HKL, v: HKL)
    requires Laue12Equivalent(a, v)
    ensures Laue12Equivalent(a, Action(ThreeFold111, v))
  {
  }

  lemma Laue12ClosedUnderTwoFold001(a: HKL, v: HKL)
    requires Laue12Equivalent(a, v)
    ensures Laue12Equivalent(a, Action(TwoFold001, v))
  {
  }

  lemma Laue12ClosedUnderMirror010(a: HKL, v: HKL)
    requires Laue12Equivalent(a, v)
    ensures Laue12Equivalent(a, Action(Mirror010, v))
  {
  }

  lemma Laue12ClosedUnderInversion(a: HKL, v: HKL)
    requires Laue12Equivalent(a, v)
    ensures Laue12Equivalent(a, Action(Inversion, v))
  {
  }


  lemma Laue13CosetClosedUnderThreeFold111(a: HKL, v: HKL)
    requires Laue12Equivalent(a, Action(FourFold001, v))
    ensures Laue12Equivalent(a, Action(FourFold001, Action(ThreeFold111, v)))
  {
  }

  lemma Laue13CosetClosedUnderMirror010(a: HKL, v: HKL)
    requires Laue12Equivalent(a, Action(FourFold001, v))
    ensures Laue12Equivalent(a, Action(FourFold001, Action(Mirror010, v)))
  {
  }

  lemma Laue13CosetClosedUnderInversion(a: HKL, v: HKL)
    requires Laue12Equivalent(a, Action(FourFold001, v))
    ensures Laue12Equivalent(a, Action(FourFold001, Action(Inversion, v)))
  {
  }

  lemma Laue13ClosedUnderThreeFold111(a: HKL, v: HKL)
    requires Laue13Equivalent(a, v)
    ensures Laue13Equivalent(a, Action(ThreeFold111, v))
  {
    Laue13Cosets(a, v);
    if Laue12Equivalent(a, v) {
      Laue12ClosedUnderThreeFold111(a, v);
      Laue12WithinLaue13(a, Action(ThreeFold111, v));
    } else {
      Laue13CosetClosedUnderThreeFold111(a, v);
      Laue13FromCoset(a, Action(ThreeFold111, v));
    }
  }

  lemma Laue13ClosedUnderFourFold001(a: HKL, v: HKL)
    requires Laue13Equivalent(a, v)
    ensures Laue13Equivalent(a, Action(FourFold001, v))
  {
    Laue13Cosets(a, v);
    if Laue12Equivalent(a, v) {
      Laue12ClosedUnderTwoFold001(a, v);
      assert Action(FourFold001, Action(FourFold001, v)) == Action(TwoFold001, v);
      Laue13FromCoset(a, Action(FourFold001, v));
    } else {
      Laue12WithinLaue13(a, Action(FourFold001, v));
    }
  }

  lemma Laue13ClosedUnderMirror010(a: HKL, v: HKL)
    requires Laue13Equivalent(a, v)
    ensures Laue13Equivalent(a, Action(Mirror010, v))
  {
    Laue13Cosets(a, v);
    if Laue12Equivalent(a, v) {
      Laue12ClosedUnderMirror010(a, v);
      Laue12WithinLaue13(a, Action(Mirror010, v));
    } else {
      Laue13CosetClosedUnderMirror010(a, v);
      Laue13FromCoset(a, Action(Mirror010, v));
    }
  }

  lemma Laue13ClosedUnderInversion(a: HKL, v: HKL)
    requires Laue13Equivalent(a, v)
    ensures Laue13Equivalent(a, Action(Inversion, v))
  {
    Laue13Cosets(a, v);
    if Laue12Equivalent(a, v) {
      Laue12ClosedUnderInversion(a, v);
      Laue12WithinLaue13(a, Action(Inversion, v));
    } else {
      Laue13CosetClosedUnderInversion(a, v);
      Laue13FromCoset(a, Action(Inversion, v));
    }
  }

  lemma Laue8Closed(g: Generator, a: HKL, v: HKL)
    requires g in Generators(Laue8) && Laue8Equivalent(a, v)
    ensures Laue8Equivalent(a, Action(g, v))
  {
    match g
      case ThreeFold001h => Laue8ClosedUnderThreeFold001h(a, v);
      case Inversion => Laue8ClosedUnderInversion(a, v);
      case Mirror210h => Laue8ClosedUnderMirror210h(a, v);
      case _ => assert false;
  }


  lemma Laue9Closed(g: Generator, a: HKL, v: HKL)
    requires g in Generators(Laue9) && Laue9Equivalent(a, v)
    ensures Laue9Equivalent(a, Action(g, v))
  {
    match g
      case ThreeFold001h => Laue9ClosedUnderThreeFold001h(a, v);
      case Inversion => Laue9ClosedUnderInversion(a, v);
      case Mirror210h => Laue9ClosedUnderMirror210h(a, v);
      case _ => assert false;
  }


  lemma Laue11Closed(g: Generator, a: HKL, v: HKL)
    requires g in Generators(Laue11) && Laue11Equivalent(a, v)
    ensures Laue11Equivalent(a, Action(g, v))
  {
    match g
      case SixFold001h => Laue11ClosedUnderSixFold001h(a, v);
      case TwoFold100h => Laue11ClosedUnderTwoFold100h(a, v);
      case Mirror001 => Laue11ClosedUnderMirror001(a, v);
      case _ => assert false;
  }


  lemma Laue12Closed(g: Generator, a: HKL, v: HKL)
    requires g in Generators(Laue12) && Laue12Equivalent(a, v)
    ensures Laue12Equivalent(a, Action(g, v))
  {
    match g
      case ThreeFold111 => Laue12ClosedUnderThreeFold111(a, v);
      case TwoFold001 => Laue12ClosedUnderTwoFold001(a, v);
      case Mirror010 => Laue12ClosedUnderMirror010(a, v);
      case Inversion => Laue12ClosedUnderInversion(a, v);
      case _ => assert false;
  }


  lemma Laue13Closed(g: Generator, a: HKL, v: HKL)
    requires g in Generators(Laue13) && Laue13Equivalent(a, v)
    ensures Laue13Equivalent(a, Action(g, v))
  {
    match g
      case ThreeFold111 => Laue13ClosedUnderThreeFold111(a, v);
      case FourFold001 => Laue13ClosedUnderFourFold001(a, v);
      case Mirror010 => Laue13ClosedUnderMirror010(a, v);
      case Inversion => Laue13ClosedUnderInversion(a, v);
      case _ => assert false;
  }


  /** Every generator of a class maps an equivalent of `a` to an equivalent of `a`. */
  lemma GeneratorPreserves(c: LaueClass, g: Generator, a: HKL, v: HKL)
    requires g in Generators(c) && IsEquivalent(c, a, v)
    ensures IsEquivalent(c, a, Action(g, v))
  {
    match c
      case Laue1 => Laue1Closed(g, a, v);
      case Laue2 => Laue2Closed(g, a, v);
      case Laue3 => Laue3Closed(g, a, v);
      case Laue4 => Laue4Closed(g, a, v);
      case Laue5 => Laue5Closed(g, a, v);
      case Laue6 => Laue6Closed(g, a, v);
      case Laue7 => Laue7Closed(g, a, v);
      case Laue8 => Laue8Closed(g, a, v);
      case Laue9 => Laue9Closed(g, a, v);
      case Laue10 => Laue10Closed(g, a, v);
      case Laue11 => Laue11Closed(g, a, v);
      case Laue12 => Laue12Closed(g, a, v);
      case Laue13 => Laue13Closed(g, a, v);
  }

  /** A set of hkls closed under `g` is closed under every power of `g`. */
  lemma {:induction false} IterateClosed(g: Generator, inSet: HKL -> bool, v: HKL, j: nat)
    requires forall w :: inSet(w) ==> inSet(Action(g, w))
    requires inSet(v)
    ensures inSet(ActionIterate(g, v, j))
    decreases j
  {
    if j > 0 {
      IterateClosed(g, inSet, v, j - 1);
    }
  }

  lemma IteratePreserves(c: LaueClass, g: Generator, a: HKL, v: HKL, j: nat)
    requires g in Generators(c) && IsEquivalent(c, a, v)
    ensures IsEquivalent(c, a, ActionIterate(g, v, j))
  {
    var inSet := w => IsEquivalent(c, a, w);
    forall w | inSet(w)
      ensures inSet(Action(g, w))
    {
      GeneratorPreserves(c, g, a, w);
    }
    IterateClosed(g, inSet, v, j);
  }


  /** Generation with a class's generators, started from an equivalent of `a`,
      never leaves the equivalents of `a`. */
  lemma {:induction false} OrbitPreserves(c: LaueClass, gs: seq<Generator>, a: HKL, start: HKL)
    requires forall g :: g in gs ==> g in Generators(c)
    requires IsEquivalent(c, a, start)
    ensures forall x :: x in Orbit(gs, start) ==> IsEquivalent(c, a, x)
    decreases |gs|
  {
    if gs != [] {
      var init, g := gs[..|gs| - 1], gs[|gs| - 1];
      var before := Orbit(init, start);
      OrbitPreserves(c, init, a, start);
      forall x | x in Orbit(gs, start)
        ensures IsEquivalent(c, a, x)
      {
        if x !in before {
          assert x in ActionExpansion(before, g);
          InActionExpansion(before, g, x);
          var v, j :| v in before && 1 <= j < GeneratorOrder(g) && x == ActionIterate(g, v, j);
          IteratePreserves(c, g, a, v, j);
        }
      }
    }
  }

  /* Each hkl a table lists is reached by generation. `LaueNAfterStageK(a, o)` lists
     the hkls that generation from `a` has produced once the class's first K
     generators have been applied; stage K + 1 adds the hkls one of whose powers
     under generator K + 1 was already there. */


  predicate Laue1AddedAtStage1(a: HKL, o: seq<HKL>)
  {
    var h, k, l := a.h, a.k, a.l;
    HKL(-h, -k, -l) in o
  }

  predicate Laue1AfterStage1(a: HKL, o: seq<HKL>)
  {
    a in o && Laue1AddedAtStage1(a, o)
  }

  lemma Laue1Stage1(a: HKL, o0: seq<HKL>, o1: seq<HKL>)
    requires a in o0
    requires forall x :: SomePowerIn(Inversion, x, o0) ==> x in o1
    ensures Laue1AfterStage1(a, o1)
  {
  }

  lemma Laue1Listed(a: HKL, b: HKL, o: seq<HKL>)
    requires Laue1AfterStage1(a, o) && Laue1Equivalent(a, b)
    ensures b in o
  {
  }

  lemma Laue1TableReached(a: HKL, b: HKL)
    requires Laue1Equivalent(a, b)
    ensures b in Orbit(Generators(Laue1), a)
  {
    var gs := Generators(Laue1);
    var o0, o1 := Orbit(gs[..0], a), Orbit(gs[..1], a);
    assert o0 == [a];
    OrbitStage(gs, 0, a);
    Laue1Stage1(a, o0, o1);
    Laue1Listed(a, b, o1);
    assert gs[..1] == gs;
  }

  predicate Laue2AddedAtStage1(a: HKL, o: seq<HKL>)
  {
    var h, k, l := a.h, a.k, a.l;
    HKL(-h, k, -l) in o
  }

  predicate Laue2AfterStage1(a: HKL, o: seq<HKL>)
  {
    a in o && Laue2AddedAtStage1(a, o)
  }

  lemma Laue2Stage1(a: HKL, o0: seq<HKL>, o1: seq<HKL>)
    requires a in o0
    requires forall x :: SomePowerIn(TwoFold010, x, o0) ==> x in o1
    ensures Laue2AfterStage1(a, o1)
  {
  }

  predicate Laue2AddedAtStage2(a: HKL, o: seq<HKL>)
  {
    var h, k, l := a.h, a.k, a.l;
    HKL(h, -k, l) in o && HKL(-h, -k, -l) in o
  }

  predicate Laue2AfterStage2(a: HKL, o: seq<HKL>)
  {
    Laue2AfterStage1(a, o) && Laue2AddedAtStage2(a, o)
  }

  lemma Laue2Stage2(a: HKL, o1: seq<HKL>, o2: seq<HKL>)
    requires Laue2AfterStage1(a, o1)
    requires forall x :: SomePowerIn(Mirror010, x, o1) ==> x in o2
    ensures Laue2AfterStage2(a, o2)
  {
  }

  lemma Laue2Listed(a: HKL, b: HKL, o: seq<HKL>)
    requires Laue2AfterStage2(a, o) && Laue2Equivalent(a, b)
    ensures b in o
  {
  }

  lemma Laue2TableReached(a: HKL, b: HKL)
    requires Laue2Equivalent(a, b)
    ensures b in Orbit(Generators(Laue2), a)
  {
    var gs := Generators(Laue2);
    var o0, o1, o2 := Orbit(gs[..0], a), Orbit(gs[..1], a), Orbit(gs[..2], a);
    assert o0 == [a];
    OrbitStage(gs, 0, a);
    Laue2Stage1(a, o0, o1);
    OrbitStage(gs, 1, a);
    Laue2Stage2(a, o1, o2);
    Laue2Listed(a, b, o2);
    assert gs[..2] == gs;
  }

  predicate Laue3AddedAtStage1(a: HKL, o: seq<HKL>)
  {
    var h, k, l := a.h, a.k, a.l;
    HKL(-h, -k, l) in o
  }

  predicate Laue3AfterStage1(a: HKL, o: seq<HKL>)
  {
    a in o && Laue3AddedAtStage1(a, o)
  }

  lemma Laue3Stage1(a: HKL, o0: seq<HKL>, o1: seq<HKL>)
    requires a in o0
    requires forall x :: SomePowerIn(TwoFold001, x, o0) ==> x in o1
    ensures Laue3AfterStage1(a, o1)
  {
  }

  predicate Laue3AddedAtStage2(a: HKL, o: seq<HKL>)
  {
    var h, k, l := a.h, a.k, a.l;
    HKL(h, k, -l) in o && HKL(-h, -k, -l) in o
  }

  predicate Laue3AfterStage2(a: HKL, o: seq<HKL>)
  {
    Laue3AfterStage1(a, o) && Laue3AddedAtStage2(a, o)
  }

  lemma Laue3Stage2(a: HKL, o1: seq<HKL>, o2: seq<HKL>)
    requires Laue3AfterStage1(a, o1)
    requires forall x :: SomePowerIn(Mirror001, x, o1) ==> x in o2
    ensures Laue3AfterStage2(a, o2)
  {
  }

  lemma Laue3Listed(a: HKL, b: HKL, o: seq<HKL>)
    requires Laue3AfterStage2(a, o) && Laue3Equivalent(a, b)
    ensures b in o
  {
  }

  lemma Laue3TableReached(a: HKL, b: HKL)
    requires Laue3Equivalent(a, b)
    ensures b in Orbit(Generators(Laue3), a)
  {
    var gs := Generators(Laue3);
    var o0, o1, o2 := Orbit(gs[..0], a), Orbit(gs[..1], a), Orbit(gs[..2], a);
    assert o0 == [a];
    OrbitStage(gs, 0, a);
    Laue3Stage1(a, o0, o1);
    OrbitStage(gs, 1, a);
    Laue3Stage2(a, o1, o2);
    Laue3Listed(a, b, o2);
    assert gs[..2] == gs;
  }

  predicate Laue4AddedAtStage1(a: HKL, o: seq<HKL>)
  {
    var h, k, l := a.h, a.k, a.l;
    HKL(h, -k, -l) in o
  }

  predicate Laue4AfterStage1(a: HKL, o: seq<HKL>)
  {
    a in o && Laue4AddedAtStage1(a, o)
  }

  lemma Laue4Stage1(a: HKL, o0: seq<HKL>, o1: seq<HKL>)
    requires a in o0
    requires forall x :: SomePowerIn(TwoFold100, x, o0) ==> x in o1
    ensures Laue4AfterStage1(a, o1)
  {
  }

  predicate Laue4AddedAtStage2(a: HKL, o: seq<HKL>)
  {
    var h, k, l := a.h, a.k, a.l;
    HKL(-h, k, -l) in o && HKL(-h, -k, l) in o
  }

  predicate Laue4AfterStage2(a: HKL, o: seq<HKL>)
  {
    Laue4AfterStage1(a, o) && Laue4AddedAtStage2(a, o)
  }

  lemma Laue4Stage2(a: HKL, o1: seq<HKL>, o2: seq<HKL>)
    requires Laue4AfterStage1(a, o1)
    requires forall x :: SomePowerIn(TwoFold010, x, o1) ==> x in o2
    ensures Laue4AfterStage2(a, o2)
  {
  }

  predicate Laue4AddedAtStage3(a: HKL, o: seq<HKL>)
  {
    var h, k, l := a.h, a.k, a.l;
    HKL(h, k, -l) in o && HKL(h, -k, l) in o && HKL(-h, k, l) in o && HKL(-h, -k, -l) in o
  }

  predicate Laue4AfterStage3(a: HKL, o: seq<HKL>)
  {
    Laue4AfterStage2(a, o) && Laue4AddedAtStage3(a, o)
  }

  lemma Laue4Stage3(a: HKL, o2: seq<HKL>, o3: seq<HKL>)
    requires Laue4AfterStage2(a, o2)
    requires forall x :: SomePowerIn(Mirror001, x, o2) ==> x in o3
    ensures Laue4AfterStage3(a, o3)
  {
  }

  lemma Laue4Listed(a: HKL, b: HKL, o: seq<HKL>)
    requires Laue4AfterStage3(a, o) && Laue4Equivalent(a, b)
    ensures b in o
  {
  }

  lemma Laue4TableReached(a: HKL, b: HKL)
    requires Laue4Equivalent(a, b)
    ensures b in Orbit(Generators(Laue4), a)
  {
    var gs := Generators(Laue4);
    var o0, o1, o2, o3 := Orbit(gs[..0], a), Orbit(gs[..1], a), Orbit(gs[..2], a), Orbit(gs[..3], a);
    assert o0 == [a];
    OrbitStage(gs, 0, a);
    Laue4Stage1(a, o0, o1);
    OrbitStage(gs, 1, a);
    Laue4Stage2(a, o1, o2);
    OrbitStage(gs, 2, a);
    Laue4Stage3(a, o2, o3);
    Laue4Listed(a, b, o3);
    assert gs[..3] == gs;
  }

  predicate Laue5AddedAtStage1(a: HKL, o: seq<HKL>)
  {
    var h, k, l := a.h, a.k, a.l;
    HKL(-k, h, l) in o && HKL(-h, -k, l) in o && HKL(k, -h, l) in o
  }

  predicate Laue5AfterStage1(a: HKL, o: seq<HKL>)
  {
    a in o && Laue5AddedAtStage1(a, o)
  }

  lemma Laue5Stage1(a: HKL, o0: seq<HKL>, o1: seq<HKL>)
    requires a in o0
    requires forall x :: SomePowerIn(FourFold001, x, o0) ==> x in o1
    ensures Laue5AfterStage1(a, o1)
  {
  }

  predicate Laue5AddedAtStage2(a: HKL, o: seq<HKL>)
  {
    var h, k, l := a.h, a.k, a.l;
    HKL(h, k, -l) in o && HKL(-k, h, -l) in o && HKL(-h, -k, -l) in o && HKL(k, -h, -l) in o
  }

  predicate Laue5AfterStage2(a: HKL, o: seq<HKL>)
  {
    Laue5AfterStage1(a, o) && Laue5AddedAtStage2(a, o)
  }

  lemma Laue5Stage2(a: HKL, o1: seq<HKL>, o2: seq<HKL>)
    requires Laue5AfterStage1(a, o1)
    requires forall x :: SomePowerIn(Mirror001, x, o1) ==> x in o2
    ensures Laue5AfterStage2(a, o2)
  {
  }

  lemma Laue5Listed(a: HKL, b: HKL, o: seq<HKL>)
    requires Laue5AfterStage2(a, o) && Laue5Equivalent(a, b)
    ensures b in o
  {
  }

  lemma Laue5TableReached(a: HKL, b: HKL)
    requires Laue5Equivalent(a, b)
    ensures b in Orbit(Generators(Laue5), a)
  {
    var gs := Generators(Laue5);
    var o0, o1, o2 := Orbit(gs[..0], a), Orbit(gs[..1], a), Orbit(gs[..2], a);
    assert o0 == [a];
    OrbitStage(gs, 0, a);
    Laue5Stage1(a, o0, o1);
    OrbitStage(gs, 1, a);
    Laue5Stage2(a, o1, o2);
    Laue5Listed(a, b, o2);
    assert gs[..2] == gs;
  }

  predicate Laue6AddedAtStage1(a: HKL, o: seq<HKL>)
  {
    var h, k, l := a.h, a.k, a.l;
    HKL(-k, h, l) in o && HKL(-h, -k, l) in o && HKL(k, -h, l) in o
  }

  predicate Laue6AfterStage1(a: HKL, o: seq<HKL>)
  {
    a in o && Laue6AddedAtStage1(a, o)
  }

  lemma Laue6Stage1(a: HKL, o0: seq<HKL>, o1: seq<HKL>)
    requires a in o0
    requires forall x :: SomePowerIn(FourFold001, x, o0) ==> x in o1
    ensures Laue6AfterStage1(a, o1)
  {
  }

  predicate Laue6AddedAtStage2(a: HKL, o: seq<HKL>)
  {
    var h, k, l := a.h, a.k, a.l;
    HKL(h, k, -l) in o && HKL(-k, h, -l) in o && HKL(-h, -k, -l) in o && HKL(k, -h, -l) in o
  }

  predicate Laue6AfterStage2(a: HKL, o: seq<HKL>)
  {
    Laue6AfterStage1(a, o) && Laue6AddedAtStage2(a, o)
  }

  lemma Laue6Stage2(a: HKL, o1: seq<HKL>, o2: seq<HKL>)
    requires Laue6AfterStage1(a, o1)
    requires forall x :: SomePowerIn(Mirror001, x, o1) ==> x in o2
    ensures Laue6AfterStage2(a, o2)
  {
  }

  predicate Laue6AddedAtStage3(a: HKL, o: seq<HKL>)
  {
    var h, k, l := a.h, a.k, a.l;
    HKL(h, -k, -l) in o && HKL(-k, -h, -l) in o && HKL(-h, k, -l) in o && HKL(k, h, -l) in o
    && HKL(h, -k, l) in o && HKL(-k, -h, l) in o && HKL(-h, k, l) in o && HKL(k, h, l) in o
  }

  predicate Laue6AfterStage3(a: HKL, o: seq<HKL>)
  {
    Laue6AfterStage2(a, o) && Laue6AddedAtStage3(a, o)
  }

  lemma Laue6AddsAtStage3(a: HKL, o2: seq<HKL>, o3: seq<HKL>)
    requires Laue6AfterStage2(a, o2)
    requires forall x :: SomePowerIn(TwoFold100, x, o2) ==> x in o3
    ensures Laue6AddedAtStage3(a, o3)
  {
  }

  lemma Laue6Stage3(a: HKL, o2: seq<HKL>, o3: seq<HKL>)
    requires Laue6AfterStage2(a, o2)
    requires forall x :: SomePowerIn(TwoFold100, x, o2) ==> x in o3
    ensures Laue6AfterStage3(a, o3)
  {
    Laue6AddsAtStage3(a, o2, o3);
  }

  lemma Laue6Listed(a: HKL, b: HKL, o: seq<HKL>)
    requires Laue6AfterStage3(a, o) && Laue6Equivalent(a, b)
    ensures b in o
  {
  }

  lemma Laue6TableReached(a: HKL, b: HKL)
    requires Laue6Equivalent(a, b)
    ensures b in Orbit(Generators(Laue6), a)
  {
    var gs := Generators(Laue6);
    var o0, o1, o2, o3 := Orbit(gs[..0], a), Orbit(gs[..1], a), Orbit(gs[..2], a), Orbit(gs[..3], a);
    assert o0 == [a];
    OrbitStage(gs, 0, a);
    Laue6Stage1(a, o0, o1);
    OrbitStage(gs, 1, a);
    Laue6Stage2(a, o1, o2);
    OrbitStage(gs, 2, a);
    Laue6Stage3(a, o2, o3);
    Laue6Listed(a, b, o3);
    assert gs[..3] == gs;
  }

  predicate Laue7AddedAtStage1(a: HKL, o: seq<HKL>)
  {
    var h, k, l := a.h, a.k, a.l;
    HKL(-k, h - k, l) in o && HKL(-h + k, -h, l) in o
  }

  predicate Laue7AfterStage1(a: HKL, o: seq<HKL>)
  {
    a in o && Laue7AddedAtStage1(a, o)
  }

  lemma Laue7Stage1(a: HKL, o0: seq<HKL>, o1: seq<HKL>)
    requires a in o0
    requires forall x :: SomePowerIn(ThreeFold001h, x, o0) ==> x in o1
    ensures Laue7AfterStage1(a, o1)
  {
  }

  predicate Laue7AddedAtStage2(a: HKL, o: seq<HKL>)
  {
    var h, k, l := a.h, a.k, a.l;
    HKL(-h, -k, -l) in o && HKL(k, -h + k, -l) in o && HKL(h - k, h, -l) in o
  }

  predicate Laue7AfterStage2(a: HKL, o: seq<HKL>)
  {
    Laue7AfterStage1(a, o) && Laue7AddedAtStage2(a, o)
  }

  lemma Laue7Stage2(a: HKL, o1: seq<HKL>, o2: seq<HKL>)
    requires Laue7AfterStage1(a, o1)
    requires forall x :: SomePowerIn(Inversion, x, o1) ==> x in o2
    ensures Laue7AfterStage2(a, o2)
  {
  }

  lemma Laue7Listed(a: HKL, b: HKL, o: seq<HKL>)
    requires Laue7AfterStage2(a, o) && Laue7Equivalent(a, b)
    ensures b in o
  {
  }

  lemma Laue7TableReached(a: HKL, b: HKL)
    requires Laue7Equivalent(a, b)
    ensures b in Orbit(Generators(Laue7), a)
  {
    var gs := Generators(Laue7);
    var o0, o1, o2 := Orbit(gs[..0], a), Orbit(gs[..1], a), Orbit(gs[..2], a);
    assert o0 == [a];
    OrbitStage(gs, 0, a);
    Laue7Stage1(a, o0, o1);
    OrbitStage(gs, 1, a);
    Laue7Stage2(a, o1, o2);
    Laue7Listed(a, b, o2);
    assert gs[..2] == gs;
  }

  predicate Laue8AddedAtStage1(a: HKL, o: seq<HKL>)
  {
    var h, k, l := a.h, a.k, a.l;
    HKL(-k, h - k, l) in o && HKL(-h + k, -h, l) in o
  }

  predicate Laue8AfterStage1(a: HKL, o: seq<HKL>)
  {
    a in o && Laue8AddedAtStage1(a, o)
  }

  lemma Laue8Stage1(a: HKL, o0: seq<HKL>, o1: seq<HKL>)
    requires a in o0
    requires forall x :: SomePowerIn(ThreeFold001h, x, o0) ==> x in o1
    ensures Laue8AfterStage1(a, o1)
  {
  }

  predicate Laue8AddedAtStage2(a: HKL, o: seq<HKL>)
  {
    var h, k, l := a.h, a.k, a.l;
    HKL(-h, -k, -l) in o && HKL(k, -h + k, -l) in o && HKL(h - k, h, -l) in o
  }

  predicate Laue8AfterStage2(a: HKL, o: seq<HKL>)
  {
    Laue8AfterStage1(a, o) && Laue8AddedAtStage2(a, o)
  }

  lemma Laue8Stage2(a: HKL, o1: seq<HKL>, o2: seq<HKL>)
    requires Laue8AfterStage1(a, o1)
    requires forall x :: SomePowerIn(Inversion, x, o1) ==> x in o2
    ensures Laue8AfterStage2(a, o2)
  {
  }

  predicate Laue8AddedAtStage3(a: HKL, o: seq<HKL>)
  {
    var h, k, l := a.h, a.k, a.l;
    HKL(h - k, -k, l) in o && HKL(-h, -h + k, l) in o && HKL(k, h, l) in o && HKL(-h + k, k, -l) in o
    && HKL(h, h - k, -l) in o && HKL(-k, -h, -l) in o
  }

  predicate Laue8AfterStage3(a: HKL, o: seq<HKL>)
  {
    Laue8AfterStage2(a, o) && Laue8AddedAtStage3(a, o)
  }

  lemma Laue8Stage3(a: HKL, o2: seq<HKL>, o3: seq<HKL>)
    requires Laue8AfterStage2(a, o2)
    requires forall x :: SomePowerIn(Mirror210h, x, o2) ==> x in o3
    ensures Laue8AfterStage3(a, o3)
  {
  }

  lemma Laue8Listed(a: HKL, b: HKL, o: seq<HKL>)
    requires Laue8AfterStage3(a, o) && Laue8Equivalent(a, b)
    ensures b in o
  {
  }

  lemma Laue8TableReached(a: HKL, b: HKL)
    requires Laue8Equivalent(a, b)
    ensures b in Orbit(Generators(Laue8), a)
  {
    var gs := Generators(Laue8);
    var o0, o1, o2, o3 := Orbit(gs[..0], a), Orbit(gs[..1], a), Orbit(gs[..2], a), Orbit(gs[..3], a);
    assert o0 == [a];
    OrbitStage(gs, 0, a);
    Laue8Stage1(a, o0, o1);
    OrbitStage(gs, 1, a);
    Laue8Stage2(a, o1, o2);
    OrbitStage(gs, 2, a);
    Laue8Stage3(a, o2, o3);
    Laue8Listed(a, b, o3);
    assert gs[..3] == gs;
  }

  predicate Laue9AddedAtStage1(a: HKL, o: seq<HKL>)
  {
    var h, k, l := a.h, a.k, a.l;
    HKL(-k, h - k, l) in o && HKL(-h + k, -h, l) in o
  }

  predicate Laue9AfterStage1(a: HKL, o: seq<HKL>)
  {
    a in o && Laue9AddedAtStage1(a, o)
  }

  lemma Laue9Stage1(a: HKL, o0: seq<HKL>, o1: seq<HKL>)
    requires a in o0
    requires forall x :: SomePowerIn(ThreeFold001h, x, o0) ==> x in o1
    ensures Laue9AfterStage1(a, o1)
  {
  }

  predicate Laue9AddedAtStage2(a: HKL, o: seq<HKL>)
  {
    var h, k, l := a.h, a.k, a.l;
    HKL(-h, -k, -l) in o && HKL(k, -h + k, -l) in o && HKL(h - k, h, -l) in o
  }

  predicate Laue9AfterStage2(a: HKL, o: seq<HKL>)
  {
    Laue9AfterStage1(a, o) && Laue9AddedAtStage2(a, o)
  }

  lemma Laue9Stage2(a: HKL, o1: seq<HKL>, o2: seq<HKL>)
    requires Laue9AfterStage1(a, o1)
    requires forall x :: SomePowerIn(Inversion, x, o1) ==> x in o2
    ensures Laue9AfterStage2(a, o2)
  {
  }

  predicate Laue9AddedAtStage3(a: HKL, o: seq<HKL>)
  {
    var h, k, l := a.h, a.k, a.l;
    HKL(h - k, -k, l) in o && HKL(-h, -h + k, l) in o && HKL(k, h, l) in o && HKL(-h + k, k, -l) in o
    && HKL(h, h - k, -l) in o && HKL(-k, -h, -l) in o
  }

  predicate Laue9AfterStage3(a: HKL, o: seq<HKL>)
  {
    Laue9AfterStage2(a, o) && Laue9AddedAtStage3(a, o)
  }

  lemma Laue9Stage3(a: HKL, o2: seq<HKL>, o3: seq<HKL>)
    requires Laue9AfterStage2(a, o2)
    requires forall x :: SomePowerIn(Mirror210h, x, o2) ==> x in o3
    ensures Laue9AfterStage3(a, o3)
  {
  }

  lemma Laue9Listed(a: HKL, b: HKL, o: seq<HKL>)
    requires Laue9AfterStage3(a, o) && Laue9Equivalent(a, b)
    ensures b in o
  {
  }

  lemma Laue9TableReached(a: HKL, b: HKL)
    requires Laue9Equivalent(a, b)
    ensures b in Orbit(Generators(Laue9), a)
  {
    var gs := Generators(Laue9);
    var o0, o1, o2, o3 := Orbit(gs[..0], a), Orbit(gs[..1], a), Orbit(gs[..2], a), Orbit(gs[..3], a);
    assert o0 == [a];
    OrbitStage(gs, 0, a);
    Laue9Stage1(a, o0, o1);
    OrbitStage(gs, 1, a);
    Laue9Stage2(a, o1, o2);
    OrbitStage(gs, 2, a);
    Laue9Stage3(a, o2, o3);
    Laue9Listed(a, b, o3);
    assert gs[..3] == gs;
  }

  predicate Laue10AddedAtStage1(a: HKL, o: seq<HKL>)
  {
    var h, k, l := a.h, a.k, a.l;
    HKL(h - k, h, l) in o && HKL(-k, h - k, l) in o && HKL(-h, -k, l) in o && HKL(-h + k, -h, l) in o
    && HKL(k, -h + k, l) in o
  }

  predicate Laue10AfterStage1(a: HKL, o: seq<HKL>)
  {
    a in o && Laue10AddedAtStage1(a, o)
  }

  /** The sixfold rotation's images of an hkl reached in `o0` are all reached in `o1`. */
  lemma SixFoldStage1(a: HKL, o0: seq<HKL>, o1: seq<HKL>)
    requires a in o0
    requires forall x :: SomePowerIn(SixFold001h, x, o0) ==> x in o1
    ensures var h, k, l := a.h, a.k, a.l;
            a in o1 && HKL(h - k, h, l) in o1 && HKL(-k, h - k, l) in o1 && HKL(-h, -k, l) in o1
            && HKL(-h + k, -h, l) in o1 && HKL(k, -h + k, l) in o1
  {
    var g := SixFold001h;
    var x1 := Action(g, a);
    var x2 := Action(g, x1);
    var x3 := Action(g, x2);
    var x4 := Action(g, x3);
    var x5 := Action(g, x4);
    assert Action(g, x5) == a;
    assert SomePowerIn(g, a, o0);
    assert SomePowerIn(g, x5, o0);
    assert SomePowerIn(g, x4, o0);
    assert SomePowerIn(g, x3, o0);
    assert SomePowerIn(g, x2, o0);
    assert SomePowerIn(g, x1, o0);
  }

  lemma Laue10Stage1(a: HKL, o0: seq<HKL>, o1: seq<HKL>)
    requires a in o0
    requires forall x :: SomePowerIn(SixFold001h, x, o0) ==> x in o1
    ensures Laue10AfterStage1(a, o1)
  {
    SixFoldStage1(a, o0, o1);
  }

  predicate Laue10AddedAtStage2(a: HKL, o: seq<HKL>)
  {
    var h, k, l := a.h, a.k, a.l;
    HKL(-h, -k, -l) in o && HKL(-h + k, -h, -l) in o && HKL(k, -h + k, -l) in o && HKL(h, k, -l) in o
    && HKL(h - k, h, -l) in o && HKL(-k, h - k, -l) in o
  }

  predicate Laue10AfterStage2(a: HKL, o: seq<HKL>)
  {
    Laue10AfterStage1(a, o) && Laue10AddedAtStage2(a, o)
  }

  lemma Laue10Stage2(a: HKL, o1: seq<HKL>, o2: seq<HKL>)
    requires Laue10AfterStage1(a, o1)
    requires forall x :: SomePowerIn(Inversion, x, o1) ==> x in o2
    ensures Laue10AfterStage2(a, o2)
  {
  }

  lemma Laue10Listed(a: HKL, b: HKL, o: seq<HKL>)
    requires Laue10AfterStage2(a, o) && Laue10Equivalent(a, b)
    ensures b in o
  {
  }

  lemma Laue10TableReached(a: HKL, b: HKL)
    requires Laue10Equivalent(a, b)
    ensures b in Orbit(Generators(Laue10), a)
  {
    var gs := Generators(Laue10);
    var o0, o1, o2 := Orbit(gs[..0], a), Orbit(gs[..1], a), Orbit(gs[..2], a);
    assert o0 == [a];
    OrbitStage(gs, 0, a);
    Laue10Stage1(a, o0, o1);
    OrbitStage(gs, 1, a);
    Laue10Stage2(a, o1, o2);
    Laue10Listed(a, b, o2);
    assert gs[..2] == gs;
  }

  predicate Laue11AddedAtStage1(a: HKL, o: seq<HKL>)
  {
    var h, k, l := a.h, a.k, a.l;
    HKL(h - k, h, l) in o && HKL(-k, h - k, l) in o && HKL(-h, -k, l) in o && HKL(-h + k, -h, l) in o
    && HKL(k, -h + k, l) in o
  }

  predicate Laue11AfterStage1(a: HKL, o: seq<HKL>)
  {
    a in o && Laue11AddedAtStage1(a, o)
  }

  lemma Laue11Stage1(a: HKL, o0: seq<HKL>, o1: seq<HKL>)
    requires a in o0
    requires forall x :: SomePowerIn(SixFold001h, x, o0) ==> x in o1
    ensures Laue11AfterStage1(a, o1)
  {
    SixFoldStage1(a, o0, o1);
  }

  predicate Laue11AddedAtStage2(a: HKL, o: seq<HKL>)
  {
    var h, k, l := a.h, a.k, a.l;
    HKL(h - k, -k, -l) in o && HKL(-k, -h, -l) in o && HKL(-h, -h + k, -l) in o && HKL(-h + k, k, -l) in o
    && HKL(k, h, -l) in o && HKL(h, h - k, -l) in o
  }

  predicate Laue11AfterStage2(a: HKL, o: seq<HKL>)
  {
    Laue11AfterStage1(a, o) && Laue11AddedAtStage2(a, o)
  }

  lemma Laue11Stage2(a: HKL, o1: seq<HKL>, o2: seq<HKL>)
    requires Laue11AfterStage1(a, o1)
    requires forall x :: SomePowerIn(TwoFold100h, x, o1) ==> x in o2
    ensures Laue11AfterStage2(a, o2)
  {
  }

  predicate Laue11AddedAtStage3(a: HKL, o: seq<HKL>)
  {
    var h, k, l := a.h, a.k, a.l;
    HKL(h, k, -l) in o && HKL(h - k, h, -l) in o && HKL(-k, h - k, -l) in o && HKL(-h, -k, -l) in o
    && HKL(-h + k, -h, -l) in o && HKL(k, -h + k, -l) in o && HKL(h - k, -k, l) in o && HKL(-k, -h, l) in o
    && HKL(-h, -h + k, l) in o && HKL(-h + k, k, l) in o && HKL(k, h, l) in o && HKL(h, h - k, l) in o
  }

  predicate Laue11AfterStage3(a: HKL, o: seq<HKL>)
  {
    Laue11AfterStage2(a, o) && Laue11AddedAtStage3(a, o)
  }

  lemma Laue11AddsAtStage3(a: HKL, o2: seq<HKL>, o3: seq<HKL>)
    requires Laue11AfterStage2(a, o2)
    requires forall x :: SomePowerIn(Mirror001, x, o2) ==> x in o3
    ensures Laue11AddedAtStage3(a, o3)
  {
  }

  lemma Laue11Stage3(a: HKL, o2: seq<HKL>, o3: seq<HKL>)
    requires Laue11AfterStage2(a, o2)
    requires forall x :: SomePowerIn(Mirror001, x, o2) ==> x in o3
    ensures Laue11AfterStage3(a, o3)
  {
    Laue11AddsAtStage3(a, o2, o3);
  }

  lemma Laue11Listed(a: HKL, b: HKL, o: seq<HKL>)
    requires Laue11AfterStage3(a, o) && Laue11Equivalent(a, b)
    ensures b in o
  {
  }

  lemma Laue11TableReached(a: HKL, b: HKL)
    requires Laue11Equivalent(a, b)
    ensures b in Orbit(Generators(Laue11), a)
  {
    var gs := Generators(Laue11);
    var o0, o1, o2, o3 := Orbit(gs[..0], a), Orbit(gs[..1], a), Orbit(gs[..2], a), Orbit(gs[..3], a);
    assert o0 == [a];
    OrbitStage(gs, 0, a);
    Laue11Stage1(a, o0, o1);
    OrbitStage(gs, 1, a);
    Laue11Stage2(a, o1, o2);
    OrbitStage(gs, 2, a);
    Laue11Stage3(a, o2, o3);
    Laue11Listed(a, b, o3);
    assert gs[..3] == gs;
  }

  predicate Laue12AddedAtStage1(a: HKL, o: seq<HKL>)
  {
    var h, k, l := a.h, a.k, a.l;
    HKL(l, h, k) in o && HKL(k, l, h) in o
  }

  predicate Laue12AfterStage1(a: HKL, o: seq<HKL>)
  {
    a in o && Laue12AddedAtStage1(a, o)
  }

  lemma Laue12Stage1(a: HKL, o0: seq<HKL>, o1: seq<HKL>)
    requires a in o0
    requires forall x :: SomePowerIn(ThreeFold111, x, o0) ==> x in o1
    ensures Laue12AfterStage1(a, o1)
  {
  }

  predicate Laue12AddedAtStage2(a: HKL, o: seq<HKL>)
  {
    var h, k, l := a.h, a.k, a.l;
    HKL(-h, -k, l) in o && HKL(-l, -h, k) in o && HKL(-k, -l, h) in o
  }

  predicate Laue12AfterStage2(a: HKL, o: seq<HKL>)
  {
    Laue12AfterStage1(a, o) && Laue12AddedAtStage2(a, o)
  }

  lemma Laue12Stage2(a: HKL, o1: seq<HKL>, o2: seq<HKL>)
    requires Laue12AfterStage1(a, o1)
    requires forall x :: SomePowerIn(TwoFold001, x, o1) ==> x in o2
    ensures Laue12AfterStage2(a, o2)
  {
  }

  predicate Laue12AddedAtStage3(a: HKL, o: seq<HKL>)
  {
    var h, k, l := a.h, a.k, a.l;
    HKL(h, -k, l) in o && HKL(l, -h, k) in o && HKL(k, -l, h) in o && HKL(-h, k, l) in o
    && HKL(-l, h, k) in o && HKL(-k, l, h) in o
  }

  predicate Laue12AfterStage3(a: HKL, o: seq<HKL>)
  {
    Laue12AfterStage2(a, o) && Laue12AddedAtStage3(a, o)
  }

  lemma Laue12Stage3(a: HKL, o2: seq<HKL>, o3: seq<HKL>)
    requires Laue12AfterStage2(a, o2)
    requires forall x :: SomePowerIn(Mirror010, x, o2) ==> x in o3
    ensures Laue12AfterStage3(a, o3)
  {
  }

  predicate Laue12AddedAtStage4(a: HKL, o: seq<HKL>)
  {
    var h, k, l := a.h, a.k, a.l;
    HKL(-h, -k, -l) in o && HKL(-l, -h, -k) in o && HKL(-k, -l, -h) in o && HKL(h, k, -l) in o
    && HKL(l, h, -k) in o && HKL(k, l, -h) in o && HKL(-h, k, -l) in o && HKL(-l, h, -k) in o
    && HKL(-k, l, -h) in o && HKL(h, -k, -l) in o && HKL(l, -h, -k) in o && HKL(k, -l, -h) in o
  }

  predicate Laue12AfterStage4(a: HKL, o: seq<HKL>)
  {
    Laue12AfterStage3(a, o) && Laue12AddedAtStage4(a, o)
  }

  lemma Laue12AddsAtStage4(a: HKL, o3: seq<HKL>, o4: seq<HKL>)
    requires Laue12AfterStage3(a, o3)
    requires forall x :: SomePowerIn(Inversion, x, o3) ==> x in o4
    ensures Laue12AddedAtStage4(a, o4)
  {
  }

  lemma Laue12Stage4(a: HKL, o3: seq<HKL>, o4: seq<HKL>)
    requires Laue12AfterStage3(a, o3)
    requires forall x :: SomePowerIn(Inversion, x, o3) ==> x in o4
    ensures Laue12AfterStage4(a, o4)
  {
    Laue12AddsAtStage4(a, o3, o4);
  }

  lemma Laue12Listed(a: HKL, b: HKL, o: seq<HKL>)
    requires Laue12AfterStage4(a, o) && Laue12Equivalent(a, b)
    ensures b in o
  {
  }

  lemma Laue12TableReached(a: HKL, b: HKL)
    requires Laue12Equivalent(a, b)
    ensures b in Orbit(Generators(Laue12), a)
  {
    var gs := Generators(Laue12);
    var o0, o1, o2, o3, o4 := Orbit(gs[..0], a), Orbit(gs[..1], a), Orbit(gs[..2], a), Orbit(gs[..3], a), Orbit(gs[..4], a);
    assert o0 == [a];
    OrbitStage(gs, 0, a);
    Laue12Stage1(a, o0, o1);
    OrbitStage(gs, 1, a);
    Laue12Stage2(a, o1, o2);
    OrbitStage(gs, 2, a);
    Laue12Stage3(a, o2, o3);
    OrbitStage(gs, 3, a);
    Laue12Stage4(a, o3, o4);
    Laue12Listed(a, b, o4);
    assert gs[..4] == gs;
  }

  predicate Laue13AddedAtStage1(a: HKL, o: seq<HKL>)
  {
    var h, k, l := a.h, a.k, a.l;
    HKL(l, h, k) in o && HKL(k, l, h) in o
  }

  predicate Laue13AfterStage1(a: HKL, o: seq<HKL>)
  {
    a in o && Laue13AddedAtStage1(a, o)
  }

  lemma Laue13Stage1(a: HKL, o0: seq<HKL>, o1: seq<HKL>)
    requires a in o0
    requires forall x :: SomePowerIn(ThreeFold111, x, o0) ==> x in o1
    ensures Laue13AfterStage1(a, o1)
  {
  }

  predicate Laue13AddedAtStage2(a: HKL, o: seq<HKL>)
  {
    var h, k, l := a.h, a.k, a.l;
    HKL(-k, h, l) in o && HKL(-h, -k, l) in o && HKL(k, -h, l) in o && HKL(-h, l, k) in o
    && HKL(-l, -h, k) in o && HKL(h, -l, k) in o && HKL(-l, k, h) in o && HKL(-k, -l, h) in o
    && HKL(l, -k, h) in o
  }

  predicate Laue13AfterStage2(a: HKL, o: seq<HKL>)
  {
    Laue13AfterStage1(a, o) && Laue13AddedAtStage2(a, o)
  }

  lemma Laue13AddsAtStage2(a: HKL, o1: seq<HKL>, o2: seq<HKL>)
    requires Laue13AfterStage1(a, o1)
    requires forall x :: SomePowerIn(FourFold001, x, o1) ==> x in o2
    ensures Laue13AddedAtStage2(a, o2)
  {
  }

  lemma Laue13Stage2(a: HKL, o1: seq<HKL>, o2: seq<HKL>)
    requires Laue13AfterStage1(a, o1)
    requires forall x :: SomePowerIn(FourFold001, x, o1) ==> x in o2
    ensures Laue13AfterStage2(a, o2)
  {
    Laue13AddsAtStage2(a, o1, o2);
  }

  predicate Laue13AddedAtStage3(a: HKL, o: seq<HKL>)
  {
    var h, k, l := a.h, a.k, a.l;
    HKL(h, -k, l) in o && HKL(l, -h, k) in o && HKL(k, -l, h) in o && HKL(-k, -h, l) in o
    && HKL(-h, k, l) in o && HKL(k, h, l) in o && HKL(-h, -l, k) in o && HKL(-l, h, k) in o
    && HKL(h, l, k) in o && HKL(-l, -k, h) in o && HKL(-k, l, h) in o && HKL(l, k, h) in o
  }

  predicate Laue13AfterStage3(a: HKL, o: seq<HKL>)
  {
    Laue13AfterStage2(a, o) && Laue13AddedAtStage3(a, o)
  }

  lemma Laue13AddsAtStage3(a: HKL, o2: seq<HKL>, o3: seq<HKL>)
    requires Laue13AfterStage2(a, o2)
    requires forall x :: SomePowerIn(Mirror010, x, o2) ==> x in o3
    ensures Laue13AddedAtStage3(a, o3)
  {
  }

  lemma Laue13Stage3(a: HKL, o2: seq<HKL>, o3: seq<HKL>)
    requires Laue13AfterStage2(a, o2)
    requires forall x :: SomePowerIn(Mirror010, x, o2) ==> x in o3
    ensures Laue13AfterStage3(a, o3)
  {
    Laue13AddsAtStage3(a, o2, o3);
  }

  predicate Laue13AddedAtStage4Part1(a: HKL, o: seq<HKL>)
  {
    var h, k, l := a.h, a.k, a.l;
    HKL(-h, -k, -l) in o && HKL(-l, -h, -k) in o && HKL(-k, -l, -h) in o && HKL(k, -h, -l) in o
    && HKL(h, k, -l) in o && HKL(-k, h, -l) in o && HKL(h, -l, -k) in o && HKL(l, h, -k) in o
    && HKL(-h, l, -k) in o && HKL(l, -k, -h) in o && HKL(k, l, -h) in o && HKL(-l, k, -h) in o
  }

  predicate Laue13AddedAtStage4Part2(a: HKL, o: seq<HKL>)
  {
    var h, k, l := a.h, a.k, a.l;
    HKL(-h, k, -l) in o && HKL(-l, h, -k) in o && HKL(-k, l, -h) in o && HKL(k, h, -l) in o
    && HKL(h, -k, -l) in o && HKL(-k, -h, -l) in o && HKL(h, l, -k) in o && HKL(l, -h, -k) in o
    && HKL(-h, -l, -k) in o && HKL(l, k, -h) in o && HKL(k, -l, -h) in o && HKL(-l, -k, -h) in o
  }

  predicate Laue13AddedAtStage4(a: HKL, o: seq<HKL>)
  {
    Laue13AddedAtStage4Part1(a, o) && Laue13AddedAtStage4Part2(a, o)
  }

  predicate Laue13AfterStage4(a: HKL, o: seq<HKL>)
  {
    Laue13AfterStage3(a, o) && Laue13AddedAtStage4(a, o)
  }

  lemma Laue13AddsAtStage4Part1(a: HKL, o3: seq<HKL>, o4: seq<HKL>)
    requires Laue13AfterStage3(a, o3)
    requires forall x :: SomePowerIn(Inversion, x, o3) ==> x in o4
    ensures Laue13AddedAtStage4Part1(a, o4)
  {
  }

  lemma Laue13AddsAtStage4Part2(a: HKL, o3: seq<HKL>, o4: seq<HKL>)
    requires Laue13AfterStage3(a, o3)
    requires forall x :: SomePowerIn(Inversion, x, o3) ==> x in o4
    ensures Laue13AddedAtStage4Part2(a, o4)
  {
  }

  lemma Laue13Stage4(a: HKL, o3: seq<HKL>, o4: seq<HKL>)
    requires Laue13AfterStage3(a, o3)
    requires forall x :: SomePowerIn(Inversion, x, o3) ==> x in o4
    ensures Laue13AfterStage4(a, o4)
  {
    Laue13AddsAtStage4Part1(a, o3, o4);
    Laue13AddsAtStage4Part2(a, o3, o4);
  }

  lemma Laue13Listed(a: HKL, b: HKL, o: seq<HKL>)
    requires Laue13AfterStage4(a, o) && Laue13Equivalent(a, b)
    ensures b in o
  {
  }

  lemma Laue13TableReached(a: HKL, b: HKL)
    requires Laue13Equivalent(a, b)
    ensures b in Orbit(Generators(Laue13), a)
  {
    var gs := Generators(Laue13);
    var o0, o1, o2, o3, o4 := Orbit(gs[..0], a), Orbit(gs[..1], a), Orbit(gs[..2], a), Orbit(gs[..3], a), Orbit(gs[..4], a);
    assert o0 == [a];
    OrbitStage(gs, 0, a);
    Laue13Stage1(a, o0, o1);
    OrbitStage(gs, 1, a);
    Laue13Stage2(a, o1, o2);
    OrbitStage(gs, 2, a);
    Laue13Stage3(a, o2, o3);
    OrbitStage(gs, 3, a);
    Laue13Stage4(a, o3, o4);
    Laue13Listed(a, b, o4);
    assert gs[..4] == gs;
  }

  /** Every hkl a class's table lists for `a` is reached from `a` by generation
      with the class's generators. */
  lemma TableReached(c: LaueClass, a: HKL, b: HKL)
    requires IsEquivalent(c, a, b)
    ensures b in Orbit(Generators(c), a)
  {
    match c
      case Laue1 => Laue1TableReached(a, b);
      case Laue2 => Laue2TableReached(a, b);
      case Laue3 => Laue3TableReached(a, b);
      case Laue4 => Laue4TableReached(a, b);
      case Laue5 => Laue5TableReached(a, b);
      case Laue6 => Laue6TableReached(a, b);
      case Laue7 => Laue7TableReached(a, b);
      case Laue8 => Laue8TableReached(a, b);
      case Laue9 => Laue9TableReached(a, b);
      case Laue10 => Laue10TableReached(a, b);
      case Laue11 => Laue11TableReached(a, b);
      case Laue12 => Laue12TableReached(a, b);
      case Laue13 => Laue13TableReached(a, b);
  }

  /** Generation from a class's generators reaches from `a` exactly the hkls
      the class's `isEquivalent` accepts. */
  lemma OrbitIsTable(c: LaueClass, a: HKL, b: HKL)
    ensures b in Orbit(Generators(c), a) <==> IsEquivalent(c, a, b)
  {
    if b in Orbit(Generators(c), a) {
      IsEquivalentReflexive(c, a);
      OrbitPreserves(c, Generators(c), a, a);
    }
    if IsEquivalent(c, a, b) {
      TableReached(c, a, b);
    }
  }

  /** `isEquivalent` is transitive, so with reflexivity and symmetry each table
      describes an equivalence relation. */
  lemma IsEquivalentTransitive(c: LaueClass, a: HKL, b: HKL, d: HKL)
    requires IsEquivalent(c, a, b) && IsEquivalent(c, b, d)
    ensures IsEquivalent(c, a, d)
  {
    TableReached(c, b, d);
    OrbitPreserves(c, Generators(c), a, b);
  }

  /** With symmetry operations that realise the class's generators, the matrices
      `init` generates give `getEquivalentSet` exactly the hkls the class's
      `isEquivalent` accepts. */
  lemma GeneratedAgreesWithIsEquivalent(c: LaueClass, ops: seq<SymmetryOperation>, a: HKL, b: HKL)
    requires |ops| == |Generators(c)|
    requires forall i :: 0 <= i < |ops| ==> Realises(ops[i], Generators(c)[i])
    ensures b in EquivalentSet(Generated(ops), a) <==> IsEquivalent(c, a, b)
  {
    GeneratedRealised(ops, Generators(c), a);
    EquivalentSetIsImages(Generated(ops), a, b);
    OrbitIsTable(c, a, b);
    IsEquivalentReflexive(c, a);
  }

  /** Constructing `PointGroupLaueN` and running its `init`: the group carries the
      class's symbol, holds its generating operations, and its equivalent sets are
      exactly the pairs the class's `isEquivalent` table accepts. */
  method NewLaueGroup(c: LaueClass, ops: seq<SymmetryOperation>) returns (pg: PointGroup)
    requires |ops| == |Generators(c)|
    requires forall i :: 0 <= i < |ops| ==> Realises(ops[i], Generators(c)[i])
    ensures fresh(pg)
    ensures pg.GetSymbol() == Symbol(c)
    ensures pg.symmetryOperations == ops
    ensures forall a: HKL, b: HKL :: b in EquivalentSet(pg.transformationMatrices, a) <==> IsEquivalent(c, a, b)
  {
    pg := new PointGroup(Symbol(c));
    pg.Init(ops);
    assert [] + ops == ops;
    var matrices := pg.transformationMatrices;
    assert matrices == Generated(ops);
    forall a: HKL, b: HKL
      ensures b in EquivalentSet(matrices, a) <==> IsEquivalent(c, a, b)
    {
      GeneratedAgreesWithIsEquivalent(c, ops, a, b);
    }
  }
}
