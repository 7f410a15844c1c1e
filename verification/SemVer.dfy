/** Version precedence as in section 11 of SemVer 2.0.0, and the thresholds every
    gate of the upgrade job compares against. Build metadata is not modelled. */
module SemVer {
  datatype Ident = Numeric(n: nat) | Alpha(s: string)

  datatype Version = Version(major: nat, minor: nat, patch: nat, pre: seq<Ident>)

  /** Lexicographic extension of `lt`; a proper prefix comes first. */
  predicate LexLess<T(==)>(lt: (T, T) -> bool, xs: seq<T>, ys: seq<T>)
    decreases |ys|
  {
    ys != [] && (
      || xs == []
      || lt(xs[0], ys[0])
      || (xs[0] == ys[0] && LexLess(lt, xs[1..], ys[1..])))
  }

  predicate CharLess(a: char, b: char) {
    a < b
  }

  /** Numeric identifiers compare as numbers, always below alphanumeric ones, which
      compare in ASCII order. */
  predicate IdentLess(a: Ident, b: Ident) {
    match (a, b)
    case (Numeric(m), Numeric(n)) => m < n
    case (Numeric(_), Alpha(_)) => true
    case (Alpha(_), Numeric(_)) => false
    case (Alpha(s), Alpha(t)) => LexLess(CharLess, s, t)
  }

  /** A version without pre-release identifiers is above every pre-release of it. */
  predicate PreLess(p: seq<Ident>, q: seq<Ident>) {
    p != [] && (q == [] || LexLess(IdentLess, p, q))
  }

  predicate Less(a: Version, b: Version) {
    || a.major < b.major
    || (a.major == b.major && a.minor < b.minor)
    || (a.major == b.major && a.minor == b.minor && a.patch < b.patch)
    || (a.major == b.major && a.minor == b.minor && a.patch == b.patch && PreLess(a.pre, b.pre))
  }

  predicate AtLeast(a: Version, b: Version) {
    !Less(a, b)
  }

  function Stable(major: nat, minor: nat, patch: nat): Version {
    Version(major, minor, patch, [])
  }

  // ---------------------------------------------------------------- total order

  ghost predicate StrictTotalOrder<T(!new)>(lt: (T, T) -> bool) {
    && (forall x :: !lt(x, x))
    && (forall x, y, z :: lt(x, y) && lt(y, z) ==> lt(x, z))
    && (forall x, y :: lt(x, y) || x == y || lt(y, x))
  }

  lemma {:induction false} LexIrreflexive<T(!new)>(lt: (T, T) -> bool, xs: seq<T>)
    requires StrictTotalOrder(lt)
    ensures !LexLess(lt, xs, xs)
  {
    if xs != [] {
      LexIrreflexive(lt, xs[1..]);
    }
  }

  lemma {:induction false} LexTransitive<T(!new)>(lt: (T, T) -> bool, xs: seq<T>, ys: seq<T>, zs: seq<T>)
    requires StrictTotalOrder(lt)
    requires LexLess(lt, xs, ys) && LexLess(lt, ys, zs)
    ensures LexLess(lt, xs, zs)
  {
    if xs != [] && xs[0] == ys[0] == zs[0] {
      LexTransitive(lt, xs[1..], ys[1..], zs[1..]);
    }
  }

  lemma {:induction false} LexTotal<T(!new)>(lt: (T, T) -> bool, xs: seq<T>, ys: seq<T>)
    requires StrictTotalOrder(lt)
    ensures LexLess(lt, xs, ys) || xs == ys || LexLess(lt, ys, xs)
  {
    if xs != [] && ys != [] && xs[0] == ys[0] {
      LexTotal(lt, xs[1..], ys[1..]);
      assert xs == [xs[0]] + xs[1..] && ys == [ys[0]] + ys[1..];
    }
  }

  lemma IdentOrder()
    ensures StrictTotalOrder(IdentLess)
  {
    assert StrictTotalOrder(CharLess);
    forall x: Ident ensures !IdentLess(x, x) {
      if x.Alpha? { LexIrreflexive(CharLess, x.s); }
    }
    forall x: Ident, y: Ident, z: Ident | IdentLess(x, y) && IdentLess(y, z) ensures IdentLess(x, z) {
      if x.Alpha? { LexTransitive(CharLess, x.s, y.s, z.s); }
    }
    forall x: Ident, y: Ident ensures IdentLess(x, y) || x == y || IdentLess(y, x) {
      if x.Alpha? && y.Alpha? { LexTotal(CharLess, x.s, y.s); }
    }
  }

  /** Precedence is a strict total order on versions, pre-release lists included. */
  lemma PrecedenceIsStrictTotalOrder()
    ensures StrictTotalOrder(Less)
  {
    IdentOrder();
    forall x: Version ensures !Less(x, x) {
      LexIrreflexive(IdentLess, x.pre);
    }
    forall x: Version, y: Version, z: Version | Less(x, y) && Less(y, z) ensures Less(x, z) {
      PreTransitive(x.pre, y.pre, z.pre);
    }
    forall x: Version, y: Version ensures Less(x, y) || x == y || Less(y, x) {
      LexTotal(IdentLess, x.pre, y.pre);
    }
  }

  lemma PreTransitive(p: seq<Ident>, q: seq<Ident>, r: seq<Ident>)
    ensures PreLess(p, q) && PreLess(q, r) ==> PreLess(p, r)
  {
    IdentOrder();
    if PreLess(p, q) && PreLess(q, r) && r != [] {
      LexTransitive(IdentLess, p, q, r);
    }
  }

  /** `AtLeast` behaves as a non-strict total order. */
  lemma AtLeastTransitive(a: Version, b: Version, c: Version)
    requires AtLeast(a, b) && AtLeast(b, c)
    ensures AtLeast(a, c)
  {
    PrecedenceIsStrictTotalOrder();
  }

  lemma AtLeastIsLessOrEqual(a: Version, b: Version)
    ensures AtLeast(a, b) <==> Less(b, a) || a == b
  {
    PrecedenceIsStrictTotalOrder();
  }

  /** The two chains that section 11 of SemVer 2.0.0 gives as its examples. */
  lemma SpecificationExample()
    ensures Less(Stable(1, 0, 0), Stable(2, 0, 0))
            && Less(Stable(2, 0, 0), Stable(2, 1, 0)) && Less(Stable(2, 1, 0), Stable(2, 1, 1))
    ensures
      var v := (pre: seq<Ident>) => Version(1, 0, 0, pre);
      && Less(v([Alpha("alpha")]), v([Alpha("alpha"), Numeric(1)]))
      && Less(v([Alpha("alpha"), Numeric(1)]), v([Alpha("alpha"), Alpha("beta")]))
      && Less(v([Alpha("alpha"), Alpha("beta")]), v([Alpha("beta")]))
      && Less(v([Alpha("beta")]), v([Alpha("beta"), Numeric(2)]))
      && Less(v([Alpha("beta"), Numeric(2)]), v([Alpha("beta"), Numeric(11)]))
      && Less(v([Alpha("beta"), Numeric(11)]), v([Alpha("rc"), Numeric(1)]))
      && Less(v([Alpha("rc"), Numeric(1)]), v([]))
  {
    assert LexLess(CharLess, "alpha", "beta");
    assert LexLess(CharLess, "beta", "rc");
    assert [Alpha("alpha"), Numeric(1)][1..] == [Numeric(1)];
    assert [Alpha("alpha"), Alpha("beta")][1..] == [Alpha("beta")];
    assert [Alpha("beta"), Numeric(2)][1..] == [Numeric(2)];
    assert [Alpha("beta"), Numeric(11)][1..] == [Numeric(11)];
  }

  // ----------------------------------------------------------------- thresholds

  const LOWERBOUND := Stable(3, 0, 0)
  const THREE_DOT_FOUR_DOT_ONE := Stable(3, 4, 1)
  const PARTIAL_REBUILD_FROM := Stable(3, 7, 0)
  const PARTIAL_REBUILD_TO := Stable(3, 10, 0)
  const FOUR_DOT_O := Stable(4, 0, 0)
  const FOUR_DOT_THREE := Stable(4, 3, 0)

  const THRESHOLDS := [LOWERBOUND, THREE_DOT_FOUR_DOT_ONE, PARTIAL_REBUILD_FROM,
                       PARTIAL_REBUILD_TO, FOUR_DOT_O, FOUR_DOT_THREE]

  /** The number of thresholds that `v` has reached, counted one by one. */
  function Band(v: Version): nat {
    BandFrom(v, 0)
  }

  function BandFrom(v: Version, i: nat): nat
    requires i <= |THRESHOLDS|
    decreases |THRESHOLDS| - i
  {
    if i == |THRESHOLDS| || Less(v, THRESHOLDS[i]) then i else BandFrom(v, i + 1)
  }

  /** The thresholds are in strictly increasing order, so they cut the versions into
      seven bands: a version has reached exactly the thresholds below its band. */
  lemma BandsPartitionVersions(v: Version, i: nat)
    requires i < |THRESHOLDS|
    ensures forall j :: i < j < |THRESHOLDS| ==> Less(THRESHOLDS[i], THRESHOLDS[j])
    ensures AtLeast(v, THRESHOLDS[i]) <==> i < Band(v)
  {
  }

  /** A later version never falls back to a lower band. */
  lemma BandMonotone(a: Version, b: Version)
    requires AtLeast(b, a)
    ensures Band(a) <= Band(b)
  {
    if Band(b) < Band(a) {
      var i := Band(b);
      BandsPartitionVersions(a, i);
      BandsPartitionVersions(b, i);
      AtLeastTransitive(b, a, THRESHOLDS[i]);
    }
  }
}
