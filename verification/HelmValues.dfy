/** Helm values as trees, the overlays a `helm upgrade` command line builds, and what
    `--reset-then-reuse-values` keeps of the previous user values. */
module HelmValues {
  import opened Wrappers

  datatype Scalar = Bool(b: bool) | Text(s: string)

  datatype Node = Leaf(v: Scalar) | Table(m: map<string, Node>)

  const EMPTY := Table(map[])

  type Path = seq<string>

  /** Deep merge: `over` wins, and two tables are merged key by key. */
  function Merge(base: Node, over: Node): Node
    decreases over
  {
    if base.Table? && over.Table? then
      Table(map k | k in base.m.Keys + over.m.Keys ::
        if k !in over.m then base.m[k]
        else if k !in base.m then over.m[k]
        else Merge(base.m[k], over.m[k]))
    else
      over
  }

  /** The subtree found at `p`. */
  function At(n: Node, p: Path): Option<Node>
    decreases |p|
  {
    if p == [] then Some(n)
    else if n.Table? && p[0] in n.m then At(n.m[p[0]], p[1..])
    else None
  }

  /** The tree that holds `v` at `p` and nothing else. */
  function Chain(p: Path, v: Scalar): Node
    decreases |p|
  {
    if p == [] then Leaf(v) else Table(map[p[0] := Chain(p[1..], v)])
  }

  /** Whether merging `n` over a tree can change what that tree holds at `p`: `n` has a
      value on the way to `p`, or reaches `p`. */
  predicate Touches(n: Node, p: Path)
    decreases |p|
  {
    n.Leaf? || p == [] || (p[0] in n.m && Touches(n.m[p[0]], p[1..]))
  }

  predicate IsPrefix(p: Path, q: Path) {
    |p| <= |q| && p == q[..|p|]
  }

  lemma {:induction false} ChainTouchesComparable(q: Path, v: Scalar, p: Path)
    ensures Touches(Chain(q, v), p) <==> IsPrefix(p, q) || IsPrefix(q, p)
    decreases |q|
  {
    if q != [] && p != [] {
      if p[0] == q[0] {
        ChainTouchesComparable(q[1..], v, p[1..]);
        assert p == [p[0]] + p[1..] && q == [q[0]] + q[1..];
        assert IsPrefix(p[1..], q[1..]) <==> IsPrefix(p, q);
        assert IsPrefix(q[1..], p[1..]) <==> IsPrefix(q, p);
      } else {
        assert p[..|p|][0] != q[..|q|][0];
      }
    }
  }

  // ------------------------------------------------------- lookups through a merge

  lemma {:induction false} LeafWins(base: Node, over: Node, p: Path, v: Scalar)
    requires At(over, p) == Some(Leaf(v))
    ensures At(Merge(base, over), p) == Some(Leaf(v))
    decreases |p|
  {
    if p != [] && base.Table? && p[0] in base.m {
      LeafWins(base.m[p[0]], over.m[p[0]], p[1..], v);
    }
  }

  lemma {:induction false} UntouchedKept(base: Node, over: Node, p: Path)
    requires !Touches(over, p)
    ensures At(Merge(base, over), p) == At(base, p)
    decreases |p|
  {
    if p[0] in over.m {
      if base.Table? && p[0] in base.m {
        UntouchedKept(base.m[p[0]], over.m[p[0]], p[1..]);
      } else {
        UntouchedAbsent(over, p);
      }
    }
  }

  lemma {:induction false} UntouchedAbsent(n: Node, p: Path)
    requires !Touches(n, p)
    ensures At(n, p) == None
    decreases |p|
  {
    if p[0] in n.m { UntouchedAbsent(n.m[p[0]], p[1..]); }
  }

  lemma {:induction false} MergeTouchesNeither(a: Node, b: Node, p: Path)
    requires !Touches(a, p) && !Touches(b, p)
    ensures !Touches(Merge(a, b), p)
    decreases |p|
  {
    if p[0] in a.m && p[0] in b.m {
      MergeTouchesNeither(a.m[p[0]], b.m[p[0]], p[1..]);
    }
  }

  lemma {:induction false} ChainHoldsItsValue(p: Path, v: Scalar)
    ensures At(Chain(p, v), p) == Some(Leaf(v))
    decreases |p|
  {
    if p != [] { ChainHoldsItsValue(p[1..], v); }
  }

  /** A text value set on, above or below `p` leaves no boolean at `p`. */
  lemma {:induction false} TextDisplacesBool(base: Node, q: Path, s: string, p: Path, b: bool)
    requires Touches(Chain(q, Text(s)), p)
    ensures At(Merge(base, Chain(q, Text(s))), p) != Some(Leaf(Bool(b)))
    decreases |p|
  {
    if p != [] && q != [] {
      if base.Table? && p[0] in base.m {
        TextDisplacesBool(base.m[p[0]], q[1..], s, p[1..], b);
      } else {
        TextDisplacesBool(EMPTY, q[1..], s, p[1..], b);
        TextChainHoldsNoBool(q[1..], s, p[1..], b);
      }
    }
  }

  lemma {:induction false} TextChainHoldsNoBool(q: Path, s: string, p: Path, b: bool)
    ensures At(Chain(q, Text(s)), p) != Some(Leaf(Bool(b)))
    decreases |p|
  {
    if p != [] && q != [] && p[0] == q[0] { TextChainHoldsNoBool(q[1..], s, p[1..], b); }
  }

  /** What a lookup gives after `over` is merged over a tree in which it gave `before`: an
      overlay that does not touch the path keeps it, one that does replaces it, and a subtree
      is merged into the subtree that was there. */
  function Lay(over: Node, p: Path, before: Option<Node>): Option<Node> {
    var given := At(over, p);
    if !Touches(over, p) then before
    else if before.Some? && given.Some? then Some(Merge(before.value, given.value))
    else given
  }

  /** Every lookup in a merged tree follows from the lookup beneath. */
  lemma {:induction false} LookupThroughMerge(base: Node, over: Node, p: Path)
    ensures At(Merge(base, over), p) == Lay(over, p, At(base, p))
    decreases |p|
  {
    if !Touches(over, p) {
      UntouchedKept(base, over, p);
    } else if p != [] && base.Table? && over.Table? && p[0] in base.m {
      LookupThroughMerge(base.m[p[0]], over.m[p[0]], p[1..]);
    }
  }

  /** Two trees that no later merge can tell apart at `p`. */
  ghost predicate Agree(a: Node, b: Node, p: Path)
    decreases |p|
  {
    if !Touches(a, p) || !Touches(b, p) then !Touches(a, p) && !Touches(b, p)
    else if p == [] then a == b
    else (a.Leaf? && b.Leaf?) || (a.Table? && b.Table? && Agree(a.m[p[0]], b.m[p[0]], p[1..]))
  }

  lemma {:induction false} AgreeReflexive(a: Node, p: Path)
    ensures Agree(a, a, p)
    decreases |p|
  {
    if Touches(a, p) && p != [] && a.Table? { AgreeReflexive(a.m[p[0]], p[1..]); }
  }

  lemma {:induction false} AgreeingLookups(a: Node, b: Node, p: Path)
    requires Agree(a, b, p)
    ensures At(a, p) == At(b, p) && (Touches(a, p) <==> Touches(b, p))
    decreases |p|
  {
    if !Touches(a, p) {
      UntouchedAbsent(a, p);
      UntouchedAbsent(b, p);
    } else if p != [] && a.Table? {
      AgreeingLookups(a.m[p[0]], b.m[p[0]], p[1..]);
    }
  }

  lemma AgreeOffPath(a: Node, b: Node, p: Path)
    requires !Touches(a, p) && !Touches(b, p)
    ensures Agree(a, b, p)
  {
  }

  lemma LayOfAgreeing(a: Node, b: Node, p: Path, before: Option<Node>)
    requires Agree(a, b, p)
    ensures Lay(a, p, before) == Lay(b, p, before)
  {
    AgreeingLookups(a, b, p);
  }

  /** What lies beneath an overlay does not show at a path that it does not touch, nor, if the
      overlay touches the path, when it is a mere leaf there. */
  lemma {:induction false} OverlayDecides(a: Node, over: Node, p: Path)
    requires Touches(over, p) && (!Touches(a, p) || (At(a, p).Some? && At(a, p).value.Leaf?))
    ensures Agree(Merge(a, over), over, p)
    decreases |p|
  {
    if p != [] && a.Table? && over.Table? && p[0] in a.m {
      OverlayDecides(a.m[p[0]], over.m[p[0]], p[1..]);
    } else if p != [] && over.Table? {
      AgreeReflexive(over.m[p[0]], p[1..]);
    }
  }

  lemma {:induction false} AgreeMerge(a: Node, b: Node, over: Node, p: Path)
    requires Agree(a, b, p)
    ensures Agree(Merge(a, over), Merge(b, over), p)
    decreases |p|
  {
    if !Touches(a, p) {
      if Touches(over, p) {
        OverlayDecides(a, over, p);
        OverlayDecides(b, over, p);
        AgreeEuclidean(Merge(a, over), Merge(b, over), over, p);
      } else {
        MergeTouchesNeither(a, over, p);
        MergeTouchesNeither(b, over, p);
      }
    } else if p != [] && a.Table? && over.Table? && p[0] in over.m {
      AgreeMerge(a.m[p[0]], b.m[p[0]], over.m[p[0]], p[1..]);
    } else if a.Leaf? {
      AgreeReflexive(over, p);
    }
  }

  lemma {:induction false} AgreeEuclidean(a: Node, b: Node, c: Node, p: Path)
    requires Agree(a, c, p) && Agree(b, c, p)
    ensures Agree(a, b, p)
    decreases |p|
  {
    if Touches(a, p) && p != [] && a.Table? { AgreeEuclidean(a.m[p[0]], b.m[p[0]], c.m[p[0]], p[1..]); }
  }

  // --------------------------------------------------------- absorption on trees

  /** Same tables and same leaf positions; only the leaf values may differ. */
  ghost predicate SameShape(a: Node, b: Node)
    decreases a
  {
    || (a.Leaf? && b.Leaf?)
    || (a.Table? && b.Table? && a.m.Keys == b.m.Keys && forall k | k in a.m :: SameShape(a.m[k], b.m[k]))
  }

  lemma {:induction false} SameShapeReflexive(a: Node)
    ensures SameShape(a, a)
    decreases a
  {
    if a.Table? {
      forall k | k in a.m { SameShapeReflexive(a.m[k]); }
    }
  }

  lemma {:induction false} MergeKeepsShape(a: Node, a': Node, b: Node, b': Node)
    requires SameShape(a, a') && SameShape(b, b')
    ensures SameShape(Merge(a, b), Merge(a', b'))
    decreases b
  {
    if a.Table? && b.Table? {
      forall k | k in a.m && k in b.m { MergeKeepsShape(a.m[k], a'.m[k], b.m[k], b'.m[k]); }
    }
  }

  lemma {:induction false} OverlayReplacesItsShape(t: Node, t': Node)
    requires SameShape(t, t')
    ensures Merge(t', t) == t
    decreases t
  {
    if t.Table? {
      forall k | k in t.m { OverlayReplacesItsShape(t.m[k], t'.m[k]); }
      assert Merge(t', t).m == t.m;
    }
  }

  /** An overlay absorbs any earlier overlay of the same shape, whatever lies beneath. */
  lemma {:induction false} Absorption(user: Node, t: Node, t': Node)
    requires SameShape(t, t')
    ensures Merge(Merge(user, t'), t) == Merge(user, t)
    decreases t
  {
    if t.Table? && user.Table? {
      var twice, once := Merge(Merge(user, t'), t), Merge(user, t);
      forall k | k in once.m ensures twice.m[k] == once.m[k] {
        if k in t.m && k in user.m {
          Absorption(user.m[k], t.m[k], t'.m[k]);
        } else if k in t.m {
          OverlayReplacesItsShape(t.m[k], t'.m[k]);
        }
      }
      assert twice.m == once.m;
    } else {
      OverlayReplacesItsShape(t, t');
    }
  }

  /** Two overlays that never put a value where the other has anything commute. */
  ghost predicate Apart(a: Node, b: Node)
    decreases a
  {
    && a.Table? && b.Table?
    && forall k | k in a.m && k in b.m :: Apart(a.m[k], b.m[k])
  }

  lemma {:induction false} ApartCommute(base: Node, a: Node, b: Node)
    requires Apart(a, b)
    ensures Merge(Merge(base, a), b) == Merge(Merge(base, b), a)
    decreases a
  {
    if base.Leaf? {
      ApartUnionCommutes(a, b);
    } else {
      var l, r := Merge(Merge(base, a), b), Merge(Merge(base, b), a);
      forall k | k in l.m ensures l.m[k] == r.m[k] {
        if k in a.m && k in b.m {
          if k in base.m {
            ApartCommute(base.m[k], a.m[k], b.m[k]);
          } else {
            ApartUnionCommutes(a.m[k], b.m[k]);
          }
        }
      }
      assert l.m == r.m;
    }
  }

  lemma {:induction false} ApartUnionCommutes(a: Node, b: Node)
    requires Apart(a, b)
    ensures Merge(a, b) == Merge(b, a)
    decreases a
  {
    forall k | k in a.m && k in b.m { ApartUnionCommutes(a.m[k], b.m[k]); }
    assert Merge(a, b).m == Merge(b, a).m;
  }

  lemma {:induction false} ApartChains(p: Path, q: Path, v: Scalar, w: Scalar)
    requires !IsPrefix(p, q) && !IsPrefix(q, p)
    ensures Apart(Chain(p, v), Chain(q, w))
    decreases |p|
  {
    if p[0] == q[0] {
      assert p == [p[0]] + p[1..] && q == [q[0]] + q[1..];
      ApartChains(p[1..], q[1..], v, w);
    }
  }

  // ------------------------------------------------------------- the command line

  /** One `key=value` of a `--set` or `--set-file` option; the key has at least one part. */
  datatype Assign = Assign(head: string, rest: Path, value: Scalar)
  {
    function Key(): Path { [head] + rest }
    function Tree(): Node { Chain(Key(), value) }
  }

  /** `--set-file` values are file contents, hence always text. */
  type FileAssign = f: Assign | f.value.Text? witness Assign("", [], Text(""))

  datatype Arg =
    | Set(assigns: seq<Assign>)
    | SetFile(files: seq<FileAssign>)
    | ValuesFile(tree: Node)
    | ResetThenReuseValues

  function Trees(assigns: seq<Assign>): (r: seq<Node>)
    ensures |r| == |assigns| && forall i | 0 <= i < |r| :: r[i] == assigns[i].Tree()
  {
    if assigns == [] then [] else [assigns[0].Tree()] + Trees(assigns[1..])
  }

  function FileOverlays(args: seq<Arg>): seq<Node> {
    if args == [] then []
    else (if args[0].ValuesFile? then [args[0].tree] else []) + FileOverlays(args[1..])
  }

  function SetOverlays(args: seq<Arg>): seq<Node> {
    if args == [] then []
    else (if args[0].Set? then Trees(args[0].assigns) else []) + SetOverlays(args[1..])
  }

  function SetFileOverlays(args: seq<Arg>): seq<Node> {
    if args == [] then []
    else (if args[0].SetFile? then Trees(args[0].files) else []) + SetFileOverlays(args[1..])
  }

  function MergeAll(base: Node, overlays: seq<Node>): Node
    decreases |overlays|
  {
    if overlays == [] then base else MergeAll(Merge(base, overlays[0]), overlays[1..])
  }

  /** The values given on one command line: every `-f`, then every `--set`, then every
      `--set-file`, the last one winning, wherever the options stand. */
  function CommandLineValues(args: seq<Arg>): Node {
    MergeAll(MergeAll(MergeAll(EMPTY, FileOverlays(args)), SetOverlays(args)), SetFileOverlays(args))
  }

  /** The user values recorded by `helm upgrade` with `args` on a release whose user
      values were `user`. Chart defaults are not part of them. */
  function UpgradedValues(user: Node, args: seq<Arg>): Node {
    if ResetThenReuseValues in args then Merge(user, CommandLineValues(args)) else CommandLineValues(args)
  }

  /** What the templates see. */
  function Effective(chartDefaults: Node, user: Node): Node {
    Merge(chartDefaults, user)
  }

  // --------------------------------------------------------- lemmas on overlay lists

  lemma OverlaysAppend(xs: seq<Arg>, ys: seq<Arg>)
    ensures FileOverlays(xs + ys) == FileOverlays(xs) + FileOverlays(ys)
    ensures SetOverlays(xs + ys) == SetOverlays(xs) + SetOverlays(ys)
    ensures SetFileOverlays(xs + ys) == SetFileOverlays(xs) + SetFileOverlays(ys)
  {
    hide FileOverlays, SetOverlays, SetFileOverlays;
    FilesAppend(xs, ys);
    SetsAppend(xs, ys);
    SetFilesAppend(xs, ys);
  }

  lemma {:induction false} FilesAppend(xs: seq<Arg>, ys: seq<Arg>)
    ensures FileOverlays(xs + ys) == FileOverlays(xs) + FileOverlays(ys)
    decreases |xs|
  {
    if xs == [] {
      assert xs + ys == ys;
    } else {
      var first := if xs[0].ValuesFile? then [xs[0].tree] else [];
      assert (xs + ys)[1..] == xs[1..] + ys;
      FilesAppend(xs[1..], ys);
      assert FileOverlays(xs + ys) == first + (FileOverlays(xs[1..]) + FileOverlays(ys));
      assert FileOverlays(xs) + FileOverlays(ys) == first + FileOverlays(xs[1..]) + FileOverlays(ys);
    }
  }

  lemma {:induction false} SetsAppend(xs: seq<Arg>, ys: seq<Arg>)
    ensures SetOverlays(xs + ys) == SetOverlays(xs) + SetOverlays(ys)
    decreases |xs|
  {
    hide Trees;
    if xs == [] {
      assert xs + ys == ys;
    } else {
      var first := if xs[0].Set? then Trees(xs[0].assigns) else [];
      assert (xs + ys)[1..] == xs[1..] + ys;
      SetsAppend(xs[1..], ys);
      assert SetOverlays(xs + ys) == first + (SetOverlays(xs[1..]) + SetOverlays(ys));
      assert SetOverlays(xs) + SetOverlays(ys) == first + SetOverlays(xs[1..]) + SetOverlays(ys);
    }
  }

  lemma {:induction false} SetFilesAppend(xs: seq<Arg>, ys: seq<Arg>)
    ensures SetFileOverlays(xs + ys) == SetFileOverlays(xs) + SetFileOverlays(ys)
    decreases |xs|
  {
    hide Trees;
    if xs == [] {
      assert xs + ys == ys;
    } else {
      var first := if xs[0].SetFile? then Trees(xs[0].files) else [];
      assert (xs + ys)[1..] == xs[1..] + ys;
      SetFilesAppend(xs[1..], ys);
      assert SetFileOverlays(xs + ys) == first + (SetFileOverlays(xs[1..]) + SetFileOverlays(ys));
      assert SetFileOverlays(xs) + SetFileOverlays(ys) == first + SetFileOverlays(xs[1..]) + SetFileOverlays(ys);
    }
  }

  lemma OverlaysOfOne(arg: Arg)
    ensures FileOverlays([arg]) == if arg.ValuesFile? then [arg.tree] else []
    ensures SetOverlays([arg]) == if arg.Set? then Trees(arg.assigns) else []
    ensures SetFileOverlays([arg]) == if arg.SetFile? then Trees(arg.files) else []
  {
    assert [arg][1..] == [];
  }

  lemma {:induction false} MergeAllAppend(base: Node, xs: seq<Node>, ys: seq<Node>)
    ensures MergeAll(base, xs + ys) == MergeAll(MergeAll(base, xs), ys)
    decreases |xs|
  {
    if xs == [] {
      assert xs + ys == ys;
    } else {
      assert (xs + ys)[1..] == xs[1..] + ys;
      MergeAllAppend(Merge(base, xs[0]), xs[1..], ys);
    }
  }

  lemma {:induction false} MergeAllKeepsShape(a: Node, b: Node, overlays: seq<Node>)
    requires SameShape(a, b)
    ensures SameShape(MergeAll(a, overlays), MergeAll(b, overlays))
    decreases |overlays|
  {
    if overlays != [] {
      SameShapeReflexive(overlays[0]);
      MergeKeepsShape(a, b, overlays[0], overlays[0]);
      MergeAllKeepsShape(Merge(a, overlays[0]), Merge(b, overlays[0]), overlays[1..]);
    }
  }

  predicate AnyTouches(overlays: seq<Node>, p: Path) {
    exists n | n in overlays :: Touches(n, p)
  }

  lemma {:induction false} MergeAllUntouched(base: Node, overlays: seq<Node>, p: Path)
    requires !AnyTouches(overlays, p)
    ensures At(MergeAll(base, overlays), p) == At(base, p)
    ensures !Touches(base, p) ==> !Touches(MergeAll(base, overlays), p)
    decreases |overlays|
  {
    if overlays != [] {
      UntouchedKept(base, overlays[0], p);
      if !Touches(base, p) { MergeTouchesNeither(base, overlays[0], p); }
      MergeAllUntouched(Merge(base, overlays[0]), overlays[1..], p);
    }
  }

  /** A boolean at `p` survives a list of text assignments iff none of them touches `p`. */
  lemma {:induction false} BoolSurvivesTexts(base: Node, files: seq<FileAssign>, p: Path, b: bool)
    requires At(base, p) == Some(Leaf(Bool(b)))
    ensures At(MergeAll(base, Trees(files)), p) == Some(Leaf(Bool(b))) <==> !AnyTouches(Trees(files), p)
  {
    if !AnyTouches(Trees(files), p) {
      MergeAllUntouched(base, Trees(files), p);
    } else {
      TextsDisplaceBool(base, files, p, b);
    }
  }

  lemma {:induction false} TextsDisplaceBool(base: Node, files: seq<FileAssign>, p: Path, b: bool)
    requires AnyTouches(Trees(files), p)
    ensures At(MergeAll(base, Trees(files)), p) != Some(Leaf(Bool(b)))
    decreases |files|
  {
    var next := Merge(base, files[0].Tree());
    assert Trees(files)[1..] == Trees(files[1..]);
    if AnyTouches(Trees(files[1..]), p) {
      TextsDisplaceBool(next, files[1..], p, b);
    } else {
      TextDisplacesBool(base, files[0].Key(), files[0].value.s, p, b);
      MergeAllUntouched(next, Trees(files[1..]), p);
    }
  }

  lemma {:induction false} AgreeMergeAll(a: Node, b: Node, overlays: seq<Node>, p: Path)
    requires Agree(a, b, p)
    ensures Agree(MergeAll(a, overlays), MergeAll(b, overlays), p)
    decreases |overlays|
  {
    if overlays != [] {
      AgreeMerge(a, b, overlays[0], p);
      AgreeMergeAll(Merge(a, overlays[0]), Merge(b, overlays[0]), overlays[1..], p);
    }
  }

  /** A leaf at `p` leaves no mark on a list of overlays of which one touches `p`. */
  lemma {:induction false} OverlaysDecide(a: Node, b: Node, overlays: seq<Node>, p: Path)
    requires At(a, p).Some? && At(a, p).value.Leaf? && !Touches(b, p) && AnyTouches(overlays, p)
    ensures Agree(MergeAll(a, overlays), MergeAll(b, overlays), p)
    decreases |overlays|
  {
    var first := overlays[0];
    if Touches(first, p) {
      OverlayDecides(a, first, p);
      OverlayDecides(b, first, p);
      AgreeEuclidean(Merge(a, first), Merge(b, first), first, p);
      AgreeMergeAll(Merge(a, first), Merge(b, first), overlays[1..], p);
    } else {
      UntouchedKept(a, first, p);
      MergeTouchesNeither(b, first, p);
      OverlaysDecide(Merge(a, first), Merge(b, first), overlays[1..], p);
    }
  }

  /** Laying the same overlay again changes nothing. */
  lemma LayTwice(over: Node, p: Path, before: Option<Node>)
    ensures Lay(over, p, Lay(over, p, before)) == Lay(over, p, before)
  {
    var given := At(over, p);
    if given.Some? {
      SameShapeReflexive(given.value);
      OverlayReplacesItsShape(given.value, given.value);
      if before.Some? { Absorption(before.value, given.value, given.value); }
    }
  }

  /** The last overlay that has a leaf at `p` wins if no later one touches `p`. */
  lemma {:induction false} LastLeafWins(base: Node, overlays: seq<Node>, i: nat, p: Path, v: Scalar)
    requires i < |overlays| && At(overlays[i], p) == Some(Leaf(v))
    requires forall j | i < j < |overlays| :: !Touches(overlays[j], p)
    ensures At(MergeAll(base, overlays), p) == Some(Leaf(v))
    decreases i
  {
    if i > 0 {
      LastLeafWins(Merge(base, overlays[0]), overlays[1..], i - 1, p, v);
    } else {
      LeafWins(base, overlays[0], p, v);
      MergeAllUntouched(Merge(base, overlays[0]), overlays[1..], p);
    }
  }

  /** An assignment puts its value at its own path and reaches only comparable paths. */
  lemma AssignedTree(a: Assign, p: Path)
    ensures At(a.Tree(), [a.head] + a.rest) == Some(Leaf(a.value))
    ensures Touches(a.Tree(), p) <==> p <= [a.head] + a.rest || [a.head] + a.rest <= p
  {
    ChainHoldsItsValue([a.head] + a.rest, a.value);
    ChainTouchesComparable([a.head] + a.rest, a.value, p);
  }
}
