/** The override values file of one attempt: chart CRD sets that are already installed
    are switched off when the upgrade crosses 4.0.0. */
module CrdToggles {
  import opened Wrappers
  import opened SemVer
  import opened HelmValues

  type CrdSet = seq<string>

  const VOLUME_SNAPSHOTS: CrdSet := [
    "volumesnapshotclasses.snapshot.storage.k8s.io",
    "volumesnapshotcontents.snapshot.storage.k8s.io",
    "volumesnapshots.snapshot.storage.k8s.io"
  ]
  const JAEGER: CrdSet := ["jaegers.jaegertracing.io"]
  const ZFS: CrdSet := [
    "zfsvolumes.zfs.openebs.io",
    "zfsnodes.zfs.openebs.io",
    "zfsbackups.zfs.openebs.io",
    "zfsrestores.zfs.openebs.io",
    "zfssnapshots.zfs.openebs.io"
  ]
  const LVM: CrdSet := [
    "lvmvolumes.local.openebs.io",
    "lvmnodes.local.openebs.io",
    "lvmsnapshots.local.openebs.io"
  ]

  /** Which value each CRD set is switched by. */
  function TogglePath(crds: CrdSet): Path {
    if crds == VOLUME_SNAPSHOTS then ["openebs-crds", "csi", "volumeSnapshots", "enabled"]
    else if crds == JAEGER then ["mayastor", "crds", "jaeger", "enabled"]
    else if crds == ZFS then ["zfs-localpv", "crds", "zfsLocalPv", "enabled"]
    else ["lvm-localpv", "crds", "lvmLocalPv", "enabled"]
  }

  const SETS := [VOLUME_SNAPSHOTS, JAEGER, ZFS, LVM]

  /** A map of the CRD sets in `sets` to their switches. */
  function ToggleMap(sets: set<CrdSet>): map<CrdSet, Path> {
    map crds | crds in sets :: TogglePath(crds)
  }

  lemma SetsAreDistinct()
    ensures forall i, j | 0 <= i < j < |SETS| :: SETS[i] != SETS[j]
  {
    assert |VOLUME_SNAPSHOTS| == 3 && |JAEGER| == 1 && |ZFS| == 5 && |LVM| == 3;
    assert |VOLUME_SNAPSHOTS[0]| != |LVM[0]|;
  }

  method CrdNamesToHelmToggles() returns (toggles: map<CrdSet, Path>)
    ensures toggles == ToggleMap(set crds | crds in SETS)
  {
    SetsAreDistinct();
    assert SETS[0] != SETS[1] && SETS[0] != SETS[2] && SETS[0] != SETS[3];
    assert SETS[1] != SETS[2] && SETS[1] != SETS[3] && SETS[2] != SETS[3];
    toggles := map[];
    toggles := toggles[VOLUME_SNAPSHOTS := ["openebs-crds", "csi", "volumeSnapshots", "enabled"]];
    toggles := toggles[JAEGER := ["mayastor", "crds", "jaeger", "enabled"]];
    toggles := toggles[ZFS := ["zfs-localpv", "crds", "zfsLocalPv", "enabled"]];
    toggles := toggles[LVM := ["lvm-localpv", "crds", "lvmLocalPv", "enabled"]];
  }

  /** At least one CRD of the set is installed. */
  predicate AnyInstalled(crds: CrdSet, installed: seq<string>) {
    exists name | name in installed :: name in crds
  }

  function Write(file: Node, crds: CrdSet, installed: seq<string>): Node {
    if AnyInstalled(crds, installed) then Merge(file, Chain(TogglePath(crds), Bool(false))) else file
  }

  /** The file after handling `order`, front to back. */
  function Writes(file: Node, order: seq<CrdSet>, installed: seq<string>): Node
    decreases |order|
  {
    if order == [] then file else Writes(Write(file, order[0], installed), order[1..], installed)
  }

  function ToggleFile(installed: seq<string>): Node {
    Writes(EMPTY, SETS, installed)
  }

  ghost predicate NoDuplicates<T>(s: seq<T>) {
    forall i, j | 0 <= i < j < |s| :: s[i] != s[j]
  }

  lemma TogglesIncomparable(a: CrdSet, b: CrdSet)
    requires a in SETS && b in SETS && a != b
    ensures !IsPrefix(TogglePath(a), TogglePath(b))
    ensures TogglePath(a) != TogglePath(b)
  {
    SetsAreDistinct();
    assert SETS[1] != SETS[2] && SETS[0] != SETS[1] && SETS[0] != SETS[2];
    assert SETS[3] != SETS[0] && SETS[3] != SETS[1] && SETS[3] != SETS[2];
    assert TogglePath(VOLUME_SNAPSHOTS)[0][0] == 'o';
    assert TogglePath(JAEGER)[0][0] == 'm';
    assert TogglePath(ZFS)[0][0] == 'z';
    assert TogglePath(LVM)[0][0] == 'l';
    assert TogglePath(a)[0] != TogglePath(b)[0];
    assert TogglePath(b)[..|TogglePath(a)|][0] == TogglePath(b)[0];
  }

  lemma WritesCommute(file: Node, a: CrdSet, b: CrdSet, installed: seq<string>)
    requires a in SETS && b in SETS
    ensures Write(Write(file, a, installed), b, installed) == Write(Write(file, b, installed), a, installed)
  {
    if a != b {
      TogglesIncomparable(a, b);
      TogglesIncomparable(b, a);
      ApartChains(TogglePath(a), TogglePath(b), Bool(false), Bool(false));
      ApartCommute(file, Chain(TogglePath(a), Bool(false)), Chain(TogglePath(b), Bool(false)));
    }
  }

  /** Any entry can be handled first without changing the file. */
  lemma {:induction false} HandleFirst(file: Node, order: seq<CrdSet>, i: nat, installed: seq<string>)
    requires i < |order| && forall crds | crds in order :: crds in SETS
    ensures Writes(file, order, installed)
         == Writes(Write(file, order[i], installed), order[..i] + order[i + 1..], installed)
    decreases i
  {
    if i == 0 {
      assert order[..0] + order[1..] == order[1..];
    } else {
      var rest := order[1..];
      HandleFirst(Write(file, order[0], installed), rest, i - 1, installed);
      WritesCommute(file, order[0], order[i], installed);
      assert (order[..i] + order[i + 1..])[1..] == rest[..i - 1] + rest[i..];
    }
  }

  lemma RestIsSame(xs: seq<CrdSet>, ys: seq<CrdSet>, i: nat)
    requires NoDuplicates(xs) && NoDuplicates(ys) && xs != [] && i < |ys| && ys[i] == xs[0]
    requires forall crds :: crds in xs <==> crds in ys
    ensures NoDuplicates(xs[1..]) && NoDuplicates(ys[..i] + ys[i + 1..])
    ensures forall crds :: crds in xs[1..] <==> crds in ys[..i] + ys[i + 1..]
  {
    var ys' := ys[..i] + ys[i + 1..];
    assert forall k | 0 <= k < |ys'| :: ys'[k] == ys[if k < i then k else k + 1];
    forall crds ensures crds in xs[1..] <==> crds in xs && crds != xs[0] {
      if crds in xs && crds != xs[0] {
        var m :| 0 <= m < |xs| && xs[m] == crds;
        assert xs[1..][m - 1] == crds;
      }
    }
    forall crds ensures crds in ys' <==> crds in ys && crds != ys[i] {
      if crds in ys && crds != ys[i] {
        var m :| 0 <= m < |ys| && ys[m] == crds;
        assert ys'[if m < i then m else m - 1] == crds;
      }
    }
  }

  /** Confluence: every drain order of the same CRD sets writes the same file. */
  lemma {:induction false} OrderIrrelevant(file: Node, xs: seq<CrdSet>, ys: seq<CrdSet>, installed: seq<string>)
    requires NoDuplicates(xs) && NoDuplicates(ys)
    requires forall crds :: crds in xs <==> crds in ys
    requires forall crds | crds in xs :: crds in SETS
    ensures Writes(file, xs, installed) == Writes(file, ys, installed)
    decreases |xs|
  {
    assert forall j | 0 <= j < |ys| :: ys[j] in ys;
    if xs == [] {
      assert forall crds :: crds !in ys;
    } else {
      assert xs[0] in ys;
      var i :| 0 <= i < |ys| && ys[i] == xs[0];
      HandleFirst(file, ys, i, installed);
      var ys' := ys[..i] + ys[i + 1..];
      RestIsSame(xs, ys, i);
      OrderIrrelevant(Write(file, xs[0], installed), xs[1..], ys', installed);
    }
  }

  /** Drains the toggle map in whatever order it comes and writes the values file. */
  method SafeCrdInstall(installed: seq<string>) returns (file: Node)
    ensures file == ToggleFile(installed)
  {
    hide Writes, Merge, Chain, TogglePath, VOLUME_SNAPSHOTS, JAEGER, ZFS, LVM;
    var remaining := CrdNamesToHelmToggles();
    file := EMPTY;
    NoWrites(installed);
    ghost var order: seq<CrdSet> := [];
    while remaining != map[]
      invariant NoDuplicates(order)
      invariant forall crds | crds in remaining :: crds in SETS && crds !in order && remaining[crds] == TogglePath(crds)
      invariant forall crds :: crds in SETS <==> crds in order || crds in remaining
      invariant file == Writes(EMPTY, order, installed)
      decreases |remaining|
    {
      var crds :| crds in remaining;
      var toggle := remaining[crds];
      WritesAppend(EMPTY, order, crds, installed);
      remaining := remaining - {crds};
      if exists name | name in installed :: name in crds {
        file := Merge(file, Chain(toggle, Bool(false)));
      }
      order := order + [crds];
    }
    SetsAreDistinct();
    OrderIrrelevant(EMPTY, order, SETS, installed);
  }

  lemma NoWrites(installed: seq<string>)
    ensures Writes(EMPTY, [], installed) == EMPTY
  {
  }

  lemma {:induction false} WritesAppend(file: Node, order: seq<CrdSet>, crds: CrdSet, installed: seq<string>)
    ensures Writes(file, order + [crds], installed) == Write(Writes(file, order, installed), crds, installed)
    decreases |order|
  {
    if order == [] {
      assert order + [crds] == [crds];
    } else {
      assert (order + [crds])[1..] == order[1..] + [crds];
      WritesAppend(Write(file, order[0], installed), order[1..], crds, installed);
    }
  }

  /** A toggle is false in the file iff a CRD of its set is installed, and absent otherwise. */
  lemma TogglesFollowInstalledCrds(crds: CrdSet, installed: seq<string>)
    requires crds in SETS
    ensures At(ToggleFile(installed), TogglePath(crds))
         == if AnyInstalled(crds, installed) then Some(Leaf(Bool(false))) else None
  {
    var i :| 0 <= i < |SETS| && SETS[i] == crds;
    var rest := SETS[..i] + SETS[i + 1..];
    SetsAreDistinct();
    HandleFirst(EMPTY, SETS, i, installed);
    assert crds !in rest;
    var first := Write(EMPTY, crds, installed);
    if AnyInstalled(crds, installed) {
      ChainHoldsItsValue(TogglePath(crds), Bool(false));
      LeafWins(EMPTY, Chain(TogglePath(crds), Bool(false)), TogglePath(crds), Bool(false));
    }
    forall other | other in rest ensures !Touches(Chain(TogglePath(other), Bool(false)), TogglePath(crds)) {
      assert other in SETS;
      TogglesIncomparable(crds, other);
      TogglesIncomparable(other, crds);
      ChainTouchesComparable(TogglePath(other), Bool(false), TogglePath(crds));
    }
    WritesElsewhere(first, rest, installed, TogglePath(crds));
  }

  /** Without an installed CRD the file does not even reach the toggle. */
  lemma UninstalledUntouched(crds: CrdSet, installed: seq<string>)
    requires crds in SETS && !AnyInstalled(crds, installed)
    ensures !Touches(ToggleFile(installed), TogglePath(crds))
  {
    var i :| 0 <= i < |SETS| && SETS[i] == crds;
    var rest := SETS[..i] + SETS[i + 1..];
    SetsAreDistinct();
    HandleFirst(EMPTY, SETS, i, installed);
    forall other | other in rest ensures !Touches(Chain(TogglePath(other), Bool(false)), TogglePath(crds)) {
      assert other in SETS;
      TogglesIncomparable(crds, other);
      TogglesIncomparable(other, crds);
      ChainTouchesComparable(TogglePath(other), Bool(false), TogglePath(crds));
    }
    WritesElsewhere(EMPTY, rest, installed, TogglePath(crds));
  }

  lemma {:induction false} WritesElsewhere(file: Node, order: seq<CrdSet>, installed: seq<string>, p: Path)
    requires forall crds | crds in order :: !Touches(Chain(TogglePath(crds), Bool(false)), p)
    ensures At(Writes(file, order, installed), p) == At(file, p)
    ensures !Touches(file, p) ==> !Touches(Writes(file, order, installed), p)
    decreases |order|
  {
    if order != [] {
      var chain := Chain(TogglePath(order[0]), Bool(false));
      UntouchedKept(file, chain, p);
      if !Touches(file, p) { MergeTouchesNeither(file, chain, p); }
      WritesElsewhere(Write(file, order[0], installed), order[1..], installed, p);
    }
  }

  // ------------------------------------------------------------ the whole function

  /** The toggles are only computed when the upgrade crosses from below 4.0.0. */
  predicate Crosses(source: Version, target: Version) {
    Less(source, FOUR_DOT_O) && !Less(target, FOUR_DOT_O)
  }

  function ValuesFileFor(source: Version, target: Version, installed: seq<string>): Node {
    if Crosses(source, target) then ToggleFile(installed) else EMPTY
  }

  method GenerateValuesFile(source: Version, target: Version, installed: seq<string>) returns (file: Node)
    ensures file == ValuesFileFor(source, target, installed)
  {
    file := EMPTY;
    if Less(source, FOUR_DOT_O) && !Less(target, FOUR_DOT_O) {
      file := SafeCrdInstall(installed);
    }
  }

  /** The values file never reaches a path outside the four toggles. */
  lemma ValuesFileStaysOnToggles(source: Version, target: Version, installed: seq<string>, p: Path)
    requires p != []
    requires forall crds | crds in SETS :: !IsPrefix(TogglePath(crds), p) && !IsPrefix(p, TogglePath(crds))
    ensures !Touches(ValuesFileFor(source, target, installed), p)
  {
    forall crds | crds in SETS ensures !Touches(Chain(TogglePath(crds), Bool(false)), p) {
      ChainTouchesComparable(TogglePath(crds), Bool(false), p);
    }
    WritesElsewhere(EMPTY, SETS, installed, p);
  }
}
