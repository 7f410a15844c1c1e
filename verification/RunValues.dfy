/** What whole runs do to single values: the etcd pre-upgrade flag, the CRD toggles, and
    everything a repeated upgrade finds already in place. */
module RunValues {
  import opened Wrappers
  import opened SemVer
  import opened HelmValues
  import opened UpgradePlan
  import opened Restarts
  import opened CrdToggles

  function SetTrees(cfg: Config): seq<Node> {
    if cfg.argsSet.Some? then Trees(cfg.argsSet.value) else []
  }

  function SetFileTrees(cfg: Config): seq<Node> {
    if cfg.argsSetFile.Some? then Trees(cfg.argsSetFile.value) else []
  }

  /** None of the user's own `--set` and `--set-file` arguments reaches `p`. */
  predicate UserLeavesAlone(cfg: Config, p: Path) {
    !AnyTouches(SetTrees(cfg), p) && !AnyTouches(SetFileTrees(cfg), p)
  }

  function OptionalSet(cfg: Config): seq<Arg> {
    if cfg.argsSet.Some? then [Set(cfg.argsSet.value)] else []
  }

  function OptionalSetFile(cfg: Config): seq<Arg> {
    if cfg.argsSetFile.Some? then [SetFile(cfg.argsSetFile.value)] else []
  }

  lemma OptionalOverlays(cfg: Config)
    ensures FileOverlays(OptionalSet(cfg)) == [] && SetOverlays(OptionalSet(cfg)) == SetTrees(cfg)
    ensures SetFileOverlays(OptionalSet(cfg)) == [] && FileOverlays(OptionalSetFile(cfg)) == []
    ensures SetOverlays(OptionalSetFile(cfg)) == [] && SetFileOverlays(OptionalSetFile(cfg)) == SetFileTrees(cfg)
  {
    if cfg.argsSet.Some? { OverlaysOfOne(Set(cfg.argsSet.value)); }
    if cfg.argsSetFile.Some? { OverlaysOfOne(SetFile(cfg.argsSetFile.value)); }
  }

  /** The overlays that the job's own argument list amounts to. */
  lemma ExtraArgsOverlays(source: Version, a: Attempt)
    ensures
      var args := ExtraArgs(source, a);
      && FileOverlays(args) == [ValuesFileFor(source, a.cfg.target, a.obs.crds)]
      && SetOverlays(args) == SetTrees(a.cfg)
      && SetFileOverlays(args) == SetFileTrees(a.cfg)
  {
    var file := ValuesFile(ValuesFileFor(source, a.cfg.target, a.obs.crds));
    var sets, setFiles := OptionalSet(a.cfg), OptionalSetFile(a.cfg);
    assert ExtraArgs(source, a) == sets + setFiles + [file] + [ResetThenReuseValues];
    hide ValuesFileFor, ExtraArgs, OptionalSet, OptionalSetFile, SetTrees, SetFileTrees;
    hide FileOverlays, SetOverlays, SetFileOverlays;
    OptionalOverlays(a.cfg);
    OverlaysAppend(sets, setFiles);
    OverlaysOfOne(file);
    OverlaysAppend(sets + setFiles, [file]);
    OverlaysOfOne(ResetThenReuseValues);
    OverlaysAppend(sets + setFiles + [file], [ResetThenReuseValues]);
  }

  /** What is merged over the values file: the user's `--set`, then the flag of a two-step
      upgrade, then the user's `--set-file`. A caller knows all of it before the run. */
  function OptionTrees(cfg: Config, mode: Mode): seq<Node> {
    SetTrees(cfg) + (if mode.Plain? then [] else [FlagChain(mode.EtcdOn?)]) + SetFileTrees(cfg)
  }

  function Options(cfg: Config, mode: Mode): Node {
    MergeAll(EMPTY, OptionTrees(cfg, mode))
  }

  lemma CommandLine(source: Version, a: Attempt, mode: Mode)
    ensures
      var file := ValuesFileFor(source, a.cfg.target, a.obs.crds);
      CommandLineValues(HelmArgs(source, a, mode)) == MergeAll(Merge(EMPTY, file), OptionTrees(a.cfg, mode))
  {
    hide ValuesFileFor, ExtraArgs, Merge, SetTrees, SetFileTrees, FlagChain;
    var file := ValuesFileFor(source, a.cfg.target, a.obs.crds);
    var sets, files, base := SetTrees(a.cfg), SetFileTrees(a.cfg), Merge(EMPTY, file);
    ExtraArgsOverlays(source, a);
    assert [file][1..] == [];
    assert MergeAll(EMPTY, [file]) == MergeAll(base, []) == base;
    if mode.Plain? {
      assert OptionTrees(a.cfg, mode) == sets + files;
      MergeAllAppend(base, sets, files);
    } else {
      FlagArgs(source, a, mode);
      var flag := [FlagChain(mode.EtcdOn?)];
      MergeAllAppend(base, sets + flag, files);
      MergeAllAppend(base, sets, flag);
      assert flag[1..] == [];
      assert MergeAll(MergeAll(base, sets), flag) == MergeAll(Merge(MergeAll(base, sets), flag[0]), []);
    }
  }

  lemma EmptyTouchesNothing(p: Path)
    requires p != []
    ensures !Touches(EMPTY, p)
  {
  }

  /** Where the values file has nothing, the command line shows the options alone. */
  lemma OptionsShow(source: Version, a: Attempt, mode: Mode, p: Path)
    requires p != [] && !Touches(ValuesFileFor(source, a.cfg.target, a.obs.crds), p)
    ensures Agree(CommandLineValues(HelmArgs(source, a, mode)), Options(a.cfg, mode), p)
  {
    hide Touches, ValuesFileFor, Merge, HelmArgs, OptionTrees, At, Agree;
    var file := ValuesFileFor(source, a.cfg.target, a.obs.crds);
    CommandLine(source, a, mode);
    EmptyTouchesNothing(p);
    MergeTouchesNeither(EMPTY, file, p);
    AgreeOffPath(Merge(EMPTY, file), EMPTY, p);
    AgreeMergeAll(Merge(EMPTY, file), EMPTY, OptionTrees(a.cfg, mode), p);
  }

  /** Outside the values file, every value that an upgrade records is the user's and the
      flag's options laid over what was there: for any options and any earlier values. */
  lemma RecordedAt(user: Node, source: Version, a: Attempt, mode: Mode, p: Path)
    requires p != [] && !Touches(ValuesFileFor(source, a.cfg.target, a.obs.crds), p)
    ensures At(UpgradedValues(user, HelmArgs(source, a, mode)), p) == Lay(Options(a.cfg, mode), p, At(user, p))
  {
    hide Touches, ValuesFileFor, Merge, HelmArgs, Options, At, Agree;
    var values := CommandLineValues(HelmArgs(source, a, mode));
    OptionsShow(source, a, mode, p);
    ReuseAlwaysOn(source, a, mode);
    LookupThroughMerge(user, values, p);
    LayOfAgreeing(values, Options(a.cfg, mode), p, At(user, p));
  }

  lemma LaidByNothing(cfg: Config, mode: Mode, p: Path, before: Option<Node>)
    requires p != [] && !AnyTouches(OptionTrees(cfg, mode), p)
    ensures Lay(Options(cfg, mode), p, before) == before
  {
    EmptyTouchesNothing(p);
    MergeAllUntouched(EMPTY, OptionTrees(cfg, mode), p);
  }

  // ------------------------------------------------------- what the user asked for

  /** How many options come before the user's `--set-file`. */
  function BeforeFiles(cfg: Config, mode: Mode): nat {
    |SetTrees(cfg)| + (if mode.Plain? then 0 else 1)
  }

  /** The options behind the user's `--set`. */
  lemma FlagOrFile(cfg: Config, mode: Mode, j: nat)
    ensures var trees, n := OptionTrees(cfg, mode), BeforeFiles(cfg, mode);
      && |trees| == n + (if cfg.argsSetFile.Some? then |cfg.argsSetFile.value| else 0)
      && (!mode.Plain? ==> trees[n - 1] == FlagChain(mode.EtcdOn?))
      && (n <= j < |trees| ==> trees[j] == cfg.argsSetFile.value[j - n].Tree())
  {
    hide FlagChain;
  }

  lemma FileOption(cfg: Config, mode: Mode, j: nat, p: Path)
    requires cfg.argsSetFile.Some? && j < |cfg.argsSetFile.value|
    ensures
      var s, k, trees := cfg.argsSetFile.value, BeforeFiles(cfg, mode), OptionTrees(cfg, mode);
      && |trees| == k + |s|
      && At(trees[k + j], [s[j].head] + s[j].rest) == Some(Leaf(s[j].value))
      && (Touches(trees[k + j], p) <==> p <= [s[j].head] + s[j].rest || [s[j].head] + s[j].rest <= p)
  {
    hide At, Touches, OptionTrees, BeforeFiles, Chain, FlagChain;
    FlagOrFile(cfg, mode, BeforeFiles(cfg, mode) + j);
    AssignedTree(cfg.argsSetFile.value[j], p);
  }

  lemma FlagReaches(enabled: bool, p: Path)
    ensures var flag := ["mayastor", "etcd", "preUpgradeJob", "enabled"];
      Touches(FlagChain(enabled), p) <==> p <= flag || flag <= p
  {
    ChainTouchesComparable(ETCD_FLAG, Bool(enabled), p);
  }

  lemma OptionIsRecorded(user: Node, source: Version, a: Attempt, mode: Mode, i: nat, p: Path, v: Scalar)
    requires i < |OptionTrees(a.cfg, mode)| && At(OptionTrees(a.cfg, mode)[i], p) == Some(Leaf(v))
    requires forall j | i < j < |OptionTrees(a.cfg, mode)| :: !Touches(OptionTrees(a.cfg, mode)[j], p)
    ensures At(UpgradedValues(user, HelmArgs(source, a, mode)), p) == Some(Leaf(v))
  {
    hide At, Touches, HelmArgs, OptionTrees, Merge;
    var file := ValuesFileFor(source, a.cfg.target, a.obs.crds);
    CommandLine(source, a, mode);
    ReuseAlwaysOn(source, a, mode);
    LastLeafWins(Merge(EMPTY, file), OptionTrees(a.cfg, mode), i, p, v);
    LeafWins(user, CommandLineValues(HelmArgs(source, a, mode)), p, v);
  }

  /** Every value of the user's `--set` is recorded at its own path, whatever was there, unless
      a later `--set`, a `--set-file` or the flag of a two-step upgrade meets it. */
  lemma SetValueIsRecorded(user: Node, source: Version, a: Attempt, mode: Mode, i: nat)
    requires a.cfg.argsSet.Some? && i < |a.cfg.argsSet.value|
    requires
      var s, p := a.cfg.argsSet.value, [a.cfg.argsSet.value[i].head] + a.cfg.argsSet.value[i].rest;
      && (forall j | i < j < |s| :: !(p <= [s[j].head] + s[j].rest) && !([s[j].head] + s[j].rest <= p))
      && (a.cfg.argsSetFile.Some? ==> forall f | f in a.cfg.argsSetFile.value ::
            !(p <= [f.head] + f.rest) && !([f.head] + f.rest <= p))
      && (mode.Plain? || (!(p <= ["mayastor", "etcd", "preUpgradeJob", "enabled"])
                          && !(["mayastor", "etcd", "preUpgradeJob", "enabled"] <= p)))
    ensures
      var s := a.cfg.argsSet.value[i];
      At(UpgradedValues(user, HelmArgs(source, a, mode)), [s.head] + s.rest) == Some(Leaf(s.value))
  {
    hide At, Touches, MergeAll, HelmArgs, Trees, FlagChain, Merge;
    var cfg, s := a.cfg, a.cfg.argsSet.value;
    var p, trees := [s[i].head] + s[i].rest, OptionTrees(cfg, mode);
    assert trees[i] == SetTrees(cfg)[i] == s[i].Tree();
    AssignedTree(s[i], p);
    forall j | i < j < |trees| ensures !Touches(trees[j], p) {
      if j < |s| {
        assert trees[j] == s[j].Tree();
        AssignedTree(s[j], p);
      } else {
        FlagOrFile(cfg, mode, j);
        if !mode.Plain? && j == |s| {
          FlagReaches(mode.EtcdOn?, p);
        } else {
          AssignedTree(cfg.argsSetFile.value[j - BeforeFiles(cfg, mode)], p);
        }
      }
    }
    OptionIsRecorded(user, source, a, mode, i, p, s[i].value);
  }

  /** The same for every content of the user's `--set-file`, which only a later one can meet. */
  lemma SetFileValueIsRecorded(user: Node, source: Version, a: Attempt, mode: Mode, i: nat)
    requires a.cfg.argsSetFile.Some? && i < |a.cfg.argsSetFile.value|
    requires
      var s, p := a.cfg.argsSetFile.value, [a.cfg.argsSetFile.value[i].head] + a.cfg.argsSetFile.value[i].rest;
      forall j | i < j < |s| :: !(p <= [s[j].head] + s[j].rest) && !([s[j].head] + s[j].rest <= p)
    ensures
      var s := a.cfg.argsSetFile.value[i];
      At(UpgradedValues(user, HelmArgs(source, a, mode)), [s.head] + s.rest) == Some(Leaf(s.value))
  {
    hide At, Touches, HelmArgs, OptionTrees, SetTrees, UpgradedValues;
    var cfg, s, k := a.cfg, a.cfg.argsSetFile.value, BeforeFiles(a.cfg, mode);
    var p := [s[i].head] + s[i].rest;
    FileOption(cfg, mode, i, p);
    forall n | k + i < n < k + |s| ensures !Touches(OptionTrees(cfg, mode)[n], p) {
      FileOption(cfg, mode, n - k, p);
    }
    OptionIsRecorded(user, source, a, mode, k + i, p, s[i].value);
  }

  lemma UnmentionedInFile(source: Version, a: Attempt, p: Path)
    requires p != []
    requires Less(source, Stable(4, 0, 0)) && !Less(a.cfg.target, Stable(4, 0, 0)) ==>
               forall t | t in [["openebs-crds", "csi", "volumeSnapshots", "enabled"],
                                ["mayastor", "crds", "jaeger", "enabled"],
                                ["zfs-localpv", "crds", "zfsLocalPv", "enabled"],
                                ["lvm-localpv", "crds", "lvmLocalPv", "enabled"]] :: !(p <= t) && !(t <= p)
    ensures !Touches(ValuesFileFor(source, a.cfg.target, a.obs.crds), p)
  {
    hide Less;
    if Crosses(source, a.cfg.target) {
      forall crds | crds in SETS ensures !IsPrefix(TogglePath(crds), p) && !IsPrefix(p, TogglePath(crds)) {
        assert TogglePath(crds) in [["openebs-crds", "csi", "volumeSnapshots", "enabled"],
                                    ["mayastor", "crds", "jaeger", "enabled"],
                                    ["zfs-localpv", "crds", "zfsLocalPv", "enabled"],
                                    ["lvm-localpv", "crds", "lvmLocalPv", "enabled"]];
      }
      ValuesFileStaysOnToggles(source, a.cfg.target, a.obs.crds, p);
    } else {
      EmptyTouchesNothing(p);
    }
  }

  /** A value that nobody mentions is kept from the release: no argument of the user meets its
      path, the flag does not in a two-step upgrade, and no toggle does in a crossing of 4.0.0. */
  lemma UnmentionedValueIsKept(user: Node, source: Version, a: Attempt, mode: Mode, p: Path)
    requires p != []
    requires a.cfg.argsSet.Some? ==> forall s | s in a.cfg.argsSet.value ::
               !(p <= [s.head] + s.rest) && !([s.head] + s.rest <= p)
    requires a.cfg.argsSetFile.Some? ==> forall f | f in a.cfg.argsSetFile.value ::
               !(p <= [f.head] + f.rest) && !([f.head] + f.rest <= p)
    requires mode.Plain? || (!(p <= ["mayastor", "etcd", "preUpgradeJob", "enabled"])
                             && !(["mayastor", "etcd", "preUpgradeJob", "enabled"] <= p))
    requires Less(source, Stable(4, 0, 0)) && !Less(a.cfg.target, Stable(4, 0, 0)) ==>
               forall t | t in [["openebs-crds", "csi", "volumeSnapshots", "enabled"],
                                ["mayastor", "crds", "jaeger", "enabled"],
                                ["zfs-localpv", "crds", "zfsLocalPv", "enabled"],
                                ["lvm-localpv", "crds", "lvmLocalPv", "enabled"]] :: !(p <= t) && !(t <= p)
    ensures At(UpgradedValues(user, HelmArgs(source, a, mode)), p) == At(user, p)
  {
    hide At, Touches, HelmArgs, Lay, Options, Less, Trees, FlagChain;
    var cfg, trees := a.cfg, OptionTrees(a.cfg, mode);
    UnmentionedInFile(source, a, p);
    forall n | n in trees ensures !Touches(n, p) {
      var j :| 0 <= j < |trees| && trees[j] == n;
      FlagOrFile(cfg, mode, j);
      if j < |SetTrees(cfg)| {
        AssignedTree(cfg.argsSet.value[j], p);
      } else if !mode.Plain? && j == |SetTrees(cfg)| {
        FlagReaches(mode.EtcdOn?, p);
      } else {
        AssignedTree(cfg.argsSetFile.value[j - BeforeFiles(cfg, mode)], p);
      }
    }
    RecordedAt(user, source, a, mode, p);
    LaidByNothing(cfg, mode, p, At(user, p));
  }

  /** Some attempt of the run has an upgrade that takes effect. */
  predicate AnyEffect(c: Cluster, attempts: seq<Attempt>)
    decreases |attempts|
  {
    attempts != []
    && (FirstEffect(c.release, attempts[0]) != Nothing || AnyEffect(Next(c, attempts[0]), attempts[1..]))
  }

  /** From 4.0.0 on, retries with the same arguments lay the user's own options over every
      value, whatever pods and CRDs they find: once for all as soon as one takes effect. */
  lemma {:induction false} RetriesLayUserOptions(c: Cluster, later: seq<Attempt>, cfg: Config, p: Path)
    requires AtLeast(c.release.version, FOUR_DOT_O) && AtLeast(cfg.target, FOUR_DOT_O)
    requires p != [] && forall b | b in later :: b.cfg == cfg
    ensures
      var before, end := c.release, Run(c, later).release;
      && At(end.user, p) ==
           (if AnyEffect(c, later) then Lay(Options(cfg, Plain), p, At(before.user, p)) else At(before.user, p))
      && (before.version == cfg.target ==> end.version == cfg.target)
    decreases |later|
  {
    hide AllSucceed, BeforeHelm, UpgradedValues, HelmArgs, Options, Less, Touches, At, Lay, Next;
    if later != [] {
      var b, r := later[0], c.release;
      ReleaseAfter(c, b);
      NextRelease(c, b);
      EmptyTouchesNothing(p);
      RecordedAt(r.user, r.version, b, Plain, p);
      LayTwice(Options(cfg, Plain), p, At(r.user, p));
      RetriesLayUserOptions(Next(c, b), later[1..], cfg, p);
    }
  }

  // -------------------------------------------------------------------- the etcd flag

  const ON := Some(Leaf(Bool(true)))

  function Flag(r: Release): Option<Node> {
    At(r.user, ETCD_FLAG)
  }

  /** No `--set-file` of the user reaches the flag, so that the job's own `--set` has the
      last word on it. */
  predicate FlagWins(cfg: Config) {
    !AnyTouches(SetFileTrees(cfg), ETCD_FLAG)
  }

  lemma TogglesMissFlag(source: Version, target: Version, installed: seq<string>)
    ensures !Touches(ValuesFileFor(source, target, installed), ETCD_FLAG)
  {
    forall crds | crds in SETS
      ensures !IsPrefix(TogglePath(crds), ETCD_FLAG) && !IsPrefix(ETCD_FLAG, TogglePath(crds))
    {
      assert TogglePath(crds)[0] != "mayastor" || TogglePath(crds)[1] != "etcd";
    }
    ValuesFileStaysOnToggles(source, target, installed, ETCD_FLAG);
  }

  lemma FlagRecorded(user: Node, source: Version, a: Attempt, mode: Mode)
    ensures At(UpgradedValues(user, HelmArgs(source, a, mode)), ETCD_FLAG)
         == Lay(Options(a.cfg, mode), ETCD_FLAG, At(user, ETCD_FLAG))
  {
    TogglesMissFlag(source, a.cfg.target, a.obs.crds);
    RecordedAt(user, source, a, mode, ETCD_FLAG);
  }

  /** A plain upgrade keeps the flag that is there, if the user's arguments leave it alone. */
  lemma PlainKeepsFlag(user: Node, source: Version, a: Attempt)
    requires UserLeavesAlone(a.cfg, ETCD_FLAG)
    ensures At(UpgradedValues(user, HelmArgs(source, a, Plain)), ETCD_FLAG) == At(user, ETCD_FLAG)
  {
    FlagRecorded(user, source, a, Plain);
    LaidByNothing(a.cfg, Plain, ETCD_FLAG, At(user, ETCD_FLAG));
  }

  /** The options of a two-step upgrade hold the job's own flag exactly when no `--set-file`
      of the user reaches it; `--set` cannot interfere, because the job's own comes last. */
  lemma FlagInOptions(cfg: Config, mode: Mode)
    requires !mode.Plain?
    ensures At(Options(cfg, mode), ETCD_FLAG) == Some(Leaf(Bool(mode.EtcdOn?))) <==> FlagWins(cfg)
    ensures !FlagWins(cfg) ==> forall b :: At(Options(cfg, mode), ETCD_FLAG) != Some(Leaf(Bool(b)))
  {
    var sets, flag, files := SetTrees(cfg), FlagChain(mode.EtcdOn?), SetFileTrees(cfg);
    MergeAllAppend(EMPTY, sets + [flag], files);
    MergeAllAppend(EMPTY, sets, [flag]);
    assert [flag][1..] == [];
    var beneath := MergeAll(EMPTY, sets);
    assert MergeAll(beneath, [flag]) == MergeAll(Merge(beneath, flag), []);
    ChainHoldsItsValue(ETCD_FLAG, Bool(mode.EtcdOn?));
    LeafWins(beneath, flag, ETCD_FLAG, Bool(mode.EtcdOn?));
    if cfg.argsSetFile.Some? {
      BoolSurvivesTexts(Merge(beneath, flag), cfg.argsSetFile.value, ETCD_FLAG, mode.EtcdOn?);
      if !FlagWins(cfg) {
        forall b: bool { TextsDisplaceBool(Merge(beneath, flag), cfg.argsSetFile.value, ETCD_FLAG, b); }
      }
    }
  }

  /** So does the whole command line, values file included. */
  lemma FlagOnCommandLine(source: Version, a: Attempt, mode: Mode)
    requires !mode.Plain?
    ensures At(CommandLineValues(HelmArgs(source, a, mode)), ETCD_FLAG) == Some(Leaf(Bool(mode.EtcdOn?)))
       <==> FlagWins(a.cfg)
  {
    hide Touches, At, Options, HelmArgs, Agree, AnyTouches;
    FlagInOptions(a.cfg, mode);
    TogglesMissFlag(source, a.cfg.target, a.obs.crds);
    OptionsShow(source, a, mode, ETCD_FLAG);
    AgreeingLookups(CommandLineValues(HelmArgs(source, a, mode)), Options(a.cfg, mode), ETCD_FLAG);
  }

  /** The flag of the user's own options is a boolean only if no `--set-file` reaches it. */
  lemma UserFlagNeedsSet(cfg: Config, b: bool)
    requires !FlagWins(cfg)
    ensures At(Options(cfg, Plain), ETCD_FLAG) != Some(Leaf(Bool(b)))
  {
    hide Options, MergeAll, At, Touches, Trees;
    PlainOptions(cfg);
    TextsDisplaceBool(MergeAll(EMPTY, SetTrees(cfg)), cfg.argsSetFile.value, ETCD_FLAG, b);
  }

  lemma PlainOptions(cfg: Config)
    ensures Options(cfg, Plain) == MergeAll(MergeAll(EMPTY, SetTrees(cfg)), SetFileTrees(cfg))
  {
    hide MergeAll, SetTrees, SetFileTrees;
    assert OptionTrees(cfg, Plain) == SetTrees(cfg) + SetFileTrees(cfg);
    MergeAllAppend(EMPTY, SetTrees(cfg), SetFileTrees(cfg));
  }

  /** What is laid over a boolean flag decides whether it is on afterwards. */
  lemma OnAfterLay(over: Node, before: Option<Node>)
    ensures Lay(over, ETCD_FLAG, before) == ON
       <==> if Touches(over, ETCD_FLAG) then At(over, ETCD_FLAG) == ON else before == ON
    ensures At(over, ETCD_FLAG).Some? && At(over, ETCD_FLAG).value.Leaf? ==>
      Lay(over, ETCD_FLAG, before) == At(over, ETCD_FLAG)
  {
    if !Touches(over, ETCD_FLAG) { UntouchedAbsent(over, ETCD_FLAG); }
    hide Touches, At;
  }

  /** The flag after one attempt, for any arguments: each upgrade that took effect has laid
      its own options over it. */
  function FlagLeft(r: Release, a: Attempt): Option<Node> {
    var first := if FirstEffect(r, a).Nothing? then Flag(r)
      else Lay(Options(a.cfg, FirstMode(r, a)), ETCD_FLAG, Flag(r));
    if SecondEffect(r, a).Nothing? then first else Lay(Options(a.cfg, EtcdOn), ETCD_FLAG, first)
  }

  lemma FlagAfter(c: Cluster, a: Attempt)
    ensures Flag(Next(c, a).release) == FlagLeft(c.release, a)
  {
    hide Next, AllSucceed, BeforeHelm, UpgradedValues, HelmArgs, TwoStep, Options, Lay, At, Touches;
    var r, v := c.release, c.release.version;
    ReleaseAfter(c, a);
    var first := RecordUpgrade(r, a.cfg.target, HelmArgs(v, a, FirstMode(r, a)), FirstEffect(r, a));
    FlagRecorded(r.user, v, a, FirstMode(r, a));
    FlagRecorded(first.user, v, a, EtcdOn);
  }

  /** Unless a `--set-file` displaces it, the flag left by a two-step upgrade says whether its
      second half took effect; a single upgrade leaves what the user's options say, if they
      say anything. */
  lemma FlagLeftByJob(r: Release, a: Attempt)
    requires FirstEffect(r, a) != Nothing
    ensures TwoStep(r.version, a.obs) && FlagWins(a.cfg) ==>
              FlagLeft(r, a) == Some(Leaf(Bool(SecondEffect(r, a) != Nothing)))
    ensures !TwoStep(r.version, a.obs) ==> FlagLeft(r, a) == Lay(Options(a.cfg, Plain), ETCD_FLAG, Flag(r))
  {
    hide AllSucceed, BeforeHelm, TwoStep, Options, Lay, AnyTouches, At, Touches;
    FlagInOptions(a.cfg, EtcdOff);
    FlagInOptions(a.cfg, EtcdOn);
    OnAfterLay(Options(a.cfg, EtcdOff), Flag(r));
    OnAfterLay(Options(a.cfg, EtcdOn), Lay(Options(a.cfg, EtcdOff), ETCD_FLAG, Flag(r)));
  }

  lemma UserLaysNothing(cfg: Config, p: Path, before: Option<Node>)
    requires p != [] && UserLeavesAlone(cfg, p)
    ensures Lay(Options(cfg, Plain), p, before) == before
  {
    LaidByNothing(cfg, Plain, p, before);
  }

  /** An attempt switches on a flag that is not on (say, one left off by an upgrade that was
      interrupted between its two helm upgrades) iff its own second upgrade takes effect and
      no `--set-file` displaces the flag, or its only upgrade takes effect and carries a
      `true` of the user's own. The first needs a release below 4.0.0 and no etcd pods. */
  lemma FlagRestoredIff(c: Cluster, a: Attempt)
    requires Flag(c.release) != ON
    ensures Flag(Next(c, a).release) == ON
       <==> || (SecondEffect(c.release, a) != Nothing && FlagWins(a.cfg))
            || (!TwoStep(c.release.version, a.obs) && FirstEffect(c.release, a) != Nothing
                && At(Options(a.cfg, Plain), ETCD_FLAG) == ON)
    ensures SecondEffect(c.release, a) != Nothing ==> Less(c.release.version, FOUR_DOT_O) && a.obs.etcdPods == 0
  {
    hide Next, AllSucceed, BeforeHelm, Less, Options, Lay, AnyTouches, At, Touches;
    FlagAfter(c, a);
    var cfg, before := a.cfg, Flag(c.release);
    var first := Lay(Options(cfg, EtcdOff), ETCD_FLAG, before);
    FlagInOptions(cfg, EtcdOff);
    FlagInOptions(cfg, EtcdOn);
    OnAfterLay(Options(cfg, EtcdOff), before);
    OnAfterLay(Options(cfg, EtcdOn), first);
    OnAfterLay(Options(cfg, Plain), before);
    OnNeedsTouch(Options(cfg, Plain));
  }

  lemma OnNeedsTouch(over: Node)
    ensures At(over, ETCD_FLAG) == ON ==> Touches(over, ETCD_FLAG)
  {
    if !Touches(over, ETCD_FLAG) { UntouchedAbsent(over, ETCD_FLAG); }
  }

  /** At a target of 4.0.0 or later the flag never changes again, however often arguments
      that leave it alone are retried and whatever pods and CRDs they find. */
  lemma FlagFixedFromFourDotO(c: Cluster, later: seq<Attempt>, cfg: Config)
    requires AtLeast(c.release.version, FOUR_DOT_O) && AtLeast(cfg.target, FOUR_DOT_O)
    requires UserLeavesAlone(cfg, ETCD_FLAG) && forall b | b in later :: b.cfg == cfg
    ensures Flag(Run(c, later).release) == Flag(c.release)
  {
    RetriesLayUserOptions(c, later, cfg, ETCD_FLAG);
    UserLaysNothing(cfg, ETCD_FLAG, Flag(c.release));
  }

  /** The first attempt of the run with an upgrade that takes effect. */
  ghost predicate FirstToTakeEffect(c: Cluster, attempts: seq<Attempt>, i: nat)
    requires i < |attempts|
  {
    && (forall j | 0 <= j < i :: FirstEffect(c.release, attempts[j]) == Nothing)
    && FirstEffect(c.release, attempts[i]) != Nothing
  }

  /** An upgrade to 4.0.0 or later, retried with the same arguments, whatever they are: the
      first attempt that takes effect moves the release to the target for good, its one or
      two upgrades lay their options over the flag, and the retries lay the user's. */
  lemma {:induction false} FlagOverWholeRun(c: Cluster, attempts: seq<Attempt>, i: nat, cfg: Config)
    requires i < |attempts| && (forall b | b in attempts :: b.cfg == cfg) && FirstToTakeEffect(c, attempts, i)
    requires AtLeast(cfg.target, FOUR_DOT_O)
    ensures
      var end, left := Run(c, attempts).release, FlagLeft(c.release, attempts[i]);
      var retried := AnyEffect(Found(c, attempts, i + 1), attempts[i + 1..]);
      && end.version == cfg.target
      && Flag(end) == (if retried then Lay(Options(cfg, Plain), ETCD_FLAG, left) else left)
    decreases i
  {
    hide AllSucceed, BeforeHelm, Less, Options, Lay, At, FlagLeft;
    var c' := Next(c, attempts[0]);
    NextRelease(c, attempts[0]);
    if i > 0 {
      assert attempts[1..][i - 1] == attempts[i] && attempts[1..][i..] == attempts[i + 1..];
      assert attempts[..i + 1][1..] == attempts[1..][..i];
      FlagOverWholeRun(c', attempts[1..], i - 1, cfg);
    } else {
      FlagAfter(c, attempts[0]);
      RetriesLayUserOptions(c', attempts[1..], cfg, ETCD_FLAG);
      assert attempts[..1][1..] == [];
      assert Found(c, attempts, 1) == Run(c', []);
    }
  }

  /** Whether such a run ends with the flag on. After a two-step upgrade the user's own `--set`
      decides if a retry took effect and it says anything, and otherwise it is on iff the
      second upgrade of the deciding attempt took effect: a run interrupted between its two
      upgrades is repaired by no retry, save with the flag in the user's own arguments. */
  lemma EtcdFlagOverWholeRun(c: Cluster, attempts: seq<Attempt>, i: nat, cfg: Config)
    requires i < |attempts| && (forall b | b in attempts :: b.cfg == cfg) && FirstToTakeEffect(c, attempts, i)
    requires AtLeast(cfg.target, FOUR_DOT_O)
    ensures
      var r, user := c.release, Options(cfg, Plain);
      var twoStep, second := TwoStep(r.version, attempts[i].obs), SecondEffect(r, attempts[i]) != Nothing;
      var retried := AnyEffect(Found(c, attempts, i + 1), attempts[i + 1..]);
      Flag(Run(c, attempts).release) == ON <==>
        if twoStep && FlagWins(cfg) then
          if retried && Touches(user, ETCD_FLAG) then At(user, ETCD_FLAG) == ON else second
        else if twoStep then
          && Flag(r) == ON && !Touches(Options(cfg, EtcdOff), ETCD_FLAG)
          && (second ==> !Touches(Options(cfg, EtcdOn), ETCD_FLAG)) && (retried ==> !Touches(user, ETCD_FLAG))
        else
          if Touches(user, ETCD_FLAG) then At(user, ETCD_FLAG) == ON else Flag(r) == ON
  {
    hide AllSucceed, BeforeHelm, Less, Options, Lay, At, Touches, Run, AnyEffect, TwoStep, AnyTouches;
    var r, b, user := c.release, attempts[i], Options(cfg, Plain);
    FlagOverWholeRun(c, attempts, i, cfg);
    FlagLeftByJob(r, b);
    LayTwice(user, ETCD_FLAG, Flag(r));
    OnAfterLay(user, FlagLeft(r, b));
    OnAfterLay(user, Flag(r));
    if TwoStep(r.version, b.obs) && !FlagWins(cfg) {
      FlagInOptions(cfg, EtcdOff);
      FlagInOptions(cfg, EtcdOn);
      UserFlagNeedsSet(cfg, true);
      OnAfterLay(Options(cfg, EtcdOff), Flag(r));
      OnAfterLay(Options(cfg, EtcdOn), Lay(Options(cfg, EtcdOff), ETCD_FLAG, Flag(r)));
    }
  }

  lemma FilesMissFlag(cfg: Config)
    requires cfg.argsSetFile.Some? ==> forall f | f in cfg.argsSetFile.value ::
               && !([f.head] + f.rest <= ["mayastor", "etcd", "preUpgradeJob", "enabled"])
               && !(["mayastor", "etcd", "preUpgradeJob", "enabled"] <= [f.head] + f.rest)
    ensures FlagWins(cfg)
  {
    UserMissesPath(cfg.(argsSet := None), ETCD_FLAG);
  }

  /** In particular an undisturbed first attempt ends with the flag on, whatever the user sets
      it to, if no `--set-file` reaches it. */
  lemma UndisturbedUpgradeTurnsFlagOn(c: Cluster, a: Attempt)
    requires Undisturbed(a) && InputsAccepted(c.release, a)
    requires Less(c.release.version, Stable(4, 0, 0)) && a.obs.etcdPods == 0
    requires a.cfg.argsSetFile.Some? ==> forall f | f in a.cfg.argsSetFile.value ::
               && !([f.head] + f.rest <= ["mayastor", "etcd", "preUpgradeJob", "enabled"])
               && !(["mayastor", "etcd", "preUpgradeJob", "enabled"] <= [f.head] + f.rest)
    ensures At(Next(c, a).release.user, ["mayastor", "etcd", "preUpgradeJob", "enabled"]) == Some(Leaf(Bool(true)))
    ensures Next(c, a).release.version == a.cfg.target && Next(c, a).release.status.Deployed?
  {
    hide AnyTouches, Next, UpgradedValues, HelmArgs, Options, Touches, At, AllSucceed, BeforeHelm, InputsAccepted, Less;
    FilesMissFlag(a.cfg);
    ReachesHelm(c.release, a);
    FlagAfter(c, a);
    FlagLeftByJob(c.release, a);
    ReleaseAfter(c, a);
  }

  /** The attempt that is interrupted between its two helm upgrades. */
  function Interrupted(cfg: Config): Attempt {
    Attempt(cfg, Observed(HELM_THREE_DOT_FOURTEEN, true, [], 0), Readers(n => true, n => true),
            step => if step == Helm(EtcdOn) then Dies(Nothing) else Succeeds)
  }

  /** It leaves the flag off on a release settled at the target, and with a target of 4.0.0 or
      later no retries end with the flag on, unless the user's own options say so. */
  lemma InterruptedStaysOff(c: Cluster, cfg: Config, later: seq<Attempt>)
    requires ReleaseAccepted(c.release) && PathAccepted(c.release.version, cfg)
    requires Less(c.release.version, FOUR_DOT_O) && FlagWins(cfg) && SameArguments(later, cfg)
    ensures var r' := Next(c, Interrupted(cfg)).release;
      r'.version == cfg.target && r'.status.Deployed? && Flag(r') == Some(Leaf(Bool(false)))
    ensures AtLeast(cfg.target, FOUR_DOT_O) && At(Options(cfg, Plain), ETCD_FLAG) != ON ==>
      Flag(Run(c, [Interrupted(cfg)] + later).release) != ON
  {
    hide Touches, At, Lay, Options, UpgradedValues, HelmArgs, AnyTouches, Next, BeforeHelm, AllSucceed, Less, Run;
    var a := Interrupted(cfg);
    AtLeastIsLessOrEqual(HELM_THREE_DOT_FOURTEEN, HELM_THREE_DOT_FOURTEEN);
    ReachesHelm(c.release, a);
    ReleaseAfter(c, a);
    FlagAfter(c, a);
    FlagLeftByJob(c.release, a);
    if AtLeast(cfg.target, FOUR_DOT_O) {
      RunFirst(c, a, later);
      RetriesLayUserOptions(Next(c, a), later, cfg, ETCD_FLAG);
      OnAfterLay(Options(cfg, Plain), Flag(Next(c, a).release));
    }
  }

  lemma RunFirst(c: Cluster, a: Attempt, later: seq<Attempt>)
    ensures Run(c, [a] + later) == Run(Next(c, a), later)
  {
    hide Next;
    assert ([a] + later)[0] == a && ([a] + later)[1..] == later;
  }

  /** For any target, the flag at the end of a run is what the last attempt that took effect
      left. */
  lemma LastEffectLeavesFlag(c: Cluster, attempts: seq<Attempt>, i: nat)
    requires i < |attempts| && !AnyEffect(Found(c, attempts, i + 1), attempts[i + 1..])
    ensures Flag(Run(c, attempts).release) == FlagLeft(Found(c, attempts, i).release, attempts[i])
  {
    hide Next, FlagLeft, AnyEffect, FirstEffect;
    FlagAfter(Found(c, attempts, i), attempts[i]);
    assert attempts[..i + 1] == attempts[..i] + [attempts[i]];
    RunAppend(c, attempts[..i], [attempts[i]]);
    assert [attempts[i]][1..] == [];
    assert Run(Found(c, attempts, i), [attempts[i]]) == Run(Next(Found(c, attempts, i), attempts[i]), []);
    assert attempts == attempts[..i + 1] + attempts[i + 1..];
    RunAppend(c, attempts[..i + 1], attempts[i + 1..]);
    NoEffectNoChange(Found(c, attempts, i + 1), attempts[i + 1..]);
  }

  lemma {:induction false} NoEffectNoChange(c: Cluster, attempts: seq<Attempt>)
    requires !AnyEffect(c, attempts)
    ensures Run(c, attempts).release == c.release
    decreases |attempts|
  {
    hide Next, FirstEffect;
    if attempts != [] {
      NextRelease(c, attempts[0]);
      NoEffectNoChange(Next(c, attempts[0]), attempts[1..]);
    }
  }

  /** Below 4.0.0 it is the other way round: while the target is below it too, every retry
      without etcd pods upgrades in two steps again, so the last attempt to take effect
      decides and not the first, and an interrupted run can be repaired by a retry. */
  lemma LastDecidesBelowFourDotO(c: Cluster, attempts: seq<Attempt>, i: nat, cfg: Config)
    requires i < |attempts| && SameArguments(attempts, cfg) && FlagWins(cfg)
    requires Less(c.release.version, FOUR_DOT_O) && Less(cfg.target, FOUR_DOT_O) && attempts[i].obs.etcdPods == 0
    requires FirstEffect(Found(c, attempts, i).release, attempts[i]) != Nothing
    requires !AnyEffect(Found(c, attempts, i + 1), attempts[i + 1..])
    ensures Flag(Run(c, attempts).release)
         == Some(Leaf(Bool(SecondEffect(Found(c, attempts, i).release, attempts[i]) != Nothing)))
    ensures Undisturbed(attempts[i]) ==> Flag(Run(c, attempts).release) == ON
  {
    hide Next, FlagLeft, AnyEffect, BeforeHelm, AllSucceed, FlagWins, Less, Flag;
    var found := Found(c, attempts, i);
    OneTarget(c, attempts[..i], cfg.target);
    LastEffectLeavesFlag(c, attempts, i);
    FlagLeftByJob(found.release, attempts[i]);
  }

  // ------------------------------------------------------------------ the CRD toggles

  /** A toggle after a helm upgrade that found it at `before`. */
  function Toggled(source: Version, a: Attempt, mode: Mode, crds: CrdSet, before: Option<Node>): Option<Node> {
    var p := TogglePath(crds);
    if Crosses(source, a.cfg.target) && AnyInstalled(crds, a.obs.crds) && UserLeavesAlone(a.cfg, p)
    then Some(Leaf(Bool(false)))
    else Lay(Options(a.cfg, mode), p, before)
  }

  /** A toggle after any helm upgrade: off if this upgrade crosses to 4.0.0, a CRD of the set
      is installed and the user's arguments leave the toggle alone; otherwise what the
      user's options make of whatever it was. */
  lemma ToggleAfterUpgrade(user: Node, source: Version, a: Attempt, mode: Mode, crds: CrdSet)
    requires crds in SETS
    ensures At(UpgradedValues(user, HelmArgs(source, a, mode)), TogglePath(crds))
         == Toggled(source, a, mode, crds, At(user, TogglePath(crds)))
    ensures UserLeavesAlone(a.cfg, TogglePath(crds)) ==>
              Lay(Options(a.cfg, mode), TogglePath(crds), At(user, TogglePath(crds))) == At(user, TogglePath(crds))
  {
    hide Touches, ToggleFile, AnyTouches, AnyInstalled, Crosses, Less, At, Lay, Merge, OptionTrees, Agree, HelmArgs;
    var p, file := TogglePath(crds), ValuesFileFor(source, a.cfg.target, a.obs.crds);
    ToggleInFile(source, a.cfg.target, a.obs.crds, crds);
    OptionsTouchToggle(a.cfg, mode, crds);
    if UserLeavesAlone(a.cfg, p) { LaidByNothing(a.cfg, mode, p, At(user, p)); }
    if Crosses(source, a.cfg.target) && AnyInstalled(crds, a.obs.crds) {
      var trees, values, base :=
        OptionTrees(a.cfg, mode), CommandLineValues(HelmArgs(source, a, mode)), Merge(EMPTY, file);
      CommandLine(source, a, mode);
      ReuseAlwaysOn(source, a, mode);
      LeafWins(EMPTY, file, p, Bool(false));
      if UserLeavesAlone(a.cfg, p) {
        MergeAllUntouched(base, trees, p);
        LeafWins(user, values, p, Bool(false));
      } else {
        EmptyTouchesNothing(p);
        OverlaysDecide(base, EMPTY, trees, p);
        LookupThroughMerge(user, values, p);
        LayOfAgreeing(values, Options(a.cfg, mode), p, At(user, p));
      }
    } else {
      RecordedAt(user, source, a, mode, p);
    }
  }

  lemma OptionsTouchToggle(cfg: Config, mode: Mode, crds: CrdSet)
    requires crds in SETS
    ensures AnyTouches(OptionTrees(cfg, mode), TogglePath(crds)) <==> !UserLeavesAlone(cfg, TogglePath(crds))
  {
    hide Touches, SetTrees, SetFileTrees, FlagChain, TogglePath;
    FlagMissesToggle(crds, mode.EtcdOn?);
    var p, sets, files := TogglePath(crds), SetTrees(cfg), SetFileTrees(cfg);
    var flag := if mode.Plain? then [] else [FlagChain(mode.EtcdOn?)];
    assert forall n :: n in sets + flag + files <==> n in sets || n in flag || n in files;
  }

  lemma FlagMissesToggle(crds: CrdSet, enabled: bool)
    requires crds in SETS
    ensures !Touches(FlagChain(enabled), TogglePath(crds))
  {
    ChainTouchesComparable(ETCD_FLAG, Bool(enabled), TogglePath(crds));
    assert TogglePath(crds)[0] != "mayastor" || TogglePath(crds)[1] != "etcd";
  }

  lemma ToggleInFile(source: Version, target: Version, installed: seq<string>, crds: CrdSet)
    requires crds in SETS
    ensures var file := ValuesFileFor(source, target, installed);
      if Crosses(source, target) && AnyInstalled(crds, installed)
      then At(file, TogglePath(crds)) == Some(Leaf(Bool(false)))
      else !Touches(file, TogglePath(crds))
  {
    hide AnyInstalled;
    TogglesFollowInstalledCrds(crds, installed);
    EmptyTouchesNothing(TogglePath(crds));
    if Crosses(source, target) && !AnyInstalled(crds, installed) {
      UninstalledUntouched(crds, installed);
    }
  }

  /** The four toggles by name: after an upgrade from below 4.0.0 to 4.0.0 or later, with one of
      its CRDs installed and no argument of the user on it, a toggle is off; otherwise it is
      what it was. */
  lemma TogglesByName(user: Node, source: Version, a: Attempt, mode: Mode, p: Path, names: seq<string>)
    requires
      || (p == ["openebs-crds", "csi", "volumeSnapshots", "enabled"]
          && names == ["volumesnapshotclasses.snapshot.storage.k8s.io",
                       "volumesnapshotcontents.snapshot.storage.k8s.io",
                       "volumesnapshots.snapshot.storage.k8s.io"])
      || (p == ["mayastor", "crds", "jaeger", "enabled"] && names == ["jaegers.jaegertracing.io"])
      || (p == ["zfs-localpv", "crds", "zfsLocalPv", "enabled"]
          && names == ["zfsvolumes.zfs.openebs.io", "zfsnodes.zfs.openebs.io", "zfsbackups.zfs.openebs.io",
                       "zfsrestores.zfs.openebs.io", "zfssnapshots.zfs.openebs.io"])
      || (p == ["lvm-localpv", "crds", "lvmLocalPv", "enabled"]
          && names == ["lvmvolumes.local.openebs.io", "lvmnodes.local.openebs.io", "lvmsnapshots.local.openebs.io"])
    requires a.cfg.argsSet.Some? ==> forall s | s in a.cfg.argsSet.value ::
               !(p <= [s.head] + s.rest) && !([s.head] + s.rest <= p)
    requires a.cfg.argsSetFile.Some? ==> forall f | f in a.cfg.argsSetFile.value ::
               !(p <= [f.head] + f.rest) && !([f.head] + f.rest <= p)
    ensures At(UpgradedValues(user, HelmArgs(source, a, mode)), p)
         == if Less(source, Stable(4, 0, 0)) && !Less(a.cfg.target, Stable(4, 0, 0))
               && exists name :: name in a.obs.crds && name in names
            then Some(Leaf(Bool(false))) else At(user, p)
  {
    hide At, Touches, HelmArgs, UpgradedValues, Lay, Options, Less, Trees;
    SetOf(p, names);
    ToggleAfterUpgrade(user, source, a, mode, names);
    UserMissesPath(a.cfg, p);
  }

  lemma SetOf(p: Path, names: seq<string>)
    requires
      || (p == ["openebs-crds", "csi", "volumeSnapshots", "enabled"] && names == VOLUME_SNAPSHOTS)
      || (p == ["mayastor", "crds", "jaeger", "enabled"] && names == JAEGER)
      || (p == ["zfs-localpv", "crds", "zfsLocalPv", "enabled"] && names == ZFS)
      || (p == ["lvm-localpv", "crds", "lvmLocalPv", "enabled"] && names == LVM)
    ensures names in SETS && TogglePath(names) == p
  {
    SetsAreDistinct();
    assert SETS[0] != SETS[1] && SETS[0] != SETS[2] && SETS[0] != SETS[3];
    assert SETS[1] != SETS[2] && SETS[1] != SETS[3] && SETS[2] != SETS[3];
  }

  lemma UserMissesPath(cfg: Config, p: Path)
    requires cfg.argsSet.Some? ==> forall s | s in cfg.argsSet.value ::
               !(p <= [s.head] + s.rest) && !([s.head] + s.rest <= p)
    requires cfg.argsSetFile.Some? ==> forall f | f in cfg.argsSetFile.value ::
               !(p <= [f.head] + f.rest) && !([f.head] + f.rest <= p)
    ensures UserLeavesAlone(cfg, p)
  {
    hide Touches;
    forall n | n in SetTrees(cfg) ensures !Touches(n, p) {
      var i :| 0 <= i < |SetTrees(cfg)| && SetTrees(cfg)[i] == n;
      AssignedTree(cfg.argsSet.value[i], p);
    }
    forall n | n in SetFileTrees(cfg) ensures !Touches(n, p) {
      var i :| 0 <= i < |SetFileTrees(cfg)| && SetFileTrees(cfg)[i] == n;
      AssignedTree(cfg.argsSetFile.value[i], p);
    }
  }

  /** A toggle written when the upgrade crossed to 4.0.0 is still off after every later
      attempt with the same arguments, although their own values files are empty. */
  lemma TogglesSurviveRetries(c: Cluster, later: seq<Attempt>, cfg: Config, crds: CrdSet)
    requires crds in SETS && UserLeavesAlone(cfg, TogglePath(crds))
    requires AtLeast(c.release.version, FOUR_DOT_O) && AtLeast(cfg.target, FOUR_DOT_O)
    requires forall b | b in later :: b.cfg == cfg
    ensures At(Run(c, later).release.user, TogglePath(crds)) == At(c.release.user, TogglePath(crds))
  {
    hide Less, Lay, At, UserLeavesAlone, Options, Run;
    RetriesLayUserOptions(c, later, cfg, TogglePath(crds));
    UserLaysNothing(cfg, TogglePath(crds), At(c.release.user, TogglePath(crds)));
  }

  /** The whole story of a toggle: the attempt whose effective upgrade crosses 4.0.0 decides
      it, and retries lay the user's own options over it. If those leave it alone, it is off
      for good iff a CRD of its set was installed at the crossing. */
  lemma TogglesOverWholeRun(c: Cluster, a: Attempt, later: seq<Attempt>, crds: CrdSet)
    requires crds in SETS && forall b | b in later :: b.cfg == a.cfg
    requires Crosses(c.release.version, a.cfg.target) && FirstEffect(c.release, a) != Nothing
    ensures
      var r, p := c.release, TogglePath(crds);
      var first := Toggled(r.version, a, FirstMode(r, a), crds, At(r.user, p));
      var left := if SecondEffect(r, a).Nothing? then first else Toggled(r.version, a, EtcdOn, crds, first);
      var end := At(Run(Next(c, a), later).release.user, p);
      && end == (if AnyEffect(Next(c, a), later) then Lay(Options(a.cfg, Plain), p, left) else left)
      && (UserLeavesAlone(a.cfg, p) ==>
            end == if AnyInstalled(crds, a.obs.crds) then Some(Leaf(Bool(false))) else At(r.user, p))
  {
    hide UserLeavesAlone, AllSucceed, BeforeHelm, UpgradedValues, HelmArgs, AnyInstalled, Less,
      Options, Lay, At, Next, Run;
    var r, v, p := c.release, c.release.version, TogglePath(crds);
    ReleaseAfter(c, a);
    NextRelease(c, a);
    ToggleAfterUpgrade(r.user, v, a, FirstMode(r, a), crds);
    var first := RecordUpgrade(r, a.cfg.target, HelmArgs(v, a, FirstMode(r, a)), FirstEffect(r, a));
    ToggleAfterUpgrade(first.user, v, a, EtcdOn, crds);
    RetriesLayUserOptions(Next(c, a), later, a.cfg, p);
    if UserLeavesAlone(a.cfg, p) { UserLaysNothing(a.cfg, p, At(Next(c, a).release.user, p)); }
  }

  // ------------------------------------------------------------- repeating an upgrade

  /** From 4.0.0 on, repeating an upgrade with the same arguments records the same values. */
  lemma RepeatedUpgradeKeepsValues(user: Node, source: Version, a: Attempt, b: Attempt)
    requires AtLeast(source, FOUR_DOT_O) && AtLeast(a.cfg.target, FOUR_DOT_O) && b.cfg == a.cfg
    ensures
      var once := UpgradedValues(user, HelmArgs(source, a, Plain));
      UpgradedValues(once, HelmArgs(a.cfg.target, b, Plain)) == once
  {
    hide Less, CommandLineValues;
    assert ExtraArgs(a.cfg.target, b) == ExtraArgs(source, a);
    ReuseAlwaysOn(source, a, Plain);
    var t := CommandLineValues(ExtraArgs(source, a));
    SameShapeReflexive(t);
    Absorption(user, t, t);
  }
}
