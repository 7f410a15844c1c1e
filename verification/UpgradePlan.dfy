/** One attempt of the upgrade job as a plan of steps, any of which the environment may
    fail or interrupt. The plan is the reference against which `UpgradeJob` is proved and
    from which the properties of traces and of whole runs follow. */
module UpgradePlan {
  import opened Wrappers
  import opened SemVer
  import opened HelmValues
  import CrdToggles

  // ------------------------------------------------------------- state and inputs

  /** `Unsettled` stands for every status other than "deployed". */
  datatype Status = Deployed | Unsettled

  /** What the helm storage driver records about the release. */
  datatype Release = Release(chart: string, version: Version, status: Status, user: Node)

  datatype Config = Config(
    target: Version,
    argsSet: Option<seq<Assign>>,
    argsSetFile: Option<seq<FileAssign>>,
    skipPathValidation: bool,
    dataPlane: bool,
    recorder: bool)

  /** What the attempt finds in its surroundings when it looks. */
  datatype Observed = Observed(helm: Version, chartDirValid: bool, crds: seq<string>, etcdPods: nat)

  /** Questions the job asks about the final values. */
  datatype Readers = Readers(mayastorEnabled: Node -> bool, partialRebuild: Node -> bool)

  datatype Mode = Plain | EtcdOff | EtcdOn

  datatype Reason =
    | HelmUpgradeStart | HelmUpgradeComplete
    | DataPlaneUpgradeNotRequired | DataPlaneUpgradeStart | DataPlaneUpgradeComplete
    | Success

  datatype FatalReason = FailedHelmUpgradeDryRun | FailedHelmUpgrade | FailedDataPlaneUpgrade

  datatype Rejection = BadHelmVersion | BadRelease | BadChartDir | DowngradeNotSupported | PartialRebuildNotAllowed

  datatype Step =
    | GetMetadata | GetHelmVersion | CheckChartDir | ReadChartVersion
    | CreateValuesFile | ListCrds | BuildClient
    | DryRun
    | DeleteLoki | ListEtcdPods | Helm(mode: Mode) | GetValues
    | GetRevisionHash | ListIoEnginePods | RunDataPlane
    | Publish(reason: Reason)
    | PublishFatal(fatal: FatalReason)
    | Reject(why: Rejection)

  /** How much of a command reached the cluster. A partial helm upgrade has recorded the
      new chart and values without settling as deployed. */
  datatype Effect = Nothing | Partial | Full

  /** The fate the environment chooses for one command. A command that fails or dies may
      still have had any effect. */
  datatype Fate = Succeeds | Fails(effect: Effect) | Dies(effect: Effect)

  /** Everything that distinguishes one attempt from another; each step occurs at most
      once in an attempt, so one fate per step covers every behaviour. */
  datatype Attempt = Attempt(cfg: Config, obs: Observed, readers: Readers, fate: Step -> Fate)

  datatype Entry = Did(step: Step, fate: Fate)

  datatype Sys = Sys(release: Release, loki: bool, trace: seq<Entry>)

  /** `Died` means the process ended without returning. */
  datatype Outcome = Ok | Err(at: Step) | Died

  // ----------------------------------------------------------------------- gates

  const UMBRELLA_CHART_NAME := "openebs"
  const HELM_THREE_DOT_FOURTEEN := Stable(3, 14, 0)
  const ETCD_FLAG: Path := ["mayastor", "etcd", "preUpgradeJob", "enabled"]

  predicate ReleaseAccepted(r: Release) {
    r.chart == UMBRELLA_CHART_NAME && AtLeast(r.version, LOWERBOUND) && r.status.Deployed?
  }

  predicate PathAccepted(source: Version, cfg: Config) {
    cfg.skipPathValidation || AtLeast(cfg.target, source)
  }

  /** Mayastor's loki-stack has to go before the umbrella chart's loki comes. */
  predicate LokiGate(source: Version) {
    AtLeast(source, THREE_DOT_FOUR_DOT_ONE) && Less(source, FOUR_DOT_THREE)
  }

  /** Upgrades from v3 without etcd pods go through two helm upgrades. */
  predicate TwoStep(source: Version, obs: Observed) {
    Less(source, FOUR_DOT_O) && obs.etcdPods == 0
  }

  predicate InPartialRebuildExtents(source: Version) {
    AtLeast(source, PARTIAL_REBUILD_FROM) && AtLeast(PARTIAL_REBUILD_TO, source)
  }

  /** Where each gate opens, in terms of the bands between the thresholds: the release check
      from 3.0.0, Loki on [3.4.1, 4.3.0), the two-step upgrade below 4.0.0, the toggles across
      4.0.0, and the rebuild extents from 3.7.0 up to and including 3.10.0 itself. */
  lemma GatesAreBands(r: Release, a: Attempt)
    ensures var band := Band(r.version);
      && (ReleaseAccepted(r) <==> r.chart == "openebs" && 1 <= band && r.status.Deployed?)
      && (LokiGate(r.version) <==> 2 <= band < 6)
      && (TwoStep(r.version, a.obs) <==> band < 5 && a.obs.etcdPods == 0)
      && (CrdToggles.Crosses(r.version, a.cfg.target) <==> band < 5 <= Band(a.cfg.target))
      && (InPartialRebuildExtents(r.version) <==> band == 3 || r.version == PARTIAL_REBUILD_TO)
  {
    AtLeastIsLessOrEqual(PARTIAL_REBUILD_TO, r.version);
    forall i: nat | i < |THRESHOLDS|
      ensures AtLeast(r.version, THRESHOLDS[i]) <==> i < Band(r.version)
      ensures AtLeast(a.cfg.target, THRESHOLDS[i]) <==> i < Band(a.cfg.target)
    {
      BandsPartitionVersions(r.version, i);
      BandsPartitionVersions(a.cfg.target, i);
    }
    hide Less, Band;
    assert THRESHOLDS[0] == LOWERBOUND && THRESHOLDS[1] == THREE_DOT_FOUR_DOT_ONE
           && THRESHOLDS[2] == PARTIAL_REBUILD_FROM;
    assert THRESHOLDS[3] == PARTIAL_REBUILD_TO && THRESHOLDS[4] == FOUR_DOT_O && THRESHOLDS[5] == FOUR_DOT_THREE;
  }

  // ------------------------------------------------------------- helm command lines

  function EtcdFlagArg(enabled: bool): Arg {
    Set([Assign(ETCD_FLAG[0], ETCD_FLAG[1..], Bool(enabled))])
  }

  function ExtraArgs(source: Version, a: Attempt): seq<Arg> {
    (if a.cfg.argsSet.Some? then [Set(a.cfg.argsSet.value)] else [])
    + (if a.cfg.argsSetFile.Some? then [SetFile(a.cfg.argsSetFile.value)] else [])
    + [ValuesFile(CrdToggles.ValuesFileFor(source, a.cfg.target, a.obs.crds))]
    + [ResetThenReuseValues]
  }

  function HelmArgs(source: Version, a: Attempt, mode: Mode): seq<Arg> {
    match mode
    case Plain => ExtraArgs(source, a)
    case EtcdOff => ExtraArgs(source, a) + [EtcdFlagArg(false)]
    case EtcdOn => ExtraArgs(source, a) + [EtcdFlagArg(true)]
  }

  function RecordUpgrade(r: Release, target: Version, args: seq<Arg>, effect: Effect): Release {
    match effect
    case Nothing => r
    case Partial => r.(version := target, status := Unsettled, user := UpgradedValues(r.user, args))
    case Full => r.(version := target, status := Deployed, user := UpgradedValues(r.user, args))
  }

  /** The release after the helm part of an undisturbed attempt. */
  function Settled(r: Release, a: Attempt): Release {
    var up := (r': Release, mode: Mode) => RecordUpgrade(r', a.cfg.target, HelmArgs(r.version, a, mode), Full);
    if TwoStep(r.version, a.obs) then up(up(r, EtcdOff), EtcdOn) else up(r, Plain)
  }

  // ------------------------------------------------------------------------- plan

  function When(cond: bool, steps: seq<Step>): seq<Step> {
    if cond then steps else []
  }

  function Unless(ok: bool, why: Rejection): seq<Step> {
    When(!ok, [Reject(why)])
  }

  function Announce(a: Attempt, reason: Reason): seq<Step> {
    When(a.cfg.recorder, [Publish(reason)])
  }

  /** Reads and gates before the job touches anything. The three input checks only read,
      so the order in which they run concurrently is immaterial. */
  function ValidatePlan(r: Release, a: Attempt): seq<Step> {
    [GetMetadata]
    + [GetHelmVersion]
    + Unless(AtLeast(a.obs.helm, HELM_THREE_DOT_FOURTEEN), BadHelmVersion)
    + Unless(ReleaseAccepted(r), BadRelease)
    + [CheckChartDir]
    + Unless(a.obs.chartDirValid, BadChartDir)
    + [ReadChartVersion]
    + Unless(PathAccepted(r.version, a.cfg), DowngradeNotSupported)
    + [CreateValuesFile]
    + When(CrdToggles.Crosses(r.version, a.cfg.target), [ListCrds])
    + [BuildClient]
  }

  function HelmPlan(r: Release, a: Attempt): seq<Step> {
    When(LokiGate(r.version), [DeleteLoki])
    + When(Less(r.version, FOUR_DOT_O), [ListEtcdPods])
    + (if TwoStep(r.version, a.obs) then [Helm(EtcdOff)] + [Helm(EtcdOn)] else [Helm(Plain)])
    + [GetValues]
  }

  function DataPlanePlan(source: Version, values: Node, a: Attempt): seq<Step> {
    if !a.readers.mayastorEnabled(values) then
      Announce(a, DataPlaneUpgradeNotRequired)
    else
      Unless(!(InPartialRebuildExtents(source) && a.readers.partialRebuild(values)), PartialRebuildNotAllowed)
      + [GetRevisionHash]
      + [ListIoEnginePods]
      + Announce(a, DataPlaneUpgradeStart)
      + [RunDataPlane]
      + Announce(a, DataPlaneUpgradeComplete)
  }

  function UpgradeSteps(r: Release, a: Attempt): seq<Step> {
    [DryRun]
    + Announce(a, HelmUpgradeStart)
    + HelmPlan(r, a)
    + Announce(a, HelmUpgradeComplete)
    + (if a.cfg.dataPlane then DataPlanePlan(r.version, Settled(r, a).user, a) else [])
    + Announce(a, Reason.Success)
  }

  function Plan(r: Release, a: Attempt): seq<Step> {
    ValidatePlan(r, a) + UpgradeSteps(r, a)
  }

  // -------------------------------------------------------------------- execution

  function FateOf(a: Attempt, step: Step): Fate {
    if step.Reject? then Fails(Nothing) else a.fate(step)
  }

  function EffectOf(fate: Fate): Effect {
    if fate.Succeeds? then Full else fate.effect
  }

  function OutcomeOf(a: Attempt, step: Step): Outcome {
    match FateOf(a, step)
    case Succeeds => Ok
    case Fails(_) => Err(step)
    case Dies(_) => Died
  }

  /** One command. `source` is the version read at the start of the attempt. */
  function Apply(s: Sys, step: Step, source: Version, a: Attempt): Sys {
    var fate := FateOf(a, step);
    var effect := EffectOf(fate);
    Sys(
      if step.Helm? then RecordUpgrade(s.release, a.cfg.target, HelmArgs(source, a, step.mode), effect) else s.release,
      if step.DeleteLoki? && effect.Full? then false else s.loki,
      s.trace + [Did(step, fate)])
  }

  /** Runs `plan` up to and including the first step that does not succeed. */
  function Exec(s: Sys, plan: seq<Step>, source: Version, a: Attempt): (Sys, Outcome)
    decreases |plan|
  {
    if plan == [] then (s, Ok)
    else
      var s' := Apply(s, plan[0], source, a);
      var o := OutcomeOf(a, plan[0]);
      if o.Ok? then Exec(s', plan[1..], source, a) else (s', o)
  }

  /** The fatal event, if any, that the failure of a step publishes. */
  function FatalFor(step: Step): Option<FatalReason> {
    match step
    case DryRun => Some(FailedHelmUpgradeDryRun)
    case DeleteLoki => Some(FailedHelmUpgrade)
    case ListEtcdPods => Some(FailedHelmUpgrade)
    case Helm(_) => Some(FailedHelmUpgrade)
    case GetValues => Some(FailedHelmUpgrade)
    case RunDataPlane => Some(FailedDataPlaneUpgrade)
    case _ => None
  }

  /** Publishing a fatal event never changes the error that caused it. */
  function ReportFatal(so: (Sys, Outcome), source: Version, a: Attempt): (Sys, Outcome) {
    if so.1.Err? && a.cfg.recorder && FatalFor(so.1.at).Some? then
      var step := PublishFatal(FatalFor(so.1.at).value);
      (Apply(so.0, step, source, a), if a.fate(step).Dies? then Died else so.1)
    else so
  }

  /** A whole attempt, started by a fresh process. */
  function Attempted(r: Release, loki: bool, a: Attempt): (Sys, Outcome) {
    ReportFatal(Exec(Sys(r, loki, []), Plan(r, a), r.version, a), r.version, a)
  }

  // --------------------------------------------------------- execution in sequence

  function Then(so: (Sys, Outcome), plan: seq<Step>, source: Version, a: Attempt): (Sys, Outcome) {
    if so.1.Ok? then Exec(so.0, plan, source, a) else so
  }

  lemma {:induction false} ExecAppend(s: Sys, p: seq<Step>, q: seq<Step>, source: Version, a: Attempt)
    ensures Exec(s, p + q, source, a) == Then(Exec(s, p, source, a), q, source, a)
    decreases |p|
  {
    if p == [] {
      assert p + q == q;
    } else {
      assert (p + q)[1..] == p[1..] + q;
      ExecAppend(Apply(s, p[0], source, a), p[1..], q, source, a);
    }
  }

  /** An attempt stops at a step of its plan. */
  lemma {:induction false} ExecStopsInPlan(s: Sys, p: seq<Step>, source: Version, a: Attempt)
    ensures Exec(s, p, source, a).1.Err? ==> Exec(s, p, source, a).1.at in p
    decreases |p|
  {
    if p != [] && OutcomeOf(a, p[0]).Ok? {
      ExecStopsInPlan(Apply(s, p[0], source, a), p[1..], source, a);
    }
  }

  // -------------------------------------------- the two-step upgrade is a refinement

  /** Under the same chart and arguments, upgrading with the etcd flag off and then with
      the flag on leaves the same user values, hence the same effective values, as the
      one upgrade with the flag on: for any previous values and any user arguments. */
  lemma TwoStepRefinesOneStep(user: Node, chartDefaults: Node, source: Version, a: Attempt)
    ensures
      var both := UpgradedValues(UpgradedValues(user, HelmArgs(source, a, EtcdOff)), HelmArgs(source, a, EtcdOn));
      var once := UpgradedValues(user, HelmArgs(source, a, EtcdOn));
      both == once && Effective(chartDefaults, both) == Effective(chartDefaults, once)
  {
    FlagArgsShape(source, a);
    Absorption(user, CommandLineValues(HelmArgs(source, a, EtcdOn)), CommandLineValues(HelmArgs(source, a, EtcdOff)));
  }

  /** What the templates see: a value of the user wins over the chart's default, and a default
      that the user's values do not reach stays. */
  lemma UserWinsOverDefaults(chartDefaults: Node, user: Node, p: Path, v: Scalar)
    ensures At(user, p) == Some(Leaf(v)) ==> At(Effective(chartDefaults, user), p) == Some(Leaf(v))
    ensures !Touches(user, p) ==> At(Effective(chartDefaults, user), p) == At(chartDefaults, p)
  {
    if At(user, p) == Some(Leaf(v)) { LeafWins(chartDefaults, user, p, v); }
    if !Touches(user, p) { UntouchedKept(chartDefaults, user, p); }
  }

  /** So every undisturbed attempt settles as if it had upgraded just once. */
  lemma SettledIsOneUpgrade(r: Release, a: Attempt)
    ensures Settled(r, a)
         == RecordUpgrade(r, a.cfg.target,
            HelmArgs(r.version, a, if TwoStep(r.version, a.obs) then EtcdOn else Plain), Full)
  {
    hide HelmArgs, UpgradedValues, TwoStep;
    TwoStepRefinesOneStep(r.user, EMPTY, r.version, a);
  }

  function BeforeFlag(source: Version, a: Attempt): Node {
    MergeAll(MergeAll(EMPTY, FileOverlays(ExtraArgs(source, a))), SetOverlays(ExtraArgs(source, a)))
  }

  function FlagChain(enabled: bool): Node {
    Chain(ETCD_FLAG, Bool(enabled))
  }

  /** The flag is merged after everything the user set and before every `--set-file`. */
  lemma FlagArgs(source: Version, a: Attempt, mode: Mode)
    requires !mode.Plain?
    ensures CommandLineValues(HelmArgs(source, a, mode))
         == MergeAll(Merge(BeforeFlag(source, a), FlagChain(mode.EtcdOn?)), SetFileOverlays(ExtraArgs(source, a)))
  {
    var extra, flag := ExtraArgs(source, a), EtcdFlagArg(mode.EtcdOn?);
    OverlaysAppend(extra, [flag]);
    OverlaysOfOne(flag);
    assert FileOverlays(extra) + [] == FileOverlays(extra) && SetFileOverlays(extra) + [] == SetFileOverlays(extra);
    assert [ETCD_FLAG[0]] + ETCD_FLAG[1..] == ETCD_FLAG;
    var tree := flag.assigns[0].Tree();
    assert flag.assigns[1..] == [];
    assert Trees(flag.assigns) == [tree];
    assert tree == FlagChain(mode.EtcdOn?);
    var files := MergeAll(EMPTY, FileOverlays(extra));
    MergeAllAppend(files, SetOverlays(extra), [tree]);
    assert [tree][1..] == [];
    assert MergeAll(MergeAll(files, SetOverlays(extra)), [tree]) == Merge(BeforeFlag(source, a), tree);
  }

  lemma ReuseAlwaysOn(source: Version, a: Attempt, mode: Mode)
    ensures ResetThenReuseValues in HelmArgs(source, a, mode)
  {
    var extra := ExtraArgs(source, a);
    assert extra[|extra| - 1] == ResetThenReuseValues;
    assert ResetThenReuseValues in extra;
  }

  lemma FlagArgsShape(source: Version, a: Attempt)
    ensures SameShape(CommandLineValues(HelmArgs(source, a, EtcdOn)), CommandLineValues(HelmArgs(source, a, EtcdOff)))
    ensures ResetThenReuseValues in HelmArgs(source, a, EtcdOn) && ResetThenReuseValues in HelmArgs(source, a, EtcdOff)
  {
    FlagArgs(source, a, EtcdOn);
    FlagArgs(source, a, EtcdOff);
    ReuseAlwaysOn(source, a, EtcdOn);
    ReuseAlwaysOn(source, a, EtcdOff);
    var before := BeforeFlag(source, a);
    SameShapeReflexive(before);
    ChainsShareShape(ETCD_FLAG, Bool(true), Bool(false));
    MergeKeepsShape(before, before, FlagChain(true), FlagChain(false));
    MergeAllKeepsShape(Merge(before, FlagChain(true)), Merge(before, FlagChain(false)),
                       SetFileOverlays(ExtraArgs(source, a)));
  }

  lemma {:induction false} ChainsShareShape(p: Path, v: Scalar, w: Scalar)
    ensures SameShape(Chain(p, v), Chain(p, w))
    decreases |p|
  {
    if p != [] { ChainsShareShape(p[1..], v, w); }
  }
}
