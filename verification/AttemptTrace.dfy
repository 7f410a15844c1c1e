/** What every attempt leaves in its trace of commands and events, whichever of its steps
    fail or are interrupted. */
module AttemptTrace {
  import opened Wrappers
  import opened SemVer
  import opened UpgradePlan
  import CrdToggles
  import HelmValues

  // ------------------------------------------------------- a trace is a plan prefix

  /** The log entries of running `plan`. */
  function Entries(plan: seq<Step>, a: Attempt): seq<Entry>
    decreases |plan|
  {
    if plan == [] then []
    else [Did(plan[0], FateOf(a, plan[0]))] + (if OutcomeOf(a, plan[0]).Ok? then Entries(plan[1..], a) else [])
  }

  lemma {:induction false} ExecTrace(s: Sys, plan: seq<Step>, source: Version, a: Attempt)
    ensures Exec(s, plan, source, a).0.trace == s.trace + Entries(plan, a)
    decreases |plan|
  {
    if plan != [] && OutcomeOf(a, plan[0]).Ok? {
      ExecTrace(Apply(s, plan[0], source, a), plan[1..], source, a);
    }
  }

  /** The entries follow the plan, all but the last succeeded, and they stop short of the
      plan's end only at a step that did not succeed. */
  lemma {:induction false} EntriesFollowPlan(plan: seq<Step>, a: Attempt)
    ensures var e := Entries(plan, a);
      && |e| <= |plan|
      && (forall i | 0 <= i < |e| :: e[i] == Did(plan[i], FateOf(a, plan[i])))
      && (forall i | 0 <= i < |e| - 1 :: e[i].fate.Succeeds?)
      && (|e| < |plan| ==> e != [] && !e[|e| - 1].fate.Succeeds?)
    decreases |plan|
  {
    if plan != [] && OutcomeOf(a, plan[0]).Ok? {
      var rest := Entries(plan[1..], a);
      EntriesFollowPlan(plan[1..], a);
      assert Entries(plan, a)[1..] == rest;
      assert forall i | 0 < i < |Entries(plan, a)| :: Entries(plan, a)[i] == rest[i - 1];
    }
  }

  lemma {:induction false} OutcomeMatchesEntries(s: Sys, plan: seq<Step>, source: Version, a: Attempt)
    ensures var e, o := Entries(plan, a), Exec(s, plan, source, a).1;
      && (o.Ok? <==> |e| == |plan| && (e != [] ==> e[|e| - 1].fate.Succeeds?))
      && (o.Err? ==> e != [] && e[|e| - 1].fate.Fails? && e[|e| - 1].step == o.at)
      && (o.Died? ==> e != [] && e[|e| - 1].fate.Dies?)
    decreases |plan|
  {
    if plan != [] && OutcomeOf(a, plan[0]).Ok? {
      EntriesFollowPlan(plan[1..], a);
      OutcomeMatchesEntries(Apply(s, plan[0], source, a), plan[1..], source, a);
    }
  }

  // ------------------------------------------------------------ a plan is in order

  /** The place of a step in the protocol. */
  function Rank(step: Step): nat {
    match step
    case GetMetadata => 0
    case GetHelmVersion => 1
    case Reject(BadHelmVersion) => 2
    case Reject(BadRelease) => 3
    case CheckChartDir => 4
    case Reject(BadChartDir) => 5
    case ReadChartVersion => 6
    case Reject(DowngradeNotSupported) => 7
    case CreateValuesFile => 8
    case ListCrds => 9
    case BuildClient => 10
    case DryRun => 11
    case Publish(HelmUpgradeStart) => 12
    case DeleteLoki => 13
    case ListEtcdPods => 14
    case Helm(EtcdOff) => 15
    case Helm(EtcdOn) => 16
    case Helm(Plain) => 17
    case GetValues => 18
    case Publish(HelmUpgradeComplete) => 19
    case Publish(DataPlaneUpgradeNotRequired) => 20
    case Reject(PartialRebuildNotAllowed) => 21
    case GetRevisionHash => 22
    case ListIoEnginePods => 23
    case Publish(DataPlaneUpgradeStart) => 24
    case RunDataPlane => 25
    case Publish(DataPlaneUpgradeComplete) => 26
    case Publish(Success) => 27
    case PublishFatal(_) => 28
  }

  /** Strictly in protocol order, within the given ranks. */
  ghost predicate Ranked(p: seq<Step>, lo: nat, hi: nat) {
    && (forall i | 0 <= i < |p| :: lo <= Rank(p[i]) < hi)
    && (forall i, j | 0 <= i < j < |p| :: Rank(p[i]) < Rank(p[j]))
  }

  lemma RankedAppend(p: seq<Step>, q: seq<Step>, lo: nat, mid: nat, hi: nat)
    requires lo <= mid <= hi && Ranked(p, lo, mid) && Ranked(q, mid, hi)
    ensures Ranked(p + q, lo, hi)
  {
    hide Rank;
  }

  lemma RankedNext(p: seq<Step>, step: Step, lo: nat, hi: nat) returns (q: seq<Step>)
    requires lo <= hi <= Rank(step) && Ranked(p, lo, hi)
    ensures q == p + [step] && Ranked(q, lo, Rank(step) + 1)
  {
    hide Rank;
    q := p + [step];
  }

  lemma RankedNextIf(p: seq<Step>, cond: bool, step: Step, lo: nat, hi: nat) returns (q: seq<Step>)
    requires lo <= hi <= Rank(step) && Ranked(p, lo, hi)
    ensures q == p + When(cond, [step]) && Ranked(q, lo, Rank(step) + 1)
  {
    hide Rank;
    q := p + When(cond, [step]);
  }

  lemma ValidatePlanRanked(r: Release, a: Attempt)
    ensures Ranked(ValidatePlan(r, a), 0, 11)
  {
    hide Ranked, When, Less, AtLeast;
    FirstRanked(GetMetadata);
    var p := RankedNext([GetMetadata], GetHelmVersion, 0, 1);
    p := RankedNextIf(p, !AtLeast(a.obs.helm, HELM_THREE_DOT_FOURTEEN), Reject(BadHelmVersion), 0, 2);
    p := RankedNextIf(p, !ReleaseAccepted(r), Reject(BadRelease), 0, 3);
    p := RankedNext(p, CheckChartDir, 0, 4);
    p := RankedNextIf(p, !a.obs.chartDirValid, Reject(BadChartDir), 0, 5);
    p := RankedNext(p, ReadChartVersion, 0, 6);
    p := RankedNextIf(p, !PathAccepted(r.version, a.cfg), Reject(DowngradeNotSupported), 0, 7);
    p := RankedNext(p, CreateValuesFile, 0, 8);
    p := RankedNextIf(p, CrdToggles.Crosses(r.version, a.cfg.target), ListCrds, 0, 9);
    p := RankedNext(p, BuildClient, 0, 10);
  }

  lemma FirstRanked(step: Step)
    ensures Ranked([step], Rank(step), Rank(step) + 1)
  {
  }

  lemma EmptyRanked(lo: nat)
    ensures Ranked([], lo, lo)
  {
  }

  lemma HelmPlanRanked(r: Release, a: Attempt)
    ensures Ranked(HelmPlan(r, a), 13, 19)
  {
    hide Ranked, When, Less, AtLeast;
    EmptyRanked(13);
    var p := RankedNextIf([], LokiGate(r.version), DeleteLoki, 13, 13);
    p := RankedNextIf(p, Less(r.version, FOUR_DOT_O), ListEtcdPods, 13, 14);
    if TwoStep(r.version, a.obs) {
      p := RankedNext(p, Helm(EtcdOff), 13, 15);
      p := RankedNext(p, Helm(EtcdOn), 13, 16);
      p := RankedNext(p, GetValues, 13, 17);
    } else {
      p := RankedNext(p, Helm(Plain), 13, 15);
      p := RankedNext(p, GetValues, 13, 18);
    }
    assert p == HelmPlan(r, a);
  }

  lemma DataPlanePlanRanked(source: Version, values: HelmValues.Node, a: Attempt)
    ensures Ranked(DataPlanePlan(source, values, a), 20, 27)
  {
    hide Ranked, When, Less, AtLeast;
    EmptyRanked(20);
    if a.readers.mayastorEnabled(values) {
      var bad := InPartialRebuildExtents(source) && a.readers.partialRebuild(values);
      var p := RankedNextIf([], bad, Reject(PartialRebuildNotAllowed), 20, 20);
      p := RankedNext(p, GetRevisionHash, 20, 22);
      p := RankedNext(p, ListIoEnginePods, 20, 23);
      p := RankedNextIf(p, a.cfg.recorder, Publish(DataPlaneUpgradeStart), 20, 24);
      p := RankedNext(p, RunDataPlane, 20, 25);
      p := RankedNextIf(p, a.cfg.recorder, Publish(DataPlaneUpgradeComplete), 20, 26);
      assert p == DataPlanePlan(source, values, a);
    } else {
      var p := RankedNextIf([], a.cfg.recorder, Publish(DataPlaneUpgradeNotRequired), 20, 20);
      assert p == DataPlanePlan(source, values, a);
      RankedWeaken(p, 20, 21, 27);
    }
  }

  lemma RankedWeaken(p: seq<Step>, lo: nat, mid: nat, hi: nat)
    requires mid <= hi && Ranked(p, lo, mid)
    ensures Ranked(p, lo, hi)
  {
  }

  /** The plan is in protocol order, so no step occurs twice in it. */
  lemma PlanRanked(r: Release, a: Attempt)
    ensures Ranked(Plan(r, a), 0, 28)
  {
    hide Ranked, When, ValidatePlan, HelmPlan, DataPlanePlan, Settled;
    EmptyRanked(11);
    var p := RankedNext([], DryRun, 11, 11);
    p := RankedNextIf(p, a.cfg.recorder, Publish(HelmUpgradeStart), 11, 12);
    HelmPlanRanked(r, a);
    RankedAppend(p, HelmPlan(r, a), 11, 13, 19);
    p := RankedNextIf(p + HelmPlan(r, a), a.cfg.recorder, Publish(HelmUpgradeComplete), 11, 19);
    if a.cfg.dataPlane {
      var values := Settled(r, a).user;
      DataPlanePlanRanked(r.version, values, a);
      RankedAppend(p, DataPlanePlan(r.version, values, a), 11, 20, 27);
      p := p + DataPlanePlan(r.version, values, a);
    } else {
      RankedWeaken(p, 11, 20, 27);
    }
    p := RankedNextIf(p, a.cfg.recorder, Publish(Reason.Success), 11, 27);
    assert p == UpgradeSteps(r, a);
    ValidatePlanRanked(r, a);
    RankedAppend(ValidatePlan(r, a), p, 0, 11, 28);
  }

  // ---------------------------------------------------------- what a plan contains

  /** Which steps an attempt on release `r` has to take if nothing goes wrong, told step by
      step. With the protocol order this fixes the plan. */
  predicate Wanted(r: Release, a: Attempt, step: Step) {
    var enabled := a.readers.mayastorEnabled(Settled(r, a).user);
    match step
    case Reject(BadHelmVersion) => Less(a.obs.helm, HELM_THREE_DOT_FOURTEEN)
    case Reject(BadRelease) => !ReleaseAccepted(r)
    case Reject(BadChartDir) => !a.obs.chartDirValid
    case Reject(DowngradeNotSupported) => !a.cfg.skipPathValidation && Less(a.cfg.target, r.version)
    case ListCrds => Less(r.version, FOUR_DOT_O) && AtLeast(a.cfg.target, FOUR_DOT_O)
    case DeleteLoki => LokiGate(r.version)
    case ListEtcdPods => Less(r.version, FOUR_DOT_O)
    case Helm(Plain) => !TwoStep(r.version, a.obs)
    case Helm(_) => TwoStep(r.version, a.obs)
    case Publish(DataPlaneUpgradeNotRequired) => a.cfg.recorder && a.cfg.dataPlane && !enabled
    case Publish(DataPlaneUpgradeStart) => a.cfg.recorder && a.cfg.dataPlane && enabled
    case Publish(DataPlaneUpgradeComplete) => a.cfg.recorder && a.cfg.dataPlane && enabled
    case Publish(_) => a.cfg.recorder
    case Reject(PartialRebuildNotAllowed) =>
      a.cfg.dataPlane && enabled && InPartialRebuildExtents(r.version) && a.readers.partialRebuild(Settled(r, a).user)
    case GetRevisionHash => a.cfg.dataPlane && enabled
    case ListIoEnginePods => a.cfg.dataPlane && enabled
    case RunDataPlane => a.cfg.dataPlane && enabled
    case PublishFatal(_) => false
    case _ => true
  }

  /** The plan consists of exactly the wanted steps. */
  lemma PlanIsExactlyTheWantedSteps(r: Release, a: Attempt, step: Step)
    ensures step in Plan(r, a) <==> Wanted(r, a, step)
  {
    ValidateSteps(r, a, step);
    HelmSteps(r, a, step);
    DataPlaneSteps(r.version, Settled(r, a).user, a, step);
    hide ValidatePlan, HelmPlan, DataPlanePlan, Settled, Less, InPartialRebuildExtents, LokiGate;
  }

  lemma ValidateSteps(r: Release, a: Attempt, step: Step)
    ensures step in ValidatePlan(r, a) <==> Rank(step) < 11 && Wanted(r, a, step)
  {
    hide Settled, Less, InPartialRebuildExtents, LokiGate, ReleaseAccepted;
  }

  lemma HelmSteps(r: Release, a: Attempt, step: Step)
    ensures step in HelmPlan(r, a) <==> 13 <= Rank(step) < 19 && Wanted(r, a, step)
  {
    hide Settled, Less, InPartialRebuildExtents, LokiGate, ReleaseAccepted;
  }

  lemma DataPlaneSteps(source: Version, values: HelmValues.Node, a: Attempt, step: Step)
    ensures step in DataPlanePlan(source, values, a) <==>
      var enabled := a.readers.mayastorEnabled(values);
      match step
      case Publish(DataPlaneUpgradeNotRequired) => a.cfg.recorder && !enabled
      case Publish(DataPlaneUpgradeStart) => a.cfg.recorder && enabled
      case Publish(DataPlaneUpgradeComplete) => a.cfg.recorder && enabled
      case Reject(PartialRebuildNotAllowed) =>
        enabled && InPartialRebuildExtents(source) && a.readers.partialRebuild(values)
      case GetRevisionHash => enabled
      case ListIoEnginePods => enabled
      case RunDataPlane => enabled
      case _ => false
  {
    hide InPartialRebuildExtents;
  }

  // ------------------------------------------------------------------ the theorem

  /** `step` succeeded before position `i` of the trace. */
  ghost predicate DoneBefore(t: seq<Entry>, i: int, step: Step) {
    exists j :: 0 <= j < i && j < |t| && t[j] == Did(step, Succeeds)
  }

  predicate Mutates(step: Step) {
    step.DeleteLoki? || step.Helm? || step.RunDataPlane?
  }

  /** Every step of the plan that ranks below an executed step has succeeded before it. */
  lemma EarlierStepsAreDone(r: Release, a: Attempt, i: nat, step: Step)
    requires i < |Entries(Plan(r, a), a)|
    requires Wanted(r, a, step) && Rank(step) < Rank(Entries(Plan(r, a), a)[i].step)
    ensures DoneBefore(Entries(Plan(r, a), a), i, step)
  {
    hide Wanted, Plan, Rank, Entries;
    var p, e := Plan(r, a), Entries(Plan(r, a), a);
    PlanIsExactlyTheWantedSteps(r, a, step);
    PlanRanked(r, a);
    EntriesFollowPlan(p, a);
    var j :| 0 <= j < |p| && p[j] == step;
    assert j < i;
    assert e[j] == Did(step, Succeeds);
  }

  /** The trace is the entries of the plan, plus the fatal event of a step that failed. */
  lemma AttemptTraceShape(r: Release, loki: bool, a: Attempt)
    ensures
      var (s, o) := Attempted(r, loki, a);
      var e := Entries(Plan(r, a), a);
      var x := Exec(Sys(r, loki, []), Plan(r, a), r.version, a).1;
      if x.Err? && a.cfg.recorder && FatalFor(x.at).Some? then
        var step := PublishFatal(FatalFor(x.at).value);
        s.trace == e + [Did(step, a.fate(step))] && o == (if a.fate(step).Dies? then Died else x)
      else
        s.trace == e && o == x
  {
    ExecTrace(Sys(r, loki, []), Plan(r, a), r.version, a);
    hide Exec, Plan, Entries, RecordUpgrade;
  }

  /** Nothing is touched and no start is announced before the dry run has succeeded, nor
      is anything touched before the start is announced. */
  ghost predicate DryRunFirst(a: Attempt, t: seq<Entry>, i: nat)
    requires i < |t|
  {
    var step := t[i].step;
    && (Mutates(step) || step == Publish(HelmUpgradeStart) ==> DoneBefore(t, i, DryRun))
    && (Mutates(step) && a.cfg.recorder ==> DoneBefore(t, i, Publish(HelmUpgradeStart)))
  }

  /** Where Loki has to go, it has gone before any helm upgrade. Completion is announced only
      after the start and every helm upgrade of this path; the etcd flag is switched on only
      after the upgrade with the flag off. */
  ghost predicate HelmInOrder(r: Release, a: Attempt, t: seq<Entry>, i: nat)
    requires i < |t|
  {
    var step := t[i].step;
    && (step.Helm? && LokiGate(r.version) ==> DoneBefore(t, i, DeleteLoki))
    && (step == Helm(EtcdOn) ==> DoneBefore(t, i, Helm(EtcdOff)))
    && (step == Publish(HelmUpgradeComplete) ==>
          && DoneBefore(t, i, Publish(HelmUpgradeStart))
          && (LokiGate(r.version) ==> DoneBefore(t, i, DeleteLoki))
          && (if TwoStep(r.version, a.obs) then DoneBefore(t, i, Helm(EtcdOff)) && DoneBefore(t, i, Helm(EtcdOn))
              else DoneBefore(t, i, Helm(Plain))))
  }

  /** The data plane comes after the helm upgrade and between its own two events. */
  ghost predicate DataPlaneInOrder(a: Attempt, t: seq<Entry>, i: nat)
    requires i < |t|
  {
    var step, told := t[i].step, a.cfg.recorder;
    && (step == RunDataPlane ==> DoneBefore(t, i, GetValues) && DoneBefore(t, i, ListIoEnginePods))
    && (step == RunDataPlane && told ==>
          DoneBefore(t, i, Publish(HelmUpgradeComplete)) && DoneBefore(t, i, Publish(DataPlaneUpgradeStart)))
    && (step == Publish(DataPlaneUpgradeComplete) ==>
          DoneBefore(t, i, Publish(DataPlaneUpgradeStart)) && DoneBefore(t, i, RunDataPlane))
    && (step == Publish(Reason.Success) ==> DoneBefore(t, i, Publish(HelmUpgradeComplete)))
  }

  /** A fatal event is the last entry and answers the failure just before it. */
  ghost predicate FatalLast(a: Attempt, t: seq<Entry>, i: nat)
    requires i < |t|
  {
    t[i].step.PublishFatal? ==>
      i == |t| - 1 && i > 0 && t[i - 1].fate.Fails?
        && FatalFor(t[i - 1].step) == Some(t[i].step.fatal) && a.cfg.recorder
  }

  ghost predicate InOrder(r: Release, a: Attempt, t: seq<Entry>, i: nat)
    requires i < |t|
  {
    DryRunFirst(a, t, i) && HelmInOrder(r, a, t, i) && DataPlaneInOrder(a, t, i) && FatalLast(a, t, i)
  }

  lemma EntryIsWanted(r: Release, a: Attempt, i: nat)
    requires i < |Entries(Plan(r, a), a)|
    ensures Wanted(r, a, Entries(Plan(r, a), a)[i].step)
  {
    EntriesFollowPlan(Plan(r, a), a);
    PlanIsExactlyTheWantedSteps(r, a, Entries(Plan(r, a), a)[i].step);
    hide Plan, Entries, Wanted;
  }

  lemma EntryDryRunFirst(r: Release, a: Attempt, i: nat)
    requires i < |Entries(Plan(r, a), a)|
    ensures DryRunFirst(a, Entries(Plan(r, a), a), i)
  {
    hide Plan, Entries, Settled, Less, DoneBefore;
    var step := Entries(Plan(r, a), a)[i].step;
    if Mutates(step) || step == Publish(HelmUpgradeStart) {
      EarlierStepsAreDone(r, a, i, DryRun);
      if a.cfg.recorder && Mutates(step) { EarlierStepsAreDone(r, a, i, Publish(HelmUpgradeStart)); }
    }
  }

  lemma EntryHelmInOrder(r: Release, a: Attempt, i: nat)
    requires i < |Entries(Plan(r, a), a)|
    ensures HelmInOrder(r, a, Entries(Plan(r, a), a), i)
  {
    hide Plan, Entries, Settled, Less, LokiGate, DoneBefore, InPartialRebuildExtents, ReleaseAccepted;
    EntryIsWanted(r, a, i);
    var step := Entries(Plan(r, a), a)[i].step;
    if step.Helm? && LokiGate(r.version) { EarlierStepsAreDone(r, a, i, DeleteLoki); }
    if step == Helm(EtcdOn) {
      EarlierStepsAreDone(r, a, i, Helm(EtcdOff));
    } else if step == Publish(HelmUpgradeComplete) {
      EarlierStepsAreDone(r, a, i, Publish(HelmUpgradeStart));
      if LokiGate(r.version) { EarlierStepsAreDone(r, a, i, DeleteLoki); }
      if TwoStep(r.version, a.obs) {
        EarlierStepsAreDone(r, a, i, Helm(EtcdOff));
        EarlierStepsAreDone(r, a, i, Helm(EtcdOn));
      } else {
        EarlierStepsAreDone(r, a, i, Helm(Plain));
      }
    }
  }

  lemma RunDataPlaneInOrder(r: Release, a: Attempt, i: nat)
    requires i < |Entries(Plan(r, a), a)| && Entries(Plan(r, a), a)[i].step == RunDataPlane
    ensures DataPlaneInOrder(a, Entries(Plan(r, a), a), i)
  {
    hide Plan, Entries, Settled, DoneBefore, InPartialRebuildExtents, Less, TwoStep, LokiGate, ReleaseAccepted;
    EntryIsWanted(r, a, i);
    assert a.cfg.dataPlane && a.readers.mayastorEnabled(Settled(r, a).user);
    EarlierStepsAreDone(r, a, i, GetValues);
    EarlierStepsAreDone(r, a, i, ListIoEnginePods);
    if a.cfg.recorder {
      EarlierStepsAreDone(r, a, i, Publish(HelmUpgradeComplete));
      EarlierStepsAreDone(r, a, i, Publish(DataPlaneUpgradeStart));
    }
  }

  lemma DataPlaneCompleteInOrder(r: Release, a: Attempt, i: nat)
    requires i < |Entries(Plan(r, a), a)| && Entries(Plan(r, a), a)[i].step == Publish(DataPlaneUpgradeComplete)
    ensures DataPlaneInOrder(a, Entries(Plan(r, a), a), i)
  {
    hide Plan, Entries, Settled, DoneBefore, InPartialRebuildExtents, Less, TwoStep, LokiGate, ReleaseAccepted;
    EntryIsWanted(r, a, i);
    EarlierStepsAreDone(r, a, i, Publish(DataPlaneUpgradeStart));
    EarlierStepsAreDone(r, a, i, RunDataPlane);
  }

  lemma EntryDataPlaneInOrder(r: Release, a: Attempt, i: nat)
    requires i < |Entries(Plan(r, a), a)|
    ensures DataPlaneInOrder(a, Entries(Plan(r, a), a), i)
  {
    var step := Entries(Plan(r, a), a)[i].step;
    if step == RunDataPlane {
      RunDataPlaneInOrder(r, a, i);
    } else if step == Publish(DataPlaneUpgradeComplete) {
      DataPlaneCompleteInOrder(r, a, i);
    } else if step == Publish(Reason.Success) {
      EntryIsWanted(r, a, i);
      hide Plan, Entries, Settled, DoneBefore;
      EarlierStepsAreDone(r, a, i, Publish(HelmUpgradeComplete));
    } else {
      hide Plan, Entries, DoneBefore;
    }
  }

  lemma EntryInOrder(r: Release, a: Attempt, i: nat)
    requires i < |Entries(Plan(r, a), a)|
    ensures InOrder(r, a, Entries(Plan(r, a), a), i) && !Entries(Plan(r, a), a)[i].step.PublishFatal?
  {
    EntryIsWanted(r, a, i);
    EntryDryRunFirst(r, a, i);
    EntryHelmInOrder(r, a, i);
    EntryDataPlaneInOrder(r, a, i);
    hide Plan, Entries, DryRunFirst, HelmInOrder, DataPlaneInOrder;
  }

  lemma InOrderExtends(r: Release, a: Attempt, t: seq<Entry>, last: Entry, i: nat)
    requires i < |t| && InOrder(r, a, t, i) && !t[i].step.PublishFatal?
    ensures InOrder(r, a, t + [last], i)
  {
    hide Less, TwoStep, LokiGate;
    forall step | DoneBefore(t, i, step) ensures DoneBefore(t + [last], i, step) {
      var j :| 0 <= j < i && j < |t| && t[j] == Did(step, Succeeds);
      assert (t + [last])[j] == t[j];
    }
  }

  /** Whatever fails or is interrupted, the whole trace is in order, its steps are distinct,
      and only the last step and a failure answered by a fatal event did not succeed. */
  lemma TraceInOrder(r: Release, loki: bool, a: Attempt)
    ensures var t := Attempted(r, loki, a).0.trace;
      && (forall i | 0 <= i < |t| :: InOrder(r, a, t, i))
      && (forall i, j | 0 <= i < j < |t| :: t[i].step != t[j].step)
      && (forall i | 0 <= i < |t| - 1 :: t[i].fate.Succeeds? || t[i + 1].step.PublishFatal?)
  {
    var t, e := Attempted(r, loki, a).0.trace, Entries(Plan(r, a), a);
    AttemptTraceShape(r, loki, a);
    EntriesFollowPlan(Plan(r, a), a);
    PlanRanked(r, a);
    OutcomeMatchesEntries(Sys(r, loki, []), Plan(r, a), r.version, a);
    hide Plan, Entries, Exec, Attempted, DryRunFirst, HelmInOrder, DataPlaneInOrder;
    forall i | 0 <= i < |e| ensures InOrder(r, a, t, i) && !e[i].step.PublishFatal? {
      EntryInOrder(r, a, i);
      if t != e { InOrderExtends(r, a, e, t[|e|], i); }
    }
    if t != e { FatalInOrder(r, a, t); }
  }

  lemma FatalInOrder(r: Release, a: Attempt, t: seq<Entry>)
    requires |t| > 0 && t[|t| - 1].step.PublishFatal? && FatalLast(a, t, |t| - 1)
    ensures InOrder(r, a, t, |t| - 1)
  {
  }

  /** With a recorder, an attempt returns Ok iff `Success` was the last thing it did and
      was published; an error whose step has a fatal event ends with the attempt to
      publish it, and every other error leaves no fatal event at all. */
  lemma OutcomeIsPublished(r: Release, loki: bool, a: Attempt)
    requires a.cfg.recorder
    ensures
      var (s, o) := Attempted(r, loki, a);
      var t := s.trace;
      && t != []
      && (o.Ok? <==> t[|t| - 1] == Did(Publish(Reason.Success), Succeeds))
      && (o.Err? ==>
            if FatalFor(o.at).Some? then t[|t| - 1].step == PublishFatal(FatalFor(o.at).value)
            else t[|t| - 1].step == o.at && forall i | 0 <= i < |t| :: !t[i].step.PublishFatal?)
  {
    hide Plan, Entries, Exec, Attempted, FateOf, FatalFor;
    var e := Entries(Plan(r, a), a);
    AttemptTraceShape(r, loki, a);
    PlanOutcome(r, loki, a);
  }

  lemma NoFatalPlanned(r: Release, a: Attempt, i: nat)
    requires i < |Entries(Plan(r, a), a)|
    ensures !Entries(Plan(r, a), a)[i].step.PublishFatal?
  {
    hide Plan, Entries, Settled;
    EntryIsWanted(r, a, i);
  }

  lemma PlanOutcome(r: Release, loki: bool, a: Attempt)
    requires a.cfg.recorder
    ensures
      var e, o := Entries(Plan(r, a), a), Exec(Sys(r, loki, []), Plan(r, a), r.version, a).1;
      && e != []
      && (forall i | 0 <= i < |e| :: !e[i].step.PublishFatal?)
      && (o.Ok? <==> e[|e| - 1] == Did(Publish(Reason.Success), Succeeds))
      && (o.Err? ==> e[|e| - 1].step == o.at)
  {
    hide Plan, Entries, Exec, FateOf;
    var p, e := Plan(r, a), Entries(Plan(r, a), a);
    EntriesFollowPlan(p, a);
    OutcomeMatchesEntries(Sys(r, loki, []), p, r.version, a);
    SuccessComesLast(r, a);
    forall i | 0 <= i < |e| ensures !e[i].step.PublishFatal? {
      NoFatalPlanned(r, a, i);
    }
  }

  lemma SuccessComesLast(r: Release, a: Attempt)
    requires a.cfg.recorder
    ensures var p := Plan(r, a); p != [] && forall i | 0 <= i < |p| :: p[i] == Publish(Reason.Success) <==> i == |p| - 1
  {
    var p := Plan(r, a);
    PlanIsExactlyTheWantedSteps(r, a, Publish(Reason.Success));
    PlanRanked(r, a);
    hide Plan, Settled, Less;
    var k :| 0 <= k < |p| && p[k] == Publish(Reason.Success);
    PlanIsExactlyTheWantedSteps(r, a, p[|p| - 1]);
  }

  /** No event at all is published before the dry run has been tried. */
  lemma EventsFollowDryRun(r: Release, loki: bool, a: Attempt)
    ensures var t := Attempted(r, loki, a).0.trace;
      (exists i :: 0 <= i < |t| && (t[i].step.Publish? || t[i].step.PublishFatal?)) ==>
        exists e :: e in t && e.step == DryRun
  {
    hide Plan, Entries, Exec, Attempted, Wanted;
    var t, e := Attempted(r, loki, a).0.trace, Entries(Plan(r, a), a);
    AttemptTraceShape(r, loki, a);
    OutcomeMatchesEntries(Sys(r, loki, []), Plan(r, a), r.version, a);
    if i :| 0 <= i < |t| && (t[i].step.Publish? || t[i].step.PublishFatal?) {
      var late := if i < |e| then i else |e| - 1;
      if i < |e| { NoFatalPlanned(r, a, i); }
      if e[late].step == DryRun {
        assert e[late] in t;
      } else {
        DryRunIsWanted(r, a);
        EarlierStepsAreDone(r, a, late, DryRun);
        var j :| 0 <= j < late && e[j] == Did(DryRun, Succeeds);
        assert e[j] in t;
      }
    }
  }

  lemma DryRunIsWanted(r: Release, a: Attempt)
    ensures Wanted(r, a, DryRun)
  {
  }

  /** An attempt that returns an error has come no further than the step at fault. */
  lemma StopsAtItsError(r: Release, loki: bool, a: Attempt)
    requires Attempted(r, loki, a).1.Err?
    ensures var (s, o) := Attempted(r, loki, a);
      forall e | e in s.trace :: e.step.PublishFatal? || Rank(e.step) <= Rank(o.at)
  {
    hide Plan, Entries, Exec, Attempted, Rank;
    var p := Plan(r, a);
    AttemptTraceShape(r, loki, a);
    OutcomeMatchesEntries(Sys(r, loki, []), p, r.version, a);
    EntriesFollowPlan(p, a);
    PlanRanked(r, a);
  }

  // ------------------------------------------------------ gates and events by name

  /** The gates in plain numbers: which rejections, reads and commands an attempt plans. */
  lemma GateByNumbers(r: Release, a: Attempt, step: Step)
    ensures
      var v, target, values := r.version, a.cfg.target, Settled(r, a).user;
      step in Plan(r, a) <==>
        match step
        case Reject(BadHelmVersion) => Less(a.obs.helm, Stable(3, 14, 0))
        case Reject(BadRelease) => r.chart != "openebs" || Less(v, Stable(3, 0, 0)) || !r.status.Deployed?
        case Reject(BadChartDir) => !a.obs.chartDirValid
        case Reject(DowngradeNotSupported) => !a.cfg.skipPathValidation && Less(target, v)
        case Reject(PartialRebuildNotAllowed) =>
          a.cfg.dataPlane && a.readers.mayastorEnabled(values) && a.readers.partialRebuild(values)
          && !Less(v, Stable(3, 7, 0)) && !Less(Stable(3, 10, 0), v)
        case ListCrds => Less(v, Stable(4, 0, 0)) && !Less(target, Stable(4, 0, 0))
        case DeleteLoki => !Less(v, Stable(3, 4, 1)) && Less(v, Stable(4, 3, 0))
        case ListEtcdPods => Less(v, Stable(4, 0, 0))
        case Helm(EtcdOff) => Less(v, Stable(4, 0, 0)) && a.obs.etcdPods == 0
        case Helm(EtcdOn) => Less(v, Stable(4, 0, 0)) && a.obs.etcdPods == 0
        case Helm(Plain) => !Less(v, Stable(4, 0, 0)) || a.obs.etcdPods != 0
        case GetRevisionHash => a.cfg.dataPlane && a.readers.mayastorEnabled(values)
        case ListIoEnginePods => a.cfg.dataPlane && a.readers.mayastorEnabled(values)
        case RunDataPlane => a.cfg.dataPlane && a.readers.mayastorEnabled(values)
        case Publish(DataPlaneUpgradeNotRequired) =>
          a.cfg.recorder && a.cfg.dataPlane && !a.readers.mayastorEnabled(values)
        case Publish(DataPlaneUpgradeStart) =>
          a.cfg.recorder && a.cfg.dataPlane && a.readers.mayastorEnabled(values)
        case Publish(DataPlaneUpgradeComplete) =>
          a.cfg.recorder && a.cfg.dataPlane && a.readers.mayastorEnabled(values)
        case Publish(_) => a.cfg.recorder
        case PublishFatal(_) => false
        case _ => true
  {
    hide Plan, Settled, Less;
    PlanIsExactlyTheWantedSteps(r, a, step);
  }

  /** Which fatal event answers which failure. */
  lemma FatalEventsByName(r: Release, loki: bool, a: Attempt)
    requires a.cfg.recorder
    ensures
      var (s, o) := Attempted(r, loki, a);
      o.Err? ==>
        match o.at
        case DryRun => s.trace != [] && s.trace[|s.trace| - 1].step == PublishFatal(FailedHelmUpgradeDryRun)
        case DeleteLoki => s.trace != [] && s.trace[|s.trace| - 1].step == PublishFatal(FailedHelmUpgrade)
        case ListEtcdPods => s.trace != [] && s.trace[|s.trace| - 1].step == PublishFatal(FailedHelmUpgrade)
        case Helm(_) => s.trace != [] && s.trace[|s.trace| - 1].step == PublishFatal(FailedHelmUpgrade)
        case GetValues => s.trace != [] && s.trace[|s.trace| - 1].step == PublishFatal(FailedHelmUpgrade)
        case RunDataPlane => s.trace != [] && s.trace[|s.trace| - 1].step == PublishFatal(FailedDataPlaneUpgrade)
        case _ => forall e | e in s.trace :: !e.step.PublishFatal?
  {
    hide Attempted;
    OutcomeIsPublished(r, loki, a);
  }

  /** The result of an attempt is the fate of its last command: Ok if that succeeded, its error
      if it failed, whether or not a fatal event could then be published, and no return if
      the process died at the command or at that event. */
  lemma LastFateIsReturned(r: Release, loki: bool, a: Attempt)
    ensures
      var (s, o) := Attempted(r, loki, a);
      var n := |s.trace|;
      n > 0 && (
        if s.trace[n - 1].step.PublishFatal? then
          n > 1 && s.trace[n - 2].fate.Fails?
          && o == if s.trace[n - 1].fate.Dies? then Died else Err(s.trace[n - 2].step)
        else
          match s.trace[n - 1].fate
          case Succeeds => o == Ok
          case Fails(_) => o == Err(s.trace[n - 1].step)
          case Dies(_) => o == Died)
  {
    hide Plan, Entries, Exec, Attempted, FatalFor;
    var p, e := Plan(r, a), Entries(Plan(r, a), a);
    AttemptTraceShape(r, loki, a);
    OutcomeMatchesEntries(Sys(r, loki, []), p, r.version, a);
    EntriesFollowPlan(p, a);
    DryRunIsWanted(r, a);
    PlanIsExactlyTheWantedSteps(r, a, DryRun);
    assert e != [];
    NoFatalPlanned(r, a, |e| - 1);
  }
}
