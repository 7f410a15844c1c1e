/** The upgrade job as it is written: validation, dry run, helm runner, data plane, each
    command changing the cluster or failing, and events published along the way. Every
    method is proved to do what the plan of `UpgradePlan` says. */
module UpgradeJob {
  import opened Wrappers
  import opened SemVer
  import opened HelmValues
  import opened UpgradePlan
  import CrdToggles

  /** What validation hands to the upgrade itself. */
  datatype UmbrellaUpgrader = UmbrellaUpgrader(
    extraArgs: seq<Arg>,
    sourceVersion: Version,
    targetVersion: Version)

  class Job {
    var release: Release
    var loki: bool
    var trace: seq<Entry>
    const a: Attempt

    constructor (release: Release, loki: bool, a: Attempt)
      ensures this.a == a && State() == Sys(release, loki, [])
    {
      this.release, this.loki, this.trace, this.a := release, loki, [], a;
    }

    ghost function State(): Sys
      reads this
    {
      Sys(release, loki, trace)
    }

    /** A command that leaves the release record alone. */
    method Run(step: Step, ghost source: Version) returns (o: Outcome)
      requires !step.Helm?
      modifies this
      ensures (State(), o) == Do((old(State()), Ok), step, source, a)
      ensures o.Err? ==> o.at == step
      ensures release == old(release)
    {
      var fate := FateOf(a, step);
      if step.DeleteLoki? && EffectOf(fate).Full? {
        loki := false;
      }
      trace := trace + [Did(step, fate)];
      o := OutcomeOf(a, step);
    }

    /** `helm upgrade` with the given arguments; `mode` tells the three call sites apart. */
    method HelmUpgrade(mode: Mode, target: Version, args: seq<Arg>, ghost source: Version) returns (o: Outcome)
      requires target == a.cfg.target && args == HelmArgs(source, a, mode)
      modifies this
      ensures (State(), o) == Do((old(State()), Ok), Helm(mode), source, a)
      ensures o.Ok? ==> release == RecordUpgrade(old(release), target, args, Full)
    {
      var fate := FateOf(a, Helm(mode));
      match EffectOf(fate) {
        case Nothing =>
        case Partial =>
          release := release.(version := target, status := Unsettled, user := UpgradedValues(release.user, args));
        case Full =>
          release := release.(version := target, status := Deployed, user := UpgradedValues(release.user, args));
      }
      trace := trace + [Did(Helm(mode), fate)];
      o := OutcomeOf(a, Helm(mode));
    }

    /** A failing `ensure!` ends the attempt with its error. */
    method Ensure(ok: bool, why: Rejection, ghost source: Version) returns (o: Outcome)
      modifies this
      ensures (State(), o) == DoIf(!ok, (old(State()), Ok), Reject(why), source, a)
      ensures o.Err? ==> o.at == Reject(why)
      ensures release == old(release)
    {
      o := Ok;
      if !ok {
        o := Run(Reject(why), source);
      }
    }

    method PublishNormal(reason: Reason, ghost source: Version) returns (o: Outcome)
      modifies this
      ensures (State(), o) == DoIf(a.cfg.recorder, (old(State()), Ok), Step.Publish(reason), source, a)
      ensures o.Err? ==> o.at == Step.Publish(reason)
      ensures release == old(release)
    {
      o := Ok;
      if a.cfg.recorder {
        o := Run(Step.Publish(reason), source);
      }
    }

    /** `publish_fatal` in an `or_else`: it never turns an error into a success. */
    method PublishFatalFor(error: Outcome, fatal: FatalReason, ghost source: Version) returns (o: Outcome)
      requires error.Err? && FatalFor(error.at) == Some(fatal)
      modifies this
      ensures (State(), o) == ReportFatal((old(State()), error), source, a)
    {
      o := error;
      if a.cfg.recorder {
        var sent := Run(Step.PublishFatal(fatal), source);
        if sent.Died? { o := Died; }
      }
    }

    /** Reads the release, checks the inputs and assembles the helm arguments. */
    method ValidateAndBuildHelmUpgrader() returns (o: Outcome, upgrader: UmbrellaUpgrader)
      modifies this
      ensures (State(), o) == Exec(old(State()), ValidatePlan(old(release), a), old(release.version), a)
      ensures release == old(release)
      ensures o.Ok? ==> upgrader == UmbrellaUpgrader(ExtraArgs(release.version, a), release.version, a.cfg.target)
    {
      hide Exec, Apply, OutcomeOf, Less;
      ValidateInSequence(State(), release, a);
      ghost var v := release.version;
      upgrader := UmbrellaUpgrader([], release.version, a.cfg.target);
      o := Run(GetMetadata, v);
      if !o.Ok? { return; }
      var source := release;
      o := Run(GetHelmVersion, v);
      if !o.Ok? { return; }
      o := Ensure(AtLeast(a.obs.helm, HELM_THREE_DOT_FOURTEEN), BadHelmVersion, v);
      if !o.Ok? { return; }
      o := Ensure(ReleaseAccepted(source), BadRelease, v);
      if !o.Ok? { return; }
      o := Run(CheckChartDir, v);
      if !o.Ok? { return; }
      o := Ensure(a.obs.chartDirValid, BadChartDir, v);
      if !o.Ok? { return; }
      o := Run(ReadChartVersion, v);
      if !o.Ok? { return; }
      var target := a.cfg.target;
      o := Ensure(a.cfg.skipPathValidation || AtLeast(target, source.version), DowngradeNotSupported, v);
      if !o.Ok? { return; }
      o := Run(CreateValuesFile, v);
      if !o.Ok? { return; }
      if Less(source.version, FOUR_DOT_O) && !Less(target, FOUR_DOT_O) {
        o := Run(ListCrds, v);
        if !o.Ok? { return; }
      }
      var valuesFile := CrdToggles.GenerateValuesFile(source.version, target, a.obs.crds);
      o := Run(BuildClient, v);
      if !o.Ok? { return; }
      var args: seq<Arg> := [];
      if a.cfg.argsSet.Some? { args := args + [Set(a.cfg.argsSet.value)]; }
      if a.cfg.argsSetFile.Some? { args := args + [SetFile(a.cfg.argsSetFile.value)]; }
      args := args + [ValuesFile(valuesFile)] + [ResetThenReuseValues];
      assert args == ExtraArgs(source.version, a);
      upgrader := UmbrellaUpgrader(args, source.version, target);
    }

    /** The runner returned by the dry run: Loki gate, then one or two helm upgrades. */
    method RunHelmUpgrade(up: UmbrellaUpgrader) returns (o: Outcome, finalValues: Node)
      requires up == UmbrellaUpgrader(ExtraArgs(release.version, a), release.version, a.cfg.target)
      modifies this
      ensures (State(), o) == Exec(old(State()), HelmPlan(old(release), a), up.sourceVersion, a)
      ensures o.Ok? ==> release == Settled(old(release), a) && finalValues == release.user
    {
      hide Exec, Apply, OutcomeOf, Less;
      HelmInSequence(State(), release, a);
      finalValues := EMPTY;
      if AtLeast(up.sourceVersion, THREE_DOT_FOUR_DOT_ONE) && Less(up.sourceVersion, FOUR_DOT_THREE) {
        o := Run(DeleteLoki, up.sourceVersion);
        if !o.Ok? { return; }
      }
      var noEtcdPods := false;
      if Less(up.sourceVersion, FOUR_DOT_O) {
        o := Run(ListEtcdPods, up.sourceVersion);
        if !o.Ok? { return; }
        noEtcdPods := a.obs.etcdPods == 0;
      }
      if noEtcdPods {
        o := HelmUpgrade(EtcdOff, up.targetVersion, up.extraArgs + [EtcdFlagArg(false)], up.sourceVersion);
        if !o.Ok? { return; }
        o := HelmUpgrade(EtcdOn, up.targetVersion, up.extraArgs + [EtcdFlagArg(true)], up.sourceVersion);
        if !o.Ok? { return; }
      } else {
        o := HelmUpgrade(Plain, up.targetVersion, up.extraArgs, up.sourceVersion);
        if !o.Ok? { return; }
      }
      o := Run(GetValues, up.sourceVersion);
      finalValues := release.user;
    }

    /** The guard's rejection and the two listings fail without an event. */
    method MayastorDataPlaneUpgrade(finalValues: Node, source: Version) returns (o: Outcome)
      modifies this
      ensures (State(), o) ==
        ReportFatal(Exec(old(State()), DataPlanePlan(source, finalValues, a), source, a), source, a)
    {
      hide Exec, Apply, OutcomeOf, Less;
      DataPlaneInSequence(State(), source, finalValues, a);
      if !a.readers.mayastorEnabled(finalValues) {
        o := PublishNormal(DataPlaneUpgradeNotRequired, source);
        return;
      }
      o := Ensure(!(AtLeast(source, PARTIAL_REBUILD_FROM) && AtLeast(PARTIAL_REBUILD_TO, source)
                    && a.readers.partialRebuild(finalValues)), PartialRebuildNotAllowed, source);
      if !o.Ok? { return; }
      o := Run(GetRevisionHash, source);
      if !o.Ok? { return; }
      o := Run(ListIoEnginePods, source);
      if !o.Ok? { return; }
      o := PublishNormal(DataPlaneUpgradeStart, source);
      if !o.Ok? { return; }
      o := Run(RunDataPlane, source);
      if o.Err? {
        o := PublishFatalFor(o, FailedDataPlaneUpgrade, source);
        return;
      }
      if o.Died? { return; }
      o := PublishNormal(DataPlaneUpgradeComplete, source);
    }

    /** The upgrade proper, end to end. */
    method Upgrade(up: UmbrellaUpgrader) returns (o: Outcome)
      requires up == UmbrellaUpgrader(ExtraArgs(release.version, a), release.version, a.cfg.target)
      modifies this
      ensures (State(), o) == ReportFatal(Exec(old(State()), UpgradeSteps(old(release), a), up.sourceVersion, a),
                                          up.sourceVersion, a)
    {
      hide Exec, Apply, OutcomeOf, Less, ExtraArgs, UpgradeSteps, DataPlanePlan, Settled;
      var source := up.sourceVersion;
      UpgradeInSequence(State(), release, a);
      o := Run(DryRun, source);
      if o.Err? {
        o := PublishFatalFor(o, FailedHelmUpgradeDryRun, source);
        return;
      }
      if o.Died? { return; }
      o := PublishNormal(HelmUpgradeStart, source);
      if !o.Ok? { return; }
      ExecStopsInPlan(State(), HelmPlan(release, a), source, a);
      var finalValues: Node;
      o, finalValues := RunHelmUpgrade(up);
      if o.Err? {
        o := PublishFatalFor(o, FailedHelmUpgrade, source);
        return;
      }
      if o.Died? { return; }
      o := PublishNormal(HelmUpgradeComplete, source);
      if !o.Ok? { return; }
      if a.cfg.dataPlane {
        o := MayastorDataPlaneUpgrade(finalValues, source);
        if !o.Ok? { return; }
      }
      o := PublishNormal(Reason.Success, source);
    }

    /** One attempt of a fresh process, from reading the release to its result. */
    method ValidateAndUpgrade() returns (o: Outcome)
      requires trace == []
      modifies this
      ensures (State(), o) == Attempted(old(release), old(loki), a)
    {
      var r := release;
      ghost var v := r.version;
      ExecAppend(State(), ValidatePlan(r, a), UpgradeSteps(r, a), v, a);
      ExecStopsInPlan(State(), ValidatePlan(r, a), v, a);
      var upgrader: UmbrellaUpgrader;
      o, upgrader := ValidateAndBuildHelmUpgrader();
      if !o.Ok? { return; }
      o := Upgrade(upgrader);
    }
  }

  // ------------------------------------------------- plans unfolded step by step

  function Do(so: (Sys, Outcome), step: Step, source: Version, a: Attempt): (Sys, Outcome) {
    if so.1.Ok? then (Apply(so.0, step, source, a), OutcomeOf(a, step)) else so
  }

  function DoIf(cond: bool, so: (Sys, Outcome), step: Step, source: Version, a: Attempt): (Sys, Outcome) {
    if cond then Do(so, step, source, a) else so
  }

  lemma ExecNothing(s: Sys, source: Version, a: Attempt)
    ensures Exec(s, [], source, a) == (s, Ok)
  {
  }

  lemma ExecOne(s: Sys, step: Step, source: Version, a: Attempt)
    ensures Exec(s, [step], source, a) == Do((s, Ok), step, source, a)
  {
    hide Apply, OutcomeOf;
    assert [step][1..] == [];
    ExecNothing(Apply(s, step, source, a), source, a);
  }

  lemma Peel(s: Sys, p: seq<Step>, step: Step, source: Version, a: Attempt) returns (q: seq<Step>)
    ensures q == p + [step]
    ensures Exec(s, q, source, a) == Do(Exec(s, p, source, a), step, source, a)
  {
    hide Exec, Apply, OutcomeOf;
    q := p + [step];
    ExecAppend(s, p, [step], source, a);
    ExecOne(Exec(s, p, source, a).0, step, source, a);
  }

  lemma PeelIf(s: Sys, p: seq<Step>, cond: bool, step: Step, source: Version, a: Attempt) returns (q: seq<Step>)
    ensures q == p + When(cond, [step])
    ensures Exec(s, q, source, a) == DoIf(cond, Exec(s, p, source, a), step, source, a)
  {
    hide Exec, Apply, OutcomeOf, Do;
    q := p + When(cond, [step]);
    if cond {
      var q' := Peel(s, p, step, source, a);
    } else {
      assert q == p;
    }
  }

  lemma ValidateInSequence(s: Sys, r: Release, a: Attempt)
    ensures
      var v := r.version;
      var x := Do(Do((s, Ok), GetMetadata, v, a), GetHelmVersion, v, a);
      var x := DoIf(!AtLeast(a.obs.helm, HELM_THREE_DOT_FOURTEEN), x, Reject(BadHelmVersion), v, a);
      var x := Do(DoIf(!ReleaseAccepted(r), x, Reject(BadRelease), v, a), CheckChartDir, v, a);
      var x := Do(DoIf(!a.obs.chartDirValid, x, Reject(BadChartDir), v, a), ReadChartVersion, v, a);
      var x := Do(DoIf(!PathAccepted(v, a.cfg), x, Reject(DowngradeNotSupported), v, a), CreateValuesFile, v, a);
      var x := Do(DoIf(CrdToggles.Crosses(v, a.cfg.target), x, ListCrds, v, a), BuildClient, v, a);
      Exec(s, ValidatePlan(r, a), v, a) == x
  {
    hide Exec, Do, DoIf, When, Less, AtLeast, ReleaseAccepted, CrdToggles.Crosses;
    var v := r.version;
    ExecOne(s, GetMetadata, v, a);
    var p := [GetMetadata];
    p := Peel(s, p, GetHelmVersion, v, a);
    p := PeelIf(s, p, !AtLeast(a.obs.helm, HELM_THREE_DOT_FOURTEEN), Reject(BadHelmVersion), v, a);
    p := PeelIf(s, p, !ReleaseAccepted(r), Reject(BadRelease), v, a);
    p := Peel(s, p, CheckChartDir, v, a);
    p := PeelIf(s, p, !a.obs.chartDirValid, Reject(BadChartDir), v, a);
    p := Peel(s, p, ReadChartVersion, v, a);
    p := PeelIf(s, p, !PathAccepted(v, a.cfg), Reject(DowngradeNotSupported), v, a);
    p := Peel(s, p, CreateValuesFile, v, a);
    p := PeelIf(s, p, CrdToggles.Crosses(v, a.cfg.target), ListCrds, v, a);
    p := Peel(s, p, BuildClient, v, a);
    assert p == ValidatePlan(r, a);
  }

  lemma HelmInSequence(s: Sys, r: Release, a: Attempt)
    ensures
      var v := r.version;
      var x := DoIf(Less(v, FOUR_DOT_O), DoIf(LokiGate(v), (s, Ok), DeleteLoki, v, a), ListEtcdPods, v, a);
      var x := if TwoStep(v, a.obs) then Do(Do(x, Helm(EtcdOff), v, a), Helm(EtcdOn), v, a)
        else Do(x, Helm(Plain), v, a);
      Exec(s, HelmPlan(r, a), v, a) == Do(x, GetValues, v, a)
  {
    hide Exec, Do, DoIf, When, Less, AtLeast;
    var v := r.version;
    ExecNothing(s, v, a);
    var p := PeelIf(s, [], LokiGate(v), DeleteLoki, v, a);
    p := PeelIf(s, p, Less(v, FOUR_DOT_O), ListEtcdPods, v, a);
    if TwoStep(v, a.obs) {
      p := Peel(s, p, Helm(EtcdOff), v, a);
      p := Peel(s, p, Helm(EtcdOn), v, a);
    } else {
      p := Peel(s, p, Helm(Plain), v, a);
    }
    p := Peel(s, p, GetValues, v, a);
    assert p == HelmPlan(r, a);
  }

  lemma DataPlaneInSequence(s: Sys, source: Version, values: Node, a: Attempt)
    ensures
      var v := source;
      var bad := InPartialRebuildExtents(v) && a.readers.partialRebuild(values);
      var x := Do(DoIf(bad, (s, Ok), Reject(PartialRebuildNotAllowed), v, a), GetRevisionHash, v, a);
      var x := DoIf(a.cfg.recorder, Do(x, ListIoEnginePods, v, a), Step.Publish(DataPlaneUpgradeStart), v, a);
      var x := DoIf(a.cfg.recorder, Do(x, RunDataPlane, v, a), Step.Publish(DataPlaneUpgradeComplete), v, a);
      Exec(s, DataPlanePlan(v, values, a), v, a) ==
        if a.readers.mayastorEnabled(values) then x
        else DoIf(a.cfg.recorder, (s, Ok), Step.Publish(DataPlaneUpgradeNotRequired), v, a)
  {
    hide Exec, Do, DoIf, When, Less, AtLeast;
    var v := source;
    if a.readers.mayastorEnabled(values) {
      var bad := InPartialRebuildExtents(v) && a.readers.partialRebuild(values);
      ExecNothing(s, v, a);
      var p := PeelIf(s, [], bad, Reject(PartialRebuildNotAllowed), v, a);
      p := Peel(s, p, GetRevisionHash, v, a);
      p := Peel(s, p, ListIoEnginePods, v, a);
      p := PeelIf(s, p, a.cfg.recorder, Step.Publish(DataPlaneUpgradeStart), v, a);
      p := Peel(s, p, RunDataPlane, v, a);
      p := PeelIf(s, p, a.cfg.recorder, Step.Publish(DataPlaneUpgradeComplete), v, a);
      assert p == DataPlanePlan(v, values, a);
    } else {
      ExecNothing(s, v, a);
      var p := PeelIf(s, [], a.cfg.recorder, Step.Publish(DataPlaneUpgradeNotRequired), v, a);
      assert p == DataPlanePlan(v, values, a);
    }
  }

  lemma UpgradeInSequence(s: Sys, r: Release, a: Attempt)
    ensures
      var v, told := r.version, a.cfg.recorder;
      var x := DoIf(told, Do((s, Ok), DryRun, v, a), Step.Publish(HelmUpgradeStart), v, a);
      var x := DoIf(told, Then(x, HelmPlan(r, a), v, a), Step.Publish(HelmUpgradeComplete), v, a);
      var x := if a.cfg.dataPlane then Then(x, DataPlanePlan(v, Settled(r, a).user, a), v, a) else x;
      Exec(s, UpgradeSteps(r, a), v, a) == DoIf(told, x, Step.Publish(Reason.Success), v, a)
  {
    hide Exec, Do, DoIf, When, Less, AtLeast;
    var v, told := r.version, a.cfg.recorder;
    ExecNothing(s, v, a);
    var p := Peel(s, [], DryRun, v, a);
    p := PeelIf(s, p, told, Step.Publish(HelmUpgradeStart), v, a);
    ExecAppend(s, p, HelmPlan(r, a), v, a);
    p := PeelIf(s, p + HelmPlan(r, a), told, Step.Publish(HelmUpgradeComplete), v, a);
    if a.cfg.dataPlane {
      ExecAppend(s, p, DataPlanePlan(v, Settled(r, a).user, a), v, a);
      p := p + DataPlanePlan(v, Settled(r, a).user, a);
    }
    p := PeelIf(s, p, told, Step.Publish(Reason.Success), v, a);
    assert p == UpgradeSteps(r, a);
  }
}
