/** Whole runs: the Kubernetes Job repeats an attempt that fails or dies, and every attempt
    re-reads a release that an earlier one may have changed. */
module Restarts {
  import opened SemVer
  import opened HelmValues
  import opened UpgradePlan
  import opened AttemptTrace
  import CrdToggles

  datatype Cluster = Cluster(release: Release, loki: bool)

  /** What one attempt leaves behind, however it ends. */
  function Next(c: Cluster, a: Attempt): Cluster {
    var s := Attempted(c.release, c.loki, a).0;
    Cluster(s.release, s.loki)
  }

  function Run(c: Cluster, attempts: seq<Attempt>): Cluster
    decreases |attempts|
  {
    if attempts == [] then c else Run(Next(c, attempts[0]), attempts[1..])
  }

  /** The cluster that attempt `i` finds. */
  function Found(c: Cluster, attempts: seq<Attempt>, i: nat): Cluster
    requires i <= |attempts|
  {
    Run(c, attempts[..i])
  }

  // ------------------------------------------------- what one attempt can change

  predicate AllSucceed(plan: seq<Step>, a: Attempt) {
    forall step | step in plan :: FateOf(a, step).Succeeds?
  }

  /** The steps in front of the first helm upgrade. */
  function BeforeHelm(r: Release, a: Attempt): seq<Step> {
    ValidatePlan(r, a) + [DryRun] + Announce(a, HelmUpgradeStart)
    + When(LokiGate(r.version), [DeleteLoki]) + When(Less(r.version, FOUR_DOT_O), [ListEtcdPods])
  }

  function FirstMode(r: Release, a: Attempt): Mode {
    if TwoStep(r.version, a.obs) then EtcdOff else Plain
  }

  /** How much of the first helm upgrade reached the cluster. */
  function FirstEffect(r: Release, a: Attempt): Effect {
    if AllSucceed(BeforeHelm(r, a), a) then EffectOf(a.fate(Helm(FirstMode(r, a)))) else Nothing
  }

  /** How much of the second helm upgrade, with the etcd flag on again, reached it. */
  function SecondEffect(r: Release, a: Attempt): Effect {
    if TwoStep(r.version, a.obs) && AllSucceed(BeforeHelm(r, a), a) && a.fate(Helm(EtcdOff)).Succeeds?
    then EffectOf(a.fate(Helm(EtcdOn)))
    else Nothing
  }

  lemma {:induction false} ExecAllSucceed(s: Sys, plan: seq<Step>, source: Version, a: Attempt)
    ensures Exec(s, plan, source, a).1.Ok? <==> AllSucceed(plan, a)
    decreases |plan|
  {
    if plan != [] {
      var s' := Apply(s, plan[0], source, a);
      if OutcomeOf(a, plan[0]).Ok? {
        ExecAllSucceed(s', plan[1..], source, a);
        assert forall step :: step in plan <==> step == plan[0] || step in plan[1..];
      } else {
        assert plan[0] in plan;
      }
    }
  }

  lemma {:induction false} NoHelmNoChange(s: Sys, plan: seq<Step>, source: Version, a: Attempt)
    requires forall step | step in plan :: !step.Helm?
    ensures Exec(s, plan, source, a).0.release == s.release
    decreases |plan|
  {
    if plan != [] {
      NoHelmNoChange(Apply(s, plan[0], source, a), plan[1..], source, a);
    }
  }

  function AfterHelm(r: Release, a: Attempt): seq<Step> {
    [GetValues]
    + Announce(a, HelmUpgradeComplete)
    + (if a.cfg.dataPlane then DataPlanePlan(r.version, Settled(r, a).user, a) else [])
    + Announce(a, Reason.Success)
  }

  function HelmUpgrades(r: Release, a: Attempt): seq<Step> {
    if TwoStep(r.version, a.obs) then [Helm(EtcdOff)] + [Helm(EtcdOn)] else [Helm(Plain)]
  }

  lemma PlanAroundHelm(r: Release, a: Attempt)
    ensures Plan(r, a) == BeforeHelm(r, a) + HelmUpgrades(r, a) + AfterHelm(r, a)
  {
    hide ValidatePlan, When, Announce, HelmUpgrades, DataPlanePlan, Settled;
    var dataPlane := if a.cfg.dataPlane then DataPlanePlan(r.version, Settled(r, a).user, a) else [];
    HelmPlanParts(r, a);
    Regroup(ValidatePlan(r, a), [DryRun], Announce(a, HelmUpgradeStart),
            When(LokiGate(r.version), [DeleteLoki]), When(Less(r.version, FOUR_DOT_O), [ListEtcdPods]),
            HelmUpgrades(r, a), [GetValues], Announce(a, HelmUpgradeComplete), dataPlane, Announce(a, Reason.Success));
  }

  lemma HelmPlanParts(r: Release, a: Attempt)
    ensures HelmPlan(r, a)
         == When(LokiGate(r.version), [DeleteLoki]) + When(Less(r.version, FOUR_DOT_O), [ListEtcdPods])
            + HelmUpgrades(r, a) + [GetValues]
  {
  }

  lemma Regroup<T>(a: seq<T>, b: seq<T>, c: seq<T>, d: seq<T>, e: seq<T>,
                   f: seq<T>, g: seq<T>, h: seq<T>, i: seq<T>, j: seq<T>)
    ensures a + (b + c + (d + e + f + g) + h + i + j) == (a + b + c + d + e) + f + (g + h + i + j)
  {
    assert b + c + (d + e + f + g) == (b + c + d + e) + f + g;
    assert (b + c + d + e) + f + g + h + i + j == (b + c + d + e) + (f + (g + h + i + j));
    assert a + (b + c + d + e) == a + b + c + d + e;
  }

  lemma NoHelmAround(r: Release, a: Attempt, step: Step)
    requires step in BeforeHelm(r, a) || step in AfterHelm(r, a)
    ensures !step.Helm?
  {
    hide Less, LokiGate, Settled, ReleaseAccepted, InPartialRebuildExtents, AtLeast;
  }

  /** The release after an attempt is fixed by how far its one or two helm upgrades got. */
  lemma ReleaseAfter(c: Cluster, a: Attempt)
    ensures
      var r, v := c.release, c.release.version;
      var first := RecordUpgrade(r, a.cfg.target, HelmArgs(v, a, FirstMode(r, a)), FirstEffect(r, a));
      Next(c, a).release == RecordUpgrade(first, a.cfg.target, HelmArgs(v, a, EtcdOn), SecondEffect(r, a))
  {
    hide HelmArgs, BeforeHelm, AfterHelm, Plan, TwoStep, HelmUpgrades, Exec, UpgradedValues, AllSucceed;
    var r, v, s := c.release, c.release.version, Sys(c.release, c.loki, []);
    PlanAroundHelm(r, a);
    var before, helm, after := BeforeHelm(r, a), HelmUpgrades(r, a), AfterHelm(r, a);
    forall step | step in before || step in after ensures !step.Helm? { NoHelmAround(r, a, step); }
    ExecAppend(s, before + helm, after, v, a);
    ExecAppend(s, before, helm, v, a);
    var x := Exec(s, before, v, a);
    NoHelmNoChange(s, before, v, a);
    ExecAllSucceed(s, before, v, a);
    if x.1.Ok? {
      HelmReleases(x.0, r, a);
      var y := Exec(x.0, helm, v, a);
      NoHelmNoChange(y.0, after, v, a);
    }
  }

  lemma HelmReleases(s: Sys, r: Release, a: Attempt)
    ensures
      var v := r.version;
      var off := RecordUpgrade(s.release, a.cfg.target, HelmArgs(v, a, FirstMode(r, a)),
                               EffectOf(a.fate(Helm(FirstMode(r, a)))));
      Exec(s, HelmUpgrades(r, a), v, a).0.release ==
        if TwoStep(v, a.obs) && a.fate(Helm(EtcdOff)).Succeeds?
        then RecordUpgrade(off, a.cfg.target, HelmArgs(v, a, EtcdOn), EffectOf(a.fate(Helm(EtcdOn))))
        else off
  {
    hide RecordUpgrade, HelmArgs, Less;
    var v := r.version;
    if TwoStep(v, a.obs) {
      var s' := Apply(s, Helm(EtcdOff), v, a);
      assert HelmUpgrades(r, a)[0] == Helm(EtcdOff) && HelmUpgrades(r, a)[1..] == [Helm(EtcdOn)];
      assert [Helm(EtcdOn)][1..] == [];
      assert Exec(s', [Helm(EtcdOn)], v, a).0 == Apply(s', Helm(EtcdOn), v, a);
    } else {
      assert HelmUpgrades(r, a)[1..] == [];
      assert Exec(s, [Helm(Plain)], v, a).0 == Apply(s, Helm(Plain), v, a);
    }
  }

  /** Nothing is upgraded unless the release and the path were accepted. */
  lemma TouchedMeansAccepted(r: Release, a: Attempt)
    requires FirstEffect(r, a) != Nothing
    ensures ReleaseAccepted(r) && PathAccepted(r.version, a.cfg)
  {
    hide Less, AtLeast, LokiGate, TwoStep;
    assert forall why :: !FateOf(a, Reject(why)).Succeeds?;
    assert Reject(BadRelease) !in BeforeHelm(r, a);
    assert Reject(DowngradeNotSupported) !in BeforeHelm(r, a);
  }

  /** An attempt either leaves the release as it was or has moved it to the target. */
  lemma NextRelease(c: Cluster, a: Attempt)
    ensures var r' := Next(c, a).release;
      if FirstEffect(c.release, a).Nothing? then r' == c.release
      else r'.version == a.cfg.target && r'.chart == c.release.chart
           && ReleaseAccepted(c.release) && PathAccepted(c.release.version, a.cfg)
  {
    ReleaseAfter(c, a);
    hide Next, HelmArgs, UpgradedValues, AllSucceed, BeforeHelm, Less, ReleaseAccepted, PathAccepted;
    if !FirstEffect(c.release, a).Nothing? { TouchedMeansAccepted(c.release, a); }
  }

  // ------------------------------------------------- the three concurrent input checks

  /** The checks of the helm version, the release and the chart directory. */
  function InputChecks(r: Release, a: Attempt): seq<Step> {
    [GetHelmVersion]
    + Unless(AtLeast(a.obs.helm, HELM_THREE_DOT_FOURTEEN), BadHelmVersion)
    + Unless(ReleaseAccepted(r), BadRelease)
    + [CheckChartDir]
    + Unless(a.obs.chartDirValid, BadChartDir)
  }

  function AfterChecks(r: Release, a: Attempt): seq<Step> {
    [ReadChartVersion]
    + Unless(PathAccepted(r.version, a.cfg), DowngradeNotSupported)
    + [CreateValuesFile]
    + When(CrdToggles.Crosses(r.version, a.cfg.target), [ListCrds])
    + [BuildClient]
    + UpgradeSteps(r, a)
  }

  /** The attempt in which the input checks come in the given order. */
  function Reordered(r: Release, a: Attempt, order: seq<Step>): seq<Step> {
    [GetMetadata] + order + AfterChecks(r, a)
  }

  lemma PlanIsOneOrder(r: Release, a: Attempt)
    ensures Plan(r, a) == Reordered(r, a, InputChecks(r, a))
  {
    hide UpgradeSteps, Unless, When, ReleaseAccepted, PathAccepted, AtLeast, CrdToggles.Crosses;
  }

  lemma {:induction false} ExecIgnoresTrace(s: Sys, t: Sys, plan: seq<Step>, source: Version, a: Attempt)
    requires s.release == t.release && s.loki == t.loki
    ensures
      var (s', o), (t', o') := Exec(s, plan, source, a), Exec(t, plan, source, a);
      s'.release == t'.release && s'.loki == t'.loki && o == o'
    decreases |plan|
  {
    hide RecordUpgrade, HelmArgs;
    if plan != [] {
      ExecIgnoresTrace(Apply(s, plan[0], source, a), Apply(t, plan[0], source, a), plan[1..], source, a);
    }
  }

  lemma {:induction false} ReadsChangeNothing(s: Sys, plan: seq<Step>, source: Version, a: Attempt)
    requires forall step | step in plan :: !Mutates(step)
    ensures Exec(s, plan, source, a).0.release == s.release && Exec(s, plan, source, a).0.loki == s.loki
    decreases |plan|
  {
    if plan != [] {
      assert !Mutates(plan[0]);
      ReadsChangeNothing(Apply(s, plan[0], source, a), plan[1..], source, a);
    }
  }

  /** Two orders of the same reads, with the same steps to follow. */
  lemma ReadsInAnyOrder(s: Sys, xs: seq<Step>, ys: seq<Step>, after: seq<Step>, source: Version, a: Attempt)
    requires forall step :: step in xs <==> step in ys
    requires forall step | step in ys :: !Mutates(step)
    ensures
      var (x, o), (y, o') := Exec(s, xs + after, source, a), Exec(s, ys + after, source, a);
      && x.release == y.release && x.loki == y.loki && (o.Ok? <==> o'.Ok?)
      && (if AllSucceed(ys, a) then o == o'
          else !o.Ok? && x.release == s.release && x.loki == s.loki && (o.Err? ==> o.at in xs))
  {
    hide Apply, OutcomeOf, FateOf;
    ExecAppend(s, xs, after, source, a);
    ExecAppend(s, ys, after, source, a);
    ReadsChangeNothing(s, xs, source, a);
    ReadsChangeNothing(s, ys, source, a);
    ExecAllSucceed(s, xs, source, a);
    ExecAllSucceed(s, ys, source, a);
    ExecStopsInPlan(s, xs, source, a);
    ExecIgnoresTrace(Exec(s, xs, source, a).0, Exec(s, ys, source, a).0, after, source, a);
  }

  /** The three checks run concurrently, and their order does not matter: in whatever order
      their steps come, they leave the cluster alone, and what follows is the same. Only
      which of several failures is reported depends on it. */
  lemma ChecksInAnyOrder(c: Cluster, a: Attempt, order: seq<Step>)
    requires forall step :: step in order <==> step in InputChecks(c.release, a)
    ensures
      var s, v := Sys(c.release, c.loki, []), c.release.version;
      var (x, o), (y, o') := Exec(s, Reordered(c.release, a, order), v, a), Exec(s, Plan(c.release, a), v, a);
      && x.release == y.release && x.loki == y.loki && (o.Ok? <==> o'.Ok?)
      && (o == o' ||
          (!AllSucceed(order, a) && x.release == c.release && x.loki == c.loki && (o.Err? ==> o.at in order)))
  {
    hide Plan, AfterChecks, InputChecks, AllSucceed, Exec;
    var s, v, checks := Sys(c.release, c.loki, []), c.release.version, InputChecks(c.release, a);
    var after := AfterChecks(c.release, a);
    PlanIsOneOrder(c.release, a);
    forall step | step in checks ensures !Mutates(step) { CheckOnlyReads(c.release, a, step); }
    assert [GetMetadata] + order + after == [GetMetadata] + (order + after);
    assert [GetMetadata] + checks + after == [GetMetadata] + (checks + after);
    ExecAppend(s, [GetMetadata], order + after, v, a);
    ExecAppend(s, [GetMetadata], checks + after, v, a);
    ReadsChangeNothing(s, [GetMetadata], v, a);
    var s' := Exec(s, [GetMetadata], v, a).0;
    ReadsInAnyOrder(s', order, checks, after, v, a);
    SameSuccess(order, checks, a);
  }

  lemma SameSuccess(xs: seq<Step>, ys: seq<Step>, a: Attempt)
    requires forall step :: step in xs <==> step in ys
    ensures AllSucceed(xs, a) <==> AllSucceed(ys, a)
  {
  }

  lemma CheckOnlyReads(r: Release, a: Attempt, step: Step)
    requires step in InputChecks(r, a)
    ensures !Mutates(step)
  {
  }

  // ------------------------------------------------------- versions over whole runs

  ghost predicate NoSkip(attempts: seq<Attempt>) {
    forall a | a in attempts :: !a.cfg.skipPathValidation
  }

  /** Without the skip flag no sequence of attempts lowers the version of the release, and a
      release that was changed at all is at 3.0.0 or later. */
  lemma {:induction false} VersionNeverDecreases(c: Cluster, attempts: seq<Attempt>)
    requires NoSkip(attempts)
    ensures AtLeast(Run(c, attempts).release.version, c.release.version)
    ensures Run(c, attempts).release != c.release ==> AtLeast(Run(c, attempts).release.version, LOWERBOUND)
    decreases |attempts|
  {
    AtLeastIsLessOrEqual(c.release.version, c.release.version);
    if attempts != [] {
      var c' := Next(c, attempts[0]);
      NextRelease(c, attempts[0]);
      VersionNeverDecreases(c', attempts[1..]);
      hide Next, Less;
      AtLeastTransitive(Run(c, attempts).release.version, c'.release.version, c.release.version);
      if c'.release != c.release {
        AtLeastTransitive(c'.release.version, c.release.version, LOWERBOUND);
      }
    }
  }

  lemma {:induction false} RunAppend(c: Cluster, xs: seq<Attempt>, ys: seq<Attempt>)
    ensures Run(c, xs + ys) == Run(Run(c, xs), ys)
    decreases |xs|
  {
    if xs == [] {
      assert xs + ys == ys;
    } else {
      assert (xs + ys)[1..] == xs[1..] + ys;
      RunAppend(Next(c, xs[0]), xs[1..], ys);
    }
  }

  /** Versions found by the attempts of one run grow with the attempts. */
  lemma FoundVersionsGrow(c: Cluster, attempts: seq<Attempt>, i: nat, j: nat)
    requires i <= j <= |attempts| && NoSkip(attempts)
    ensures AtLeast(Found(c, attempts, j).release.version, Found(c, attempts, i).release.version)
  {
    hide Less, Next;
    assert attempts[..j] == attempts[..i] + attempts[i..j];
    RunAppend(c, attempts[..i], attempts[i..j]);
    VersionNeverDecreases(Found(c, attempts, i), attempts[i..j]);
  }

  /** Once a release is at 4.0.0 or later, no attempt of the run looks at CRDs or etcd pods,
      writes a toggle, or takes the two-step upgrade again. */
  lemma FourDotOGatesAreBehind(c: Cluster, attempts: seq<Attempt>, i: nat)
    requires i < |attempts| && NoSkip(attempts) && AtLeast(c.release.version, FOUR_DOT_O)
    ensures
      var r, a := Found(c, attempts, i).release, attempts[i];
      && AtLeast(r.version, FOUR_DOT_O)
      && !CrdToggles.Crosses(r.version, a.cfg.target) && !TwoStep(r.version, a.obs)
      && forall step | step in Plan(r, a) :: step !in {ListCrds, ListEtcdPods, Helm(EtcdOff), Helm(EtcdOn)}
  {
    hide Next, Plan, Settled;
    FoundVersionsGrow(c, attempts, 0, i);
    assert Found(c, attempts, 0) == c;
    var r, a := Found(c, attempts, i).release, attempts[i];
    AtLeastTransitive(r.version, c.release.version, FOUR_DOT_O);
    forall step | step in Plan(r, a) ensures step !in {ListCrds, ListEtcdPods, Helm(EtcdOff), Helm(EtcdOn)} {
      PlanIsExactlyTheWantedSteps(r, a, step);
    }
  }

  /** The attempts whose gate enables the delete of the Loki StatefulSet form one contiguous
      stretch of the run, and all of them plan it. */
  lemma LokiGateIsContiguous(c: Cluster, attempts: seq<Attempt>, i: nat, j: nat, k: nat)
    requires i <= j <= k < |attempts| && NoSkip(attempts)
    requires LokiGate(Found(c, attempts, i).release.version) && LokiGate(Found(c, attempts, k).release.version)
    ensures LokiGate(Found(c, attempts, j).release.version)
    ensures DeleteLoki in Plan(Found(c, attempts, j).release, attempts[j])
  {
    hide Next, Plan, Settled, Less;
    var ri, rj, rk := Found(c, attempts, i).release, Found(c, attempts, j).release, Found(c, attempts, k).release;
    PlanIsExactlyTheWantedSteps(rj, attempts[j], DeleteLoki);
    FoundVersionsGrow(c, attempts, i, j);
    FoundVersionsGrow(c, attempts, j, k);
    AtLeastTransitive(rj.version, ri.version, THREE_DOT_FOUR_DOT_ONE);
    if AtLeast(rj.version, FOUR_DOT_THREE) {
      AtLeastTransitive(rk.version, rj.version, FOUR_DOT_THREE);
    }
  }

  // --------------------------------------------------------------- stuck releases

  /** A release that is not accepted (say, left unsettled by a half-done helm upgrade) stays
      as it is for ever: no later attempt changes it, touches anything or returns Ok. */
  lemma {:induction false} UnacceptedReleaseIsStuck(c: Cluster, attempts: seq<Attempt>)
    requires !ReleaseAccepted(c.release)
    ensures Run(c, attempts) == c
    ensures forall a | a in attempts ::
              && !Attempted(c.release, c.loki, a).1.Ok?
              && forall e | e in Attempted(c.release, c.loki, a).0.trace :: !Mutates(e.step)
    decreases |attempts|
  {
    if attempts != [] {
      StuckAttempt(c, attempts[0]);
      UnacceptedReleaseIsStuck(c, attempts[1..]);
      hide Next, Attempted;
      assert forall a :: a in attempts <==> a == attempts[0] || a in attempts[1..];
    }
  }

  /** So a helm upgrade that stops half-way is final: the release shows the target version,
      but no retry, with whatever arguments, gets past validation again. */
  lemma HalfDoneUpgradeIsFinal(c: Cluster, a: Attempt, later: seq<Attempt>)
    requires SecondEffect(c.release, a).Partial?
              || (SecondEffect(c.release, a).Nothing? && FirstEffect(c.release, a).Partial?)
    ensures Next(c, a).release.version == a.cfg.target
    ensures Run(Next(c, a), later) == Next(c, a)
  {
    hide Next, HelmArgs, UpgradedValues, AllSucceed, BeforeHelm;
    ReleaseAfter(c, a);
    UnacceptedReleaseIsStuck(Next(c, a), later);
  }

  lemma {:induction false} LokiAfterExec(s: Sys, plan: seq<Step>, source: Version, a: Attempt)
    ensures Exec(s, plan, source, a).0.loki ==
            (s.loki && forall e | e in Entries(plan, a) :: !(e.step.DeleteLoki? && EffectOf(e.fate).Full?))
    decreases |plan|
  {
    hide RecordUpgrade;
    if plan != [] && OutcomeOf(a, plan[0]).Ok? {
      LokiAfterExec(Apply(s, plan[0], source, a), plan[1..], source, a);
      var first := Did(plan[0], FateOf(a, plan[0]));
      assert Entries(plan, a) == [first] + Entries(plan[1..], a);
    }
  }

  lemma StuckAttempt(c: Cluster, a: Attempt)
    requires !ReleaseAccepted(c.release)
    ensures Next(c, a) == c
    ensures !Attempted(c.release, c.loki, a).1.Ok?
    ensures forall e | e in Attempted(c.release, c.loki, a).0.trace :: !Mutates(e.step)
  {
    hide Plan, Entries, Exec, Settled, RecordUpgrade, Less;
    var r, e := c.release, Entries(Plan(c.release, a), a);
    AttemptTraceShape(r, c.loki, a);
    forall i | 0 <= i < |e| ensures !Mutates(e[i].step) {
      StuckEntry(r, a, i);
    }
    LokiAfterExec(Sys(r, c.loki, []), Plan(r, a), r.version, a);
    NextRelease(c, a);
    ExecAllSucceed(Sys(r, c.loki, []), Plan(r, a), r.version, a);
    PlanIsExactlyTheWantedSteps(r, a, Reject(BadRelease));
  }

  lemma StuckEntry(r: Release, a: Attempt, i: nat)
    requires !ReleaseAccepted(r) && i < |Entries(Plan(r, a), a)|
    ensures !Mutates(Entries(Plan(r, a), a)[i].step)
  {
    hide Plan, Entries, Settled, Less;
    if Mutates(Entries(Plan(r, a), a)[i].step) {
      NothingPassesARejection(r, a, i, BadRelease);
    }
  }

  /** A step is only reached if no gate in front of it rejected the attempt. */
  lemma NothingPassesARejection(r: Release, a: Attempt, i: nat, why: Rejection)
    requires i < |Entries(Plan(r, a), a)| && Rank(Reject(why)) < Rank(Entries(Plan(r, a), a)[i].step)
    ensures !Wanted(r, a, Reject(why))
  {
    hide Plan, Entries, Wanted, Rank;
    var e := Entries(Plan(r, a), a);
    if Wanted(r, a, Reject(why)) {
      EarlierStepsAreDone(r, a, i, Reject(why));
      var j :| 0 <= j < i && e[j] == Did(Reject(why), Succeeds);
      EntriesFollowPlan(Plan(r, a), a);
      assert false;
    }
  }

  // -------------------------------------------------------------- what Ok vouches for

  /** Every command of the attempt succeeds. */
  ghost predicate Undisturbed(a: Attempt) {
    forall step :: a.fate(step).Succeeds?
  }

  /** An attempt that returns Ok has done all its wanted steps and no others, has the release
      settled at the target, and has the Loki StatefulSet gone iff the gate asked for it. */
  lemma OkMeansDone(c: Cluster, a: Attempt)
    requires Attempted(c.release, c.loki, a).1.Ok?
    ensures forall step ::
      Wanted(c.release, a, step) <==> Did(step, Succeeds) in Attempted(c.release, c.loki, a).0.trace
    ensures Next(c, a).release == Settled(c.release, a)
    ensures Next(c, a).loki == (c.loki && !LokiGate(c.release.version))
  {
    hide Plan, Entries, Exec, Wanted, HelmArgs, UpgradedValues, LokiGate, TwoStep, BeforeHelm;
    var r, p, s := c.release, Plan(c.release, a), Sys(c.release, c.loki, []);
    AttemptTraceShape(r, c.loki, a);
    var e := Entries(p, a);
    EntriesFollowPlan(p, a);
    OutcomeMatchesEntries(s, p, r.version, a);
    forall step ensures Wanted(r, a, step) <==> Did(step, Succeeds) in e {
      PlanIsExactlyTheWantedSteps(r, a, step);
      if step in p {
        var i :| 0 <= i < |p| && p[i] == step;
        assert e[i] == Did(step, Succeeds);
      }
    }
    LokiAfterExec(s, p, r.version, a);
    WantedLokiDelete(r, a);
    ExecAllSucceed(s, p, r.version, a);
    SucceedsThroughout(c, a);
  }

  lemma WantedLokiDelete(r: Release, a: Attempt)
    ensures Wanted(r, a, DeleteLoki) <==> LokiGate(r.version)
  {
  }

  lemma SucceedsThroughout(c: Cluster, a: Attempt)
    requires AllSucceed(Plan(c.release, a), a)
    ensures Next(c, a).release == Settled(c.release, a)
  {
    hide Next, Plan, BeforeHelm, AfterHelm, HelmArgs, UpgradedValues, TwoStep;
    PlanAroundHelm(c.release, a);
    assert forall step | step in BeforeHelm(c.release, a) :: step in Plan(c.release, a);
    assert forall step | step in HelmUpgrades(c.release, a) :: step in Plan(c.release, a);
    assert Helm(FirstMode(c.release, a)) in HelmUpgrades(c.release, a);
    assert TwoStep(c.release.version, a.obs) ==> Helm(EtcdOn) in HelmUpgrades(c.release, a);
    assert forall mode | Helm(mode) in HelmUpgrades(c.release, a) :: FateOf(a, Helm(mode)).Succeeds?;
    ReleaseAfter(c, a);
  }

  // -------------------------------------------------------- the partial-rebuild guard

  /** Within one attempt the data plane is only ever touched when it is wanted and the guard
      has nothing against it. */
  lemma DataPlaneIsGuarded(c: Cluster, a: Attempt, e: Entry)
    requires e in Attempted(c.release, c.loki, a).0.trace && e.step.RunDataPlane?
    ensures
      var values := Settled(c.release, a).user;
      && a.cfg.dataPlane && a.readers.mayastorEnabled(values)
      && !(InPartialRebuildExtents(c.release.version) && a.readers.partialRebuild(values))
  {
    hide Plan, Entries, Exec, Settled, Less, AtLeast;
    var r := c.release;
    AttemptTraceShape(r, c.loki, a);
    var t := Entries(Plan(r, a), a);
    var i :| 0 <= i < |t| && t[i] == e;
    EntryIsWanted(r, a, i);
    NothingPassesARejection(r, a, i, PartialRebuildNotAllowed);
  }

  predicate InputsAccepted(r: Release, a: Attempt) {
    && ReleaseAccepted(r) && PathAccepted(r.version, a.cfg)
    && a.obs.chartDirValid && AtLeast(a.obs.helm, HELM_THREE_DOT_FOURTEEN)
  }

  /** The data plane is to be restarted although partial rebuild stays on. */
  predicate WantsGuard(r: Release, a: Attempt) {
    var values := Settled(r, a).user;
    a.cfg.dataPlane && a.readers.mayastorEnabled(values) && a.readers.partialRebuild(values)
  }

  predicate GuardObjects(r: Release, a: Attempt) {
    WantsGuard(r, a) && InPartialRebuildExtents(r.version)
  }

  /** With valid inputs, an undisturbed attempt returns Ok unless the guard objects, and then
      it fails exactly there, without a fatal event and after the helm upgrade has settled. */
  lemma UndisturbedOutcome(c: Cluster, a: Attempt)
    requires Undisturbed(a) && InputsAccepted(c.release, a)
    ensures Attempted(c.release, c.loki, a).1
         == if GuardObjects(c.release, a) then Err(Reject(PartialRebuildNotAllowed)) else Ok
    ensures Next(c, a).release == Settled(c.release, a)
  {
    hide Plan, Entries, Exec, Settled, HelmArgs, UpgradedValues, Less, InPartialRebuildExtents, LokiGate, BeforeHelm;
    var r, s := c.release, Sys(c.release, c.loki, []);
    ExecAllSucceed(s, Plan(r, a), r.version, a);
    ExecStopsInPlan(s, Plan(r, a), r.version, a);
    OutcomeMatchesEntries(s, Plan(r, a), r.version, a);
    EntriesFollowPlan(Plan(r, a), a);
    AttemptTraceShape(r, c.loki, a);
    forall step | step in Plan(r, a) && !FateOf(a, step).Succeeds?
      ensures step == Reject(PartialRebuildNotAllowed)
    {
      PlanIsExactlyTheWantedSteps(r, a, step);
    }
    PlanIsExactlyTheWantedSteps(r, a, Reject(PartialRebuildNotAllowed));
    UndisturbedHelm(c, a);
  }

  /** With valid inputs nothing in front of the helm upgrade is rejected. */
  lemma ReachesHelm(r: Release, a: Attempt)
    requires InputsAccepted(r, a)
    requires forall step: Step | !step.Helm? && step != GetValues :: a.fate(step).Succeeds?
    ensures AllSucceed(BeforeHelm(r, a), a)
  {
    hide Less, LokiGate, TwoStep;
    forall step | step in BeforeHelm(r, a) ensures FateOf(a, step).Succeeds? {
      assert !step.Reject? && !step.Helm? && step != GetValues;
    }
  }

  lemma UndisturbedHelm(c: Cluster, a: Attempt)
    requires Undisturbed(a) && InputsAccepted(c.release, a)
    ensures Next(c, a).release == Settled(c.release, a)
  {
    hide Next, HelmArgs, UpgradedValues, TwoStep, AllSucceed, BeforeHelm, InputsAccepted;
    ReachesHelm(c.release, a);
    ReleaseAfter(c, a);
  }

  /** The verdict on an attempt in which every command succeeds, in plain numbers: the first
      objection in protocol order, before which nothing was touched, or the guard's, or Ok. */
  lemma UndisturbedVerdict(c: Cluster, a: Attempt)
    requires forall step :: a.fate(step).Succeeds?
    ensures
      var r, v, values := c.release, c.release.version, Settled(c.release, a).user;
      var o := Attempted(c.release, c.loki, a).1;
      if Less(a.obs.helm, Stable(3, 14, 0)) then o == Err(Reject(BadHelmVersion)) && Next(c, a) == c
      else if r.chart != "openebs" || Less(v, Stable(3, 0, 0)) || !r.status.Deployed? then
        o == Err(Reject(BadRelease)) && Next(c, a) == c
      else if !a.obs.chartDirValid then o == Err(Reject(BadChartDir)) && Next(c, a) == c
      else if !a.cfg.skipPathValidation && Less(a.cfg.target, v) then
        o == Err(Reject(DowngradeNotSupported)) && Next(c, a) == c
      else
        && Next(c, a).release == Settled(r, a)
        && o == if a.cfg.dataPlane && a.readers.mayastorEnabled(values) && a.readers.partialRebuild(values)
                   && !Less(v, Stable(3, 7, 0)) && !Less(Stable(3, 10, 0), v)
                then Err(Reject(PartialRebuildNotAllowed)) else Ok
  {
    hide Plan, Exec, Settled, Less, Next, Attempted, HelmArgs, UpgradedValues;
    forall why ensures Reject(why) in Plan(c.release, a) <==> Wanted(c.release, a, Reject(why)) {
      PlanIsExactlyTheWantedSteps(c.release, a, Reject(why));
    }
    if InputsAccepted(c.release, a) {
      UndisturbedOutcome(c, a);
    } else {
      var why: Rejection :=
        if Less(a.obs.helm, Stable(3, 14, 0)) then BadHelmVersion
        else if !ReleaseAccepted(c.release) then BadRelease
        else if !a.obs.chartDirValid then BadChartDir else DowngradeNotSupported;
      FirstRejectionEnds(c, a, why);
    }
  }

  lemma FirstRejectionEnds(c: Cluster, a: Attempt, why: Rejection)
    requires Undisturbed(a) && Reject(why) in Plan(c.release, a) && why != PartialRebuildNotAllowed
    requires forall w: Rejection | Rank(Reject(w)) < Rank(Reject(why)) :: Reject(w) !in Plan(c.release, a)
    ensures Attempted(c.release, c.loki, a).1 == Err(Reject(why)) && Next(c, a) == c
  {
    hide Plan, Exec, Settled, Less, Wanted, Entries, HelmArgs, UpgradedValues;
    var r, s, p, e := c.release, Sys(c.release, c.loki, []), Plan(c.release, a), Entries(Plan(c.release, a), a);
    AttemptTraceShape(r, c.loki, a);
    OutcomeMatchesEntries(s, p, r.version, a);
    EntriesFollowPlan(p, a);
    PlanRanked(r, a);
    PlanIsExactlyTheWantedSteps(r, a, Reject(why));
    var k :| 0 <= k < |p| && p[k] == Reject(why);
    forall i | 0 <= i < k ensures !p[i].Reject? && FateOf(a, p[i]).Succeeds? {
      RejectionsRanked(p[i], why);
    }
    assert |e| == k + 1;
    forall x | x in e ensures !Mutates(x.step) { MutationsRanked(x.step, why); }
    UntouchedTrace(s, p, r.version, a);
  }

  lemma MutationsRanked(step: Step, why: Rejection)
    requires Rank(step) <= Rank(Reject(why)) && why != PartialRebuildNotAllowed
    ensures !Mutates(step)
  {
  }

  lemma RejectionsRanked(step: Step, why: Rejection)
    ensures step.Reject? && Rank(step) < Rank(Reject(why)) ==> Rank(Reject(step.why)) < Rank(Reject(why))
  {
  }

  /** A trace without mutations leaves the cluster as it was. */
  lemma {:induction false} UntouchedTrace(s: Sys, plan: seq<Step>, source: Version, a: Attempt)
    requires forall e | e in Entries(plan, a) :: !Mutates(e.step)
    ensures Exec(s, plan, source, a).0.release == s.release && Exec(s, plan, source, a).0.loki == s.loki
    decreases |plan|
  {
    hide RecordUpgrade, HelmArgs;
    if plan != [] {
      assert Entries(plan, a)[0] in Entries(plan, a);
      if OutcomeOf(a, plan[0]).Ok? {
        assert forall e | e in Entries(plan[1..], a) :: e in Entries(plan, a);
        UntouchedTrace(Apply(s, plan[0], source, a), plan[1..], source, a);
      }
    }
  }

  /** An attempt that the guard rejects has already moved the release, whatever else failed
      on the way: the guard comes after the helm upgrade. */
  lemma RejectedAttemptHasMoved(c: Cluster, a: Attempt)
    requires Attempted(c.release, c.loki, a).1 == Err(Reject(PartialRebuildNotAllowed))
    ensures Next(c, a).release == Settled(c.release, a) && GuardObjects(c.release, a)
    ensures FirstEffect(c.release, a).Full?
  {
    hide Plan, Exec, Settled, HelmArgs, Less, InPartialRebuildExtents, BeforeHelm, AfterHelm, TwoStep, AllSucceed;
    hide HelmUpgrades, Wanted, Next;
    var r, v, s := c.release, c.release.version, Sys(c.release, c.loki, []);
    var before, helm, after := BeforeHelm(r, a), HelmUpgrades(r, a), AfterHelm(r, a);
    var guard := Reject(PartialRebuildNotAllowed);
    GuardIsLate(r, a);
    PlanAroundHelm(r, a);
    ExecAppend(s, before + helm, after, v, a);
    ExecAppend(s, before, helm, v, a);
    ExecStopsInPlan(s, before, v, a);
    ExecStopsInPlan(Exec(s, before, v, a).0, helm, v, a);
    ExecStopsInPlan(s, Plan(r, a), v, a);
    ExecAllSucceed(s, before + helm, v, a);
    PlanIsExactlyTheWantedSteps(r, a, guard);
    GuardWanted(r, a);
    AllSucceedMoves(c, a);
  }

  lemma GuardIsLate(r: Release, a: Attempt)
    ensures Reject(PartialRebuildNotAllowed) !in BeforeHelm(r, a) + HelmUpgrades(r, a)
  {
  }

  lemma GuardWanted(r: Release, a: Attempt)
    ensures Wanted(r, a, Reject(PartialRebuildNotAllowed)) <==> GuardObjects(r, a)
  {
  }

  lemma AllSucceedMoves(c: Cluster, a: Attempt)
    requires AllSucceed(BeforeHelm(c.release, a) + HelmUpgrades(c.release, a), a)
    ensures Next(c, a).release == Settled(c.release, a) && FirstEffect(c.release, a).Full?
  {
    hide Next, BeforeHelm, HelmArgs, UpgradedValues, TwoStep;
    var helm := HelmUpgrades(c.release, a);
    assert forall step | step in BeforeHelm(c.release, a) || step in helm :: step in BeforeHelm(c.release, a) + helm;
    assert Helm(FirstMode(c.release, a)) in helm && (TwoStep(c.release.version, a.obs) ==> Helm(EtcdOn) in helm);
    assert forall mode | Helm(mode) in helm :: FateOf(a, Helm(mode)).Succeeds?;
    ReleaseAfter(c, a);
  }

  ghost predicate SameTarget(attempts: seq<Attempt>, target: Version) {
    forall a | a in attempts :: a.cfg.target == target
  }

  /** In a run towards one target the release shows its first version or the target. */
  lemma {:induction false} OneTarget(c: Cluster, attempts: seq<Attempt>, target: Version)
    requires SameTarget(attempts, target)
    ensures Run(c, attempts).release.version in {c.release.version, target}
    decreases |attempts|
  {
    hide Next;
    if attempts != [] {
      NextRelease(c, attempts[0]);
      OneTarget(Next(c, attempts[0]), attempts[1..], target);
    }
  }

  /** The attempt restarted the data plane, at least in part, while the values it had just
      settled leave partial rebuild on. */
  ghost predicate Unguarded(c: Cluster, a: Attempt) {
    && a.readers.partialRebuild(Settled(c.release, a).user)
    && exists e :: e in Attempted(c.release, c.loki, a).0.trace && e.step.RunDataPlane?
  }

  lemma UnguardedIsOutside(c: Cluster, a: Attempt)
    requires Unguarded(c, a)
    ensures !InPartialRebuildExtents(c.release.version) && a.cfg.dataPlane
  {
    var e :| e in Attempted(c.release, c.loki, a).0.trace && e.step.RunDataPlane?;
    DataPlaneIsGuarded(c, a, e);
  }

  lemma UndisturbedIsUnguarded(c: Cluster, a: Attempt)
    requires Undisturbed(a) && InputsAccepted(c.release, a) && WantsGuard(c.release, a)
    ensures if InPartialRebuildExtents(c.release.version)
            then Attempted(c.release, c.loki, a).1 == Err(Reject(PartialRebuildNotAllowed))
            else Unguarded(c, a)
  {
    hide Next, Attempted, InPartialRebuildExtents, Settled, InputsAccepted;
    UndisturbedOutcome(c, a);
    if !InPartialRebuildExtents(c.release.version) {
      OkMeansDone(c, a);
      assert Wanted(c.release, a, RunDataPlane);
    }
  }

  /** On a release that shows the target, the target decides alone, whatever fails or dies:
      inside [3.7.0, 3.10.0] no attempt ever restarts the data plane with partial rebuild on,
      outside none is ever rejected by the guard. An undisturbed attempt that wants the guard
      does the one or the other. */
  lemma GuardAtTarget(c: Cluster, attempts: seq<Attempt>, i: nat)
    requires i < |attempts| && SameTarget(attempts, c.release.version)
    ensures
      var c', b, target := Found(c, attempts, i), attempts[i], c.release.version;
      var rejected := Attempted(c'.release, c'.loki, b).1 == Err(Reject(PartialRebuildNotAllowed));
      && c'.release.version == target
      && (rejected ==> InPartialRebuildExtents(target))
      && (Unguarded(c', b) ==> !InPartialRebuildExtents(target))
      && (Undisturbed(b) && InputsAccepted(c'.release, b) && WantsGuard(c'.release, b) ==>
            if InPartialRebuildExtents(target) then rejected else Unguarded(c', b))
  {
    hide Next, Attempted, HelmArgs, UpgradedValues, InPartialRebuildExtents, Unguarded, InputsAccepted;
    OneTarget(c, attempts[..i], c.release.version);
    var c', b := Found(c, attempts, i), attempts[i];
    if Attempted(c'.release, c'.loki, b).1 == Err(Reject(PartialRebuildNotAllowed)) {
      RejectedAttemptHasMoved(c', b);
    }
    if Unguarded(c', b) { UnguardedIsOutside(c', b); }
    if Undisturbed(b) && InputsAccepted(c'.release, b) && WantsGuard(c'.release, b) {
      UndisturbedIsUnguarded(c', b);
    }
  }

  /** So it is after every attempt whose helm upgrade took any effect: whether the guard then
      rejected it (see `RejectedAttemptHasMoved`), or it failed or died before the guard. Every
      later attempt towards the same target reads the target as its source. */
  lemma GuardAcrossRestart(c: Cluster, a: Attempt, later: seq<Attempt>, i: nat)
    requires FirstEffect(c.release, a) != Nothing
    requires i < |later| && SameTarget(later, a.cfg.target)
    ensures
      var c', b := Found(Next(c, a), later, i), later[i];
      var rejected := Attempted(c'.release, c'.loki, b).1 == Err(Reject(PartialRebuildNotAllowed));
      && c'.release.version == a.cfg.target
      && (rejected ==> InPartialRebuildExtents(a.cfg.target))
      && (Unguarded(c', b) ==> !InPartialRebuildExtents(a.cfg.target))
      && (Undisturbed(b) && InputsAccepted(c'.release, b) && WantsGuard(c'.release, b) ==>
            if InPartialRebuildExtents(a.cfg.target) then rejected else Unguarded(c', b))
  {
    hide Next, Attempted, FirstEffect, InPartialRebuildExtents, Unguarded, InputsAccepted, WantsGuard, Found;
    NextRelease(c, a);
    GuardAtTarget(Next(c, a), later, i);
  }

  ghost predicate SameArguments(attempts: seq<Attempt>, cfg: Config) {
    forall a | a in attempts :: a.cfg == cfg
  }

  /** No attempt of any run with these arguments is unguarded, whatever each attempt's readers
      make of the values. */
  ghost predicate GuardHoldsInRuns(c: Cluster, cfg: Config) {
    forall attempts: seq<Attempt>, i: nat | i < |attempts| && SameArguments(attempts, cfg) ::
      !Unguarded(Found(c, attempts, i), attempts[i])
  }

  lemma {:induction false} RefusedRunKeepsRelease(c: Cluster, attempts: seq<Attempt>, cfg: Config)
    requires SameArguments(attempts, cfg)
    requires !(ReleaseAccepted(c.release) && PathAccepted(c.release.version, cfg))
    ensures Run(c, attempts).release == c.release
    decreases |attempts|
  {
    hide Next, ReleaseAccepted, PathAccepted;
    if attempts != [] {
      NextRelease(c, attempts[0]);
      RefusedRunKeepsRelease(Next(c, attempts[0]), attempts[1..], cfg);
    }
  }

  lemma UnguardedMeansAccepted(c: Cluster, a: Attempt)
    requires Unguarded(c, a)
    ensures ReleaseAccepted(c.release)
  {
    if !ReleaseAccepted(c.release) { StuckAttempt(c, a); }
  }

  /** From a source inside the extents, the guard protects the data plane in every run with
      the same arguments, whatever fails and whatever the values say, iff the target is inside
      them too: or no attempt gets as far, because the data plane is left out, or the release,
      the path to the target or the target itself is refused. */
  lemma GuardProtectsRunsIff(c: Cluster, cfg: Config)
    requires InPartialRebuildExtents(c.release.version)
    ensures GuardHoldsInRuns(c, cfg)
       <==> || InPartialRebuildExtents(cfg.target) || !cfg.dataPlane
            || !ReleaseAccepted(c.release) || !PathAccepted(c.release.version, cfg) || !AtLeast(cfg.target, LOWERBOUND)
  {
    hide Next, Attempted, Unguarded, InPartialRebuildExtents, PathAccepted, Less;
    if !InPartialRebuildExtents(cfg.target) && cfg.dataPlane && ReleaseAccepted(c.release)
       && PathAccepted(c.release.version, cfg) && AtLeast(cfg.target, LOWERBOUND) {
      RetryIsUnguarded(c, cfg);
    } else {
      forall attempts: seq<Attempt>, i: nat | i < |attempts| && SameArguments(attempts, cfg)
        ensures !Unguarded(Found(c, attempts, i), attempts[i])
      {
        var found := Found(c, attempts, i);
        if Unguarded(found, attempts[i]) {
          UnguardedIsOutside(found, attempts[i]);
          UnguardedMeansAccepted(found, attempts[i]);
          OneTarget(c, attempts[..i], cfg.target);
          RefusedRunKeepsRelease(c, attempts[..i], cfg);
          assert false;
        }
      }
    }
  }

  /** An undisturbed attempt of a cluster with Mayastor and partial rebuild. */
  function PlainAttempt(cfg: Config): Attempt {
    Attempt(cfg, Observed(HELM_THREE_DOT_FOURTEEN, true, [], 1), Readers(n => true, n => true), step => Succeeds)
  }

  lemma RetryIsUnguarded(c: Cluster, cfg: Config)
    requires ReleaseAccepted(c.release) && InPartialRebuildExtents(c.release.version)
    requires PathAccepted(c.release.version, cfg) && AtLeast(cfg.target, LOWERBOUND) && cfg.dataPlane
    requires !InPartialRebuildExtents(cfg.target)
    ensures !GuardHoldsInRuns(c, cfg)
  {
    hide Next, Attempted, HelmArgs, UpgradedValues, InPartialRebuildExtents, Unguarded;
    var a, c1 := PlainAttempt(cfg), Next(c, PlainAttempt(cfg));
    AtLeastIsLessOrEqual(HELM_THREE_DOT_FOURTEEN, HELM_THREE_DOT_FOURTEEN);
    AtLeastIsLessOrEqual(cfg.target, cfg.target);
    hide Less;
    UndisturbedIsUnguarded(c, a);
    RejectedAttemptHasMoved(c, a);
    UndisturbedIsUnguarded(c1, a);
    assert [a, a][..1] == [a] && [a][1..] == [];
    assert Run(c, [a]) == Run(c1, []);
    assert Found(c, [a, a], 1) == c1 && [a, a][1] == a;
  }
}
