/** Whether the partial-rebuild guard protects a whole run, for given questions to the values:
    the answer is in the values that upgrades with the run's own arguments can leave. */
module RebuildGuard {
  import opened SemVer
  import opened HelmValues
  import opened UpgradePlan
  import opened AttemptTrace
  import opened Restarts
  import RunValues

  // ------------------------------------------------------------- values of upgrades

  /** What one attempt that upgrades finds, and the last upgrade it gets done. */
  datatype Move = Move(obs: Observed, mode: Mode)

  predicate Legal(source: Version, m: Move) {
    m.mode.Plain? <==> !TwoStep(source, m.obs)
  }

  /** An attempt that gets as far as the helm upgrade of `m` and then dies. */
  function Realized(cfg: Config, readers: Readers, m: Move): Attempt {
    Attempt(cfg, m.obs.(helm := HELM_THREE_DOT_FOURTEEN, chartDirValid := true), readers,
            step => if step == GetValues then Dies(Nothing)
                    else if step == Helm(EtcdOn) && m.mode == EtcdOff then Fails(Nothing)
                    else Succeeds)
  }

  function Moved(source: Version, cfg: Config, user: Node, m: Move): Node {
    UpgradedValues(user, HelmArgs(source, Realized(cfg, Readers(n => true, n => true), m), m.mode))
  }

  /** The values that a series of upgrades leaves; all but the first start at the target. */
  function Values(source: Version, cfg: Config, user: Node, moves: seq<Move>): Node
    decreases |moves|
  {
    if moves == [] then user else Values(cfg.target, cfg, Moved(source, cfg, user, moves[0]), moves[1..])
  }

  predicate LegalMoves(source: Version, cfg: Config, moves: seq<Move>)
    decreases |moves|
  {
    moves == [] || (Legal(source, moves[0]) && LegalMoves(cfg.target, cfg, moves[1..]))
  }

  predicate On(readers: Readers, values: Node) {
    readers.mayastorEnabled(values) && readers.partialRebuild(values)
  }

  /** A first upgrade and at least one retry, the last one complete, can leave values with
      Mayastor and partial rebuild on. */
  ghost predicate StaysOn(r: Release, cfg: Config, readers: Readers) {
    exists moves: seq<Move> :: LeavesOn(r, cfg, readers, moves)
  }

  ghost predicate LeavesOn(r: Release, cfg: Config, readers: Readers, moves: seq<Move>) {
    && |moves| >= 2 && LegalMoves(r.version, cfg, moves) && moves[|moves| - 1].mode != EtcdOff
    && On(readers, Values(r.version, cfg, r.user, moves))
  }

  lemma {:induction false} MovesAppend(source: Version, cfg: Config, user: Node, moves: seq<Move>, m: Move)
    requires moves != []
    ensures Values(source, cfg, user, moves + [m]) == Moved(cfg.target, cfg, Values(source, cfg, user, moves), m)
    ensures LegalMoves(source, cfg, moves + [m]) <==> LegalMoves(source, cfg, moves) && Legal(cfg.target, m)
    decreases |moves|
  {
    hide Moved, Legal;
    assert (moves + [m])[1..] == moves[1..] + [m];
    if |moves| == 1 {
      var user' := Moved(source, cfg, user, moves[0]);
      assert moves[1..] == [] && [m][1..] == [] && moves[1..] + [m] == [m];
      assert Values(cfg.target, cfg, user', [m]) == Values(cfg.target, cfg, Moved(cfg.target, cfg, user', m), []);
    } else {
      MovesAppend(cfg.target, cfg, Moved(source, cfg, user, moves[0]), moves[1..], m);
    }
  }

  lemma MovedBy(source: Version, a: Attempt, user: Node, mode: Mode)
    ensures Moved(source, a.cfg, user, Move(a.obs, mode)) == UpgradedValues(user, HelmArgs(source, a, mode))
  {
    hide UpgradedValues;
  }

  // ------------------------------------------------------------- runs are such series

  /** An attempt that leaves a changed and settled release has made one move. */
  lemma AttemptMoves(c: Cluster, a: Attempt) returns (m: Move)
    requires FirstEffect(c.release, a) != Nothing && Next(c, a).release.status.Deployed?
    ensures Legal(c.release.version, m) && Next(c, a).release.version == a.cfg.target
    ensures Next(c, a).release.user == Moved(c.release.version, a.cfg, c.release.user, m)
  {
    hide Next, AllSucceed, BeforeHelm, HelmArgs, UpgradedValues, Moved, TwoStep;
    var r, v := c.release, c.release.version;
    var mode := if !TwoStep(v, a.obs) then Plain else if SecondEffect(r, a).Nothing? then EtcdOff else EtcdOn;
    m := Move(a.obs, mode);
    ReleaseAfter(c, a);
    MovedBy(v, a, r.user, mode);
    TwoStepRefinesOneStep(r.user, EMPTY, v, a);
  }

  /** A run with one set of arguments leaves the release unsettled, or with the values of a
      series of moves. */
  lemma {:induction false} RunMoves(c: Cluster, attempts: seq<Attempt>, cfg: Config) returns (moves: seq<Move>)
    requires SameArguments(attempts, cfg)
    ensures var r, r' := c.release, Run(c, attempts).release;
      r'.status.Deployed? ==>
        && LegalMoves(r.version, cfg, moves) && r'.user == Values(r.version, cfg, r.user, moves)
        && r'.version == if moves == [] then r.version else cfg.target
    decreases |attempts|
  {
    hide Next, FirstEffect, Moved, Legal;
    moves := [];
    if attempts != [] {
      var c' := Next(c, attempts[0]);
      NextRelease(c, attempts[0]);
      if FirstEffect(c.release, attempts[0]).Nothing? {
        moves := RunMoves(c', attempts[1..], cfg);
      } else if c'.release.status.Deployed? {
        var m := AttemptMoves(c, attempts[0]);
        var rest := RunMoves(c', attempts[1..], cfg);
        moves := [m] + rest;
        assert moves[1..] == rest;
      } else {
        UnacceptedReleaseIsStuck(c', attempts[1..]);
      }
    }
  }

  /** The run that makes the given moves. */
  function RunOf(cfg: Config, readers: Readers, moves: seq<Move>): seq<Attempt>
    decreases |moves|
  {
    if moves == [] then [] else [Realized(cfg, readers, moves[0])] + RunOf(cfg, readers, moves[1..])
  }

  lemma RealizedMoves(c: Cluster, cfg: Config, readers: Readers, m: Move)
    requires ReleaseAccepted(c.release) && PathAccepted(c.release.version, cfg) && AtLeast(cfg.target, LOWERBOUND)
    requires Legal(c.release.version, m)
    ensures var r' := Next(c, Realized(cfg, readers, m)).release;
      ReleaseAccepted(r') && r'.version == cfg.target && r'.user == Moved(c.release.version, cfg, c.release.user, m)
  {
    hide Next, HelmArgs, UpgradedValues, Moved, Less, BeforeHelm, AllSucceed;
    var r, a := c.release, Realized(cfg, readers, m);
    AtLeastIsLessOrEqual(HELM_THREE_DOT_FOURTEEN, HELM_THREE_DOT_FOURTEEN);
    ReachesHelm(r, a);
    ReleaseAfter(c, a);
    TwoStepRefinesOneStep(r.user, EMPTY, r.version, a);
    ReadersAreIdle(r.version, cfg, readers, m, r.user);
  }

  lemma ReadersAreIdle(source: Version, cfg: Config, readers: Readers, m: Move, user: Node)
    ensures Moved(source, cfg, user, m) == UpgradedValues(user, HelmArgs(source, Realized(cfg, readers, m), m.mode))
  {
    hide UpgradedValues;
  }

  lemma {:induction false} MovesRun(c: Cluster, cfg: Config, readers: Readers, moves: seq<Move>)
    requires ReleaseAccepted(c.release) && PathAccepted(c.release.version, cfg) && AtLeast(cfg.target, LOWERBOUND)
    requires LegalMoves(c.release.version, cfg, moves)
    ensures var r' := Run(c, RunOf(cfg, readers, moves)).release;
      && ReleaseAccepted(r') && r'.user == Values(c.release.version, cfg, c.release.user, moves)
      && r'.version == if moves == [] then c.release.version else cfg.target
    ensures |RunOf(cfg, readers, moves)| == |moves| && SameQuestions(RunOf(cfg, readers, moves), cfg, readers)
    decreases |moves|
  {
    hide Next, Moved, Legal, Realized, Less, ReleaseAccepted;
    if moves != [] {
      var a, rest := Realized(cfg, readers, moves[0]), RunOf(cfg, readers, moves[1..]);
      RealizedMoves(c, cfg, readers, moves[0]);
      AtLeastIsLessOrEqual(cfg.target, cfg.target);
      MovesRun(Next(c, a), cfg, readers, moves[1..]);
      assert RunOf(cfg, readers, moves)[1..] == rest;
      RealizedAsks(cfg, readers, moves[0]);
    }
  }

  lemma RealizedAsks(cfg: Config, readers: Readers, m: Move)
    ensures Realized(cfg, readers, m).cfg == cfg && Realized(cfg, readers, m).readers == readers
  {
  }

  // ------------------------------------------------------------------- the theorem

  /** The same arguments and the same questions to the values throughout. */
  ghost predicate SameQuestions(attempts: seq<Attempt>, cfg: Config, readers: Readers) {
    forall a | a in attempts :: a.cfg == cfg && a.readers == readers
  }

  ghost predicate GuardHoldsFor(c: Cluster, cfg: Config, readers: Readers) {
    forall attempts: seq<Attempt>, i: nat | i < |attempts| && SameQuestions(attempts, cfg, readers) ::
      !Unguarded(Found(c, attempts, i), attempts[i])
  }

  /** No attempt gets to the data plane from this release. */
  predicate Refused(r: Release, cfg: Config) {
    !cfg.dataPlane || !ReleaseAccepted(r) || !PathAccepted(r.version, cfg) || !AtLeast(cfg.target, LOWERBOUND)
  }

  /** From a source inside the extents, and for given questions, the guard protects the data
      plane in every run with the same arguments, whatever fails, iff the target is inside
      too, or everything is refused anyway, or the arguments leave no values with Mayastor
      and partial rebuild on. */
  lemma GuardProtectsForReadersIff(c: Cluster, cfg: Config, readers: Readers)
    requires InPartialRebuildExtents(c.release.version)
    ensures GuardHoldsFor(c, cfg, readers)
       <==> InPartialRebuildExtents(cfg.target) || Refused(c.release, cfg) || !StaysOn(c.release, cfg, readers)
  {
    hide Unguarded, InPartialRebuildExtents, PathAccepted, Less, LeavesOn;
    if InPartialRebuildExtents(cfg.target) || Refused(c.release, cfg) {
      GuardProtectsRunsIff(c, cfg);
      forall attempts: seq<Attempt>, i: nat | i < |attempts| && SameQuestions(attempts, cfg, readers)
        ensures !Unguarded(Found(c, attempts, i), attempts[i])
      {
        assert SameArguments(attempts, cfg);
      }
    } else if StaysOn(c.release, cfg, readers) {
      var moves: seq<Move> :| LeavesOn(c.release, cfg, readers, moves);
      MovesFoolGuard(c, cfg, readers, moves);
    } else {
      forall attempts: seq<Attempt>, i: nat | i < |attempts| && SameQuestions(attempts, cfg, readers)
        ensures !Unguarded(Found(c, attempts, i), attempts[i])
      {
        UnguardedStaysOn(c, attempts, i, cfg, readers);
      }
    }
  }

  lemma UnguardedStaysOn(c: Cluster, attempts: seq<Attempt>, i: nat, cfg: Config, readers: Readers)
    requires InPartialRebuildExtents(c.release.version) && !InPartialRebuildExtents(cfg.target)
    requires i < |attempts| && SameQuestions(attempts, cfg, readers)
    ensures Unguarded(Found(c, attempts, i), attempts[i]) ==> StaysOn(c.release, cfg, readers)
  {
    hide Next, InPartialRebuildExtents, HelmArgs, UpgradedValues, Less, LegalMoves, Values, Moved, TwoStep, Unguarded;
    var found, b := Found(c, attempts, i), attempts[i];
    if Unguarded(found, b) {
      UnguardedIsOutside(found, b);
      UnguardedMeansAccepted(found, b);
      UnguardedIsOn(found, b);
      var moves := RunMoves(c, attempts[..i], cfg);
      NoMoveNoChange(c.release.version, cfg, c.release.user);
      var mode := if TwoStep(cfg.target, b.obs) then EtcdOn else Plain;
      OneTarget(c, attempts[..i], cfg.target);
      assert found.release.version == cfg.target && moves != [];
      SettledIsOneUpgrade(found.release, b);
      MovedBy(cfg.target, b, found.release.user, mode);
      MovesAppend(c.release.version, cfg, c.release.user, moves, Move(b.obs, mode));
      assert LeavesOn(c.release, cfg, readers, moves + [Move(b.obs, mode)]);
    }
  }

  lemma NoMoveNoChange(source: Version, cfg: Config, user: Node)
    ensures LegalMoves(source, cfg, []) && Values(source, cfg, user, []) == user
  {
  }

  lemma UnguardedIsOn(c: Cluster, a: Attempt)
    ensures Unguarded(c, a) ==> On(a.readers, Settled(c.release, a).user)
  {
    hide Settled, Attempted, Less;
    if Unguarded(c, a) {
      var e :| e in Attempted(c.release, c.loki, a).0.trace && e.step.RunDataPlane?;
      DataPlaneIsGuarded(c, a, e);
    }
  }

  lemma MovesFoolGuard(c: Cluster, cfg: Config, readers: Readers, moves: seq<Move>)
    ensures LeavesOn(c.release, cfg, readers, moves) && !Refused(c.release, cfg) && !InPartialRebuildExtents(cfg.target)
      ==> !GuardHoldsFor(c, cfg, readers)
  {
    hide Next, InPartialRebuildExtents, HelmArgs, UpgradedValues, Less, LegalMoves, Values, Moved, TwoStep, Unguarded;
    if LeavesOn(c.release, cfg, readers, moves) && !Refused(c.release, cfg) && !InPartialRebuildExtents(cfg.target) {
      var n := |moves| - 1;
      var first, m := moves[..n], moves[n];
      assert first + [m] == moves;
      MovesAppend(c.release.version, cfg, c.release.user, first, m);
      MovesRun(c, cfg, readers, first);
      var run, b := RunOf(cfg, readers, first), Retry(cfg, readers, m.obs);
      var found := Run(c, run);
      AtLeastIsLessOrEqual(HELM_THREE_DOT_FOURTEEN, HELM_THREE_DOT_FOURTEEN);
      AtLeastIsLessOrEqual(cfg.target, cfg.target);
      SettledIsOneUpgrade(found.release, b);
      MovedBy(cfg.target, b, found.release.user, m.mode);
      LookIsIdle(cfg.target, cfg, readers, m, found.release.user);
      UndisturbedIsUnguarded(found, b);
      assert (run + [b])[..n] == run && (run + [b])[n] == b;
      assert Found(c, run + [b], n) == found;
    }
  }

  /** An undisturbed attempt. */
  function Retry(cfg: Config, readers: Readers, obs: Observed): Attempt {
    Attempt(cfg, obs.(helm := HELM_THREE_DOT_FOURTEEN, chartDirValid := true), readers, step => Succeeds)
  }

  lemma LookIsIdle(source: Version, cfg: Config, readers: Readers, m: Move, user: Node)
    ensures Moved(source, cfg, user, m) == Moved(source, cfg, user, Move(Retry(cfg, readers, m.obs).obs, m.mode))
    ensures Legal(source, m) <==> Legal(source, Move(Retry(cfg, readers, m.obs).obs, m.mode))
  {
    hide UpgradedValues;
  }

  // -------------------------------------------------- targets of 4.0.0 or later

  /** A first upgrade and one retry leave values with Mayastor and partial rebuild on. */
  predicate RetryLeavesOn(r: Release, cfg: Config, readers: Readers, m: Move) {
    && Legal(r.version, m)
    && On(readers, Moved(cfg.target, cfg, Moved(r.version, cfg, r.user, m), Move(m.obs, Plain)))
  }

  /** At such a target all retries are plain and record the same values, so one is enough to
      decide: the condition ranges over the CRDs and pods of the first upgrade only. */
  lemma OneRetryDecides(r: Release, cfg: Config, readers: Readers)
    requires AtLeast(cfg.target, FOUR_DOT_O)
    ensures StaysOn(r, cfg, readers) <==> exists m: Move :: RetryLeavesOn(r, cfg, readers, m)
  {
    hide Moved, On, Less;
    if moves: seq<Move> :| LeavesOn(r, cfg, readers, moves) {
      var m, user := moves[0], Moved(r.version, cfg, r.user, moves[0]);
      PlainMovesCollapse(cfg, user, moves[1..], m.obs);
      assert RetryLeavesOn(r, cfg, readers, m);
    }
    if m: Move :| RetryLeavesOn(r, cfg, readers, m) {
      var retry := Move(m.obs, Plain);
      assert [m, retry][1..] == [retry] && [retry][1..] == [];
      PlainMovesCollapse(cfg, Moved(r.version, cfg, r.user, m), [retry], m.obs);
      assert LegalMoves(cfg.target, cfg, [retry]);
      assert LeavesOn(r, cfg, readers, [m, retry]);
    }
  }

  lemma {:induction false} PlainMovesCollapse(cfg: Config, user: Node, moves: seq<Move>, obs: Observed)
    requires AtLeast(cfg.target, FOUR_DOT_O) && moves != [] && LegalMoves(cfg.target, cfg, moves)
    ensures Values(cfg.target, cfg, user, moves) == Moved(cfg.target, cfg, user, Move(obs, Plain))
    decreases |moves|
  {
    hide Moved, Less;
    var once := Moved(cfg.target, cfg, user, moves[0]);
    RepeatedMove(cfg, user, moves[0].obs, obs);
    if |moves| > 1 {
      PlainMovesCollapse(cfg, once, moves[1..], obs);
    } else {
      assert Values(cfg.target, cfg, once, []) == once;
    }
  }

  lemma RepeatedMove(cfg: Config, user: Node, obs: Observed, obs': Observed)
    requires AtLeast(cfg.target, FOUR_DOT_O)
    ensures var once := Moved(cfg.target, cfg, user, Move(obs, Plain));
      && once == Moved(cfg.target, cfg, user, Move(obs', Plain))
      && once == Moved(cfg.target, cfg, once, Move(obs', Plain))
  {
    hide UpgradedValues, Less;
    var ask := Readers(n => true, n => true);
    var a, b := Realized(cfg, ask, Move(obs, Plain)), Realized(cfg, ask, Move(obs', Plain));
    assert ExtraArgs(cfg.target, a) == ExtraArgs(cfg.target, b);
    RunValues.RepeatedUpgradeKeepsValues(user, cfg.target, a, b);
  }
}
