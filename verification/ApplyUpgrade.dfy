/** Starting the upgrade: stale events are deleted, the resources are created, and at most
    six polls look for the job's first event while the job publishes concurrently. */
module ApplyUpgrade {
  import opened Wrappers
  import AttemptTrace
  import Resources
  import SetFile
  import UpgradePlan

  const POLLS := 6
  const REASON := "OpenebsUpgrade"
  const VALIDATION_FAILED := "Validation Failed"

  datatype Event = Event(
    job: string,
    reason: Option<string>,
    time: Option<int>,
    action: Option<string>,
    note: Option<string>)

  datatype Error = ApiError | BadSetFile | ImageUnknown | CreateFailed | NoteMissing | NoteUnreadable | DeleteFailed

  /** What the user asks for, with the files the plugin can read and whether it finds the
      image of the job. */
  datatype Command = Command(
    release: string,
    namespace: string,
    suffix: string,
    setFile: seq<string>,
    files: map<string, string>,
    imageFound: bool)

  /** The events selected by the job's name, oldest first. */
  function OfJob(events: seq<Event>, job: string): seq<Event>
    decreases |events|
  {
    if events == [] then []
    else OfJob(events[..|events| - 1], job) + (if events[|events| - 1].job == job then [events[|events| - 1]] else [])
  }

  /** What deleting the selected events leaves. */
  function WithoutJob(events: seq<Event>, job: string): seq<Event>
    decreases |events|
  {
    if events == [] then []
    else WithoutJob(events[..|events| - 1], job)
          + (if events[|events| - 1].job == job then [] else [events[|events| - 1]])
  }

  /** An absent time precedes every present one. */
  predicate NotAfter(a: Option<int>, b: Option<int>) {
    a.None? || (b.Some? && a.value <= b.value)
  }

  /** The last event of maximal time among those with the job's reason. */
  function Latest(events: seq<Event>): Option<Event>
    decreases |events|
  {
    if events == [] then None
    else
      var best, last := Latest(events[..|events| - 1]), events[|events| - 1];
      if last.reason == Some(REASON) && (best.None? || NotAfter(best.value.time, last.time)) then Some(last) else best
  }

  ghost predicate IsLatest(e: Event, events: seq<Event>) {
    && e in events && e.reason == Some(REASON)
    && forall x | x in events && x.reason == Some(REASON) :: NotAfter(x.time, e.time)
  }

  predicate AnyUpgradeEvent(events: seq<Event>) {
    exists x | x in events :: x.reason == Some(REASON)
  }

  lemma {:induction false} LatestIsMaximal(events: seq<Event>)
    ensures Latest(events).Some? <==> AnyUpgradeEvent(events)
    ensures Latest(events).Some? ==> IsLatest(Latest(events).value, events)
    decreases |events|
  {
    if events != [] {
      var init, last := events[..|events| - 1], events[|events| - 1];
      assert events == init + [last];
      LatestIsMaximal(init);
    }
  }

  lemma {:induction false} OfJobAppend(xs: seq<Event>, ys: seq<Event>, job: string)
    ensures OfJob(xs + ys, job) == OfJob(xs, job) + OfJob(ys, job)
    decreases |ys|
  {
    if ys == [] {
      assert xs + ys == xs;
    } else {
      assert (xs + ys)[..|xs + ys| - 1] == xs + ys[..|ys| - 1];
      OfJobAppend(xs, ys[..|ys| - 1], job);
    }
  }

  lemma {:induction false} DeletedForGood(events: seq<Event>, job: string)
    ensures OfJob(WithoutJob(events, job), job) == []
    decreases |events|
  {
    if events != [] {
      var rest, last := WithoutJob(events[..|events| - 1], job), events[|events| - 1];
      DeletedForGood(events[..|events| - 1], job);
      if last.job != job { assert (rest + [last])[..|rest|] == rest; } else { assert rest + [] == rest; }
    }
  }

  lemma {:induction false} OfJobMembers(events: seq<Event>, job: string)
    ensures forall e :: e in OfJob(events, job) <==> e in events && e.job == job
    decreases |events|
  {
    if events != [] {
      var init, last := events[..|events| - 1], events[|events| - 1];
      assert events == init + [last];
      OfJobMembers(init, job);
    }
  }

  lemma {:induction false} WithoutJobMembers(events: seq<Event>, job: string)
    ensures forall e :: e in WithoutJob(events, job) <==> e in events && e.job != job
    decreases |events|
  {
    if events != [] {
      var init, last := events[..|events| - 1], events[|events| - 1];
      assert events == init + [last];
      WithoutJobMembers(init, job);
    }
  }

  /** The choice on the raw list: an upgrade event of the job, of the greatest time that any of
      them has, and the last one of that time; an absent time is less than any other. */
  lemma {:induction false} LatestByTime(store: seq<Event>, job: string)
    ensures var latest := Latest(OfJob(store, job));
      && (latest.Some? <==> exists x :: x in store && x.job == job && x.reason == Some("OpenebsUpgrade"))
      && (latest.Some? ==>
            && (forall x | x in store && x.job == job && x.reason == Some("OpenebsUpgrade") && x.time.Some? ::
                  latest.value.time.Some? && x.time.value <= latest.value.time.value)
            && exists k :: 0 <= k < |store| && LastOfItsTime(store, job, k) && store[k] == latest.value)
    decreases |store|
  {
    hide NotAfter;
    if store != [] {
      var init, last := store[..|store| - 1], store[|store| - 1];
      assert store == init + [last];
      LatestByTime(init, job);
      var best, next := Latest(OfJob(init, job)), Latest(OfJob(store, job));
      if last.job == job {
        assert OfJob(store, job) == OfJob(init, job) + [last];
        LatestOfSnoc(OfJob(init, job), last);
      } else {
        assert OfJob(store, job) == OfJob(init, job);
      }
      ByTimeStep(init, last, job, best, next);
    }
  }

  lemma LatestOfSnoc(events: seq<Event>, last: Event)
    ensures Latest(events + [last])
         == if last.reason == Some(REASON) && (Latest(events).None? || NotAfter(Latest(events).value.time, last.time))
            then Some(last) else Latest(events)
  {
    assert (events + [last])[..|events|] == events;
  }

  /** Entry `k` is an upgrade event of the job, and none after it has the same time. */
  ghost predicate LastOfItsTime(store: seq<Event>, job: string, k: nat) {
    && k < |store| && store[k].job == job && store[k].reason == Some("OpenebsUpgrade")
    && forall j | k < j < |store| && store[j].job == job && store[j].reason == Some("OpenebsUpgrade") ::
         store[j].time != store[k].time
  }

  lemma ByTimeStep(init: seq<Event>, last: Event, job: string, best: Option<Event>, next: Option<Event>)
    requires next ==
      if last.job == job && last.reason == Some(REASON) && (best.None? || NotAfter(best.value.time, last.time))
      then Some(last) else best
    requires best.Some? ==>
      && (forall x | x in init && x.job == job && x.reason == Some(REASON) && x.time.Some? ::
            best.value.time.Some? && x.time.value <= best.value.time.value)
      && exists k :: 0 <= k < |init| && LastOfItsTime(init, job, k) && init[k] == best.value
    requires best.None? ==> forall x | x in init :: !(x.job == job && x.reason == Some(REASON))
    ensures next.Some? ==>
      && (forall x | x in init + [last] && x.job == job && x.reason == Some(REASON) && x.time.Some? ::
            next.value.time.Some? && x.time.value <= next.value.time.value)
      && exists k :: 0 <= k < |init| + 1 && LastOfItsTime(init + [last], job, k) && (init + [last])[k] == next.value
  {
    var store := init + [last];
    if last.job == job && last.reason == Some(REASON) && (best.None? || NotAfter(best.value.time, last.time)) {
      assert LastOfItsTime(store, job, |init|) && store[|init|] == next.value;
    } else if best.Some? {
      var k :| 0 <= k < |init| && LastOfItsTime(init, job, k) && init[k] == best.value;
      assert forall j | 0 <= j < |init| :: store[j] == init[j];
      assert init[k] in init;
      assert LastOfItsTime(store, job, k) && store[k] == next.value;
    }
  }

  /** What happens between one poll and the next, and whether the poll can list events. */
  datatype Poll = Poll(arrived: seq<Event>, listable: bool)

  /** Everything published after the stale events were deleted, up to poll `n`. */
  function Published(polls: seq<Poll>, n: nat): seq<Event>
    requires n <= |polls|
  {
    if n == 0 then [] else Published(polls, n - 1) + polls[n - 1].arrived
  }

  /** Whether poll `n` (counting from one) finds an event of the job to handle. */
  predicate Finds(polls: seq<Poll>, job: string, n: nat)
    requires 0 < n <= |polls|
  {
    polls[n - 1].listable && AnyUpgradeEvent(OfJob(Published(polls, n), job))
  }

  predicate Parsable(e: Event, parses: string -> bool) {
    e.note.Some? && parses(e.note.value)
  }

  /** A failed validation that can be reported. */
  predicate ReportedFailure(e: Event, parses: string -> bool) {
    e.action == Some(VALIDATION_FAILED) && Parsable(e, parses)
  }

  function JobName(c: Command): string {
    Resources.UpgradeNameConcat(Resources.Request(c.release, c.namespace, c.suffix, map[], ""), "upgrade")
  }

  /** Everything needed before the first create is at hand. */
  predicate Preparable(c: Command) {
    SetFile.AllUsable(c.setFile, c.files) && c.imageFound
  }

  /** The request names the command's release and carries its set-file arguments. */
  ghost predicate IsRequestFor(q: Resources.Request, c: Command) {
    && q.release == c.release && q.namespace == c.namespace && q.suffix == c.suffix
    && SetFile.DataFor(q.data, c.setFile, c.files)
    && SetFile.CarriesArguments(q.setFile, c.setFile, q.data, c.files)
  }

  method PrepareRequest(c: Command) returns (r: Result<Resources.Request, Error>)
    ensures r.Success? <==> Preparable(c)
    ensures r.Success? ==> IsRequestFor(r.value, c) && JobName(c) == Resources.CreatedRef(r.value, Resources.Job).name
  {
    var args := SetFile.SetFilePipeline(c.setFile, c.files);
    if args.Failure? {
      return Failure(BadSetFile);
    }
    if !c.imageFound {
      return Failure(ImageUnknown);
    }
    var q := Resources.Request(c.release, c.namespace, c.suffix, args.value.0, args.value.1);
    Resources.ReferencesName(q);
    return Success(q);
  }

  method GetLatestUpgradeEvent(store: seq<Event>, listable: bool, job: string) returns (r: Result<Event, Error>)
    ensures r.Success? <==> listable && AnyUpgradeEvent(OfJob(store, job))
    ensures r.Success? ==> IsLatest(r.value, OfJob(store, job))
    ensures r.Success? <==> listable && exists x :: x in store && x.job == job && x.reason == Some("OpenebsUpgrade")
    ensures r.Success? ==>
      forall x | x in store && x.job == job && x.reason == Some("OpenebsUpgrade") && x.time.Some? ::
        r.value.time.Some? && x.time.value <= r.value.time.value
    ensures r.Success? ==>
      exists k :: (
        && 0 <= k < |store| && store[k] == r.value && r.value.job == job && r.value.reason == Some("OpenebsUpgrade")
        && forall j | k < j < |store| && store[j].job == job && store[j].reason == Some("OpenebsUpgrade") ::
             store[j].time != r.value.time)
  {
    LatestByTime(store, job);
    if !listable {
      return Failure(ApiError);
    }
    LatestIsMaximal(OfJob(store, job));
    var latest := Latest(OfJob(store, job));
    if latest.None? {
      return Failure(ApiError);
    }
    return Success(latest.value);
  }

  function Created(q: Resources.Request, before: Resources.Objects, creation: seq<Resources.Event>): Resources.State {
    Resources.Run(Resources.Create, q, Resources.Start(before), creation)
  }

  function Deleted(q: Resources.Request, before: Resources.Objects, deletion: seq<Resources.Event>): Resources.State {
    Resources.Run(Resources.Delete, q, Resources.Start(before), deletion)
  }

  /** Deletes the resources of the upgrade only for a failed validation it can report. */
  method HandleUpgradeEvent(e: Event, parses: string -> bool, q: Resources.Request,
                            server: Resources.ApiServer, deletion: seq<Resources.Event>)
    returns (r: Result<(), Error>, deleting: bool)
    modifies server
    ensures deleting <==> e.action == Some("Validation Failed") && e.note.Some? && parses(e.note.value)
    ensures server.objects == if deleting then Deleted(q, old(server.objects), deletion).objects
      else old(server.objects)
    ensures r.Success? <==>
      if e.action == Some(VALIDATION_FAILED)
      then Parsable(e, parses) && Deleted(q, old(server.objects), deletion).main == Resources.Returned(true)
      else true
  {
    deleting := false;
    if e.action.Some? && e.action.value == VALIDATION_FAILED {
      if e.note.None? {
        return Failure(NoteMissing), false;
      }
      if !parses(e.note.value) {
        return Failure(NoteUnreadable), false;
      }
      deleting := true;
      var main := Resources.RunTasks(Resources.Delete, q, server, deletion);
      if main != Resources.Returned(true) {
        return Failure(DeleteFailed), true;
      }
    }
    r := Success(());
  }

  /** Terminates within six polls and handles at most one event: at the first poll that finds
      any, the latest of the job's events, all published after the stale ones were deleted.
      Nothing is created unless the whole request could be prepared. `stale` is the event
      store at the start, and `polls` what the world does meanwhile. */
  method ApplyUpgrade(c: Command, server: Resources.ApiServer, stale: seq<Event>, canDelete: bool,
                      creation: seq<Resources.Event>, deletion: seq<Resources.Event>,
                      polls: seq<Poll>, parses: string -> bool)
    returns (r: Result<(), Error>, made: Option<Resources.Request>, handled: Option<Event>, polled: nat, deleting: bool)
    requires |polls| == 6
    modifies server
    ensures made.Some? <==> canDelete && Preparable(c)
    ensures made.Some? ==> IsRequestFor(made.value, c)
    ensures polled <= 6
    ensures handled.Some? ==>
      && polled > 0 && Finds(polls, JobName(c), polled)
      && IsLatest(handled.value, OfJob(Published(polls, polled), JobName(c)))
    ensures forall k | 0 < k < polled :: !Finds(polls, JobName(c), k)
    ensures handled.None? ==> polled == 0 || (polled == 6 && !Finds(polls, JobName(c), 6))
    ensures polled > 0 <==>
      made.Some? && Created(made.value, old(server.objects), creation).main == Resources.Returned(true)
    ensures deleting <==> handled.Some? && ReportedFailure(handled.value, parses)
    ensures
      var created := if made.Some? then Created(made.value, old(server.objects), creation).objects
        else old(server.objects);
      server.objects == if deleting then Deleted(made.value, created, deletion).objects else created
    ensures polled == 0 ==> r.Failure?
    ensures polled > 0 && handled.None? ==> r.Success?
    ensures handled.Some? && handled.value.action != Some(VALIDATION_FAILED) ==> r.Success?
    ensures handled.Some? && handled.value.action == Some(VALIDATION_FAILED) && !Parsable(handled.value, parses) ==>
      r.Failure?
    ensures deleting ==>
      var created := Created(made.value, old(server.objects), creation).objects;
      r.Success? <==> Deleted(made.value, created, deletion).main == Resources.Returned(true)
  {
    var job := JobName(c);
    hide Resources.Run, OfJob, WithoutJob, IsLatest, AnyUpgradeEvent, Published, IsRequestFor, Preparable;
    NothingPublishedYet(polls, job);
    made, handled, polled, deleting := None, None, 0, false;
    if !canDelete {
      return Failure(ApiError), None, None, 0, false;
    }
    var store := WithoutJob(stale, job);
    DeletedForGood(stale, job);
    var request := PrepareRequest(c);
    if request.Failure? {
      return Failure(request.error), None, None, 0, false;
    }
    var q := request.value;
    made := Some(q);
    var main := Resources.RunTasks(Resources.Create, q, server, creation);
    if main != Resources.Returned(true) {
      return Failure(CreateFailed), made, None, 0, false;
    }
    r := Success(());
    ghost var created := server.objects;
    for i := 0 to POLLS
      invariant polled == i
      invariant server.objects == created && handled == None && !deleting && r == Success(())
      invariant OfJob(store, job) == OfJob(Published(polls, i), job)
      invariant forall k | 0 < k <= i :: !Finds(polls, job, k)
    {
      PollSeesAllNews(store, polls, i, job);
      store := store + polls[i].arrived;
      polled := i + 1;
      var latest := GetLatestUpgradeEvent(store, polls[i].listable, job);
      if latest.Success? {
        handled := Some(latest.value);
        r, deleting := HandleUpgradeEvent(latest.value, parses, q, server, deletion);
        return;
      }
    }
  }

  lemma NothingPublishedYet(polls: seq<Poll>, job: string)
    ensures OfJob(Published(polls, 0), job) == []
  {
  }

  lemma PollSeesAllNews(store: seq<Event>, polls: seq<Poll>, i: nat, job: string)
    requires i < |polls| && OfJob(store, job) == OfJob(Published(polls, i), job)
    ensures OfJob(store + polls[i].arrived, job) == OfJob(Published(polls, i + 1), job)
  {
    hide OfJob;
    OfJobAppend(store, polls[i].arrived, job);
    OfJobAppend(Published(polls, i), polls[i].arrived, job);
  }

  /** Whatever was handled is an event of this job published after the deletion of the stale
      ones: a leftover of an earlier run is never mistaken for news. */
  lemma HandledIsNews(e: Event, polls: seq<Poll>, n: nat, job: string)
    requires n <= |polls| && IsLatest(e, OfJob(Published(polls, n), job))
    ensures e.job == job && exists k :: 0 <= k < n && e in polls[k].arrived
  {
    OfJobMembers(Published(polls, n), job);
    PublishedArrived(e, polls, n);
  }

  lemma {:induction false} PublishedArrived(e: Event, polls: seq<Poll>, n: nat)
    requires n <= |polls| && e in Published(polls, n)
    ensures exists k :: 0 <= k < n && e in polls[k].arrived
    decreases n
  {
    if e !in polls[n - 1].arrived { PublishedArrived(e, polls, n - 1); }
  }

  lemma {:induction false} ArrivedIsPublished(polls: seq<Poll>, n: nat, k: nat, e: Event)
    requires k < n <= |polls| && e in polls[k].arrived
    ensures e in Published(polls, n)
    decreases n
  {
    if k < n - 1 { ArrivedIsPublished(polls, n - 1, k, e); }
  }

  lemma JobNameSpelledOut(c: Command)
    ensures JobName(c) == c.release + "-upgrade-" + c.suffix
  {
    var q := Resources.Request(c.release, c.namespace, c.suffix, map[], "");
    Resources.Spelling(q, "upgrade", "-upgrade-");
  }

  /** A poll finds something iff it can list and an upgrade event of the job's name arrived. */
  lemma FindsByName(c: Command, polls: seq<Poll>, n: nat)
    requires 0 < n <= |polls|
    ensures Finds(polls, JobName(c), n)
       <==> polls[n - 1].listable
            && exists k, x :: (0 <= k < n && x in polls[k].arrived
                               && x.job == c.release + "-upgrade-" + c.suffix && x.reason == Some("OpenebsUpgrade"))
  {
    hide Published, OfJob;
    JobNameSpelledOut(c);
    var job, all := JobName(c), Published(polls, n);
    OfJobMembers(all, job);
    if x :| x in OfJob(all, job) && x.reason == Some(REASON) {
      PublishedArrived(x, polls, n);
    }
    forall k, x | 0 <= k < n && x in polls[k].arrived && x.job == job && x.reason == Some("OpenebsUpgrade")
      ensures AnyUpgradeEvent(OfJob(all, job))
    {
      ArrivedIsPublished(polls, n, k, x);
      assert x in OfJob(all, job);
    }
  }

  /** The handled event has the greatest time among the upgrade events that arrived. */
  lemma HandledIsLatest(e: Event, c: Command, polls: seq<Poll>, n: nat)
    requires n <= |polls| && IsLatest(e, OfJob(Published(polls, n), JobName(c)))
    ensures e.job == c.release + "-upgrade-" + c.suffix && e.reason == Some("OpenebsUpgrade")
    ensures forall k, x | 0 <= k < n && x in polls[k].arrived && x.time.Some?
              && x.job == c.release + "-upgrade-" + c.suffix && x.reason == Some("OpenebsUpgrade") ::
              e.time.Some? && x.time.value <= e.time.value
  {
    hide Published, OfJob;
    JobNameSpelledOut(c);
    OfJobMembers(Published(polls, n), JobName(c));
    forall k, x | 0 <= k < n && x in polls[k].arrived && x.time.Some?
                  && x.job == JobName(c) && x.reason == Some("OpenebsUpgrade")
      ensures e.time.Some? && x.time.value <= e.time.value
    {
      ArrivedIsPublished(polls, n, k, x);
      assert NotAfter(x.time, e.time);
    }
  }

  // ------------------------------------------------- against the job of this repository

  /** Every upgrade event that arrives for the job has one of the actions that the job
      publishes. */
  ghost predicate OnlyTheJobSpeaks(polls: seq<Poll>, n: nat, job: string)
    requires n <= |polls|
  {
    forall k, x | 0 <= k < n && x in polls[k].arrived && x.job == job && x.reason == Some("OpenebsUpgrade") ::
      x.action in [Some("HelmUpgradeStart"), Some("HelmUpgradeComplete"), Some("DataPlaneUpgradeNotRequired"),
                   Some("DataPlaneUpgradeStart"), Some("DataPlaneUpgradeComplete"), Some("Success"),
                   Some("FailedHelmUpgradeDryRun"), Some("FailedHelmUpgrade"), Some("FailedDataPlaneUpgrade")]
  }

  /** Against this job the deletion never happens: none of its events is the failed validation
      that the plugin waits for. */
  lemma JobIsNeverDeleted(e: Event, polls: seq<Poll>, n: nat, job: string, parses: string -> bool)
    requires n <= |polls| && OnlyTheJobSpeaks(polls, n, job)
    requires IsLatest(e, OfJob(Published(polls, n), job))
    ensures e.action.Some? && e.action != Some("Validation Failed") && !ReportedFailure(e, parses)
  {
    HandledIsNews(e, polls, n, job);
    assert e.action.Some? && e.action.value[0] != "Validation Failed"[0];
  }

  /** Nor does a failed validation reach the plugin in any other form: an attempt that ends
      before its dry run, whether a gate rejects it, a read fails or the process dies,
      publishes nothing at all. */
  lemma FailedValidationIsSilent(r: UpgradePlan.Release, loki: bool, a: UpgradePlan.Attempt)
    requires forall e | e in UpgradePlan.Attempted(r, loki, a).0.trace :: e.step != UpgradePlan.DryRun
    ensures forall e | e in UpgradePlan.Attempted(r, loki, a).0.trace :: !e.step.Publish? && !e.step.PublishFatal?
  {
    var t := UpgradePlan.Attempted(r, loki, a).0.trace;
    AttemptTrace.EventsFollowDryRun(r, loki, a);
    hide UpgradePlan.Attempted;
    forall e | e in t ensures !e.step.Publish? && !e.step.PublishFatal? {
      var i :| 0 <= i < |t| && t[i] == e;
    }
  }

  /** Every rejection and failure during validation is such an end. */
  lemma RejectedBeforeDryRun(r: UpgradePlan.Release, loki: bool, a: UpgradePlan.Attempt)
    requires var o := UpgradePlan.Attempted(r, loki, a).1;
      o.Err? && AttemptTrace.Rank(o.at) < AttemptTrace.Rank(UpgradePlan.DryRun)
    ensures forall e | e in UpgradePlan.Attempted(r, loki, a).0.trace :: e.step != UpgradePlan.DryRun
  {
    AttemptTrace.StopsAtItsError(r, loki, a);
  }
}
