/** The five cluster objects behind an upgrade, created and deleted by concurrently spawned
    tasks. A schedule is any sequence of task and main-thread steps; it may end anywhere,
    because the process may be gone at any time. */
module Resources {
  import SetFile

  // ----------------------------------------------------------- names and references

  datatype Kind = ServiceAccount | ClusterRoleBinding | ClusterRole | ConfigMap | Job

  /** Cluster-scoped objects have the namespace "". */
  datatype Ref = Ref(kind: Kind, namespace: string, name: string)

  datatype Object =
    | Account
    | Role
    | Binding(role: string, account: string, accountNamespace: string)
    | Config(data: map<string, string>)
    | UpgradeJob(account: string, config: string, setFile: string)

  type Objects = map<Ref, Object>

  /** What a run of the plugin is about; `suffix` comes from its own version tag. */
  datatype Request = Request(
    release: string,
    namespace: string,
    suffix: string,
    data: map<string, string>,
    setFile: string)

  function UpgradeNameConcat(q: Request, component: string): string {
    q.release + "-" + component + "-" + q.suffix
  }

  function CreatedRef(q: Request, kind: Kind): Ref {
    match kind
    case ServiceAccount => Ref(kind, q.namespace, UpgradeNameConcat(q, "upgrade-service-account"))
    case ClusterRoleBinding => Ref(kind, "", q.release + "-upgrade-role-binding-" + q.suffix)
    case ClusterRole => Ref(kind, "", UpgradeNameConcat(q, "upgrade-role"))
    case ConfigMap => Ref(kind, q.namespace, q.release + "-upgrade-config-map-" + q.suffix)
    case Job => Ref(kind, q.namespace, q.release + "-upgrade-" + q.suffix)
  }

  function CreatedObject(q: Request, kind: Kind): Object {
    match kind
    case ServiceAccount => Account
    case ClusterRoleBinding =>
      Binding(q.release + "-upgrade-role-" + q.suffix, q.release + "-upgrade-service-account-" + q.suffix, q.namespace)
    case ClusterRole => Role
    case ConfigMap => Config(q.data)
    case Job =>
      UpgradeJob(q.release + "-upgrade-service-account-" + q.suffix,
                 q.release + "-upgrade-config-map-" + q.suffix, q.setFile)
  }

  /** The names the deletion path spells out on its own. */
  function DeletedRef(q: Request, kind: Kind): Ref {
    match kind
    case Job => Ref(kind, q.namespace, q.release + "-upgrade-" + q.suffix)
    case ConfigMap => Ref(kind, q.namespace, q.release + "-upgrade-config-map-" + q.suffix)
    case ClusterRole => Ref(kind, "", UpgradeNameConcat(q, "upgrade-role"))
    case ClusterRoleBinding => Ref(kind, "", q.release + "-upgrade-role-binding-" + q.suffix)
    case ServiceAccount => Ref(kind, q.namespace, UpgradeNameConcat(q, "upgrade-service-account"))
  }

  /** All references among the created objects name objects that are created with them. */
  lemma ReferencesName(q: Request)
    ensures forall kind: Kind :: DeletedRef(q, kind) == CreatedRef(q, kind)
    ensures var b := CreatedObject(q, ClusterRoleBinding);
      && Ref(ClusterRole, "", b.role) == CreatedRef(q, ClusterRole)
      && Ref(ServiceAccount, b.accountNamespace, b.account) == CreatedRef(q, ServiceAccount)
    ensures var j := CreatedObject(q, Job);
      && Ref(ServiceAccount, q.namespace, j.account) == CreatedRef(q, ServiceAccount)
      && Ref(ConfigMap, q.namespace, j.config) == CreatedRef(q, ConfigMap)
    ensures CreatedRef(q, Job).name == UpgradeNameConcat(q, "upgrade")
  {
  }

  /** The five names and what refers to them, spelled out. */
  lemma NamesSpelledOut(q: Request, kind: Kind)
    ensures
      var (r, ns, v) := (q.release, q.namespace, q.suffix);
      match kind
      case ServiceAccount =>
        CreatedRef(q, kind) == Ref(kind, ns, r + ("-upgrade-service-account-" + v)) && CreatedObject(q, kind) == Account
      case ClusterRole =>
        CreatedRef(q, kind) == Ref(kind, "", r + ("-upgrade-role-" + v)) && CreatedObject(q, kind) == Role
      case ClusterRoleBinding =>
        && CreatedRef(q, kind) == Ref(kind, "", r + ("-upgrade-role-binding-" + v))
        && CreatedObject(q, kind) == Binding(r + ("-upgrade-role-" + v), r + ("-upgrade-service-account-" + v), ns)
      case ConfigMap =>
        && CreatedRef(q, kind) == Ref(kind, ns, r + ("-upgrade-config-map-" + v))
        && CreatedObject(q, kind) == Config(q.data)
      case Job =>
        && CreatedRef(q, kind) == Ref(kind, ns, r + ("-upgrade-" + v))
        && CreatedObject(q, kind)
           == UpgradeJob(r + ("-upgrade-service-account-" + v), r + ("-upgrade-config-map-" + v), q.setFile)
  {
    CreatedName(q, ServiceAccount);
    CreatedName(q, ClusterRole);
    CreatedName(q, ConfigMap);
    CreatedName(q, kind);
    ReferencesName(q);
  }

  lemma Spelling(q: Request, component: string, infix: string)
    requires infix == "-" + component + "-"
    ensures UpgradeNameConcat(q, component) == q.release + infix + q.suffix
  {
    assert q.release + "-" + component + "-" == q.release + ("-" + component + "-");
  }

  function Infix(kind: Kind): string {
    match kind
    case ServiceAccount => "-upgrade-service-account-"
    case ClusterRoleBinding => "-upgrade-role-binding-"
    case ClusterRole => "-upgrade-role-"
    case ConfigMap => "-upgrade-config-map-"
    case Job => "-upgrade-"
  }

  lemma CreatedName(q: Request, kind: Kind)
    ensures CreatedRef(q, kind).name == q.release + (Infix(kind) + q.suffix)
  {
    match kind {
      case ServiceAccount => Spelling(q, "upgrade-service-account", "-upgrade-service-account-");
      case ClusterRole => Spelling(q, "upgrade-role", "-upgrade-role-");
      case _ =>
    }
    assert CreatedRef(q, kind).name == q.release + Infix(kind) + q.suffix;
    hide CreatedRef, Infix;
    assert q.release + (Infix(kind) + q.suffix) == q.release + Infix(kind) + q.suffix;
  }

  /** No kind's names with one suffix are the ends of its names with the other; so it is with
      equal suffixes, that is, for plugins of one version. */
  predicate SuffixesApart(kind: Kind, s: string, s': string) {
    var tail, tail' := Infix(kind) + s, Infix(kind) + s';
    tail == tail' || (!EndsIn(tail, tail') && !EndsIn(tail', tail))
  }

  predicate EndsIn(s: string, end: string) {
    |end| <= |s| && s[|s| - |end|..] == end
  }

  /** Requests for different releases share no object, whatever their namespaces, if their
      suffixes are apart. */
  lemma ReleasesShareNothing(q: Request, q': Request, kind: Kind, kind': Kind)
    requires SuffixesApart(kind, q.suffix, q'.suffix) && q.release != q'.release
    ensures CreatedRef(q, kind) != CreatedRef(q', kind')
  {
    RefsDistinct(q, kind, kind);
    RefsDistinct(q', kind', kind');
    CreatedName(q, kind);
    CreatedName(q', kind);
    hide CreatedRef, Infix;
    var tail, tail' := Infix(kind) + q.suffix, Infix(kind) + q'.suffix;
    if q.release + tail == q'.release + tail' { TailsDetermine(q.release, q'.release, tail, tail'); }
  }

  lemma TailsDetermine(a: string, b: string, tail: string, tail': string)
    requires a + tail == b + tail'
    ensures EndsIn(tail, tail') || EndsIn(tail', tail)
    ensures tail == tail' ==> a == b
  {
    if tail == tail' { PrefixDetermined(a, b, tail); }
    if |tail| >= |tail'| {
      assert tail[|tail| - |tail'|..] == (a + tail)[|a + tail| - |tail'|..];
    } else {
      assert tail'[|tail'| - |tail|..] == (b + tail')[|b + tail'| - |tail|..];
    }
  }

  /** The condition is exact: within a namespace, no two releases collide on a kind iff the
      suffixes are apart for it. */
  lemma ReleasesCollideIff(q: Request, q': Request, kind: Kind)
    requires q.namespace == q'.namespace
    ensures (forall a: string, b: string | a != b ::
               CreatedRef(q.(release := a), kind) != CreatedRef(q'.(release := b), kind))
       <==> SuffixesApart(kind, q.suffix, q'.suffix)
  {
    hide CreatedRef, Infix;
    if SuffixesApart(kind, q.suffix, q'.suffix) {
      forall a: string, b: string | a != b
        ensures CreatedRef(q.(release := a), kind) != CreatedRef(q'.(release := b), kind)
      {
        ReleasesShareNothing(q.(release := a), q'.(release := b), kind, kind);
      }
    } else {
      var tail, tail' := Infix(kind) + q.suffix, Infix(kind) + q'.suffix;
      if EndsIn(tail, tail') {
        NamesCollide(q, q', kind, "a", "a" + tail[..|tail| - |tail'|]);
      } else {
        NamesCollide(q, q', kind, "a" + tail'[..|tail'| - |tail|], "a");
      }
    }
  }

  lemma NamesCollide(q: Request, q': Request, kind: Kind, a: string, b: string)
    requires q.namespace == q'.namespace && a + (Infix(kind) + q.suffix) == b + (Infix(kind) + q'.suffix)
    ensures CreatedRef(q.(release := a), kind) == CreatedRef(q'.(release := b), kind)
  {
    CreatedName(q.(release := a), kind);
    CreatedName(q'.(release := b), kind);
  }

  lemma PrefixDetermined(a: string, b: string, tail: string)
    ensures a + tail == b + tail ==> a == b
  {
    if a + tail == b + tail {
      assert |a| == |b|;
      assert a == (a + tail)[..|a|] && b == (b + tail)[..|b|];
    }
  }

  // ----------------------------------------------------------------- one API call

  datatype Op = Create | Delete

  /** A call is answered, or fails for some other reason with or without having been
      carried out. */
  datatype Fate = Answered | Lost(carriedOut: bool)

  class ApiServer {
    var objects: Objects

    constructor (objects: Objects)
      ensures this.objects == objects
    {
      this.objects := objects;
    }

    /** An object that is already there is left as it is and counts as created. */
    method IdempotentCreate(ref: Ref, resource: Object, fate: Fate) returns (ok: bool)
      modifies this
      ensures objects == if fate == Lost(false) || ref in old(objects) then old(objects)
        else old(objects)[ref := resource]
      ensures ok <==> fate.Answered?
    {
      if fate == Lost(false) {
        return false;
      }
      if ref !in objects {
        objects := objects[ref := resource];
      }
      ok := fate.Answered?;
    }

    /** An object that is not there counts as deleted. */
    method IdempotentDelete(ref: Ref, fate: Fate) returns (ok: bool)
      modifies this
      ensures objects == if fate == Lost(false) then old(objects) else old(objects) - {ref}
      ensures ok <==> fate.Answered?
    {
      if fate == Lost(false) {
        return false;
      }
      if ref in objects {
        objects := objects - {ref};
      } else {
        assert objects - {ref} == objects;
      }
      ok := fate.Answered?;
    }
  }

  // ---------------------------------------------------------- five tasks, one main

  datatype Status = Running | Done | Errored(carriedOut: bool)

  datatype Main = Joining | Returned(ok: bool)

  datatype Event = Task(kind: Kind, fate: Fate) | Join

  datatype State = State(objects: Objects, status: map<Kind, Status>, main: Main)

  const KINDS: set<Kind> := {ServiceAccount, ClusterRoleBinding, ClusterRole, ConfigMap, Job}

  function Start(objects: Objects): State {
    State(objects, map kind | kind in KINDS :: Running, Joining)
  }

  function Call(op: Op, q: Request, objects: Objects, kind: Kind): Objects {
    match op
    case Create =>
      if CreatedRef(q, kind) in objects then objects else objects[CreatedRef(q, kind) := CreatedObject(q, kind)]
    case Delete => objects - {DeletedRef(q, kind)}
  }

  predicate AllDone(s: State) {
    forall kind | kind in s.status :: s.status[kind].Done?
  }

  predicate AnyErrored(s: State) {
    exists kind | kind in s.status :: s.status[kind].Errored?
  }

  /** Tasks keep running after the join has returned an error: they were spawned. */
  function Step(op: Op, q: Request, s: State, e: Event): State {
    match e
    case Task(kind, fate) =>
      if kind !in s.status || !s.status[kind].Running? then s
      else if fate.Answered? then
        s.(objects := Call(op, q, s.objects, kind), status := s.status[kind := Done])
      else
        s.(objects := if fate.carriedOut then Call(op, q, s.objects, kind) else s.objects,
           status := s.status[kind := Errored(fate.carriedOut)])
    case Join =>
      if s.main.Returned? then s
      else if AnyErrored(s) then s.(main := Returned(false))
      else if AllDone(s) then s.(main := Returned(true))
      else s
  }

  function Run(op: Op, q: Request, s: State, schedule: seq<Event>): State
    decreases |schedule|
  {
    if schedule == [] then s else Run(op, q, Step(op, q, s, schedule[0]), schedule[1..])
  }

  /** The tasks whose call reached the server. */
  function CarriedOut(s: State): set<Kind> {
    set kind | kind in s.status && (s.status[kind].Done? || s.status[kind] == Errored(true))
  }

  // ---------------------------------------------------------- the closed-form state

  /** `objects` after creating or deleting the objects of `kinds`, in no particular order. */
  ghost predicate ResultOf(op: Op, q: Request, before: Objects, kinds: set<Kind>, after: Objects) {
    match op
    case Create =>
      && after.Keys == before.Keys + (set kind | kind in kinds :: CreatedRef(q, kind))
      && (forall ref | ref in before :: after[ref] == before[ref])
      && (forall kind | kind in kinds && CreatedRef(q, kind) !in before ::
            after[CreatedRef(q, kind)] == CreatedObject(q, kind))
    case Delete =>
      after == before - (set kind | kind in kinds :: DeletedRef(q, kind))
  }

  lemma RefsDistinct(q: Request, kind: Kind, kind': Kind)
    ensures CreatedRef(q, kind) == CreatedRef(q, kind') ==> kind == kind'
    ensures DeletedRef(q, kind).kind == kind && CreatedRef(q, kind).kind == kind
  {
  }

  /** What holds in every state of every schedule. */
  ghost predicate Invariant(op: Op, q: Request, before: Objects, s: State) {
    && s.status.Keys == KINDS
    && ResultOf(op, q, before, CarriedOut(s), s.objects)
    && (s.main == Returned(true) ==> AllDone(s))
    && (s.main == Returned(false) ==> AnyErrored(s))
  }

  lemma StepKeepsInvariant(op: Op, q: Request, before: Objects, s: State, e: Event)
    requires Invariant(op, q, before, s)
    ensures Invariant(op, q, before, Step(op, q, s, e))
  {
    hide CreatedRef, DeletedRef, CreatedObject, ResultOf, KINDS;
    var s' := Step(op, q, s, e);
    if e.Task? && s' != s {
      CallExtendsResult(op, q, before, s, e.kind);
      if e.fate == Lost(false) {
        assert CarriedOut(s') == CarriedOut(s);
      } else {
        assert CarriedOut(s') == CarriedOut(s) + {e.kind};
      }
      if AnyErrored(s) {
        var kind :| kind in s.status && s.status[kind].Errored?;
        assert s'.status[kind].Errored?;
      }
    }
  }

  lemma CallExtendsResult(op: Op, q: Request, before: Objects, s: State, kind: Kind)
    requires ResultOf(op, q, before, CarriedOut(s), s.objects)
    requires kind in s.status && s.status[kind].Running?
    ensures ResultOf(op, q, before, CarriedOut(s) + {kind}, Call(op, q, s.objects, kind))
  {
    assert kind !in CarriedOut(s);
    hide CarriedOut;
    if op.Create? {
      CreateExtendsResult(q, before, CarriedOut(s), s.objects, kind);
    } else {
      DeleteExtendsResult(q, before, CarriedOut(s), s.objects, kind);
    }
  }

  lemma CreateExtendsResult(q: Request, before: Objects, kinds: set<Kind>, objects: Objects, kind: Kind)
    requires ResultOf(Create, q, before, kinds, objects) && kind !in kinds
    ensures ResultOf(Create, q, before, kinds + {kind}, Call(Create, q, objects, kind))
  {
    hide CreatedRef, CreatedObject;
    forall k | k in kinds ensures CreatedRef(q, k) != CreatedRef(q, kind) { RefsDistinct(q, k, kind); }
    assert (set k | k in kinds + {kind} :: CreatedRef(q, k))
       == (set k | k in kinds :: CreatedRef(q, k)) + {CreatedRef(q, kind)};
  }

  lemma DeleteExtendsResult(q: Request, before: Objects, kinds: set<Kind>, objects: Objects, kind: Kind)
    requires ResultOf(Delete, q, before, kinds, objects)
    ensures ResultOf(Delete, q, before, kinds + {kind}, Call(Delete, q, objects, kind))
  {
    hide DeletedRef;
    assert (set k | k in kinds + {kind} :: DeletedRef(q, k))
       == (set k | k in kinds :: DeletedRef(q, k)) + {DeletedRef(q, kind)};
  }

  lemma {:induction false} RunKeepsInvariant(op: Op, q: Request, before: Objects, s: State, schedule: seq<Event>)
    requires Invariant(op, q, before, s)
    ensures Invariant(op, q, before, Run(op, q, s, schedule))
    decreases |schedule|
  {
    hide Invariant, Step;
    if schedule != [] {
      StepKeepsInvariant(op, q, before, s, schedule[0]);
      RunKeepsInvariant(op, q, before, Step(op, q, s, schedule[0]), schedule[1..]);
    }
  }

  lemma EverySchedule(op: Op, q: Request, before: Objects, schedule: seq<Event>)
    ensures Invariant(op, q, before, Run(op, q, Start(before), schedule))
  {
    assert CarriedOut(Start(before)) == {};
    assert ResultOf(op, q, before, {}, before);
    RunKeepsInvariant(op, q, before, Start(before), schedule);
  }

  lemma ResultUnique(op: Op, q: Request, before: Objects, kinds: set<Kind>, x: Objects, y: Objects)
    requires ResultOf(op, q, before, kinds, x) && ResultOf(op, q, before, kinds, y)
    ensures x == y
  {
    hide CreatedRef, DeletedRef, CreatedObject;
    if op.Create? {
      forall ref | ref in x ensures x[ref] == y[ref] {
        if ref !in before {
          var kind :| kind in kinds && ref == CreatedRef(q, kind);
        }
      }
    }
  }

  // ------------------------------------------------------------------ the theorems

  /** The final objects do not depend on the schedule, only on which calls were carried out. */
  lemma ScheduleIndependent(op: Op, q: Request, before: Objects, xs: seq<Event>, ys: seq<Event>)
    requires CarriedOut(Run(op, q, Start(before), xs)) == CarriedOut(Run(op, q, Start(before), ys))
    ensures Run(op, q, Start(before), xs).objects == Run(op, q, Start(before), ys).objects
  {
    hide Run, ResultOf, CarriedOut;
    EverySchedule(op, q, before, xs);
    EverySchedule(op, q, before, ys);
    var x, y := Run(op, q, Start(before), xs), Run(op, q, Start(before), ys);
    ResultUnique(op, q, before, CarriedOut(x), x.objects, y.objects);
  }

  /** Every reference held by an upgrade object of `q` names an object that exists. */
  ghost predicate ReferencesResolve(q: Request, objects: Objects) {
    var binding, job := CreatedObject(q, ClusterRoleBinding), CreatedObject(q, Job);
    && Ref(ClusterRole, "", binding.role) in objects
    && Ref(ServiceAccount, binding.accountNamespace, binding.account) in objects
    && Ref(ServiceAccount, q.namespace, job.account) in objects
    && Ref(ConfigMap, q.namespace, job.config) in objects
  }

  /** Whatever the schedule and the failures, no existing object is changed or removed by a
      creation and nothing but the five appears; if it returns Ok, all five exist and every
      reference among them resolves. */
  lemma CreateIsSafe(q: Request, before: Objects, schedule: seq<Event>)
    ensures
      var s := Run(Create, q, Start(before), schedule);
      && (forall ref | ref in before :: ref in s.objects && s.objects[ref] == before[ref])
      && (forall ref | ref in s.objects && ref !in before ::
            exists kind: Kind :: ref == CreatedRef(q, kind) && s.objects[ref] == CreatedObject(q, kind))
      && (s.main == Returned(true) ==>
            (forall kind: Kind :: CreatedRef(q, kind) in s.objects) && ReferencesResolve(q, s.objects))
  {
    EverySchedule(Create, q, before, schedule);
    ReferencesName(q);
    hide Run, CreatedRef, CreatedObject;
    var s := Run(Create, q, Start(before), schedule);
    forall ref | ref in s.objects && ref !in before
      ensures exists kind: Kind :: ref == CreatedRef(q, kind) && s.objects[ref] == CreatedObject(q, kind)
    {
      var kind :| kind in CarriedOut(s) && ref == CreatedRef(q, kind);
    }
    if s.main == Returned(true) {
      AllDoneCarriedOut(s);
      forall kind: Kind ensures CreatedRef(q, kind) in s.objects {
        assert kind in CarriedOut(s);
      }
    }
  }

  lemma AllDoneCarriedOut(s: State)
    requires s.status.Keys == KINDS && AllDone(s)
    ensures CarriedOut(s) == KINDS && forall kind: Kind :: kind in KINDS
  {
    forall kind: Kind ensures kind in KINDS {
      match kind case ServiceAccount => case ClusterRoleBinding => case ClusterRole => case ConfigMap => case Job =>
    }
  }

  /** After any partial failure, a retry that returns Ok leaves exactly what one creation
      without any failure would have left. */
  lemma RetryConverges(q: Request, before: Objects, failed: seq<Event>, retry: seq<Event>, clean: seq<Event>)
    requires
      var s := Run(Create, q, Start(before), failed);
      && Run(Create, q, Start(s.objects), retry).main == Returned(true)
      && Run(Create, q, Start(before), clean).main == Returned(true)
    ensures
      var s := Run(Create, q, Start(before), failed);
      Run(Create, q, Start(s.objects), retry).objects == Run(Create, q, Start(before), clean).objects
  {
    var s := Run(Create, q, Start(before), failed);
    var s2, c := Run(Create, q, Start(s.objects), retry), Run(Create, q, Start(before), clean);
    EverySchedule(Create, q, before, failed);
    EverySchedule(Create, q, s.objects, retry);
    EverySchedule(Create, q, before, clean);
    hide Run, CreatedRef, CreatedObject;
    AllDoneCarriedOut(s2);
    AllDoneCarriedOut(c);
    ResultsCompose(q, before, CarriedOut(s), s.objects, s2.objects);
    ResultUnique(Create, q, before, KINDS, s2.objects, c.objects);
  }

  lemma ResultsCompose(q: Request, before: Objects, kinds: set<Kind>, mid: Objects, after: Objects)
    requires kinds <= KINDS
    requires ResultOf(Create, q, before, kinds, mid) && ResultOf(Create, q, mid, KINDS, after)
    ensures ResultOf(Create, q, before, KINDS, after)
  {
    hide CreatedRef, CreatedObject, KINDS;
    forall kind | kind in KINDS && CreatedRef(q, kind) !in before
      ensures after[CreatedRef(q, kind)] == CreatedObject(q, kind)
    {
      if CreatedRef(q, kind) in mid {
        var k :| k in kinds && CreatedRef(q, kind) == CreatedRef(q, k);
        RefsDistinct(q, kind, k);
      }
    }
  }

  /** Deleting, if it returns Ok, removes exactly the five names, from any state; in
      particular it undoes a creation, however incomplete, that found none of them. */
  lemma DeleteRemovesExactlyTheFive(q: Request, before: Objects, created: seq<Event>, deleted: seq<Event>)
    requires
      var s := Run(Create, q, Start(before), created);
      Run(Delete, q, Start(s.objects), deleted).main == Returned(true)
    ensures
      var s := Run(Create, q, Start(before), created);
      var after := Run(Delete, q, Start(s.objects), deleted).objects;
      && (forall ref :: ref in after <==> ref in before && forall kind: Kind :: ref != CreatedRef(q, kind))
      && (forall ref | ref in after :: after[ref] == before[ref])
      && ((forall kind: Kind :: CreatedRef(q, kind) !in before) ==> after == before)
  {
    var s := Run(Create, q, Start(before), created);
    var d := Run(Delete, q, Start(s.objects), deleted);
    EverySchedule(Create, q, before, created);
    EverySchedule(Delete, q, s.objects, deleted);
    AllDoneCarriedOut(d);
    hide Run;
    DeleteFromCreated(q, before, CarriedOut(s), s.objects, d.objects);
  }

  lemma DeleteFromCreated(q: Request, before: Objects, kinds: set<Kind>, mid: Objects, after: Objects)
    requires kinds <= KINDS
    requires ResultOf(Create, q, before, kinds, mid) && ResultOf(Delete, q, mid, KINDS, after)
    ensures forall ref :: ref in after <==> ref in before && forall kind: Kind :: ref != CreatedRef(q, kind)
    ensures forall ref | ref in after :: after[ref] == before[ref]
    ensures (forall kind: Kind :: CreatedRef(q, kind) !in before) ==> after == before
  {
    ReferencesName(q);
    forall kind: Kind ensures kind in KINDS {
      match kind case ServiceAccount => case ClusterRoleBinding => case ClusterRole => case ConfigMap => case Job =>
    }
    hide CreatedRef, DeletedRef, CreatedObject, KINDS;
    var names := set k | k in KINDS :: DeletedRef(q, k);
    assert forall kind: Kind :: CreatedRef(q, kind) in names by {
      forall kind: Kind ensures CreatedRef(q, kind) in names { assert DeletedRef(q, kind) in names; }
    }
    assert forall ref | ref in names :: exists kind: Kind :: ref == CreatedRef(q, kind);
    assert after == mid - names;
  }

  /** If no call is lost, the join never returns an error, and the tasks that are done are the
      ones that were scheduled. */
  lemma {:induction false} NoLossNoError(op: Op, q: Request, s: State, schedule: seq<Event>)
    requires s.main.Joining? && !AnyErrored(s) && s.status.Keys == KINDS
    requires forall e | e in schedule :: e.Task? ==> e.fate.Answered?
    ensures
      var s' := Run(op, q, s, schedule);
      && s'.main != Returned(false) && !AnyErrored(s') && s'.status.Keys == KINDS
      && forall kind | kind in KINDS ::
           s'.status[kind].Done? <==> s.status[kind].Done? || Task(kind, Answered) in schedule
    decreases |schedule|
  {
    hide Call;
    if schedule != [] {
      var s1 := Step(op, q, s, schedule[0]);
      assert schedule == [schedule[0]] + schedule[1..];
      if s1.main.Joining? {
        NoLossNoError(op, q, s1, schedule[1..]);
      } else {
        AfterReturn(op, q, s1, schedule[1..]);
      }
    }
  }

  lemma {:induction false} AfterReturn(op: Op, q: Request, s: State, schedule: seq<Event>)
    requires s.main == Returned(true) && AllDone(s)
    ensures Run(op, q, s, schedule) == s
    decreases |schedule|
  {
    if schedule != [] {
      assert Step(op, q, s, schedule[0]) == s;
      AfterReturn(op, q, s, schedule[1..]);
    }
  }

  lemma {:induction false} RunAppend(op: Op, q: Request, s: State, xs: seq<Event>, ys: seq<Event>)
    ensures Run(op, q, s, xs + ys) == Run(op, q, Run(op, q, s, xs), ys)
    decreases |xs|
  {
    hide Step;
    if xs == [] {
      assert xs + ys == ys;
    } else {
      assert (xs + ys)[1..] == xs[1..] + ys;
      RunAppend(op, q, Step(op, q, s, xs[0]), xs[1..], ys);
    }
  }

  /** Once all five tasks have run without a loss, in any order and with joins anywhere in
      between, the join that comes next returns Ok, and the rest of the schedule is idle. */
  lemma AllAnsweredReturnsOk(op: Op, q: Request, before: Objects, schedule: seq<Event>, rest: seq<Event>)
    requires forall e | e in schedule :: e.Task? ==> e.fate.Answered?
    requires forall kind | kind in KINDS :: Task(kind, Answered) in schedule
    ensures
      var s := Run(op, q, Start(before), schedule + [Join]);
      s.main == Returned(true) && Run(op, q, Start(before), schedule + [Join] + rest) == s
  {
    hide Call;
    NoLossNoError(op, q, Start(before), schedule);
    RunAppend(op, q, Start(before), schedule, [Join]);
    var s := Run(op, q, Start(before), schedule);
    assert [Join][1..] == [];
    assert Run(op, q, s, [Join]) == Step(op, q, s, Join);
    RunAppend(op, q, Start(before), schedule + [Join], rest);
    AfterReturn(op, q, Step(op, q, s, Join), rest);
  }

  lemma RunFirst(op: Op, q: Request, s: State, schedule: seq<Event>)
    requires schedule != []
    ensures Run(op, q, s, schedule) == Run(op, q, Step(op, q, s, schedule[0]), schedule[1..])
  {
  }

  // ------------------------------------------------------ when the join returns what

  lemma {:induction false} RunningStays(op: Op, q: Request, s: State, schedule: seq<Event>, kind: Kind)
    requires kind in s.status && s.status[kind].Running? && s.main != Returned(true)
    requires forall e | e in schedule :: !(e.Task? && e.kind == kind)
    ensures var s' := Run(op, q, s, schedule);
      kind in s'.status && s'.status[kind].Running? && s'.main != Returned(true)
    decreases |schedule|
  {
    hide Call;
    if schedule != [] {
      assert schedule[0] in schedule && forall e | e in schedule[1..] :: e in schedule;
      RunningStays(op, q, Step(op, q, s, schedule[0]), schedule[1..], kind);
    }
  }

  lemma {:induction false} ErroredStays(op: Op, q: Request, s: State, schedule: seq<Event>, kind: Kind)
    requires kind in s.status && s.status[kind].Errored? && s.main != Returned(true)
    ensures var s' := Run(op, q, s, schedule);
      kind in s'.status && s'.status[kind].Errored? && s'.main != Returned(true)
    ensures s.main == Returned(false) || Join in schedule ==> Run(op, q, s, schedule).main == Returned(false)
    decreases |schedule|
  {
    hide Call;
    if schedule != [] {
      assert Join in schedule <==> schedule[0] == Join || Join in schedule[1..];
      ErroredStays(op, q, Step(op, q, s, schedule[0]), schedule[1..], kind);
    }
  }

  lemma {:induction false} DoneStays(op: Op, q: Request, s: State, schedule: seq<Event>, kind: Kind)
    requires kind in s.status && s.status[kind].Done?
    ensures var s' := Run(op, q, s, schedule); kind in s'.status && s'.status[kind].Done?
    decreases |schedule|
  {
    hide Call;
    if schedule != [] { DoneStays(op, q, Step(op, q, s, schedule[0]), schedule[1..], kind); }
  }

  /** What became of a task is decided by its first event. */
  lemma FirstEventDecides(op: Op, q: Request, before: Objects, schedule: seq<Event>, kind: Kind, i: nat)
    requires i < |schedule| && schedule[i].Task? && schedule[i].kind == kind
    requires forall j | 0 <= j < i :: !(schedule[j].Task? && schedule[j].kind == kind)
    ensures var s := Run(op, q, Start(before), schedule);
      kind in s.status && (if schedule[i].fate.Answered? then s.status[kind].Done? else s.status[kind].Errored?)
    ensures schedule[i].fate.Lost? && Join in schedule[i + 1..] ==>
      Run(op, q, Start(before), schedule).main == Returned(false)
  {
    hide Call, Run;
    KindsAreAll(kind);
    var first, rest := schedule[..i], schedule[i + 1..];
    assert schedule == first + ([schedule[i]] + rest);
    RunAppend(op, q, Start(before), first, [schedule[i]] + rest);
    RunningStays(op, q, Start(before), first, kind);
    var s := Run(op, q, Start(before), first);
    RunFirst(op, q, s, [schedule[i]] + rest);
    assert ([schedule[i]] + rest)[1..] == rest;
    var s' := Step(op, q, s, schedule[i]);
    if schedule[i].fate.Answered? {
      DoneStays(op, q, s', rest, kind);
    } else {
      ErroredStays(op, q, s', rest, kind);
    }
  }

  lemma KindsAreAll(kind: Kind)
    ensures kind in KINDS
  {
    match kind case ServiceAccount => case ClusterRoleBinding => case ClusterRole => case ConfigMap => case Job =>
  }

  /** A lost call is reported: if a kind's first event is lost, every later join leaves an
      error, whatever comes in between and after. */
  lemma LostCallIsReported(op: Op, q: Request, before: Objects, schedule: seq<Event>, kind: Kind, i: nat, k: nat)
    requires i < k < |schedule| && schedule[k] == Join
    requires schedule[i].Task? && schedule[i].kind == kind && schedule[i].fate.Lost?
    requires forall j | 0 <= j < i :: !(schedule[j].Task? && schedule[j].kind == kind)
    ensures Run(op, q, Start(before), schedule).main == Returned(false)
  {
    hide Run;
    assert schedule[i + 1..][k - i - 1] == Join;
    FirstEventDecides(op, q, before, schedule, kind, i);
  }

  /** The exact verdict: once each kind has run, the join that comes next settles the result,
      which is Ok iff the first event of every kind was answered. */
  lemma JoinVerdict(op: Op, q: Request, before: Objects, schedule: seq<Event>, rest: seq<Event>)
    requires forall kind | kind in KINDS :: exists e :: e in schedule && e.Task? && e.kind == kind
    ensures
      var ok := forall i | 0 <= i < |schedule| && schedule[i].Task?
                  && (forall j | 0 <= j < i :: !(schedule[j].Task? && schedule[j].kind == schedule[i].kind)) ::
                  schedule[i].fate.Answered?;
      Run(op, q, Start(before), schedule + [Join] + rest).main == Returned(ok)
  {
    hide Run, Call;
    if i: nat :| (
      && i < |schedule| && schedule[i].Task? && schedule[i].fate.Lost?
      && forall j | 0 <= j < i :: !(schedule[j].Task? && schedule[j].kind == schedule[i].kind))
    {
      var whole := schedule + [Join] + rest;
      assert forall j | 0 <= j < |schedule| :: whole[j] == schedule[j];
      LostCallIsReported(op, q, before, whole, schedule[i].kind, i, |schedule|);
    } else {
      var s := Run(op, q, Start(before), schedule);
      forall kind: Kind ensures kind in s.status && s.status[kind].Done? {
        KindsAreAll(kind);
        var i := FirstTask(schedule, kind);
        FirstEventDecides(op, q, before, schedule, kind, i);
      }
      EverySchedule(op, q, before, schedule);
      RunAppend(op, q, Start(before), schedule, [Join]);
      RunFirst(op, q, s, [Join]);
      RunFirst(op, q, s, [Join] + rest);
      NothingLeft(op, q, Step(op, q, s, Join));
      assert [Join][1..] == [] && schedule + [Join] + rest == (schedule + [Join]) + rest;
      RunAppend(op, q, Start(before), schedule + [Join], rest);
      AfterReturn(op, q, Step(op, q, s, Join), rest);
    }
  }

  lemma NothingLeft(op: Op, q: Request, s: State)
    ensures Run(op, q, s, []) == s
  {
  }

  lemma {:induction false} FirstTask(schedule: seq<Event>, kind: Kind) returns (i: nat)
    requires exists e :: e in schedule && e.Task? && e.kind == kind
    ensures i < |schedule| && schedule[i].Task? && schedule[i].kind == kind
    ensures forall j | 0 <= j < i :: !(schedule[j].Task? && schedule[j].kind == kind)
    decreases |schedule|
  {
    if schedule[0].Task? && schedule[0].kind == kind {
      i := 0;
    } else {
      var rest := FirstTask(schedule[1..], kind);
      i := rest + 1;
    }
  }

  // --------------------------------------------------- set files and stale ConfigMaps

  /** A new job gets the ConfigMap of its own arguments iff no ConfigMap of that name was left
      over, or the one left over has the very same data. */
  lemma ConfigMapIsTheJobsOwn(q: Request, before: Objects, schedule: seq<Event>)
    requires Run(Create, q, Start(before), schedule).main == Returned(true)
    ensures
      var config, after := CreatedRef(q, ConfigMap), Run(Create, q, Start(before), schedule).objects;
      && config in after
      && (after[config] == Config(q.data) <==> (config !in before || before[config] == Config(q.data)))
  {
    CreateIsSafe(q, before, schedule);
    EverySchedule(Create, q, before, schedule);
    var s := Run(Create, q, Start(before), schedule);
    AllDoneCarriedOut(s);
    hide Run, CreatedRef;
  }

  /** On a cluster without leftovers, the job created for a set-file list finds every file of
      the list in its ConfigMap, under the key its own argument string names. */
  lemma JobFindsItsFiles(q: Request, args: seq<string>, files: map<string, string>,
                         before: Objects, schedule: seq<Event>)
    requires SetFile.CarriesArguments(q.setFile, args, q.data, files)
    requires Run(Create, q, Start(before), schedule).main == Returned(true)
    requires CreatedRef(q, ConfigMap) !in before && CreatedRef(q, Job) !in before
    ensures
      var after := Run(Create, q, Start(before), schedule).objects;
      && CreatedRef(q, Job) in after && after[CreatedRef(q, Job)].UpgradeJob?
      && var config := Ref(ConfigMap, q.namespace, after[CreatedRef(q, Job)].config);
      && config in after && after[config].Config?
      && SetFile.CarriesArguments(after[CreatedRef(q, Job)].setFile, args, after[config].data, files)
  {
    EverySchedule(Create, q, before, schedule);
    ReferencesName(q);
    var s := Run(Create, q, Start(before), schedule);
    AllDoneCarriedOut(s);
    hide Run, CreatedRef, SetFile.CarriesArguments;
  }

  // ------------------------------------------------------------ running a schedule

  /** The spawned tasks against a real server, one scheduled event at a time. */
  method RunTasks(op: Op, q: Request, server: ApiServer, schedule: seq<Event>) returns (main: Main)
    modifies server
    ensures server.objects == Run(op, q, Start(old(server.objects)), schedule).objects
    ensures main == Run(op, q, Start(old(server.objects)), schedule).main
  {
    ghost var before := server.objects;
    var status: map<Kind, Status> := map kind | kind in KINDS :: Running;
    main := Joining;
    var n := 0;
    while n < |schedule|
      invariant 0 <= n <= |schedule|
      invariant Run(op, q, Start(before), schedule)
             == Run(op, q, State(server.objects, status, main), schedule[n..])
    {
      hide Run, CreatedRef, CreatedObject;
      ghost var s := State(server.objects, status, main);
      RunFirst(op, q, s, schedule[n..]);
      assert schedule[n..][1..] == schedule[n + 1..];
      match schedule[n] {
        case Task(kind, fate) =>
          if kind in status && status[kind].Running? {
            var ok: bool;
            if op.Create? {
              ok := server.IdempotentCreate(CreatedRef(q, kind), CreatedObject(q, kind), fate);
            } else {
              ok := server.IdempotentDelete(DeletedRef(q, kind), fate);
            }
            status := status[kind := if ok then Done else Errored(fate.carriedOut)];
          }
        case Join =>
          if main.Joining? {
            if exists kind | kind in status :: status[kind].Errored? {
              main := Returned(false);
            } else if forall kind | kind in status :: status[kind].Done? {
              main := Returned(true);
            }
          }
      }
      assert State(server.objects, status, main) == Step(op, q, s, schedule[n]);
      n := n + 1;
    }
    assert schedule[n..] == [];
  }
}
