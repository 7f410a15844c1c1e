/** The plugin's checks before an upgrade: the helm values that decide whether they apply,
    the version path, and scans over paginated listings. */
module Preflight {
  import opened Wrappers
  import opened SemVer
  import UpgradePlan

  datatype Error =
    | ApiError
    | DestinationIsDevelop | StableToUnstable | HigherToLower
    | Rebuilding | NodeSpecMissing | Cordoned | SingleReplica

  // --------------------------------------------------------- is Mayastor enabled

  datatype Engine = Engine(enabled: Option<bool>)
  datatype Replicated = Replicated(mayastor: Option<Engine>)
  datatype Engines = Engines(replicated: Option<Replicated>)

  /** Values the user set; any level may be absent. */
  datatype ConfigValues = ConfigValues(mayastor: Option<Engine>, engines: Option<Engines>)

  /** Chart defaults; `engines`, where present, always says whether Mayastor is enabled. */
  datatype ChartValues = ChartValues(mayastor: Option<Engine>, engines: Option<bool>)

  datatype HelmRelease = HelmRelease(version: Version, values: ChartValues, config: Option<ConfigValues>)

  function AndThen<T, U>(o: Option<T>, f: T -> Option<U>): Option<U> {
    if o.Some? then f(o.value) else None
  }

  function UnwrapOr(o: Option<bool>, otherwise: bool): bool {
    if o.Some? then o.value else otherwise
  }

  function ConfigEngine(r: HelmRelease): Option<bool> {
    AndThen(AndThen(AndThen(AndThen(r.config, (c: ConfigValues) => c.engines),
      (e: Engines) => e.replicated), (x: Replicated) => x.mayastor), (m: Engine) => m.enabled)
  }

  function ConfigMayastor(r: HelmRelease): Option<bool> {
    AndThen(AndThen(r.config, (c: ConfigValues) => c.mayastor), (m: Engine) => m.enabled)
  }

  function ChartMayastor(r: HelmRelease): Option<bool> {
    AndThen(r.values.mayastor, (m: Engine) => m.enabled)
  }

  function MayastorIsEnabled(r: HelmRelease): bool {
    UnwrapOr(ConfigEngine(r),
      UnwrapOr(ConfigMayastor(r), UnwrapOr(r.values.engines, UnwrapOr(ChartMayastor(r), false))))
  }

  /** Mayastor counts as enabled iff some level says true and every level before it is silent:
      the user's engine key, the user's v3 key, the chart's engine key, the chart's v3 key. */
  lemma EnabledByFirstLevelThatSpeaks(r: HelmRelease)
    ensures var levels := [ConfigEngine(r), ConfigMayastor(r), r.values.engines, ChartMayastor(r)];
      MayastorIsEnabled(r) <==>
        exists i | 0 <= i < |levels| :: levels[i] == Some(true) && forall j | 0 <= j < i :: levels[j] == None
  {
    var levels := [ConfigEngine(r), ConfigMayastor(r), r.values.engines, ChartMayastor(r)];
    hide ConfigEngine, ConfigMayastor, ChartMayastor;
    var first := if levels[0].Some? then 0 else if levels[1].Some? then 1 else if levels[2].Some? then 2 else 3;
    assert forall j | 0 <= j < first :: levels[j] == None;
    assert MayastorIsEnabled(r) <==> levels[first] == Some(true);
    forall i | 0 <= i < |levels| && levels[i] == Some(true) && forall j | 0 <= j < i :: levels[j] == None
      ensures i == first {
    }
  }

  /** The four levels by their keys: the user's `engines.replicated.mayastor.enabled`, the user's
      `mayastor.enabled`, then the chart's two. */
  lemma EnabledByKey(version: Version, values: ChartValues, engine: Option<bool>, v3: Option<bool>)
    ensures
      var config := ConfigValues(Some(Engine(v3)), Some(Engines(Some(Replicated(Some(Engine(engine)))))));
      MayastorIsEnabled(HelmRelease(version, values, Some(config))) ==
        if engine.Some? then engine.value
        else if v3.Some? then v3.value
        else MayastorIsEnabled(HelmRelease(version, values, None))
    ensures MayastorIsEnabled(HelmRelease(version, ChartValues(Some(Engine(v3)), engine), None)) ==
              if engine.Some? then engine.value else v3 == Some(true)
    ensures MayastorIsEnabled(HelmRelease(version, values, Some(ConfigValues(None, None))))
         == MayastorIsEnabled(HelmRelease(version, values, None))
  {
  }

  // ------------------------------------------------------------- the upgrade path

  predicate Contains(s: string, sub: string)
    decreases |s|
  {
    sub <= s || (s != "" && Contains(s[1..], sub))
  }

  lemma {:induction false} ContainsMiddle(a: string, sub: string, c: string)
    ensures Contains(a + sub + c, sub)
    decreases |a|
  {
    var s := a + sub + c;
    if a == "" {
      assert sub == s[..|sub|];
    } else {
      assert s[1..] == a[1..] + sub + c;
      ContainsMiddle(a[1..], sub, c);
    }
  }

  lemma {:induction false} ContainedSomewhere(s: string, sub: string) returns (a: string, c: string)
    requires Contains(s, sub)
    ensures s == a + sub + c
    decreases |s|
  {
    if sub <= s {
      a, c := "", s[|sub|..];
    } else {
      var rest;
      rest, c := ContainedSomewhere(s[1..], sub);
      a := [s[0]] + rest;
    }
  }

  function StripV(tag: string): string {
    if tag != "" && tag[0] == 'v' then tag[1..] else tag
  }

  /** The plugin's own build: its version tag, and the library's version parser. */
  datatype Build = Build(tag: Option<string>, parse: string -> Option<Version>)

  function DestinationTag(b: Build): string {
    if b.tag.Some? then b.tag.value else "develop"
  }

  function OwnVersion(b: Build): Option<Version> {
    if b.tag.Some? && b.tag.value != "" then b.parse(StripV(b.tag.value)) else None
  }

  method UpgradePathValidation(b: Build, allowUnstable: bool, source: Version) returns (r: Result<(), Error>)
    ensures r.Success? <==> PathValid(b, allowUnstable, source)
    ensures r.Success? <==>
      && b.tag.Some? && (forall a: string, c: string :: b.tag.value != a + "develop" + c)
      && (allowUnstable || source.pre != [] || (OwnVersion(b).Some? && OwnVersion(b).value.pre == []))
      && (OwnVersion(b).Some? ==> !Less(OwnVersion(b).value, source))
    ensures r == Failure(HigherToLower) ==> OwnVersion(b).Some? && Less(OwnVersion(b).value, source)
  {
    DevelopContainsDevelop();
    forall a: string, c: string | b.tag == Some(a + "develop" + c) ensures Contains(b.tag.value, "develop") {
      ContainsMiddle(a, "develop", c);
    }
    if b.tag.Some? && Contains(b.tag.value, "develop") {
      ghost var a, c := ContainedSomewhere(b.tag.value, "develop");
    }
    if Contains(DestinationTag(b), "develop") {
      return Failure(DestinationIsDevelop);
    }
    var own: Option<Version> := None;
    if b.tag.Some? {
      if b.tag.value != "" {
        own := b.parse(StripV(b.tag.value));
      }
    }
    if !allowUnstable {
      var selfIsStable := false;
      if own.Some? && own.value.pre == [] {
        selfIsStable := true;
      }
      if source.pre == [] && !selfIsStable {
        return Failure(StableToUnstable);
      }
    }
    if own.Some? && Less(own.value, source) {
      return Failure(HigherToLower);
    }
    return Success(());
  }

  predicate Released(b: Build) {
    b.tag.Some? && !Contains(b.tag.value, "develop")
  }

  /** The own version of a build, by its tag: none without one, else what the parser makes of it,
      one leading `v` left out. */
  lemma OwnVersionByTag(tag: string, parse: string -> Option<Version>)
    requires tag != "" ==> tag[0] != 'v'
    ensures OwnVersion(Build(None, parse)) == None && OwnVersion(Build(Some(""), parse)) == None
    ensures OwnVersion(Build(Some("v" + tag), parse)) == parse(tag)
    ensures tag != "" ==> OwnVersion(Build(Some(tag), parse)) == parse(tag)
  {
    assert ("v" + tag)[1..] == tag;
  }

  /** A valid path: a released destination, never from stable to unstable unless allowed, and
      never to a lower version as far as the plugin knows its own. */
  predicate PathValid(b: Build, allowUnstable: bool, source: Version) {
    && Released(b)
    && (allowUnstable || source.pre != [] || (OwnVersion(b).Some? && OwnVersion(b).value.pre == []))
    && (OwnVersion(b).Some? ==> AtLeast(OwnVersion(b).value, source))
  }

  lemma DevelopContainsDevelop()
    ensures Contains("develop", "develop")
  {
  }

  /** For a parsed own version equal to the chart's, whatever path the plugin's validation lets
      through is accepted by the job's downgrade gate, in every attempt that still finds the
      validated version or the target itself. */
  lemma PluginAndJobAgree(b: Build, allowUnstable: bool, source: Version, cfg: UpgradePlan.Config)
    requires PathValid(b, allowUnstable, source) && OwnVersion(b) == Some(cfg.target)
    ensures UpgradePlan.PathAccepted(source, cfg) && UpgradePlan.PathAccepted(cfg.target, cfg)
  {
    AtLeastIsLessOrEqual(cfg.target, cfg.target);
  }

  // -------------------------------------------------------------- paginated volumes

  datatype Child = Child(rebuildProgress: Option<int>)

  datatype Volume = Volume(uuid: string, numReplicas: int, target: Option<seq<Child>>)

  datatype Page = Page(entries: seq<Volume>, nextToken: Option<nat>)

  /** The volumes API: page by page, any split of the listing, where any page may fail. The
      starting token 0 asks for the first page. */
  type Listing = p: seq<Result<seq<Volume>, ()>> | p != [] witness [Success([])]

  function GetVolumes(api: Listing, token: nat): Result<Page, Error> {
    if token < |api| && api[token].Success? then
      Success(Page(api[token].value, if token + 1 < |api| then Some(token + 1) else None))
    else
      Failure(ApiError)
  }

  /** The volumes on the pages before the first failing one. */
  function Readable(api: seq<Result<seq<Volume>, ()>>): seq<Volume>
    decreases |api|
  {
    if api == [] || api[0].Failure? then [] else api[0].value + Readable(api[1..])
  }

  predicate AllPagesRead(api: seq<Result<seq<Volume>, ()>>) {
    forall page | page in api :: page.Success?
  }

  predicate IsRebuilding(v: Volume) {
    v.target.Some? && exists child | child in v.target.value :: child.rebuildProgress.Some?
  }

  predicate AnyRebuilding(vols: seq<Volume>) {
    exists v | v in vols :: IsRebuilding(v)
  }

  lemma {:induction false} ReadableFrom(api: seq<Result<seq<Volume>, ()>>, n: nat)
    requires n < |api| && AllPagesRead(api[..n])
    ensures api[n].Success? ==>
      Readable(api[..n + 1]) == Readable(api[..n]) + api[n].value && AllPagesRead(api[..n + 1])
    ensures api[n].Failure? ==> Readable(api) == Readable(api[..n]) && !AllPagesRead(api)
    ensures forall v | v in Readable(api[..n]) :: v in Readable(api)
    ensures api[n].Success? ==> forall v | v in api[n].value :: v in Readable(api)
    decreases n
  {
    if n > 0 {
      assert api[..n][0] == api[0] && api[0].Success?;
      assert api[..n][1..] == api[1..][..n - 1] && api[..n + 1][1..] == api[1..][..n];
      assert forall page | page in api[1..][..n - 1] :: page in api[..n];
      ReadableFrom(api[1..], n - 1);
      if api[n].Failure? { assert api[n] in api; }
    } else {
      assert api[..1][0] == api[0] && api[..1][1..] == [];
      if api[0].Failure? { assert api[0] in api; }
    }
  }

  /** What can be read is what lies on the pages before the first failing one. */
  lemma {:induction false} ReadableByPage(api: seq<Result<seq<Volume>, ()>>, v: Volume)
    ensures v in Readable(api) <==>
      exists n :: 0 <= n < |api| && (forall m | 0 <= m <= n :: api[m].Success?) && v in api[n].value
    decreases |api|
  {
    if api != [] && api[0].Success? {
      ReadableByPage(api[1..], v);
      if v in Readable(api[1..]) {
        var n :| 0 <= n < |api[1..]| && (forall m | 0 <= m <= n :: api[1..][m].Success?) && v in api[1..][n].value;
        assert forall m | 1 <= m <= n + 1 :: api[m] == api[1..][m - 1];
        assert v in api[n + 1].value;
      }
      if n :| 1 <= n < |api| && (forall m | 0 <= m <= n :: api[m].Success?) && v in api[n].value {
        assert forall m | 0 <= m <= n - 1 :: api[1..][m] == api[m + 1];
        assert v in api[1..][n - 1].value;
      }
    }
  }

  /** Stops at the first rebuilding child; the early exit only skips pages that could not have
      changed the answer, and an API error counts only if it comes first. */
  method RebuildInProgress(api: Listing) returns (r: Result<bool, Error>)
    ensures r == Success(true) <==> AnyRebuilding(Readable(api))
    ensures r == Success(true) <==>
      exists v, child :: v in Readable(api) && v.target.Some? && child in v.target.value && child.rebuildProgress.Some?
    ensures r == Success(false) <==> AllPagesRead(api) && !AnyRebuilding(Readable(api))
    ensures r.Failure? <==> !AllPagesRead(api) && !AnyRebuilding(Readable(api))
  {
    var token: Option<nat> := Some(0);
    ghost var n := 0;
    while token.Some?
      invariant 0 <= n <= |api|
      invariant token == if n < |api| then Some(n) else None
      invariant AllPagesRead(api[..n]) && !AnyRebuilding(Readable(api[..n]))
      decreases |api| - n
    {
      ReadableFrom(api, n);
      var page := GetVolumes(api, token.value);
      if page.Failure? {
        return Failure(ApiError);
      }
      token := page.value.nextToken;
      var entries := page.value.entries;
      for i := 0 to |entries|
        invariant !AnyRebuilding(entries[..i])
      {
        var volume := entries[i];
        if volume.target.Some? {
          if exists child | child in volume.target.value :: child.rebuildProgress.Some? {
            assert volume in entries && IsRebuilding(volume);
            return Success(true);
          }
        }
        assert entries[..i + 1] == entries[..i] + [volume];
      }
      assert entries[..|entries|] == entries;
      n := n + 1;
    }
    assert api[..n] == api;
    return Success(false);
  }

  function SingleReplicaIds(vols: seq<Volume>): seq<string> {
    if vols == [] then []
    else (if vols[0].numReplicas == 1 then [vols[0].uuid] else []) + SingleReplicaIds(vols[1..])
  }

  lemma {:induction false} SingleReplicaIdsAppend(xs: seq<Volume>, ys: seq<Volume>)
    ensures SingleReplicaIds(xs + ys) == SingleReplicaIds(xs) + SingleReplicaIds(ys)
    decreases |xs|
  {
    if xs == [] {
      assert xs + ys == ys;
    } else {
      assert (xs + ys)[1..] == xs[1..] + ys;
      SingleReplicaIdsAppend(xs[1..], ys);
    }
  }

  lemma {:induction false} NoSingleReplica(vols: seq<Volume>)
    ensures SingleReplicaIds(vols) == [] <==> forall v | v in vols :: v.numReplicas != 1
    decreases |vols|
  {
    if vols != [] {
      NoSingleReplica(vols[1..]);
      assert forall v :: v in vols <==> v == vols[0] || v in vols[1..];
    }
  }

  datatype Pvc = Pvc(uid: Option<string>, name: Option<string>)

  predicate NamedWithin(pvc: Pvc, uuids: set<string>) {
    pvc.uid.Some? && pvc.uid.value in uuids && pvc.name.Some?
  }

  function NamesOf(pvcs: seq<Pvc>, uuids: set<string>): seq<string> {
    if pvcs == [] then []
    else NamesOf(pvcs[..|pvcs| - 1], uuids)
         + (if NamedWithin(pvcs[|pvcs| - 1], uuids) then [pvcs[|pvcs| - 1].name.value] else [])
  }

  lemma {:induction false} NamesInOrder(xs: seq<Pvc>, ys: seq<Pvc>, uuids: set<string>)
    ensures NamesOf(xs + ys, uuids) == NamesOf(xs, uuids) + NamesOf(ys, uuids)
    decreases |ys|
  {
    if ys == [] {
      assert xs + ys == xs;
    } else {
      assert (xs + ys)[..|xs + ys| - 1] == xs + ys[..|ys| - 1];
      NamesInOrder(xs, ys[..|ys| - 1], uuids);
    }
  }

  /** The claims behind the given volumes, in listing order, skipping nameless ones. */
  method GetPvcFromUuid(uuids: set<string>, pvcs: seq<Pvc>) returns (names: seq<string>)
    ensures names == NamesOf(pvcs, uuids)
    ensures forall name :: name in names <==>
      exists pvc | pvc in pvcs :: NamedWithin(pvc, uuids) && pvc.name.value == name
    ensures forall name :: name in names <==>
      exists pvc :: pvc in pvcs && pvc.name == Some(name) && pvc.uid.Some? && pvc.uid.value in uuids
  {
    names := [];
    for i := 0 to |pvcs|
      invariant names == NamesOf(pvcs[..i], uuids)
      invariant forall name :: name in names <==>
        exists pvc | pvc in pvcs[..i] :: NamedWithin(pvc, uuids) && pvc.name.value == name
    {
      assert pvcs[..i + 1][..i] == pvcs[..i] && pvcs[..i + 1][i] == pvcs[i];
      assert pvcs[..i + 1] == pvcs[..i] + [pvcs[i]];
      if pvcs[i].uid.Some? {
        if pvcs[i].uid.value in uuids {
          if pvcs[i].name.Some? {
            names := names + [pvcs[i].name.value];
          }
        }
      }
    }
    assert pvcs[..|pvcs|] == pvcs;
  }

  method SingleVolumeReplicaValidation(api: Listing, pvcs: Result<seq<Pvc>, ()>) returns (r: Result<(), Error>)
    ensures r.Success? <==>
      (forall n | 0 <= n < |api| :: api[n].Success?) && forall v | v in Readable(api) :: v.numReplicas != 1
    ensures r.Success? <==> AllPagesRead(api) && forall v | v in Readable(api) :: v.numReplicas != 1
    ensures r == Failure(Error.SingleReplica) <==>
            AllPagesRead(api) && pvcs.Success? && exists v | v in Readable(api) :: v.numReplicas == 1
  {
    var token: Option<nat> := Some(0);
    var ids: seq<string> := [];
    ghost var n := 0;
    while token.Some?
      invariant 0 <= n <= |api|
      invariant token == if n < |api| then Some(n) else None
      invariant AllPagesRead(api[..n]) && ids == SingleReplicaIds(Readable(api[..n]))
      decreases |api| - n
    {
      ReadableFrom(api, n);
      var page := GetVolumes(api, token.value);
      if page.Failure? {
        return Failure(ApiError);
      }
      SingleReplicaIdsAppend(Readable(api[..n]), page.value.entries);
      ids := ids + SingleReplicaIds(page.value.entries);
      token := page.value.nextToken;
      n := n + 1;
    }
    assert api[..n] == api;
    NoSingleReplica(Readable(api));
    if ids != [] {
      if pvcs.Failure? {
        return Failure(ApiError);
      }
      var names := GetPvcFromUuid((set id | id in ids), pvcs.value);
      return Failure(Error.SingleReplica);
    }
    return Success(());
  }

  // ----------------------------------------------------------------- cordoned nodes

  /** A node's spec, where present, says whether the node is cordoned. */
  datatype Node = Node(id: string, cordoned: Option<bool>)

  method AlreadyCordonedNodesValidation(nodes: Result<seq<Node>, ()>) returns (r: Result<(), Error>)
    ensures r.Success? <==>
      nodes.Success? && forall i | 0 <= i < |nodes.value| :: nodes.value[i].cordoned == Some(false)
    ensures r == Failure(Cordoned) ==>
      nodes.Success? && exists node | node in nodes.value :: node.cordoned == Some(true)
  {
    if nodes.Failure? {
      return Failure(ApiError);
    }
    var list := nodes.value;
    var cordoned: seq<string> := [];
    for i := 0 to |list|
      invariant forall j | 0 <= j < i :: list[j].cordoned.Some?
      invariant cordoned == [] <==> forall j | 0 <= j < i :: list[j].cordoned == Some(false)
    {
      if list[i].cordoned.None? {
        return Failure(NodeSpecMissing);
      }
      if list[i].cordoned.value {
        cordoned := cordoned + [list[i].id];
      }
    }
    if cordoned != [] {
      ghost var j :| 0 <= j < |list| && list[j].cordoned != Some(false);
      assert list[j].cordoned.Some? && list[j].cordoned.value;
      return Failure(Cordoned);
    }
    return Success(());
  }

  predicate NodesValid(nodes: Result<seq<Node>, ()>) {
    nodes.Success? && forall i | 0 <= i < |nodes.value| :: nodes.value[i].cordoned == Some(false)
  }

  // ------------------------------------------------------------------ the whole check

  datatype Args = Args(
    allowUnstable: bool,
    skipPath: bool,
    skipRebuild: bool,
    skipCordoned: bool,
    skipSingleReplica: bool)

  /** What the two API servers answer; the two volume scans may see different splits. */
  datatype World = World(
    release: Result<HelmRelease, ()>,
    restConfig: bool,
    rebuildScan: Listing,
    nodes: Result<seq<Node>, ()>,
    k8sClient: bool,
    replicaScan: Listing,
    pvcs: Result<seq<Pvc>, ()>)

  /** When the check passes, on the flat lists of volumes and nodes. */
  predicate Accepts(b: Build, args: Args, w: World) {
    && w.release.Success?
    && (MayastorIsEnabled(w.release.value) ==>
          && w.restConfig
          && (args.skipPath || PathValid(b, args.allowUnstable, w.release.value.version))
          && (args.skipRebuild || (AllPagesRead(w.rebuildScan) && !AnyRebuilding(Readable(w.rebuildScan))))
          && (args.skipCordoned || NodesValid(w.nodes))
          && (args.skipSingleReplica ||
                (w.k8sClient && AllPagesRead(w.replicaScan)
                 && forall v | v in Readable(w.replicaScan) :: v.numReplicas != 1)))
  }

  method UpgradePreflightCheck(b: Build, args: Args, w: World) returns (r: Result<(), Error>)
    ensures r.Success? <==> Accepts(b, args, w)
    ensures r.Success? && MayastorIsEnabled(w.release.value) ==>
      && w.restConfig
      && (args.skipPath || PathValid(b, args.allowUnstable, w.release.value.version))
      && (args.skipRebuild || (AllPagesRead(w.rebuildScan) && !AnyRebuilding(Readable(w.rebuildScan))))
      && (args.skipCordoned || NodesValid(w.nodes))
      && (args.skipSingleReplica ||
            (w.k8sClient && AllPagesRead(w.replicaScan)
             && forall v | v in Readable(w.replicaScan) :: v.numReplicas != 1))
    ensures r.Failure? && w.release.Success? ==>
      && MayastorIsEnabled(w.release.value)
      && (|| !w.restConfig
          || (!args.skipPath && !PathValid(b, args.allowUnstable, w.release.value.version))
          || (!args.skipRebuild && (!AllPagesRead(w.rebuildScan) || AnyRebuilding(Readable(w.rebuildScan))))
          || (!args.skipCordoned && !NodesValid(w.nodes))
          || (!args.skipSingleReplica
              && (!w.k8sClient || !AllPagesRead(w.replicaScan)
                  || exists v :: v in Readable(w.replicaScan) && v.numReplicas == 1)))
    ensures w.release.Failure? ==> r.Failure?
  {
    if w.release.Failure? {
      return Failure(ApiError);
    }
    var release := w.release.value;
    r := Success(());
    if MayastorIsEnabled(release) {
      if !w.restConfig {
        return Failure(ApiError);
      }
      if !args.skipPath {
        r := UpgradePathValidation(b, args.allowUnstable, release.version);
        if r.Failure? { return; }
      }
      if !args.skipRebuild {
        var rebuilding := RebuildInProgress(w.rebuildScan);
        if rebuilding.Failure? { return Failure(rebuilding.error); }
        if rebuilding.value { return Failure(Rebuilding); }
      }
      if !args.skipCordoned {
        r := AlreadyCordonedNodesValidation(w.nodes);
        if r.Failure? { return; }
      }
      if !args.skipSingleReplica {
        if !w.k8sClient { return Failure(ApiError); }
        r := SingleVolumeReplicaValidation(w.replicaScan, w.pvcs);
        if r.Failure? { return; }
      }
      r := Success(());
    }
  }

  predicate SkipsAtLeast(more: Args, fewer: Args) {
    && (fewer.allowUnstable ==> more.allowUnstable)
    && (fewer.skipPath ==> more.skipPath)
    && (fewer.skipRebuild ==> more.skipRebuild)
    && (fewer.skipCordoned ==> more.skipCordoned)
    && (fewer.skipSingleReplica ==> more.skipSingleReplica)
  }

  /** The split into pages is immaterial: absent API errors, worlds that list the same volumes
      and nodes are judged alike, and further skip flags never turn acceptance into rejection. */
  lemma PagesAndSkipsDoNotHurt(b: Build, fewer: Args, more: Args, w: World, w': World)
    requires SkipsAtLeast(more, fewer) && Accepts(b, fewer, w)
    requires w' == w.(rebuildScan := w'.rebuildScan, replicaScan := w'.replicaScan)
    requires AllPagesRead(w'.rebuildScan) && AllPagesRead(w'.replicaScan)
    requires Concat(w'.rebuildScan) == Concat(w.rebuildScan) && Concat(w'.replicaScan) == Concat(w.replicaScan)
    ensures Accepts(b, more, w')
  {
    ReadableIsConcat(w'.rebuildScan);
    ReadableIsConcat(w'.replicaScan);
    ReadableIsConcat(w.rebuildScan);
    ReadableIsConcat(w.replicaScan);
  }

  /** The flat list of everything on any readable page. */
  function Concat(api: seq<Result<seq<Volume>, ()>>): seq<Volume>
    decreases |api|
  {
    if api == [] then [] else (if api[0].Success? then api[0].value else []) + Concat(api[1..])
  }

  lemma {:induction false} ReadableIsConcat(api: seq<Result<seq<Volume>, ()>>)
    ensures AllPagesRead(api) ==> Readable(api) == Concat(api)
    decreases |api|
  {
    if api != [] && AllPagesRead(api) {
      assert api[0] in api;
      assert forall page | page in api[1..] :: page in api;
      ReadableIsConcat(api[1..]);
    }
  }

  // ----------------------------------------------------------- the plugin and its job

  /** A cluster with nothing against an upgrade, that says about Mayastor what it is told. */
  function QuietWorld(source: Version, mayastor: Option<bool>): World {
    var release := HelmRelease(source, ChartValues(Some(Engine(mayastor)), None), None);
    World(Success(release), true, [Success([])], Success([]), true, [Success([])], Success([]))
  }

  lemma QuietWorldAccepted(b: Build, args: Args, source: Version, mayastor: Option<bool>)
    ensures MayastorIsEnabled(QuietWorld(source, mayastor).release.value) <==> mayastor == Some(true)
    ensures Accepts(b, args, QuietWorld(source, mayastor))
       <==> mayastor != Some(true) || args.skipPath || PathValid(b, args.allowUnstable, source)
  {
    var pages: seq<Result<seq<Volume>, ()>> := [Success([])];
    assert pages[1..] == [] && Readable(pages) == [] + Readable([]);
  }

  /** With Mayastor enabled, whatever the plugin accepts is accepted by the job's downgrade
      gate, to which the plugin hands on its own skip flag, iff the gate is skipped, or the
      plugin is no release and accepts nothing, or it knows its own version and the chart is
      at least that version. A plugin whose own version does not parse compares nothing. */
  lemma PluginCoversJobIff(b: Build, args: Args, cfg: UpgradePlan.Config)
    requires cfg.skipPathValidation == args.skipPath
    ensures (forall w | Accepts(b, args, w) && MayastorIsEnabled(w.release.value) ::
               UpgradePlan.PathAccepted(w.release.value.version, cfg))
       <==> args.skipPath || !Released(b) || (OwnVersion(b).Some? && AtLeast(cfg.target, OwnVersion(b).value))
  {
    hide Contains, StripV, Readable, AnyRebuilding, AllPagesRead, NodesValid, QuietWorld;
    PrecedenceIsStrictTotalOrder();
    if args.skipPath || !Released(b) {
    } else if OwnVersion(b).None? {
      var newer := Version(cfg.target.major + 1, 0, 0, [Numeric(0)]);
      assert PathValid(b, args.allowUnstable, newer);
      JobRefuses(b, args, cfg, newer, Some(true));
    } else if AtLeast(cfg.target, OwnVersion(b).value) {
      forall w | Accepts(b, args, w) && MayastorIsEnabled(w.release.value)
        ensures UpgradePlan.PathAccepted(w.release.value.version, cfg)
      {
        AtLeastTransitive(cfg.target, OwnVersion(b).value, w.release.value.version);
      }
    } else {
      var own := OwnVersion(b).value;
      assert PathValid(b, args.allowUnstable, own);
      JobRefuses(b, args, cfg, own, Some(true));
    }
  }

  lemma JobRefuses(b: Build, args: Args, cfg: UpgradePlan.Config, source: Version, mayastor: Option<bool>)
    requires cfg.skipPathValidation == args.skipPath == false && Less(cfg.target, source)
    requires mayastor == Some(true) ==> PathValid(b, args.allowUnstable, source)
    ensures exists w :: Accepts(b, args, w) && (MayastorIsEnabled(w.release.value) <==> mayastor == Some(true))
                        && w.release.value.version == source && !UpgradePlan.PathAccepted(source, cfg)
  {
    hide PathValid, Less;
    QuietWorldAccepted(b, args, source, mayastor);
    var w := QuietWorld(source, mayastor);
    assert Accepts(b, args, w) && w.release.value.version == source;
  }

  /** With Mayastor disabled the plugin checks no path at all, so for every plugin and chart,
      a plugin that knows its own version to be the chart's included, it starts a job from a
      release above the target, which the job refuses: unless the gate is skipped. */
  lemma DisabledMayastorSkipsPathCheck(b: Build, args: Args, cfg: UpgradePlan.Config)
    requires cfg.skipPathValidation == args.skipPath
    ensures var newer := Version(cfg.target.major + 1, 0, 0, []);
      Accepts(b, args, QuietWorld(newer, None)) && !MayastorIsEnabled(QuietWorld(newer, None).release.value)
      && (UpgradePlan.PathAccepted(newer, cfg) <==> args.skipPath)
    ensures (forall w | Accepts(b, args, w) :: UpgradePlan.PathAccepted(w.release.value.version, cfg))
       <==> args.skipPath
  {
    hide Accepts, MayastorIsEnabled;
    var newer := Version(cfg.target.major + 1, 0, 0, []);
    QuietWorldAccepted(b, args, newer, None);
  }
}
