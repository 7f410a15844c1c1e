/** Finding the one release of the umbrella chart among the helm releases of a namespace. */
module ReleaseName {
  import opened Wrappers

  const CHART_NAME := "openebs"

  datatype Error = ListFailed | Undecodable | TooMany | NoneInstalled | UnsupportedDriver

  /** One Secret or ConfigMap of helm: its `name` label, if any, and the chart name its data
      decodes to, if it decodes. */
  datatype Stored = Stored(name: Option<string>, chart: Option<string>)

  predicate Decodes(s: Stored) {
    s.name.Some? && s.chart.Some?
  }

  predicate AllDecode(stored: seq<Stored>) {
    forall s | s in stored :: Decodes(s)
  }

  /** The release names of the umbrella chart, in listing order. */
  function Names(stored: seq<Stored>): seq<string>
    decreases |stored|
  {
    if stored == [] then []
    else Names(stored[..|stored| - 1]) + NameOf(stored[|stored| - 1])
  }

  function NameOf(s: Stored): seq<string> {
    if Decodes(s) && s.chart.value == CHART_NAME then [s.name.value] else []
  }

  /** The listing names exactly one umbrella release, `n`, and holds nothing undecodable. */
  predicate Identifies(stored: seq<Stored>, n: string) {
    AllDecode(stored) && Names(stored) == [n]
  }

  lemma {:induction false} NamesAppend(xs: seq<Stored>, ys: seq<Stored>)
    ensures Names(xs + ys) == Names(xs) + Names(ys)
    decreases |ys|
  {
    if ys == [] {
      assert xs + ys == xs;
    } else {
      assert (xs + ys)[..|xs + ys| - 1] == xs + ys[..|ys| - 1];
      NamesAppend(xs, ys[..|ys| - 1]);
    }
  }

  /** The loop over the listing; it stops at the first undecodable entry or second match. */
  method ScanReleases(stored: seq<Stored>) returns (r: Result<string, Error>)
    ensures forall n :: r == Success(n) <==> Identifies(stored, n)
    ensures r == Failure(NoneInstalled) <==> AllDecode(stored) && Names(stored) == []
  {
    hide Names;
    var found: Option<string> := None;
    NoEntries();
    assert stored[..0] == [];
    for i := 0 to |stored|
      invariant AllDecode(stored[..i])
      invariant Names(stored[..i]) == if found.Some? then [found.value] else []
    {
      var s := stored[i];
      NextEntry(stored, i);
      if s.name.None? || s.chart.None? {
        return Failure(Undecodable);
      }
      if s.chart.value == CHART_NAME {
        if found.Some? {
          return Failure(TooMany);
        }
        found := s.name;
      }
    }
    assert stored[..|stored|] == stored;
    if found.None? {
      return Failure(NoneInstalled);
    }
    return Success(found.value);
  }

  lemma NoEntries()
    ensures Names([]) == []
  {
  }

  lemma NextEntry(stored: seq<Stored>, i: nat)
    requires i < |stored|
    ensures stored[i] in stored
    ensures AllDecode(stored[..i]) && Decodes(stored[i]) ==> AllDecode(stored[..i + 1])
    ensures Names(stored[..i + 1]) == Names(stored[..i]) + NameOf(stored[i])
    ensures |Names(stored)| >= |Names(stored[..i + 1])|
  {
    assert stored[..i + 1][..i] == stored[..i] && stored[..i + 1] == stored[..i] + [stored[i]];
    assert Names(stored[..i + 1]) == Names(stored[..i]) + NameOf(stored[i]);
    hide Names;
    assert stored == stored[..i + 1] + stored[i + 1..];
    NamesAppend(stored[..i + 1], stored[i + 1..]);
  }

  /** In terms of the entries: all of them decode, and there is one place alone with the chart
      "openebs", labelled `n`. */
  lemma IdentifiesByEntry(stored: seq<Stored>, n: string)
    ensures Identifies(stored, n)
       <==> && (forall s | s in stored :: s.name.Some? && s.chart.Some?)
            && exists i :: (0 <= i < |stored| && stored[i].chart == Some("openebs") && stored[i].name == Some(n)
                            && forall j | 0 <= j < |stored| && j != i :: stored[j].chart != Some("openebs"))
  {
    if AllDecode(stored) {
      assert forall s | s in stored :: Decodes(s);
      forall i | 0 <= i < |stored| && stored[i].chart == Some("openebs")
        ensures Identifies(stored, n) <==>
          stored[i].name == Some(n) && forall j | 0 <= j < |stored| && j != i :: stored[j].chart != Some("openebs")
      {
        assert stored[i] in stored;
        NamesAroundEntry(stored, i);
        assert Names(stored) == [n] ==> |Names(stored)| == 1;
      }
      if forall i | 0 <= i < |stored| :: stored[i].chart != Some("openebs") { NoNames(stored); }
    }
  }

  lemma NamesAroundEntry(stored: seq<Stored>, i: nat)
    requires i < |stored| && AllDecode(stored) && stored[i].chart == Some(CHART_NAME) && stored[i].name.Some?
    ensures |Names(stored)| == 1 <==> forall j | 0 <= j < |stored| && j != i :: stored[j].chart != Some(CHART_NAME)
    ensures |Names(stored)| == 1 ==> Names(stored) == [stored[i].name.value]
  {
    hide Names, AllDecode, NameOf;
    var before, after := stored[..i], stored[i + 1..];
    NamesSplit(stored, i);
    PartsDecode(stored, i);
    NoNames(before);
    NoNames(after);
    assert forall j | 0 <= j < |before| :: before[j] == stored[j];
    assert forall j | 0 <= j < |after| :: after[j] == stored[j + i + 1];
    assert forall j | i < j < |stored| :: stored[j] == after[j - i - 1];
  }

  lemma PartsDecode(stored: seq<Stored>, i: nat)
    requires i < |stored| && AllDecode(stored)
    ensures AllDecode(stored[..i]) && AllDecode(stored[i + 1..])
  {
  }

  lemma NamesSplit(stored: seq<Stored>, i: nat)
    requires i < |stored| && stored[i].chart == Some(CHART_NAME) && stored[i].name.Some?
    ensures Names(stored) == Names(stored[..i]) + [stored[i].name.value] + Names(stored[i + 1..])
  {
    hide Names;
    NextEntry(stored, i);
    assert stored == stored[..i + 1] + stored[i + 1..];
    NamesAppend(stored[..i + 1], stored[i + 1..]);
  }

  lemma {:induction false} NoNames(stored: seq<Stored>)
    requires AllDecode(stored)
    ensures Names(stored) == [] <==> forall i | 0 <= i < |stored| :: stored[i].chart != Some(CHART_NAME)
    decreases |stored|
  {
    if stored != [] {
      var init, last := stored[..|stored| - 1], stored[|stored| - 1];
      assert stored == init + [last] && last in stored;
      assert AllDecode(init) by { assert forall s | s in init :: s in stored; }
      NoNames(init);
    }
  }

  datatype Driver = Secrets | ConfigMaps | Unsupported

  function DriverOf(name: string): Driver {
    if name in {"", "secret", "secrets"} then Secrets
    else if name in {"configmap", "configmaps"} then ConfigMaps
    else Unsupported
  }

  method HelmReleaseName(driver: string, secrets: Result<seq<Stored>, ()>, configMaps: Result<seq<Stored>, ()>)
    returns (r: Result<string, Error>)
    ensures forall n :: r == Success(n) <==>
      if driver == "" || driver == "secret" || driver == "secrets" then secrets.Success? && Identifies(secrets.value, n)
      else if driver == "configmap" || driver == "configmaps" then
        configMaps.Success? && Identifies(configMaps.value, n)
      else false
  {
    match DriverOf(driver) {
      case Secrets =>
        if secrets.Failure? { return Failure(ListFailed); }
        r := ScanReleases(secrets.value);
      case ConfigMaps =>
        if configMaps.Failure? { return Failure(ListFailed); }
        r := ScanReleases(configMaps.value);
      case Unsupported =>
        return Failure(UnsupportedDriver);
    }
  }

  /** The answer does not depend on the order of the listing. */
  lemma OrderIrrelevant(xs: seq<Stored>, ys: seq<Stored>, n: string)
    requires multiset(xs) == multiset(ys)
    ensures Identifies(xs, n) <==> Identifies(ys, n)
  {
    assert forall s :: s in xs <==> s in multiset(xs);
    assert forall s :: s in ys <==> s in multiset(ys);
    NamesPermute(xs, ys);
    if Names(xs) == [n] { SingletonPermutes(Names(xs), Names(ys), n); }
    if Names(ys) == [n] { SingletonPermutes(Names(ys), Names(xs), n); }
  }

  lemma SingletonPermutes(a: seq<string>, b: seq<string>, n: string)
    requires multiset(a) == multiset(b) && a == [n]
    ensures b == [n]
  {
    assert |b| == |multiset(b)| == 1;
    assert b[0] in multiset(b);
  }

  lemma {:induction false} NamesPermute(xs: seq<Stored>, ys: seq<Stored>)
    requires multiset(xs) == multiset(ys)
    ensures multiset(Names(xs)) == multiset(Names(ys))
    decreases |xs|
  {
    assert |xs| == |multiset(xs)| == |multiset(ys)| == |ys|;
    if xs != [] {
      var init, last := xs[..|xs| - 1], xs[|xs| - 1];
      assert xs == init + [last];
      assert last in multiset(ys);
      var i :| 0 <= i < |ys| && ys[i] == last;
      var before, after := ys[..i], ys[i + 1..];
      assert ys == before + [last] + after;
      assert multiset(init) == multiset(xs) - multiset{last};
      assert multiset(before + after) == multiset(ys) - multiset{last};
      NamesPermute(init, before + after);
      NamesAround(before, last, after);
    }
  }

  lemma NamesAround(before: seq<Stored>, s: Stored, after: seq<Stored>)
    ensures multiset(Names(before + [s] + after)) == multiset(Names(before + after)) + multiset(NameOf(s))
  {
    assert (before + [s])[..|before|] == before;
    assert Names(before + [s]) == Names(before) + NameOf(s);
    hide Names, NameOf;
    NamesAppend(before, after);
    NamesAppend(before + [s], after);
  }
}
