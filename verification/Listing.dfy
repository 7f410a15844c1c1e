/** Paged listings of the Kubernetes API: the loop that insists on every page, the support
    dump that keeps what it got, and the join of LVM volumes with their PVs. */
module Listing {
  import opened Wrappers

  /** One answer to a list call; an absent or empty token ends the listing, so that one answer
      is asked for exactly after each one with a token. */
  datatype Answer<T> = Items(items: seq<T>, token: Option<string>) | Failed

  /** The items of the pages before the first failure. */
  function Flat<T>(answers: seq<Answer<T>>): seq<T>
    decreases |answers|
  {
    if answers == [] || answers[0].Failed? then [] else answers[0].items + Flat(answers[1..])
  }

  predicate NoFailure<T>(answers: seq<Answer<T>>) {
    forall n | 0 <= n < |answers| :: answers[n].Items?
  }

  lemma {:induction false} FlatUpTo<T>(answers: seq<Answer<T>>, n: nat)
    requires n < |answers| && NoFailure(answers[..n])
    ensures answers[n].Items? ==> Flat(answers[..n + 1]) == Flat(answers[..n]) + answers[n].items
    ensures answers[n].Failed? ==> Flat(answers) == Flat(answers[..n])
    decreases n
  {
    if n == 0 {
      assert answers[..1][1..] == [];
    } else {
      assert answers[..n][0] == answers[0] && answers[..n + 1][0] == answers[0];
      assert answers[..n][1..] == answers[1..][..n - 1] && answers[..n + 1][1..] == answers[1..][..n];
      var init := answers[1..][..n - 1];
      assert forall k | 0 <= k < |init| :: init[k] == answers[..n][k + 1];
      FlatUpTo(answers[1..], n - 1);
    }
  }

  /** All items of all pages, in order, or the first failure. */
  method ListAll<T>(answers: seq<Answer<T>>) returns (r: Result<seq<T>, ()>)
    requires answers != [] && forall n | 0 <= n < |answers| && answers[n].Items? ::
               (answers[n].token.Some? && answers[n].token.value != "" <==> n + 1 < |answers|)
    ensures r.Success? <==> forall n | 0 <= n < |answers| :: answers[n].Items?
    ensures r.Success? ==> r.value == Flat(answers)
  {
    var items: seq<T> := [];
    var n, more := 0, true;
    while more
      invariant 0 <= n <= |answers| && (more <==> n < |answers|)
      invariant NoFailure(answers[..n]) && items == Flat(answers[..n])
      decreases |answers| - n
    {
      FlatUpTo(answers, n);
      var list := answers[n];
      if list.Failed? {
        return Failure(());
      }
      items := items + list.items;
      more := list.token.Some? && list.token.value != "";
      n := n + 1;
    }
    assert answers[..n] == answers;
    return Success(items);
  }

  // --------------------------------------------------------------- the support dump

  datatype DumpError = NoApi | WriteFailed

  /** A failing page ends the collection but not the dump: the pages before it are kept, and a
      file is attempted iff they hold anything. */
  method DumpDynamicResource<T>(api: Result<bool, ()>, answers: seq<Answer<T>>, writes: bool)
    returns (r: Result<(), DumpError>, file: Option<seq<T>>)
    requires answers != [] && forall n | 0 <= n < |answers| && answers[n].Items? ::
               (answers[n].token.Some? && answers[n].token.value != "" <==> n + 1 < |answers|)
    ensures file == if api == Success(true) && Flat(answers) != [] && writes then Some(Flat(answers)) else None
    ensures r.Success? <==> api.Success? && (api.value && Flat(answers) != [] ==> writes)
  {
    if api.Failure? {
      return Failure(NoApi), None;
    }
    if !api.value {
      return Success(()), None;
    }
    var all: seq<T> := [];
    var n := 0;
    while true
      invariant 0 <= n < |answers| && NoFailure(answers[..n]) && all == Flat(answers[..n])
      decreases |answers| - n
    {
      FlatUpTo(answers, n);
      var result := answers[n];
      if result.Failed? {
        break;
      }
      all := all + result.items;
      if result.token.Some? && result.token.value != "" {
        n := n + 1;
      } else {
        assert answers[..n + 1] == answers;
        break;
      }
    }
    if all != [] {
      if !writes {
        return Failure(WriteFailed), None;
      }
      return Success(()), Some(all);
    }
    return Success(()), None;
  }

  // ------------------------------------------------------- LVM volumes and their PVs

  /** The first PV of a given name. */
  predicate IsFirstNamed<P>(pvs: seq<P>, name: P -> string, key: string, i: nat) {
    i < |pvs| && name(pvs[i]) == key && forall k | 0 <= k < i :: name(pvs[k]) != key
  }

  function FindNamed<P>(pvs: seq<P>, name: P -> string, key: string): (r: Option<nat>)
    ensures r.Some? ==> IsFirstNamed(pvs, name, key, r.value)
    ensures r.None? ==> forall i | 0 <= i < |pvs| :: name(pvs[i]) != key
    decreases |pvs|
  {
    if pvs == [] then None
    else if name(pvs[0]) == key then Some(0)
    else
      var rest := FindNamed(pvs[1..], name, key);
      if rest.Some? then Some(rest.value + 1) else None
  }

  /** A row of the output: which volume it came from, which PV it was joined with. */
  datatype Row<R> = Row(vol: nat, pv: nat, record: R)

  /** Rows in volume order, each volume with the first PV of its name, none left out. */
  ghost predicate IsJoin<V, P, R>(rows: seq<Row<R>>, vols: seq<V>, pvs: seq<P>, upTo: nat,
                                  volName: V -> string, pvName: P -> string, convert: (V, P) -> Option<R>)
    requires upTo <= |vols|
  {
    && (forall r | 0 <= r < |rows| ::
          && rows[r].vol < upTo
          && IsFirstNamed(pvs, pvName, volName(vols[rows[r].vol]), rows[r].pv)
          && convert(vols[rows[r].vol], pvs[rows[r].pv]) == Some(rows[r].record))
    && (forall r, q | 0 <= r < q < |rows| :: rows[r].vol < rows[q].vol)
    && (forall v | 0 <= v < upTo :: Matched(vols[v], pvs, volName, pvName) ==>
              exists r | 0 <= r < |rows| :: rows[r].vol == v)
  }

  predicate Matched<V, P>(vol: V, pvs: seq<P>, volName: V -> string, pvName: P -> string) {
    exists i | 0 <= i < |pvs| :: pvName(pvs[i]) == volName(vol)
  }

  /** A volume whose first PV of the same name does not convert. */
  ghost predicate Unconvertible<V, P, R>(vol: V, pvs: seq<P>, volName: V -> string, pvName: P -> string,
                                         convert: (V, P) -> Option<R>) {
    exists i: nat :: IsFirstNamed(pvs, pvName, volName(vol), i) && convert(vol, pvs[i]) == None
  }

  method GetLvmVolOutput<V, P, R>(vols: seq<V>, pvAnswers: seq<Answer<P>>,
                                  volName: V -> string, pvName: P -> string, convert: (V, P) -> Option<R>)
    returns (r: Result<seq<Row<R>>, ()>)
    requires pvAnswers != [] && forall n | 0 <= n < |pvAnswers| && pvAnswers[n].Items? ::
               (pvAnswers[n].token.Some? && pvAnswers[n].token.value != "" <==> n + 1 < |pvAnswers|)
    ensures r.Success? <==>
      NoFailure(pvAnswers) && forall v | 0 <= v < |vols| ::
        !Unconvertible(vols[v], Flat(pvAnswers), volName, pvName, convert)
    ensures r.Success? ==> IsJoin(r.value, vols, Flat(pvAnswers), |vols|, volName, pvName, convert)
  {
    var listed := ListAll(pvAnswers);
    if listed.Failure? {
      return Failure(());
    }
    var pvs := listed.value;
    var rows: seq<Row<R>> := [];
    for v := 0 to |vols|
      invariant IsJoin(rows, vols, pvs, v, volName, pvName, convert)
      invariant forall u | 0 <= u < v :: !Unconvertible(vols[u], pvs, volName, pvName, convert)
    {
      var found := FindNamed(pvs, pvName, volName(vols[v]));
      if found.Some? {
        var record := convert(vols[v], pvs[found.value]);
        FirstIsUnique(pvs, pvName, volName(vols[v]), found.value);
        if record.None? {
          assert Unconvertible(vols[v], pvs, volName, pvName, convert);
          return Failure(());
        }
        ghost var before := rows;
        rows := rows + [Row(v, found.value, record.value)];
        RowsGrow(before, rows, vols, pvs, v, volName, pvName, convert);
      }
    }
    return Success(rows);
  }

  lemma FirstIsUnique<P>(pvs: seq<P>, name: P -> string, key: string, i: nat)
    requires IsFirstNamed(pvs, name, key, i)
    ensures forall k: nat | IsFirstNamed(pvs, name, key, k) :: k == i
  {
    forall k: nat | IsFirstNamed(pvs, name, key, k) ensures k == i {
    }
  }

  lemma RowsGrow<V, P, R>(before: seq<Row<R>>, rows: seq<Row<R>>, vols: seq<V>, pvs: seq<P>, v: nat,
                          volName: V -> string, pvName: P -> string, convert: (V, P) -> Option<R>)
    requires v < |vols| && IsJoin(before, vols, pvs, v, volName, pvName, convert)
    requires |rows| == |before| + 1 && rows[..|before|] == before
    requires rows[|before|].vol == v && IsFirstNamed(pvs, pvName, volName(vols[v]), rows[|before|].pv)
    requires convert(vols[v], pvs[rows[|before|].pv]) == Some(rows[|before|].record)
    ensures IsJoin(rows, vols, pvs, v + 1, volName, pvName, convert)
  {
    hide IsFirstNamed;
    assert forall r | 0 <= r < |before| :: rows[r] == before[r];
    forall u | 0 <= u < v + 1 && Matched(vols[u], pvs, volName, pvName)
      ensures exists r | 0 <= r < |rows| :: rows[r].vol == u
    {
      if u == v {
        assert rows[|before|].vol == u;
      } else {
        var r :| 0 <= r < |before| && before[r].vol == u;
        assert rows[r].vol == u;
      }
    }
  }

  /** What the join is in terms of names: each row pairs a volume with the first PV of its name
      and their record, rows are in volume order, and no volume with such a PV is left out. */
  lemma JoinByName<V, P, R>(rows: seq<Row<R>>, vols: seq<V>, pvs: seq<P>,
                            volName: V -> string, pvName: P -> string, convert: (V, P) -> Option<R>)
    ensures IsJoin(rows, vols, pvs, |vols|, volName, pvName, convert) <==>
      && (forall n | 0 <= n < |rows| ::
            && rows[n].vol < |vols| && rows[n].pv < |pvs|
            && pvName(pvs[rows[n].pv]) == volName(vols[rows[n].vol])
            && (forall k | 0 <= k < rows[n].pv :: pvName(pvs[k]) != volName(vols[rows[n].vol]))
            && convert(vols[rows[n].vol], pvs[rows[n].pv]) == Some(rows[n].record))
      && (forall n, m | 0 <= n < m < |rows| :: rows[n].vol < rows[m].vol)
      && (forall v, i | 0 <= v < |vols| && 0 <= i < |pvs| && pvName(pvs[i]) == volName(vols[v]) ::
            exists n :: 0 <= n < |rows| && rows[n].vol == v)
  {
  }

  /** A pair that must convert: a volume and the first PV of its name. */
  lemma ConvertsByName<V, P, R>(vol: V, pvs: seq<P>, i: nat, volName: V -> string, pvName: P -> string,
                                convert: (V, P) -> Option<R>)
    requires i < |pvs| && pvName(pvs[i]) == volName(vol) && forall k | 0 <= k < i :: pvName(pvs[k]) != volName(vol)
    ensures Unconvertible(vol, pvs, volName, pvName, convert) <==> convert(vol, pvs[i]) == None
  {
    FirstIsUnique(pvs, pvName, volName(vol), i);
  }
}
