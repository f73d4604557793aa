/** Search queries as objects over the store (src/data_handlers/queries.py).

    `Handler` is `QueryHandler`: the cache of the user's queries in the
    order the dict holds them (loaded by id, then new ones appended).
    Removal is soft: a query stays in the cache with its `removed` flag set,
    and only the active ones are iterated and counted. */
module Queries {
  import opened Wrappers
  import opened Seqs
  import opened Store

  datatype Query = Query(id: int, query: string, removed: bool)

  datatype Handler = Handler(username: string, queries: seq<Query>)

  function Ids(qs: seq<Query>): (r: seq<int>)
    ensures |r| == |qs|
    ensures forall i :: 0 <= i < |qs| ==> r[i] == qs[i].id
  {
    seq(|qs|, i requires 0 <= i < |qs| => qs[i].id)
  }

  predicate IsActive(q: Query) {
    !q.removed
  }

  /** `__iter__`: the active queries, in cache order. */
  function Active(h: Handler): seq<Query> {
    Filter(h.queries, IsActive)
  }

  /** `__len__`: one for each query not removed. */
  function Len(h: Handler): nat {
    ActiveCount(h.queries)
  }

  function ActiveCount(qs: seq<Query>): nat {
    if qs == [] then 0 else (if qs[0].removed then 0 else 1) + ActiveCount(qs[1..])
  }

  /** `len` counts exactly the queries that iteration yields. */
  lemma {:induction false} LenIsActiveCount(qs: seq<Query>)
    ensures ActiveCount(qs) == |Filter(qs, IsActive)|
  {
    if qs != [] {
      LenIsActiveCount(qs[1..]);
    }
  }

  /** `all_queries`: removed ones included. */
  function AllQueries(h: Handler): seq<Query> {
    h.queries
  }

  /** The cache mirrors the store: ids are distinct, every cached query has
      its row with the same text and flag, and every row of the user is
      cached. */
  ghost predicate Coherent(h: Handler, db: Db) {
    && NoDup(Ids(h.queries))
    && (forall i :: 0 <= i < |h.queries| ==>
          (h.username, h.queries[i].id) in db.queries
          && db.queries[(h.username, h.queries[i].id)].query == h.queries[i].query
          && db.queries[(h.username, h.queries[i].id)].removed == h.queries[i].removed)
    && (forall id :: (h.username, id) in db.queries ==> id in Ids(h.queries))
  }

  /** The cached form of the stored records, in the same order. */
  function FromRecords(recs: seq<QueryRecord>): (r: seq<Query>)
    ensures |r| == |recs|
    ensures forall i :: 0 <= i < |recs| ==> r[i] == Query(recs[i].id, recs[i].query, recs[i].removed)
  {
    seq(|recs|, i requires 0 <= i < |recs| => Query(recs[i].id, recs[i].query, recs[i].removed))
  }

  /** `QueryHandler.__init__` / `_load_all`. */
  function Load(db: Db, username: string): (h: Handler)
    ensures h.username == username
    ensures Coherent(h, db)
  {
    LoadCoherent(db, username);
    Handler(username, FromRecords(GetAllQueries(db, username)))
  }

  lemma LoadCoherent(db: Db, username: string)
    ensures Coherent(Handler(username, FromRecords(GetAllQueries(db, username))), db)
  {
    var recs := GetAllQueries(db, username);
    var qs := FromRecords(recs);
    var ids := Ids(qs);
    assert NoDup(ids) by {
      forall i, j | 0 <= i < j < |ids|
        ensures ids[i] != ids[j]
      {
        assert ids[i] == recs[i].id && ids[j] == recs[j].id;
      }
    }
    forall id | (username, id) in db.queries
      ensures id in ids
    {
      GetAllQueriesComplete(db, username, id);
      var i :| 0 <= i < |recs| && recs[i].id == id;
      assert ids[i] == id;
    }
  }

  /** Every query of the user is listed by `get_all_queries`. */
  lemma GetAllQueriesComplete(db: Db, username: string, id: int)
    requires (username, id) in db.queries
    ensures exists i :: 0 <= i < |GetAllQueries(db, username)| && GetAllQueries(db, username)[i].id == id
  {
    var ids := SortedElems(QueryIds(db, username));
    assert id in ids;
    var i :| 0 <= i < |ids| && ids[i] == id;
    assert GetAllQueries(db, username)[i].id == id;
  }

  /** Position of the query with this id in the cache. */
  function Find(qs: seq<Query>, id: int): (r: Option<nat>)
    ensures r.None? <==> id !in Ids(qs)
    ensures r.Some? ==> r.value < |qs| && qs[r.value].id == id
  {
    if qs == [] then None
    else if qs[0].id == id then Some(0)
    else
      match Find(qs[1..], id)
      case None =>
        assert Ids(qs) == [qs[0].id] + Ids(qs[1..]);
        None
      case Some(i) => Some(i + 1)
  }

  /** `self._queries_cache[query.id] = query`: a known id keeps its place,
      a new one goes last. */
  function Put(qs: seq<Query>, q: Query): (r: seq<Query>)
    ensures q.id !in Ids(qs) ==> r == qs + [q]
    ensures q.id in Ids(qs) ==> |r| == |qs| && r == qs[Find(qs, q.id).value := q]
  {
    match Find(qs, q.id)
    case None => qs + [q]
    case Some(i) => qs[i := q]
  }

  /** One step of `save`: `insert_query` and cache the new query as
      active. Its id is above every id cached so far. */
  function SaveOne(h: Handler, db: Db, text: string, now: string): (r: (Handler, Db))
    requires Coherent(h, db)
    ensures Coherent(r.0, r.1)
    ensures r.0.username == h.username
    ensures |r.0.queries| == |h.queries| + 1 && r.0.queries[..|h.queries|] == h.queries
    ensures r.0.queries[|h.queries|].query == text && !r.0.queries[|h.queries|].removed
    ensures forall i :: 0 <= i < |h.queries| ==> h.queries[i].id < r.0.queries[|h.queries|].id
    ensures ActiveCount(r.0.queries) == ActiveCount(h.queries) + 1
    ensures r.1.queryResults == db.queryResults && r.1.jobs == db.jobs
  {
    var o := InsertQuery(db, h.username, text, now);
    var q := Query(o.result.value, text, false);
    assert forall i :: 0 <= i < |h.queries| ==> h.queries[i].id in QueryIds(db, h.username);
    assert q.id !in Ids(h.queries);
    ActiveCountAppend(h.queries, q);
    AppendCoherent(h, db, o.db, q, now);
    assert (h.queries + [q])[..|h.queries|] == h.queries;
    (Handler(h.username, h.queries + [q]), o.db)
  }

  /** `h2` is `h` with one new active query per text, in order, each with
      an id above every id before it. */
  predicate Extends(h: Handler, h2: Handler, texts: seq<string>) {
    && h2.username == h.username
    && |h2.queries| == |h.queries| + |texts|
    && h2.queries[..|h.queries|] == h.queries
    && (forall j :: |h.queries| <= j < |h2.queries| ==>
          h2.queries[j].query == texts[j - |h.queries|] && !h2.queries[j].removed)
    && (forall j :: |h.queries| <= j < |h2.queries| ==>
          forall i :: 0 <= i < j ==> h2.queries[i].id < h2.queries[j].id)
  }

  lemma ExtendsStep(h: Handler, h1: Handler, h2: Handler, texts: seq<string>, n: nat)
    requires n < |texts|
    requires Extends(h, h1, texts[..n])
    requires h2.username == h1.username
    requires |h2.queries| == |h1.queries| + 1 && h2.queries[..|h1.queries|] == h1.queries
    requires h2.queries[|h1.queries|].query == texts[n] && !h2.queries[|h1.queries|].removed
    requires forall i :: 0 <= i < |h1.queries| ==> h1.queries[i].id < h2.queries[|h1.queries|].id
    ensures Extends(h, h2, texts[..n + 1])
  {
    assert texts[..n + 1] == texts[..n] + [texts[n]];
    assert forall j :: 0 <= j < |h1.queries| ==> h2.queries[j] == h1.queries[j];
    assert h2.queries[..|h.queries|] == h1.queries[..|h.queries|];
  }

  /** `save`: one `insert_query` per string, each new query cached as
      active, in the order given. */
  method Save(h: Handler, db: Db, texts: seq<string>, now: string) returns (h': Handler, db': Db)
    requires Coherent(h, db)
    ensures Coherent(h', db')
    ensures Extends(h, h', texts)
    ensures Len(h') == Len(h) + |texts|
    ensures db'.queryResults == db.queryResults && db'.jobs == db.jobs
  {
    h', db' := h, db;
    var n := 0;
    assert h.queries[..|h.queries|] == h.queries;
    while n < |texts|
      invariant 0 <= n <= |texts|
      invariant Coherent(h', db')
      invariant Extends(h, h', texts[..n])
      invariant ActiveCount(h'.queries) == ActiveCount(h.queries) + n
      invariant db'.queryResults == db.queryResults && db'.jobs == db.jobs
    {
      var (h2, db2) := SaveOne(h', db', texts[n], now);
      ExtendsStep(h, h', h2, texts, n);
      h', db' := h2, db2;
      n := n + 1;
    }
    assert texts[..n] == texts;
    LenIsActiveCount(h.queries);
    LenIsActiveCount(h'.queries);
  }

  lemma ActiveCountAppend(qs: seq<Query>, q: Query)
    ensures ActiveCount(qs + [q]) == ActiveCount(qs) + (if q.removed then 0 else 1)
  {
    if qs == [] {
      assert [q][1..] == [];
    } else {
      assert (qs + [q])[1..] == qs[1..] + [q];
      ActiveCountAppend(qs[1..], q);
    }
  }

  /** Caching a freshly inserted query keeps the cache coherent. */
  lemma AppendCoherent(h: Handler, db: Db, db2: Db, q: Query, now: string)
    requires Coherent(h, db)
    requires q.id !in Ids(h.queries)
    requires db2 == db.(queries := db.queries[(h.username, q.id) := QueryRow(q.query, q.removed, now)])
    ensures Coherent(Handler(h.username, h.queries + [q]), db2)
  {
    var qs := h.queries + [q];
    assert Ids(qs) == Ids(h.queries) + [q.id];
    forall id | (h.username, id) in db2.queries
      ensures id in Ids(qs)
    {
      if id != q.id {
        assert id in Ids(h.queries);
      }
    }
  }

  /** The `removed` setter of one cached query. */
  function SetRemoved(h: Handler, db: Db, i: nat, value: bool): (r: (Handler, Db))
    requires i < |h.queries|
    ensures r.0 == h.(queries := h.queries[i := h.queries[i].(removed := value)])
    ensures r.1 == UpdateQueryRemoved(db, h.username, h.queries[i].id, value).db
  {
    var o := UpdateQueryRemoved(db, h.username, h.queries[i].id, value);
    (h.(queries := h.queries[i := h.queries[i].(removed := value)]), o.db)
  }

  lemma SetRemovedCoherent(h: Handler, db: Db, i: nat, value: bool)
    requires Coherent(h, db)
    requires i < |h.queries|
    ensures Coherent(SetRemoved(h, db, i, value).0, SetRemoved(h, db, i, value).1)
  {
    var (h2, db2) := SetRemoved(h, db, i, value);
    assert Ids(h2.queries) == Ids(h.queries);
    forall j | 0 <= j < |h2.queries|
      ensures (h2.username, h2.queries[j].id) in db2.queries
      ensures db2.queries[(h2.username, h2.queries[j].id)].query == h2.queries[j].query
      ensures db2.queries[(h2.username, h2.queries[j].id)].removed == h2.queries[j].removed
    {
      if j != i {
        assert Ids(h.queries)[j] != Ids(h.queries)[i];
      }
    }
  }

  /** The store after marking the cached queries among `ids` removed. */
  function RemovedRows(db: Db, username: string, cached: seq<int>, ids: seq<int>): map<(string, int), QueryRow> {
    map k | k in db.queries ::
      if k.0 == username && k.1 in ids && k.1 in cached then db.queries[k].(removed := true) else db.queries[k]
  }

  /** `remove`: each id that is cached is marked removed, in the cache and
      through the setter in the store; unknown ids are skipped. A coherent
      cache stays coherent. */
  function Remove(h: Handler, db: Db, ids: seq<int>): (r: (Handler, Db))
    requires NoDup(Ids(h.queries))
    ensures r.0.username == h.username
    ensures Ids(r.0.queries) == Ids(h.queries)
    ensures forall i :: 0 <= i < |h.queries| ==>
      r.0.queries[i].query == h.queries[i].query
      && r.0.queries[i].removed == (h.queries[i].removed || h.queries[i].id in ids)
    ensures r.1 == db.(queries := RemovedRows(db, h.username, Ids(h.queries), ids))
    ensures Coherent(h, db) ==> Coherent(r.0, r.1)
    decreases |ids|
  {
    if ids == [] then (h, db)
    else
      var (h1, db1) :=
        match Find(h.queries, ids[0])
        case None => (h, db)
        case Some(i) => SetRemoved(h, db, i, true);
      assert Ids(h1.queries) == Ids(h.queries) by {
        if Find(h.queries, ids[0]).Some? {
          var i := Find(h.queries, ids[0]).value;
          assert forall k :: 0 <= k < |h.queries| ==> h1.queries[k].id == h.queries[k].id;
        }
      }
      assert forall i :: 0 <= i < |h.queries| ==>
        h1.queries[i].query == h.queries[i].query
        && h1.queries[i].removed == (h.queries[i].removed || h.queries[i].id == ids[0]) by {
        if Find(h.queries, ids[0]).Some? {
          var k := Find(h.queries, ids[0]).value;
          forall i | 0 <= i < |h.queries|
            ensures h1.queries[i].removed == (h.queries[i].removed || h.queries[i].id == ids[0])
          {
            if i != k {
              assert Ids(h.queries)[i] != Ids(h.queries)[k];
            }
          }
        }
      }
      RemoveStepRows(h, db, ids, db1);
      RemoveStepCoherent(h, db, ids[0]);
      Remove(h1, db1, ids[1..])
  }

  /** One step of `remove` keeps a coherent cache coherent. */
  lemma RemoveStepCoherent(h: Handler, db: Db, id: int)
    requires NoDup(Ids(h.queries))
    ensures Coherent(h, db) ==>
      match Find(h.queries, id)
      case None => true
      case Some(i) => Coherent(SetRemoved(h, db, i, true).0, SetRemoved(h, db, i, true).1)
  {
    if Coherent(h, db) && Find(h.queries, id).Some? {
      SetRemovedCoherent(h, db, Find(h.queries, id).value, true);
    }
  }

  /** One step of `remove` followed by the rest marks the same rows as
      the whole list. */
  lemma RemoveStepRows(h: Handler, db: Db, ids: seq<int>, db1: Db)
    requires ids != [] && NoDup(Ids(h.queries))
    requires db1 == (match Find(h.queries, ids[0])
                     case None => db
                     case Some(i) => UpdateQueryRemoved(db, h.username, h.queries[i].id, true).db)
    ensures db1 == db.(queries := db1.queries)
    ensures RemovedRows(db1, h.username, Ids(h.queries), ids[1..]) == RemovedRows(db, h.username, Ids(h.queries), ids)
  {
    var cached := Ids(h.queries);
    var f := Find(h.queries, ids[0]);
    if f.None? {
      RemoveRowsSkip(db, h.username, cached, ids);
    } else if (h.username, ids[0]) in db.queries {
      assert h.queries[f.value].id == ids[0];
      RemoveRowsMark(db, h.username, cached, ids);
    } else {
      RemoveRowsSkip(db, h.username, cached, ids);
    }
  }

  /** An id that is not cached, or has no row, marks nothing. */
  lemma RemoveRowsSkip(db: Db, username: string, cached: seq<int>, ids: seq<int>)
    requires ids != []
    requires ids[0] !in cached || (username, ids[0]) !in db.queries
    ensures RemovedRows(db, username, cached, ids[1..]) == RemovedRows(db, username, cached, ids)
  {
    var a := RemovedRows(db, username, cached, ids[1..]);
    var b := RemovedRows(db, username, cached, ids);
    forall k | k in b
      ensures a[k] == b[k]
    {
      assert k.1 in ids <==> k.1 == ids[0] || k.1 in ids[1..];
    }
  }

  /** A cached id with a row is marked first and by the rest alike. */
  lemma RemoveRowsMark(db: Db, username: string, cached: seq<int>, ids: seq<int>)
    requires ids != [] && ids[0] in cached && (username, ids[0]) in db.queries
    ensures var key := (username, ids[0]);
      var db1 := db.(queries := db.queries[key := db.queries[key].(removed := true)]);
      RemovedRows(db1, username, cached, ids[1..]) == RemovedRows(db, username, cached, ids)
  {
    var key := (username, ids[0]);
    var db1 := db.(queries := db.queries[key := db.queries[key].(removed := true)]);
    var a := RemovedRows(db1, username, cached, ids[1..]);
    var b := RemovedRows(db, username, cached, ids);
    assert a.Keys == b.Keys;
    forall k | k in b
      ensures a[k] == b[k]
    {
      assert k.1 in ids <==> k.1 == ids[0] || k.1 in ids[1..];
    }
  }

  /** `clear`: every query active at the start is marked removed, in the
      cache and in the store; other users' rows are untouched. */
  function Clear(h: Handler, db: Db): (r: (Handler, Db))
    requires NoDup(Ids(h.queries))
    ensures Ids(r.0.queries) == Ids(h.queries)
    ensures forall i :: 0 <= i < |h.queries| ==> r.0.queries[i].removed
    ensures forall i :: 0 <= i < |h.queries| ==> r.0.queries[i].query == h.queries[i].query
    ensures r.1 == db.(queries := r.1.queries) && r.1.queries.Keys == db.queries.Keys
    ensures forall k :: k in db.queries && k.0 != h.username ==> r.1.queries[k] == db.queries[k]
    ensures Coherent(h, db) ==> Coherent(r.0, r.1)
    ensures Coherent(h, db) ==> forall k :: k in r.1.queries && k.0 == h.username ==> r.1.queries[k].removed
  {
    var active := Ids(Active(h));
    var r := Remove(h, db, active);
    forall i | 0 <= i < |h.queries|
      ensures r.0.queries[i].removed
    {
      if !h.queries[i].removed {
        assert IsActive(h.queries[i]);
        ActiveIdsIn(h.queries, i);
      }
    }
    ClearStoreRemoved(r.0, r.1);
    r
  }

  /** A coherent cache with every query removed leaves every stored row of
      its user removed. */
  lemma ClearStoreRemoved(h: Handler, db: Db)
    requires forall i :: 0 <= i < |h.queries| ==> h.queries[i].removed
    ensures Coherent(h, db) ==> forall k :: k in db.queries && k.0 == h.username ==> db.queries[k].removed
  {
    if Coherent(h, db) {
      ClearStoreRemovedAt(h, db);
    }
  }

  lemma ClearStoreRemovedAt(h: Handler, db: Db)
    requires Coherent(h, db)
    requires forall i :: 0 <= i < |h.queries| ==> h.queries[i].removed
    ensures forall k :: k in db.queries && k.0 == h.username ==> db.queries[k].removed
  {
    forall k | k in db.queries && k.0 == h.username
      ensures db.queries[k].removed
    {
      var i :| 0 <= i < |h.queries| && Ids(h.queries)[i] == k.1;
    }
  }

  lemma ActiveIdsIn(qs: seq<Query>, i: nat)
    requires i < |qs| && IsActive(qs[i])
    ensures qs[i].id in Ids(Filter(qs, IsActive))
  {
    var f := Filter(qs, IsActive);
    assert qs[i] in f;
    var k :| 0 <= k < |f| && f[k] == qs[i];
    assert Ids(f)[k] == qs[i].id;
  }

  /** After `clear` nothing is active. */
  lemma ClearEmpties(h: Handler, db: Db)
    requires NoDup(Ids(h.queries))
    ensures Len(Clear(h, db).0) == 0
  {
    var h2 := Clear(h, db).0;
    ActiveCountZero(h2.queries);
  }

  /** `clear` writes through: a handler loaded afresh from the store
      afterwards has no active query either. */
  lemma ClearPersists(h: Handler, db: Db)
    requires Coherent(h, db)
    ensures Len(Load(Clear(h, db).1, h.username)) == 0
  {
    var db2 := Clear(h, db).1;
    var h2 := Load(db2, h.username);
    forall i | 0 <= i < |h2.queries|
      ensures h2.queries[i].removed
    {
      var rec := GetAllQueries(db2, h.username)[i];
      assert db2.queries[(h.username, rec.id)].removed == rec.removed;
    }
    ActiveCountZero(h2.queries);
  }

  lemma {:induction false} ActiveCountZero(qs: seq<Query>)
    requires forall i :: 0 <= i < |qs| ==> qs[i].removed
    ensures ActiveCount(qs) == 0
  {
    if qs != [] {
      assert qs[0].removed;
      ActiveCountZero(qs[1..]);
    }
  }

  /** `remove` is idempotent on the cache, and keeps every query. */
  lemma RemoveIdempotent(h: Handler, db: Db, ids: seq<int>)
    requires NoDup(Ids(h.queries))
    ensures var (h1, db1) := Remove(h, db, ids);
      && Remove(h1, db1, ids).0 == h1
      && |AllQueries(h1)| == |AllQueries(h)|
  {
    var (h1, db1) := Remove(h, db, ids);
    var h2 := Remove(h1, db1, ids).0;
    assert |h1.queries| == |Ids(h1.queries)| == |Ids(h.queries)| == |h.queries|;
    assert |h2.queries| == |Ids(h2.queries)| == |h1.queries|;
    forall i | 0 <= i < |h1.queries|
      ensures h2.queries[i] == h1.queries[i]
    {
      assert h2.queries[i].id == Ids(h2.queries)[i] == Ids(h1.queries)[i] == h1.queries[i].id;
    }
    assert h2.queries == h1.queries;
  }

  /** `QueryHandler.write_result` / `Query.write_result`: only the results
      log grows; no `removed` flag changes. */
  function WriteResult(h: Handler, db: Db, queryId: int, leads: int, now: string): (r: (Handler, Outcome<()>))
    ensures r.0 == h
    ensures r.1.db.queries == db.queries
    ensures r.1.result.Success? <==> (h.username, queryId) in db.queries
    ensures r.1.result.Success? ==> r.1.db.queryResults == db.queryResults + [ResultRow(h.username, queryId, now, leads)]
  {
    (h, InsertQueryResult(db, h.username, queryId, leads, now))
  }

  /** `write_results`. */
  function WriteResults(h: Handler, db: Db, results: seq<(int, int)>, now: string): (r: (Handler, Outcome<()>))
    ensures r.0 == h
    ensures r.1.db.queries == db.queries
    ensures r.1.result.Success? ==> r.1.db.queryResults == db.queryResults + ResultRows(h.username, results, now)
    ensures r.1.result.Failure? ==> r.1.db == db
  {
    (h, InsertQueryResults(db, h.username, results, now))
  }

  /** `get_results_count`. */
  function GetResultsCount(h: Handler, db: Db, queryId: int): int {
    GetQueryResultsTotal(db, h.username, queryId)
  }

  /** Writing a result leaves the active queries, and their count, as they
      were. */
  lemma WriteResultKeepsActive(h: Handler, db: Db, queryId: int, leads: int, now: string)
    requires Coherent(h, db)
    ensures var (h2, o) := WriteResult(h, db, queryId, leads, now);
      && Coherent(h2, o.db) && Active(h2) == Active(h) && Len(h2) == Len(h)
  {
  }
}
