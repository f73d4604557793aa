/** The legacy CSV-backed query list (src/data_handlers/query_data.py).
    The two CSV files are modelled by their decoded rows: the queries file
    (absent until first written) and the append-only results log. */
module QueryData {
  import opened Wrappers
  import opened Seqs

  /** One row of the queries file: `id,query`. */
  datatype Row = Row(id: int, query: string)

  /** One row of the results file: `id,timestamp,leads`. */
  datatype ResultLine = ResultLine(id: int, timestamp: string, leads: int)

  /** The two files and the list the object last loaded. */
  datatype SearchQueries = SearchQueries(file: Option<seq<Row>>, queries: seq<Row>, results: seq<ResultLine>)

  /** What the queries file holds, an absent file holding nothing. */
  function FileRows(sq: SearchQueries): seq<Row> {
    sq.file.GetOr([])
  }

  /** The loaded list is the file's contents. */
  predicate Synced(sq: SearchQueries) {
    sq.queries == FileRows(sq)
  }

  function Ids(rows: seq<Row>): (r: seq<int>)
    ensures |r| == |rows| && forall i :: 0 <= i < |rows| ==> r[i] == rows[i].id
  {
    seq(|rows|, i requires 0 <= i < |rows| => rows[i].id)
  }

  /** `_load`: the file, when it exists, replaces the loaded list. */
  function Reload(sq: SearchQueries): (r: SearchQueries)
    ensures Synced(r) <==> sq.file.Some? || Synced(sq)
    ensures r.file == sq.file && r.results == sq.results
  {
    if sq.file.Some? then sq.(queries := sq.file.value) else sq
  }

  /** `SearchQueries.__init__`. */
  function Init(file: Option<seq<Row>>, results: seq<ResultLine>): (r: SearchQueries)
    ensures Synced(r) && r.file == file && r.results == results
  {
    Reload(SearchQueries(file, [], results))
  }

  /** `len`. */
  function Len(sq: SearchQueries): nat {
    |sq.queries|
  }

  /** `max((q.id for q in queries), default=0) + 1`. */
  function StartId(rows: seq<Row>): (n: int)
    ensures rows == [] ==> n == 1
    ensures forall i :: 0 <= i < |rows| ==> rows[i].id < n
    ensures rows != [] ==> exists i :: 0 <= i < |rows| && rows[i].id == n - 1
  {
    if rows == [] then 1
    else
      var m := StartId(rows[..|rows| - 1]);
      var last := rows[|rows| - 1].id;
      if |rows| == 1 || last >= m then last + 1 else m
  }

  /** `enumerate(queries, start_id)`, written as rows. */
  function Numbered(start: int, texts: seq<string>): (r: seq<Row>)
    ensures |r| == |texts|
    ensures forall i :: 0 <= i < |texts| ==> r[i] == Row(start + i, texts[i])
  {
    seq(|texts|, i requires 0 <= i < |texts| => Row(start + i, texts[i]))
  }

  /** `save`: appends the new queries to the file, numbered on from the
      largest loaded id (appending creates a missing file), and reloads. */
  function Save(sq: SearchQueries, texts: seq<string>): (r: SearchQueries)
    ensures Synced(r) && r.results == sq.results
    ensures |r.queries| == |FileRows(sq)| + |texts|
    ensures r.queries[..|FileRows(sq)|] == FileRows(sq)
    ensures forall j :: |FileRows(sq)| <= j < |r.queries| ==>
              r.queries[j] == Row(StartId(sq.queries) + (j - |FileRows(sq)|), texts[j - |FileRows(sq)|])
    ensures forall i, j :: 0 <= i < |sq.queries| && |FileRows(sq)| <= j < |r.queries| ==> sq.queries[i].id < r.queries[j].id
  {
    var rows := FileRows(sq) + Numbered(StartId(sq.queries), texts);
    Reload(sq.(file := Some(rows)))
  }

  /** `write_result`: one line appended to the results log; the queries
      are untouched. */
  function WriteResult(sq: SearchQueries, id: int, leads: int, now: string): (r: SearchQueries)
    ensures r.results == sq.results + [ResultLine(id, now, leads)]
    ensures r.file == sq.file && r.queries == sq.queries
  {
    sq.(results := sq.results + [ResultLine(id, now, leads)])
  }

  /** Saving keeps the ids distinct. */
  lemma SaveNoDup(sq: SearchQueries, texts: seq<string>)
    requires Synced(sq)
    requires NoDup(Ids(sq.queries))
    ensures NoDup(Ids(Save(sq, texts).queries))
  {
    var r := Save(sq, texts);
    var n := |sq.queries|;
    var ids := Ids(r.queries);
    forall i, j | 0 <= i < j < |ids|
      ensures ids[i] != ids[j]
    {
      if j < n {
        assert ids[i] == Ids(sq.queries)[i] && ids[j] == Ids(sq.queries)[j];
      }
    }
  }

  /** The start after a save of at least one query is one past the last
      new id. */
  lemma StartAfter(rows: seq<Row>, s: int, texts: seq<string>)
    requires texts != []
    requires forall i :: 0 <= i < |rows| ==> rows[i].id < s
    ensures StartId(rows + Numbered(s, texts)) == s + |texts|
  {
    var all := rows + Numbered(s, texts);
    var n := StartId(all);
    assert all[|all| - 1].id == s + |texts| - 1;
    forall i | 0 <= i < |all|
      ensures all[i].id < s + |texts|
    {
      if i >= |rows| {
        assert all[i] == Numbered(s, texts)[i - |rows|];
      }
    }
  }

  lemma NumberedAppend(s: int, a: seq<string>, b: seq<string>)
    ensures Numbered(s, a) + Numbered(s + |a|, b) == Numbered(s, a + b)
  {
  }

  /** `Save` in closed form. */
  lemma SaveForm(sq: SearchQueries, texts: seq<string>)
    ensures var rows := FileRows(sq) + Numbered(StartId(sq.queries), texts);
            Save(sq, texts) == SearchQueries(Some(rows), rows, sq.results)
  {
  }

  /** Two saves in a row are one save of both lists. */
  lemma SaveTwice(sq: SearchQueries, a: seq<string>, b: seq<string>)
    requires Synced(sq)
    ensures Save(Save(sq, a), b) == Save(sq, a + b)
  {
    var s := StartId(sq.queries);
    var f := FileRows(sq);
    var rows := f + Numbered(s, a);
    var r := SearchQueries(Some(rows), rows, sq.results);
    SaveForm(sq, a);
    assert Save(sq, a) == r;
    var rows2 := rows + Numbered(StartId(rows), b);
    SaveForm(r, b);
    assert Save(r, b) == SearchQueries(Some(rows2), rows2, sq.results);
    var all := f + Numbered(s, a + b);
    SaveForm(sq, a + b);
    assert Save(sq, a + b) == SearchQueries(Some(all), all, sq.results);
    RowsTwice(f, s, a, b);
  }

  /** The rows two saves append are the rows one save of both appends. */
  lemma RowsTwice(f: seq<Row>, s: int, a: seq<string>, b: seq<string>)
    requires s == StartId(f)
    ensures var rows := f + Numbered(s, a);
            rows + Numbered(StartId(rows), b) == f + Numbered(s, a + b)
  {
    var rows := f + Numbered(s, a);
    if a == [] {
      assert rows == f;
      assert a + b == b;
    } else {
      StartAfter(f, s, a);
      NumberedAppend(s, a, b);
    }
  }
}
