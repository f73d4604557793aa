/** Properties of the store that relate several calls: the foreign-key
    invariant every write preserves, and the round trips between a write
    and the read that follows it. */
module StoreLaws {
  import opened Wrappers
  import opened Seqs
  import opened Store

  /** Every key of `m` names a job. */
  predicate JobKeyed<V>(m: map<(string, string), V>, jobs: map<(string, string), JobRow>) {
    forall k :: k in m ==> k in jobs
  }

  /** Every key `(username, job_id, n)` of `m` names a job. */
  predicate JobPrefixed<V>(m: map<(string, string, int), V>, jobs: map<(string, string), JobRow>) {
    forall t :: t in m ==> (t.0, t.1) in jobs
  }

  predicate QueryIdsKeyed(ids: set<(string, string, int)>, jobs: map<(string, string), JobRow>) {
    forall t :: t in ids ==> (t.0, t.1) in jobs
  }

  predicate ResultsKeyed(rows: seq<ResultRow>, queries: map<(string, int), QueryRow>) {
    forall i :: 0 <= i < |rows| ==> (rows[i].username, rows[i].queryId) in queries
  }

  predicate UserChildrenKeyed(db: Db) {
    && (forall u :: u in db.aiCredentials ==> u in db.users)
    && (forall t :: t in db.userLists ==> t.1 in db.users)
    && (forall k :: k in db.onlinePresence ==> k.0 in db.users)
    && (forall k :: k in db.combinedDocuments ==> k.0 in db.users)
  }

  /** Every child row has its parent row: the state the schema's foreign
      keys maintain. */
  predicate Wellformed(db: Db) {
    && JobKeyed(db.jobStatus, db.jobs)
    && JobKeyed(db.coverLetters, db.jobs)
    && JobPrefixed(db.topics, db.jobs)
    && QueryIdsKeyed(db.jobQueryIds, db.jobs)
    && JobPrefixed(db.questions, db.jobs)
    && ResultsKeyed(db.queryResults, db.queries)
    && UserChildrenKeyed(db)
  }

  lemma EmptyWellformed()
    ensures Wellformed(EmptyDb)
  {
  }

  /** A job insert keeps every child row attached to its job. */
  lemma InsertJobWellformed(
    db: Db, username: string, jobId: string, company: string, title: string,
    dateFound: string, link: string, location: Option<string>, description: Option<string>,
    fullDescription: Option<string>, addressee: Option<string>, status: string,
    queryIds: seq<int>, now: string)
    requires Wellformed(db)
    ensures Wellformed(InsertJob(db, username, jobId, company, title, dateFound, link, location,
                                 description, fullDescription, addressee, status, queryIds, now).db)
  {
  }

  /** Replacing the rows of one job keeps every row attached to its job,
      provided that job exists or nothing is written for it. */
  lemma ReplaceJobPrefixed<V>(m: map<(string, string, int), V>, jobs: map<(string, string), JobRow>,
                              username: string, jobId: string, items: seq<V>)
    requires JobPrefixed(m, jobs)
    requires (username, jobId) in jobs || items == []
    ensures JobPrefixed(Replace(m, username, jobId, items), jobs)
  {
    var r := Replace(m, username, jobId, items);
    forall t | t in r
      ensures (t.0, t.1) in jobs
    {
      if t.0 == username && t.1 == jobId {
        assert t.2 in Project(r, username, jobId);
        assert t.2 in Indexed(items);
      }
    }
  }

  /** A cover-letter update never leaves a topic without its job. */
  lemma UpdateJobCoverLetterWellformed(
    db: Db, username: string, jobId: string,
    topics: Option<seq<TopicDict>>, body: Option<string>, pdfPath: Option<string>)
    requires Wellformed(db)
    ensures Wellformed(UpdateJobCoverLetter(db, username, jobId, topics, body, pdfPath).db)
  {
    var o := UpdateJobCoverLetter(db, username, jobId, topics, body, pdfPath);
    if o.result.Success? {
      if topics.Some? {
        ReplaceJobPrefixed(db.topics, db.jobs, username, jobId, TopicRows(topics.value));
      }
      assert JobKeyed(o.db.coverLetters, o.db.jobs);
    }
  }

  /** Replacing a user's list never leaves a row without its user. */
  lemma SetUserListWellformed(db: Db, username: string, kind: UserList, items: seq<string>)
    requires Wellformed(db)
    ensures Wellformed(SetUserList(db, username, kind, items).db)
  {
    var o := SetUserList(db, username, kind, items);
    if o.result.Success? {
      var r := Replace(db.userLists, kind, username, items);
      forall t | t in r
        ensures t.1 in o.db.users
      {
        if t.0 == kind && t.1 == username {
          assert t.2 in Project(r, kind, username);
          assert t.2 in Indexed(items);
        }
      }
    }
  }

  /** Logging results keeps every result row attached to its query. */
  lemma InsertQueryResultsWellformed(db: Db, username: string, results: seq<(int, int)>, now: string)
    requires Wellformed(db)
    ensures Wellformed(InsertQueryResults(db, username, results, now).db)
  {
    var o := InsertQueryResults(db, username, results, now);
    if o.result.Success? {
      var rows := ResultRows(username, results, now);
      forall i | 0 <= i < |o.db.queryResults|
        ensures (o.db.queryResults[i].username, o.db.queryResults[i].queryId) in o.db.queries
      {
        if i >= |db.queryResults| {
          assert o.db.queryResults[i] == rows[i - |db.queryResults|];
        } else {
          assert o.db.queryResults[i] == db.queryResults[i];
        }
      }
    }
  }

  /** A freshly inserted job reads back with the given columns and status,
      an empty cover letter, no topics or questions, and exactly the given
      query ids in ascending order. */
  lemma {:induction false} GetJobAfterInsert(
    db: Db, username: string, jobId: string, company: string, title: string,
    dateFound: string, link: string, location: Option<string>, description: Option<string>,
    fullDescription: Option<string>, addressee: Option<string>, status: string,
    queryIds: seq<int>, now: string)
    requires Wellformed(db)
    requires CanInsertJob(db, username, jobId, queryIds)
    ensures var o := InsertJob(db, username, jobId, company, title, dateFound, link, location,
                               description, fullDescription, addressee, status, queryIds, now);
      var job := GetJob(o.db, username, jobId);
      && job.Some?
      && job.value.row == JobRow(company, title, dateFound, link, location, description, fullDescription, addressee)
      && job.value.status == status
      && job.value.coverLetterBody == "" && job.value.coverLetterPdfPath.None?
      && job.value.topics == [] && job.value.questions == []
      && (forall q :: q in job.value.queryIds <==> q in queryIds)
  {
    var key := (username, jobId);
    var o := InsertJob(db, username, jobId, company, title, dateFound, link, location,
                       description, fullDescription, addressee, status, queryIds, now);
    var after := o.db;
    assert after.jobStatus[key].status == status;
    assert after.coverLetters[key] == CoverLetterRow("", None);
    assert after.topics == db.topics && after.questions == db.questions;
    NoRowsOfAbsentJob(db.topics, db.jobs, username, jobId);
    NoRowsOfAbsentJob(db.questions, db.jobs, username, jobId);
    forall q
      ensures (username, jobId, q) in after.jobQueryIds <==> q in queryIds
    {
      var t := (username, jobId, q);
      assert (t.0, t.1) !in db.jobs;
      assert t !in db.jobQueryIds;
    }
  }

  /** A job that is not in the store owns no rows of a child table. */
  lemma NoRowsOfAbsentJob<V>(m: map<(string, string, int), V>, jobs: map<(string, string), JobRow>, username: string, jobId: string)
    requires JobPrefixed(m, jobs)
    requires (username, jobId) !in jobs
    ensures Project(m, username, jobId) == map[]
  {
    forall p
      ensures p !in Project(m, username, jobId)
    {
      var t := (username, jobId, p);
      assert (t.0, t.1) !in jobs;
      assert t !in m;
    }
  }

  /** Topics written by `update_job_cover_letter` are read back by
      `get_job` in the order given, with missing keys as "". */
  lemma {:induction false} TopicsRoundTrip(
    db: Db, username: string, jobId: string, topics: seq<TopicDict>,
    body: Option<string>, pdfPath: Option<string>)
    requires (username, jobId) in db.jobs
    ensures var o := UpdateJobCoverLetter(db, username, jobId, Some(topics), body, pdfPath);
      && o.result.Success?
      && GetJob(o.db, username, jobId).Some?
      && GetJob(o.db, username, jobId).value.topics == TopicRows(topics)
  {
    var o := UpdateJobCoverLetter(db, username, jobId, Some(topics), body, pdfPath);
    assert o.result.Success?;
    assert o.db.jobs == db.jobs;
    ReadAfterReplace(db.topics, username, jobId, TopicRows(topics));
    GetJobTopics(o.db, username, jobId);
  }

  /** The list of a given kind inside a user dict. */
  function ListOf(u: UserRecord, kind: UserList): seq<string> {
    match kind
    case Credentials => u.credentials
    case Websites => u.websites
    case SourceDocumentPaths => u.sourceDocumentPaths
    case DesiredJobTitles => u.desiredJobTitles
    case DesiredJobLocations => u.desiredJobLocations
  }

  lemma ListOfBuild(db: Db, username: string, kind: UserList)
    ensures ListOf(BuildUserDict(db, username), kind) == ReadUserList(db, kind, username)
  {
    // Naming the constructor in each case lets `kind` be rewritten in
    // both `ListOf` and `ReadUserList`.
    match kind
    case Credentials => assert kind == Credentials;
    case Websites => assert kind == Websites;
    case SourceDocumentPaths => assert kind == SourceDocumentPaths;
    case DesiredJobTitles => assert kind == DesiredJobTitles;
    case DesiredJobLocations => assert kind == DesiredJobLocations;
  }

  /** A list written by `_set_user_list` reads back unchanged in the user
      dict, and the user's other lists are untouched. */
  lemma {:induction false} UserListRoundTrip(db: Db, username: string, kind: UserList, items: seq<string>, other: UserList)
    requires username in db.users
    requires other != kind
    ensures var o := SetUserList(db, username, kind, items);
      && o.result.Success?
      && ListOf(BuildUserDict(o.db, username), kind) == items
      && ListOf(BuildUserDict(o.db, username), other) == ListOf(BuildUserDict(db, username), other)
  {
    var o := SetUserList(db, username, kind, items);
    SetUserListReads(db, username, kind, items, other);
    ListOfBuild(o.db, username, kind);
    ListOfBuild(o.db, username, other);
    ListOfBuild(db, username, other);
  }

  /** The same, read list by list. */
  lemma SetUserListReads(db: Db, username: string, kind: UserList, items: seq<string>, other: UserList)
    requires username in db.users
    requires other != kind
    ensures var o := SetUserList(db, username, kind, items);
      && o.result.Success?
      && ReadUserList(o.db, kind, username) == items
      && ReadUserList(o.db, other, username) == ReadUserList(db, other, username)
  {
    ReadAfterReplace(db.userLists, kind, username, items);
    ReplaceElsewhere(db.userLists, kind, username, items, other, username);
  }

  /** Documents written by `set_user_combined_source_documents` read back
      unchanged from the user dict, and nothing else in the dict moves. */
  lemma {:induction false} DocumentsRoundTrip(db: Db, username: string, documents: seq<string>)
    requires username in db.users
    ensures var o := SetUserCombinedSourceDocuments(db, username, documents);
      && o.result.Success?
      && BuildUserDict(o.db, username) == BuildUserDict(db, username).(combinedSourceDocuments := documents)
  {
    var o := SetUserCombinedSourceDocuments(db, username, documents);
    DocumentsPlaced(db, username, documents);
    OrderedIndexed(documents);
    BuildUserDictDocuments(db, o.db.combinedDocuments, username);
  }

  /** The user's documents after the write are the list, keyed by position. */
  lemma DocumentsPlaced(db: Db, username: string, documents: seq<string>)
    requires username in db.users
    ensures var o := SetUserCombinedSourceDocuments(db, username, documents);
      o.result.Success? && UserDocuments(o.db, username) == Indexed(documents)
  {
    var o := SetUserCombinedSourceDocuments(db, username, documents);
    MapExt(UserDocuments(o.db, username), Indexed(documents));
  }

  /** The user dict reads the documents table only for its last field. */
  lemma BuildUserDictDocuments(db: Db, docs: map<(string, int), string>, username: string)
    ensures BuildUserDict(db.(combinedDocuments := docs), username)
         == BuildUserDict(db, username).(combinedSourceDocuments := Ordered(UserDocuments(db.(combinedDocuments := docs), username)))
  {
  }

  /** Rows written by `Replace` read back in position order as the list. */
  lemma ReadAfterReplace<A(!new), B(!new), V>(m: map<(A, B, int), V>, a: A, b: B, items: seq<V>)
    ensures Ordered(Project(Replace(m, a, b, items), a, b)) == items
  {
    OrderedIndexed(items);
  }

  /** Replacing the rows of one owner leaves every other owner's rows as
      they were. */
  lemma ReplaceElsewhere<A(!new), B(!new), V>(m: map<(A, B, int), V>, a: A, b: B, items: seq<V>, a2: A, b2: B)
    requires a2 != a || b2 != b
    ensures Project(Replace(m, a, b, items), a2, b2) == Project(m, a2, b2)
  {
    forall p
      ensures p in Project(Replace(m, a, b, items), a2, b2) <==> p in Project(m, a2, b2)
      ensures p in Project(m, a2, b2) ==> Project(Replace(m, a, b, items), a2, b2)[p] == Project(m, a2, b2)[p]
    {
      ReplaceElsewhereAt(m, a, b, items, a2, b2, p);
    }
    MapExt(Project(Replace(m, a, b, items), a2, b2), Project(m, a2, b2));
  }

  lemma MapExt<K, V>(x: map<K, V>, y: map<K, V>)
    requires forall k :: k in x <==> k in y
    requires forall k :: k in y ==> x[k] == y[k]
    ensures x == y
  {
  }

  lemma ReplaceElsewhereAt<A(!new), B(!new), V>(m: map<(A, B, int), V>, a: A, b: B, items: seq<V>, a2: A, b2: B, p: int)
    requires a2 != a || b2 != b
    ensures p in Project(Replace(m, a, b, items), a2, b2) <==> p in Project(m, a2, b2)
    ensures p in Project(m, a2, b2) ==> Project(Replace(m, a, b, items), a2, b2)[p] == Project(m, a2, b2)[p]
  {
    var t := (a2, b2, p);
    assert t in Replace(m, a, b, items) <==> t in m;
  }

  /** `add_job_query_id` is idempotent. */
  lemma AddJobQueryIdIdempotent(db: Db, username: string, jobId: string, queryId: int)
    ensures var o := AddJobQueryId(db, username, jobId, queryId);
      o.result.Success? ==> AddJobQueryId(o.db, username, jobId, queryId) == o
  {
  }

  /** `get_or_create_user` creates at most once: the second call reports
      the user as existing and changes nothing. */
  lemma GetOrCreateUserOnce(db: Db, username: string)
    ensures var o := GetOrCreateUser(db, username);
      o.result.Success? ==>
        var o2 := GetOrCreateUser(o.db, username);
        && o2.db == o.db && o2.result.Success? && !o2.result.value.1
        && o2.result.value.0 == o.result.value.0
  {
  }

  /** Appending one row adds its leads to the total. */
  lemma {:induction false} TotalLeadsAppend(rows: seq<ResultRow>, row: ResultRow, username: string, queryId: int)
    ensures TotalLeads(rows + [row], username, queryId) == TotalLeads(rows, username, queryId) + Leads(row, username, queryId)
  {
    assert (rows + [row])[..|rows|] == rows;
  }

  /** Logging a result for a query adds its leads to that query's total and
      leaves every other total as it was. */
  lemma {:induction false} TotalAfterLog(db: Db, username: string, queryId: int, leads: int, now: string, u: string, q: int)
    requires (username, queryId) in db.queries
    ensures var o := InsertQueryResult(db, username, queryId, leads, now);
      && o.result.Success?
      && GetQueryResultsTotal(o.db, u, q) ==
           GetQueryResultsTotal(db, u, q) + (if u == username && q == queryId then leads else 0)
  {
    TotalLeadsAppend(db.queryResults, ResultRow(username, queryId, now, leads), u, q);
  }

  /** Questions added one after another get increasing ids. */
  lemma AddJobQuestionIdsIncrease(db: Db, username: string, jobId: string, first: string, second: string)
    requires (username, jobId) in db.jobs
    ensures var o1 := AddJobQuestion(db, username, jobId, first);
      var o2 := AddJobQuestion(o1.db, username, jobId, second);
      && o1.result.Success? && o2.result.Success?
      && o1.result.value < o2.result.value
  {
    var o1 := AddJobQuestion(db, username, jobId, first);
    assert o1.result.value in QuestionIds(o1.db, username, jobId);
  }

  /** The leads a list of items adds to one query. */
  function DeltaFor(results: seq<(int, int)>, q: int): int {
    if results == [] then 0
    else DeltaFor(results[..|results| - 1], q) + (if results[|results| - 1].0 == q then results[|results| - 1].1 else 0)
  }

  /** Logging items adds, to each query's total, the leads of its items. */
  lemma {:induction false} TotalAfterRows(rows: seq<ResultRow>, username: string, results: seq<(int, int)>, now: string, q: int)
    ensures TotalLeads(rows + ResultRows(username, results, now), username, q)
         == TotalLeads(rows, username, q) + DeltaFor(results, q)
  {
    if results == [] {
      assert rows + ResultRows(username, results, now) == rows;
    } else {
      var init := results[..|results| - 1];
      var last := results[|results| - 1];
      TotalAfterRows(rows, username, init, now, q);
      assert ResultRows(username, results, now) == ResultRows(username, init, now) + [ResultRow(username, last.0, now, last.1)];
      assert rows + ResultRows(username, results, now) == (rows + ResultRows(username, init, now)) + [ResultRow(username, last.0, now, last.1)];
      TotalLeadsAppend(rows + ResultRows(username, init, now), ResultRow(username, last.0, now, last.1), username, q);
    }
  }

  /** Inserting a job adds one to the user's job count and to the count of
      its status, and leaves the count of every other status alone. */
  lemma InsertJobCounts(
    db: Db, username: string, jobId: string, company: string, title: string,
    dateFound: string, link: string, location: Option<string>, description: Option<string>,
    fullDescription: Option<string>, addressee: Option<string>, status: string,
    queryIds: seq<int>, now: string, other: string)
    requires CanInsertJob(db, username, jobId, queryIds)
    requires other != status
    ensures var o := InsertJob(db, username, jobId, company, title, dateFound, link, location,
                               description, fullDescription, addressee, status, queryIds, now);
      && CountJobs(o.db, username) == CountJobs(db, username) + 1
      && CountJobsByStatus(o.db, username, status) == CountJobsByStatus(db, username, status) + 1
      && CountJobsByStatus(o.db, username, other) == CountJobsByStatus(db, username, other)
  {
    var o := InsertJob(db, username, jobId, company, title, dateFound, link, location,
                       description, fullDescription, addressee, status, queryIds, now);
    var key := (username, jobId);
    var row := JobRow(company, title, dateFound, link, location, description, fullDescription, addressee);
    assert o.db.jobs == db.jobs[key := row];
    assert o.db.jobStatus == db.jobStatus[key := StatusRow(status, now)];
    JobKeysAdd(db, o.db, username, key, row);
    StatusKeysAdd(db, o.db, username, key, status, now, status);
    StatusKeysAdd(db, o.db, username, key, status, now, other);
  }

  /** Moving a job from one status to another moves one from the count of
      the old status to the count of the new one. */
  lemma StatusUpdateCounts(db: Db, username: string, jobId: string, from: string, to: string, now: string)
    requires (username, jobId) in db.jobStatus && db.jobStatus[(username, jobId)].status == from
    requires from != to
    ensures var o := UpdateJobStatus(db, username, jobId, to, now);
      && CountJobsByStatus(o.db, username, to) == CountJobsByStatus(db, username, to) + 1
      && CountJobsByStatus(o.db, username, from) + 1 == CountJobsByStatus(db, username, from)
  {
    var o := UpdateJobStatus(db, username, jobId, to, now);
    var key := (username, jobId);
    assert StatusKeys(o.db, username, to) == StatusKeys(db, username, to) + {key};
    assert StatusKeys(o.db, username, from) + {key} == StatusKeys(db, username, from);
  }

  /** After a job is inserted, a link is stored for the user exactly when it
      was stored before or is the new job's link: equal strings, nothing
      normalised. */
  lemma InsertJobHasLink(
    db: Db, username: string, jobId: string, company: string, title: string,
    dateFound: string, link: string, location: Option<string>, description: Option<string>,
    fullDescription: Option<string>, addressee: Option<string>, status: string,
    queryIds: seq<int>, now: string, l: string)
    requires CanInsertJob(db, username, jobId, queryIds)
    ensures var o := InsertJob(db, username, jobId, company, title, dateFound, link, location,
                               description, fullDescription, addressee, status, queryIds, now);
      JobHasLink(o.db, username, l) <==> JobHasLink(db, username, l) || l == link
  {
    var o := InsertJob(db, username, jobId, company, title, dateFound, link, location,
                       description, fullDescription, addressee, status, queryIds, now);
    var key := (username, jobId);
    assert key in o.db.jobs && o.db.jobs[key].link == link;
    if JobHasLink(o.db, username, l) && l != link {
      var k :| k in o.db.jobs && k.0 == username && o.db.jobs[k].link == l;
      assert k != key && k in db.jobs;
    }
    if JobHasLink(db, username, l) {
      var k :| k in db.jobs && k.0 == username && db.jobs[k].link == l;
      assert k in o.db.jobs && o.db.jobs[k].link == l;
    }
  }

  /** A new job row of the user adds one key to the user's jobs. */
  lemma JobKeysAdd(db: Db, db2: Db, username: string, key: (string, string), row: JobRow)
    requires key.0 == username && key !in db.jobs && db2.jobs == db.jobs[key := row]
    ensures UserJobKeys(db2, username) == UserJobKeys(db, username) + {key}
    ensures CountJobs(db2, username) == CountJobs(db, username) + 1
  {
    assert UserJobKeys(db2, username) == UserJobKeys(db, username) + {key};
  }

  /** A new status row of the user adds its key to that status's keys only. */
  lemma StatusKeysAdd(db: Db, db2: Db, username: string, key: (string, string), status: string, now: string, s: string)
    requires key.0 == username && key !in db.jobStatus
    requires db2.jobStatus == db.jobStatus[key := StatusRow(status, now)]
    ensures s == status ==> CountJobsByStatus(db2, username, s) == CountJobsByStatus(db, username, s) + 1
    ensures s != status ==> CountJobsByStatus(db2, username, s) == CountJobsByStatus(db, username, s)
  {
    if s == status {
      assert StatusKeys(db2, username, s) == StatusKeys(db, username, s) + {key};
    } else {
      assert StatusKeys(db2, username, s) == StatusKeys(db, username, s);
    }
  }
}
