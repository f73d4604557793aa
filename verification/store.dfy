/** The per-user relational store (src/data_handlers/database.py).

    Each SQL table is a finite map keyed by its primary key, which always
    starts with the username. The results log has no primary key and is a
    sequence of rows in insertion order. Every public method of `Database`
    is a function from the current store to an `Outcome`: the store after
    the call together with the returned value, or the exception raised.
    `Connection` models the `connection()` context manager: the writes of a
    block commit together when the block finishes and are all rolled back
    when it raises.

    Foreign keys are enforced on insert, because the connection switches
    them on; `INSERT OR IGNORE` and `INSERT OR REPLACE` resolve primary-key
    conflicts only and still fail on a missing parent row. */
module Store {
  import opened Wrappers
  import opened Seqs

  /* ---------------- rows ---------------- */

  /** A `jobs` row. The columns declared `NOT NULL` are plain strings; the
      others may hold SQL NULL. */
  datatype JobRow = JobRow(
    company: string,
    title: string,
    dateFound: string,
    link: string,
    location: Option<string>,
    description: Option<string>,
    fullDescription: Option<string>,
    addressee: Option<string>)

  datatype StatusRow = StatusRow(status: string, updatedAt: string)

  datatype CoverLetterRow = CoverLetterRow(body: string, pdfPath: Option<string>)

  datatype TopicRow = TopicRow(topic: string, relevantExperience: string)

  /** A topic as the caller hands it over: a dict in which either key may be
      missing. */
  datatype TopicDict = TopicDict(topic: Option<string>, relevantExperience: Option<string>)

  datatype QuestionRow = QuestionRow(question: string, answer: string)

  datatype QueryRow = QueryRow(query: string, removed: bool, createdAt: string)

  datatype ResultRow = ResultRow(username: string, queryId: int, timestamp: string, potentialLeads: int)

  datatype UserRow = UserRow(
    name: string,
    email: string,
    sourceDocumentSummary: string,
    onlinePresenceSummary: string,
    comprehensiveSummary: string,
    comprehensiveSummaryGeneratedAt: string,
    coverLetterOutputDir: string)

  datatype AiRow = AiRow(aiMethod: string, apiKey: Option<string>)

  datatype PresenceRow = PresenceRow(timeFetched: string, fetchSuccess: bool, content: string)

  /** The five single-column list tables of a user, told apart by kind. */
  datatype UserList = Credentials | Websites | SourceDocumentPaths | DesiredJobTitles | DesiredJobLocations

  /** The whole database. `combinedDocuments` holds each document as its
      JSON text. */
  datatype Db = Db(
    jobs: map<(string, string), JobRow>,
    jobStatus: map<(string, string), StatusRow>,
    coverLetters: map<(string, string), CoverLetterRow>,
    topics: map<(string, string, int), TopicRow>,
    jobQueryIds: set<(string, string, int)>,
    questions: map<(string, string, int), QuestionRow>,
    queries: map<(string, int), QueryRow>,
    queryResults: seq<ResultRow>,
    users: map<string, UserRow>,
    aiCredentials: map<string, AiRow>,
    userLists: map<(UserList, string, int), string>,
    onlinePresence: map<(string, string), PresenceRow>,
    combinedDocuments: map<(string, int), string>)

  const EmptyDb := Db(map[], map[], map[], map[], {}, map[], map[], [], map[], map[], map[], map[], map[])

  const DefaultStatus := "pending"
  const DefaultAiMethod := "claude_local"
  const DefaultUserRow := UserRow("", "", "", "", "", "", "")

  /** The exceptions a store call can raise. */
  datatype DbError =
    | PrimaryKeyConflict(table: string)
    | ForeignKeyFailure(table: string)
    | NotNullFailure(column: string)
    | DisallowedField(field: string)

  datatype Outcome<T> = Outcome(db: Db, result: Result<T, DbError>)

  /* ---------------- the transaction ---------------- */

  /** `with self.connection() as conn:` around a block that either produced
      a new store and a value, or raised. */
  function Connection<T>(db: Db, block: Result<(Db, T), DbError>): (o: Outcome<T>)
    ensures o.result.Failure? <==> block.Failure?
    ensures o.result.Failure? ==> o.db == db
    ensures block.Success? ==> o.db == block.value.0 && o.result == Success(block.value.1)
  {
    match block
    case Success(p) => Outcome(p.0, Success(p.1))
    case Failure(e) => Outcome(db, Failure(e))
  }

  /* ---------------- table helpers ---------------- */

  /** Rows of a table keyed `(a, b, position)` that belong to `(a, b)`,
      keyed by position. */
  function Project<A(==), B(==), V>(m: map<(A, B, int), V>, a: A, b: B): (r: map<int, V>)
    ensures forall p :: p in r <==> (a, b, p) in m
    ensures forall p :: p in r ==> r[p] == m[(a, b, p)]
  {
    map t | t in m && t.0 == a && t.1 == b :: t.2 := m[t]
  }

  /** `DELETE FROM t WHERE username = ? AND job_id = ?` on a table keyed
      `(a, b, position)`. */
  function Drop<A(==,!new), B(==,!new), V>(m: map<(A, B, int), V>, a: A, b: B): (r: map<(A, B, int), V>)
    ensures forall t :: t in r <==> t in m && !(t.0 == a && t.1 == b)
    ensures forall t :: t in r ==> r[t] == m[t]
  {
    map t | t in m && !(t.0 == a && t.1 == b) :: m[t]
  }

  /** The rows of `items` inserted for `(a, b)` at positions 0..n-1. */
  function Placed<A(==,!new), B(==,!new), V>(a: A, b: B, items: seq<V>): (r: map<(A, B, int), V>)
    ensures forall t :: t in r <==> t.0 == a && t.1 == b && 0 <= t.2 < |items|
    ensures forall t :: t in r ==> r[t] == items[t.2]
  {
    map p | 0 <= p < |items| :: (a, b, p) := items[p]
  }

  /** `DELETE ... WHERE username = ? AND job_id = ?` followed by one insert
      per item at positions 0..n-1: the rows of `(a, b)` become `items`,
      every other row is kept. */
  function Replace<A(==,!new), B(==,!new), V>(m: map<(A, B, int), V>, a: A, b: B, items: seq<V>): (r: map<(A, B, int), V>)
    ensures Project(r, a, b) == Indexed(items)
    ensures forall t: (A, B, int) :: t.0 != a || t.1 != b ==> (t in r <==> t in m)
    ensures forall t: (A, B, int) :: t in r && (t.0 != a || t.1 != b) ==> r[t] == m[t]
  {
    ReplaceProject(m, a, b, items);
    Drop(m, a, b) + Placed(a, b, items)
  }

  lemma ReplaceProject<A(!new), B(!new), V>(m: map<(A, B, int), V>, a: A, b: B, items: seq<V>)
    ensures Project(Drop(m, a, b) + Placed(a, b, items), a, b) == Indexed(items)
  {
    var placed := Placed(a, b, items);
    var pr := Project(Drop(m, a, b) + placed, a, b);
    var ix := Indexed(items);
    forall p
      ensures p in pr <==> p in ix
    {
      assert (a, b, p) in placed <==> 0 <= p < |items|;
    }
    forall p | p in pr
      ensures pr[p] == ix[p]
    {
      assert (a, b, p) in placed;
    }
  }

  /** `COALESCE(MAX(id), 0) + 1` over the ids already in scope. */
  function NextId(ids: set<int>): (n: int)
    ensures ids == {} ==> n == 1
    ensures n !in ids
    ensures forall i :: i in ids ==> i < n
    ensures ids != {} ==> n - 1 in ids
  {
    if ids == {} then 1 else Greatest(ids) + 1
  }

  /* ---------------- job CRUD ---------------- */

  /** Every row `insert_job` adds is new and the query ids are distinct. */
  predicate CanInsertJob(db: Db, username: string, jobId: string, queryIds: seq<int>) {
    && (username, jobId) !in db.jobs
    && (username, jobId) !in db.jobStatus
    && (username, jobId) !in db.coverLetters
    && NoDup(queryIds)
    && forall i :: 0 <= i < |queryIds| ==> (username, jobId, queryIds[i]) !in db.jobQueryIds
  }

  function InsertJobRow(db: Db, key: (string, string), row: JobRow): Result<Db, DbError> {
    if key in db.jobs then Failure(PrimaryKeyConflict("jobs"))
    else Success(db.(jobs := db.jobs[key := row]))
  }

  function InsertStatusRow(db: Db, key: (string, string), row: StatusRow): Result<Db, DbError> {
    if key in db.jobStatus then Failure(PrimaryKeyConflict("job_status"))
    else if key !in db.jobs then Failure(ForeignKeyFailure("job_status"))
    else Success(db.(jobStatus := db.jobStatus[key := row]))
  }

  function InsertCoverLetterRow(db: Db, key: (string, string)): Result<Db, DbError> {
    if key in db.coverLetters then Failure(PrimaryKeyConflict("job_cover_letters"))
    else if key !in db.jobs then Failure(ForeignKeyFailure("job_cover_letters"))
    else Success(db.(coverLetters := db.coverLetters[key := CoverLetterRow("", None)]))
  }

  function InsertQueryIdRow(db: Db, username: string, jobId: string, queryId: int): Result<Db, DbError> {
    if (username, jobId, queryId) in db.jobQueryIds then Failure(PrimaryKeyConflict("job_query_ids"))
    else if (username, jobId) !in db.jobs then Failure(ForeignKeyFailure("job_query_ids"))
    else Success(db.(jobQueryIds := db.jobQueryIds + {(username, jobId, queryId)}))
  }

  /** The `for qid in query_ids` loop of `insert_job`: one row per id, and
      a repeated id violates the primary key. */
  function InsertQueryIdRows(db: Db, username: string, jobId: string, queryIds: seq<int>): (r: Result<Db, DbError>)
    ensures r.Success? <==>
      && (queryIds == [] || (username, jobId) in db.jobs)
      && NoDup(queryIds)
      && forall i :: 0 <= i < |queryIds| ==> (username, jobId, queryIds[i]) !in db.jobQueryIds
    ensures r.Success? ==>
      r.value == db.(jobQueryIds := db.jobQueryIds + set q | q in queryIds :: (username, jobId, q))
    decreases |queryIds|
  {
    if queryIds == [] then
      assert (set q | q in queryIds :: (username, jobId, q)) == {};
      Success(db)
    else
      var q := queryIds[0];
      var rest := queryIds[1..];
      assert forall x :: x in queryIds <==> x == q || x in rest;
      NoDupCons(queryIds);
      var d1 :- InsertQueryIdRow(db, username, jobId, q);
      var r := InsertQueryIdRows(d1, username, jobId, rest);
      assert (set x | x in queryIds :: (username, jobId, x))
          == {(username, jobId, q)} + set x | x in rest :: (username, jobId, x);
      r
  }

  /** `insert_job`: the job row, a status row, an empty cover-letter row and
      one row per query id, committed together or not at all. */
  function InsertJob(
    db: Db, username: string, jobId: string, company: string, title: string,
    dateFound: string, link: string, location: Option<string>, description: Option<string>,
    fullDescription: Option<string>, addressee: Option<string>, status: string,
    queryIds: seq<int>, now: string): (o: Outcome<()>)
    ensures o.result.Success? <==> CanInsertJob(db, username, jobId, queryIds)
    ensures o.result.Failure? ==> o.db == db
    ensures o.result.Success? ==> o.db == db.(
      jobs := db.jobs[(username, jobId) := JobRow(company, title, dateFound, link, location, description, fullDescription, addressee)],
      jobStatus := db.jobStatus[(username, jobId) := StatusRow(status, now)],
      coverLetters := db.coverLetters[(username, jobId) := CoverLetterRow("", None)],
      jobQueryIds := db.jobQueryIds + set q | q in queryIds :: (username, jobId, q))
  {
    var key := (username, jobId);
    Connection(db,
      var d1 :- InsertJobRow(db, key, JobRow(company, title, dateFound, link, location, description, fullDescription, addressee));
      var d2 :- InsertStatusRow(d1, key, StatusRow(status, now));
      var d3 :- InsertCoverLetterRow(d2, key);
      var d4 :- InsertQueryIdRows(d3, username, jobId, queryIds);
      Success((d4, ())))
  }

  /** The dict `get_job` builds from a job and its side tables. */
  datatype JobRecord = JobRecord(
    jobId: string,
    row: JobRow,
    status: string,
    coverLetterBody: string,
    coverLetterPdfPath: Option<string>,
    topics: seq<TopicRow>,
    queryIds: seq<int>,
    questions: seq<QuestionRow>)

  /** The query ids of one job. The query has no ORDER BY; the model reads
      them in ascending order, the order of the table's primary-key index. */
  function JobQueryIdSet(db: Db, username: string, jobId: string): (r: set<int>)
    ensures forall q :: q in r <==> (username, jobId, q) in db.jobQueryIds
  {
    set t | t in db.jobQueryIds && t.0 == username && t.1 == jobId :: t.2
  }

  /** `get_job`. */
  function GetJob(db: Db, username: string, jobId: string): (r: Option<JobRecord>)
    ensures r.None? <==> (username, jobId) !in db.jobs
    ensures r.Some? ==>
      && r.value.jobId == jobId
      && r.value.row == db.jobs[(username, jobId)]
      && ((username, jobId) !in db.jobStatus ==> r.value.status == DefaultStatus)
      && ((username, jobId) in db.jobStatus ==> r.value.status == db.jobStatus[(username, jobId)].status)
      && ((username, jobId) !in db.coverLetters ==> r.value.coverLetterBody == "" && r.value.coverLetterPdfPath.None?)
      && ((username, jobId) in db.coverLetters ==>
            CoverLetterRow(r.value.coverLetterBody, r.value.coverLetterPdfPath) == db.coverLetters[(username, jobId)])
      && (var ps := SortedElems(Project(db.topics, username, jobId).Keys);
          && |r.value.topics| == |ps|
          && forall i :: 0 <= i < |ps| ==>
               (username, jobId, ps[i]) in db.topics && r.value.topics[i] == db.topics[(username, jobId, ps[i])])
      && |r.value.questions| == |GetJobQuestions(db, username, jobId)|
      && (forall i :: 0 <= i < |r.value.questions| ==>
            var q := GetJobQuestions(db, username, jobId)[i];
            r.value.questions[i] == QuestionRow(q.question, q.answer))
      && StrictlyIncreasing(r.value.queryIds)
      && (forall q :: q in r.value.queryIds <==> (username, jobId, q) in db.jobQueryIds)
  {
    var key := (username, jobId);
    if key !in db.jobs then None
    else
      var status := if key in db.jobStatus then db.jobStatus[key].status else DefaultStatus;
      var letter := if key in db.coverLetters then db.coverLetters[key] else CoverLetterRow("", None);
      OrderedQuestions(db, username, jobId);
      Some(JobRecord(
        jobId, db.jobs[key], status, letter.body, letter.pdfPath,
        Ordered(Project(db.topics, username, jobId)),
        SortedElems(JobQueryIdSet(db, username, jobId)),
        Ordered(Project(db.questions, username, jobId))))
  }

  /** A job's topics are its topic rows read in position order. */
  lemma GetJobTopics(db: Db, username: string, jobId: string)
    ensures GetJob(db, username, jobId).Some? ==>
      GetJob(db, username, jobId).value.topics == Ordered(Project(db.topics, username, jobId))
  {
  }

  /** `get_all_jobs`, keyed by job id (row order is not modelled). */
  function GetAllJobs(db: Db, username: string): (r: map<string, JobRecord>)
    ensures forall j :: j in r <==> (username, j) in db.jobs
    ensures forall j :: j in r ==> Some(r[j]) == GetJob(db, username, j)
  {
    map k | k in db.jobs && k.0 == username :: k.1 := GetJob(db, username, k.1).value
  }

  /** `job_has_link`: exact string equality, no normalisation. */
  predicate JobHasLink(db: Db, username: string, link: string) {
    exists k :: k in db.jobs && k.0 == username && db.jobs[k].link == link
  }

  function UserJobKeys(db: Db, username: string): set<(string, string)> {
    set k | k in db.jobs && k.0 == username
  }

  /** `count_jobs`. */
  function CountJobs(db: Db, username: string): nat {
    |UserJobKeys(db, username)|
  }

  function StatusKeys(db: Db, username: string, status: string): set<(string, string)> {
    set k | k in db.jobStatus && k.0 == username && db.jobStatus[k].status == status
  }

  /** `count_jobs_by_status`: rows of `job_status` with that status. */
  function CountJobsByStatus(db: Db, username: string, status: string): nat {
    |StatusKeys(db, username, status)|
  }

  /* ---------------- updates ---------------- */

  /** `update_job_status`: any status string is written, from any status. */
  function UpdateJobStatus(db: Db, username: string, jobId: string, status: string, now: string): (o: Outcome<()>)
    ensures o.result.Success?
    ensures (username, jobId) in db.jobStatus ==>
      o.db == db.(jobStatus := db.jobStatus[(username, jobId) := StatusRow(status, now)])
    ensures (username, jobId) !in db.jobStatus ==> o.db == db
  {
    var key := (username, jobId);
    Connection(db,
      if key in db.jobStatus then Success((db.(jobStatus := db.jobStatus[key := StatusRow(status, now)]), ()))
      else Success((db, ())))
  }

  /** The columns `update_job_field` accepts. */
  const JobFields: set<string> := {"company", "title", "link", "location", "description", "full_description", "addressee"}

  /** The allowed columns that are declared NOT NULL. */
  const NotNullJobFields: set<string> := {"company", "title", "link"}

  function SetJobColumn(row: JobRow, field: string, value: Option<string>): JobRow
    requires field in JobFields
    requires field in NotNullJobFields ==> value.Some?
  {
    match field
    case "company" => row.(company := value.value)
    case "title" => row.(title := value.value)
    case "link" => row.(link := value.value)
    case "location" => row.(location := value)
    case "description" => row.(description := value)
    case "full_description" => row.(fullDescription := value)
    case _ => row.(addressee := value)
  }

  /** `update_job_field`: a field outside the allowlist raises ValueError
      before the connection is opened; an UPDATE that matches no row checks
      no constraint and changes nothing; NULL in a NOT NULL column of an
      existing row raises an integrity error; otherwise only that column of
      that one row changes. */
  function UpdateJobField(db: Db, username: string, jobId: string, field: string, value: Option<string>): (o: Outcome<()>)
    ensures field !in JobFields ==> o == Outcome(db, Failure(DisallowedField(field)))
    ensures o.result.Failure? ==> o.db == db
    ensures o.result.Success? <==>
      field in JobFields && ((username, jobId) in db.jobs && field in NotNullJobFields ==> value.Some?)
    ensures o.result.Success? && (username, jobId) !in db.jobs ==> o.db == db
    ensures o.result.Success? && (username, jobId) in db.jobs ==>
      o.db == db.(jobs := db.jobs[(username, jobId) := SetJobColumn(db.jobs[(username, jobId)], field, value)])
  {
    if field !in JobFields then Outcome(db, Failure(DisallowedField(field)))
    else
      var key := (username, jobId);
      Connection(db,
        if key !in db.jobs then Success((db, ()))
        else if field in NotNullJobFields && value.None? then Failure(NotNullFailure(field))
        else Success((db.(jobs := db.jobs[key := SetJobColumn(db.jobs[key], field, value)]), ())))
  }

  /** The row stored for a topic dict: a missing key becomes "". */
  function TopicRowOf(t: TopicDict): TopicRow {
    TopicRow(t.topic.GetOr(""), t.relevantExperience.GetOr(""))
  }

  /** The rows stored for a list of topic dicts, in order. */
  function TopicRows(topics: seq<TopicDict>): (r: seq<TopicRow>)
    ensures |r| == |topics|
    ensures forall i :: 0 <= i < |topics| ==> r[i] == TopicRowOf(topics[i])
  {
    seq(|topics|, i requires 0 <= i < |topics| => TopicRowOf(topics[i]))
  }

  /** `update_job_cover_letter`: a `None` argument leaves its part alone;
      a topics list replaces every topic of the job. */
  function UpdateJobCoverLetter(
    db: Db, username: string, jobId: string,
    topics: Option<seq<TopicDict>>, body: Option<string>, pdfPath: Option<string>): (o: Outcome<()>)
    ensures o.result.Failure? <==> topics.Some? && |topics.value| > 0 && (username, jobId) !in db.jobs
    ensures o.result.Failure? ==> o.db == db
    ensures o.result.Success? ==> o.db == db.(topics := o.db.topics, coverLetters := o.db.coverLetters)
    ensures o.result.Success? && topics.None? ==> o.db.topics == db.topics
    ensures o.result.Success? && topics.Some? ==>
      o.db.topics == Replace(db.topics, username, jobId, TopicRows(topics.value))
    ensures o.result.Success? ==> o.db.coverLetters.Keys == db.coverLetters.Keys
    ensures o.result.Success? ==> forall k :: k in db.coverLetters && k != (username, jobId) ==>
      o.db.coverLetters[k] == db.coverLetters[k]
    ensures o.result.Success? && (username, jobId) in db.coverLetters ==>
      var before := db.coverLetters[(username, jobId)];
      o.db.coverLetters[(username, jobId)] == CoverLetterRow(body.GetOr(before.body), if pdfPath.Some? then pdfPath else before.pdfPath)
  {
    var key := (username, jobId);
    Connection(db,
      var d1 :-
        if topics.None? then Success(db)
        else if |topics.value| > 0 && key !in db.jobs then Failure(ForeignKeyFailure("cover_letter_topics"))
        else Success(db.(topics := Replace(db.topics, username, jobId, TopicRows(topics.value))));
      var d2 :=
        if body.Some? && key in d1.coverLetters
        then d1.(coverLetters := d1.coverLetters[key := d1.coverLetters[key].(body := body.value)])
        else d1;
      var d3 :=
        if pdfPath.Some? && key in d2.coverLetters
        then d2.(coverLetters := d2.coverLetters[key := d2.coverLetters[key].(pdfPath := pdfPath)])
        else d2;
      Success((d3, ())))
  }

  /* ---------------- questions ---------------- */

  function QuestionIds(db: Db, username: string, jobId: string): set<int> {
    Project(db.questions, username, jobId).Keys
  }

  /** `add_job_question`: the new id is one more than the largest id of
      that job's questions (1 for the first), and the answer starts empty. */
  function AddJobQuestion(db: Db, username: string, jobId: string, question: string): (o: Outcome<int>)
    ensures o.result.Failure? <==> (username, jobId) !in db.jobs
    ensures o.result.Failure? ==> o.db == db
    ensures o.result.Success? ==>
      var id := o.result.value;
      && id !in QuestionIds(db, username, jobId)
      && (QuestionIds(db, username, jobId) == {} ==> id == 1)
      && (forall i :: i in QuestionIds(db, username, jobId) ==> i < id)
      && o.db == db.(questions := db.questions[(username, jobId, id) := QuestionRow(question, "")])
  {
    var next := NextId(QuestionIds(db, username, jobId));
    Connection(db,
      if (username, jobId) !in db.jobs then Failure(ForeignKeyFailure("job_questions"))
      else Success((db.(questions := db.questions[(username, jobId, next) := QuestionRow(question, "")]), next)))
  }

  /** `update_job_question_answer`. */
  function UpdateJobQuestionAnswer(db: Db, username: string, jobId: string, questionId: int, answer: string): (o: Outcome<()>)
    ensures o.result.Success?
    ensures (username, jobId, questionId) !in db.questions ==> o.db == db
    ensures (username, jobId, questionId) in db.questions ==>
      o.db == db.(questions := db.questions[(username, jobId, questionId) := db.questions[(username, jobId, questionId)].(answer := answer)])
  {
    var key := (username, jobId, questionId);
    Connection(db,
      if key in db.questions then Success((db.(questions := db.questions[key := db.questions[key].(answer := answer)]), ()))
      else Success((db, ())))
  }

  /** Answering one listed question keeps the listing as long as it was
      and shows the new answer at that question's place. */
  lemma AnswerListed(db: Db, username: string, jobId: string, k: nat, answer: string)
    requires k < |GetJobQuestions(db, username, jobId)|
    ensures var id := GetJobQuestions(db, username, jobId)[k].id;
            var o := UpdateJobQuestionAnswer(db, username, jobId, id, answer);
            && |GetJobQuestions(o.db, username, jobId)| == |GetJobQuestions(db, username, jobId)|
            && GetJobQuestions(o.db, username, jobId)[k].answer == answer
  {
    var id := GetJobQuestions(db, username, jobId)[k].id;
    var key := (username, jobId, id);
    assert key in db.questions;
    var o := UpdateJobQuestionAnswer(db, username, jobId, id, answer);
    assert o.db.questions == db.questions[key := db.questions[key].(answer := answer)];
    assert QuestionIds(o.db, username, jobId) == QuestionIds(db, username, jobId);
    var ids := SortedElems(QuestionIds(db, username, jobId));
    assert ids[k] == id;
  }

  /** `clear_job_questions`. */
  function ClearJobQuestions(db: Db, username: string, jobId: string): (o: Outcome<()>)
    ensures o.result.Success?
    ensures Project(o.db.questions, username, jobId) == map[]
    ensures o.db == db.(questions := Drop(db.questions, username, jobId))
  {
    Connection(db, Success((db.(questions := Drop(db.questions, username, jobId)), ())))
  }

  datatype QuestionRecord = QuestionRecord(id: int, question: string, answer: string)

  /** `get_job_questions`: ordered by question id. */
  function GetJobQuestions(db: Db, username: string, jobId: string): (r: seq<QuestionRecord>)
    ensures |r| == |QuestionIds(db, username, jobId)|
    ensures forall i :: 0 <= i < |r| ==>
      (username, jobId, r[i].id) in db.questions &&
      db.questions[(username, jobId, r[i].id)] == QuestionRow(r[i].question, r[i].answer)
    ensures forall i, j :: 0 <= i < j < |r| ==> r[i].id < r[j].id
  {
    var rows := Project(db.questions, username, jobId);
    QuestionRecords(rows, SortedElems(rows.Keys))
  }

  /** Reading a job's question rows in position order gives the rows of
      `get_job_questions`, without their ids. */
  lemma OrderedQuestions(db: Db, username: string, jobId: string)
    ensures var qs := GetJobQuestions(db, username, jobId);
            var o := Ordered(Project(db.questions, username, jobId));
            |o| == |qs| && forall i :: 0 <= i < |o| ==> o[i] == QuestionRow(qs[i].question, qs[i].answer)
  {
    var rows := Project(db.questions, username, jobId);
    var ids := SortedElems(rows.Keys);
    assert GetJobQuestions(db, username, jobId) == QuestionRecords(rows, ids);
  }

  /** The question rows with the given ids, in that order. */
  function QuestionRecords(rows: map<int, QuestionRow>, ids: seq<int>): (r: seq<QuestionRecord>)
    requires forall i :: 0 <= i < |ids| ==> ids[i] in rows
    ensures |r| == |ids|
    ensures forall i :: 0 <= i < |ids| ==> r[i].id == ids[i] && rows[ids[i]] == QuestionRow(r[i].question, r[i].answer)
  {
    seq(|ids|, i requires 0 <= i < |ids| => QuestionRecord(ids[i], rows[ids[i]].question, rows[ids[i]].answer))
  }

  /* ---------------- job query ids ---------------- */

  /** `add_job_query_id`: `INSERT OR IGNORE`. */
  function AddJobQueryId(db: Db, username: string, jobId: string, queryId: int): (o: Outcome<()>)
    ensures o.result.Failure? <==> (username, jobId, queryId) !in db.jobQueryIds && (username, jobId) !in db.jobs
    ensures o.result.Failure? ==> o.db == db
    ensures o.result.Success? ==> o.db == db.(jobQueryIds := db.jobQueryIds + {(username, jobId, queryId)})
  {
    var t := (username, jobId, queryId);
    Connection(db,
      if t in db.jobQueryIds then Success((db, ()))
      else if (username, jobId) !in db.jobs then Failure(ForeignKeyFailure("job_query_ids"))
      else Success((db.(jobQueryIds := db.jobQueryIds + {t}), ())))
  }

  /** `get_job_query_ids`. */
  function GetJobQueryIds(db: Db, username: string, jobId: string): (r: seq<int>)
    ensures StrictlyIncreasing(r)
    ensures forall q :: q in r <==> (username, jobId, q) in db.jobQueryIds
  {
    SortedElems(JobQueryIdSet(db, username, jobId))
  }

  /* ---------------- search queries ---------------- */

  function QueryIds(db: Db, username: string): (r: set<int>)
    ensures forall id :: id in r <==> (username, id) in db.queries
  {
    set k | k in db.queries && k.0 == username :: k.1
  }

  /** `insert_query`: the next id of that user, a row not removed. */
  function InsertQuery(db: Db, username: string, query: string, now: string): (o: Outcome<int>)
    ensures o.result.Success?
    ensures var id := o.result.value;
      && id !in QueryIds(db, username)
      && (QueryIds(db, username) == {} ==> id == 1)
      && (forall i :: i in QueryIds(db, username) ==> i < id)
      && o.db == db.(queries := db.queries[(username, id) := QueryRow(query, false, now)])
  {
    var next := NextId(QueryIds(db, username));
    assert (username, next) !in db.queries;
    Connection(db, Success((db.(queries := db.queries[(username, next) := QueryRow(query, false, now)]), next)))
  }

  datatype QueryRecord = QueryRecord(id: int, query: string, removed: bool, createdAt: string)

  /** `get_all_queries`: every query of the user, removed ones included,
      ordered by id. */
  function GetAllQueries(db: Db, username: string): (r: seq<QueryRecord>)
    ensures |r| == |QueryIds(db, username)|
    ensures forall i :: 0 <= i < |r| ==>
      (username, r[i].id) in db.queries &&
      db.queries[(username, r[i].id)] == QueryRow(r[i].query, r[i].removed, r[i].createdAt)
    ensures forall i, j :: 0 <= i < j < |r| ==> r[i].id < r[j].id
  {
    var ids := SortedElems(QueryIds(db, username));
    var r := seq(|ids|, i requires 0 <= i < |ids| =>
      var row := db.queries[(username, ids[i])];
      QueryRecord(ids[i], row.query, row.removed, row.createdAt));
    r
  }

  /** `update_query_removed`. */
  function UpdateQueryRemoved(db: Db, username: string, queryId: int, removed: bool): (o: Outcome<()>)
    ensures o.result.Success?
    ensures (username, queryId) !in db.queries ==> o.db == db
    ensures (username, queryId) in db.queries ==>
      o.db == db.(queries := db.queries[(username, queryId) := db.queries[(username, queryId)].(removed := removed)])
  {
    var key := (username, queryId);
    Connection(db,
      if key in db.queries then Success((db.(queries := db.queries[key := db.queries[key].(removed := removed)]), ()))
      else Success((db, ())))
  }

  /** `insert_query_result`: the logged query must exist. */
  function InsertQueryResult(db: Db, username: string, queryId: int, potentialLeads: int, now: string): (o: Outcome<()>)
    ensures o.result.Failure? <==> (username, queryId) !in db.queries
    ensures o.result.Failure? ==> o.db == db
    ensures o.result.Success? ==>
      o.db == db.(queryResults := db.queryResults + [ResultRow(username, queryId, now, potentialLeads)])
  {
    Connection(db,
      if (username, queryId) !in db.queries then Failure(ForeignKeyFailure("search_query_results"))
      else Success((db.(queryResults := db.queryResults + [ResultRow(username, queryId, now, potentialLeads)]), ())))
  }

  /** The rows `insert_query_results` appends for the items of a dict. */
  function ResultRows(username: string, results: seq<(int, int)>, now: string): (r: seq<ResultRow>)
    ensures |r| == |results|
    ensures forall i :: 0 <= i < |r| ==> r[i] == ResultRow(username, results[i].0, now, results[i].1)
  {
    seq(|results|, i requires 0 <= i < |results| => ResultRow(username, results[i].0, now, results[i].1))
  }

  /** The loop of `insert_query_results`, one insert per item. */
  function InsertResultRows(db: Db, username: string, results: seq<(int, int)>, now: string): (r: Result<Db, DbError>)
    ensures r.Success? <==> forall i :: 0 <= i < |results| ==> (username, results[i].0) in db.queries
    ensures r.Success? ==> r.value == db.(queryResults := db.queryResults + ResultRows(username, results, now))
    decreases |results|
  {
    if results == [] then
      assert db.queryResults + ResultRows(username, results, now) == db.queryResults;
      Success(db)
    else if (username, results[0].0) !in db.queries then Failure(ForeignKeyFailure("search_query_results"))
    else
      var d1 := db.(queryResults := db.queryResults + [ResultRow(username, results[0].0, now, results[0].1)]);
      ResultRowsCons(db, username, results, now);
      InsertResultRows(d1, username, results[1..], now)
  }

  /** The first result, then the rest. */
  lemma ResultRowsCons(db: Db, username: string, results: seq<(int, int)>, now: string)
    requires results != []
    ensures (db.queryResults + [ResultRow(username, results[0].0, now, results[0].1)]) + ResultRows(username, results[1..], now)
         == db.queryResults + ResultRows(username, results, now)
    ensures (forall i :: 0 <= i < |results| ==> (username, results[i].0) in db.queries)
        <==> (username, results[0].0) in db.queries
             && (forall i :: 0 <= i < |results[1..]| ==> (username, results[1..][i].0) in db.queries)
  {
    var head := [ResultRow(username, results[0].0, now, results[0].1)];
    var tail := ResultRows(username, results[1..], now);
    ResultRowsSplit(username, results, now);
    assert (db.queryResults + head) + tail == db.queryResults + (head + tail);
    ResultIdsSplit(db, username, results);
  }

  lemma ResultRowsSplit(username: string, results: seq<(int, int)>, now: string)
    requires results != []
    ensures ResultRows(username, results, now)
         == [ResultRow(username, results[0].0, now, results[0].1)] + ResultRows(username, results[1..], now)
  {
    var r := ResultRows(username, results, now);
    var t := [ResultRow(username, results[0].0, now, results[0].1)] + ResultRows(username, results[1..], now);
    assert |r| == |t|;
    forall i | 0 <= i < |r|
      ensures r[i] == t[i]
    {
      if i > 0 {
        assert results[1..][i - 1] == results[i];
      }
    }
  }

  lemma ResultIdsSplit(db: Db, username: string, results: seq<(int, int)>)
    requires results != []
    ensures (forall i :: 0 <= i < |results| ==> (username, results[i].0) in db.queries)
        <==> (username, results[0].0) in db.queries
             && (forall i :: 0 <= i < |results[1..]| ==> (username, results[1..][i].0) in db.queries)
  {
    assert forall i :: 1 <= i < |results| ==> results[i] == results[1..][i - 1];
  }

  /** `insert_query_results`: a dict of results (as its items, in order)
      logged in one transaction, so one unknown query id logs nothing. */
  function InsertQueryResults(db: Db, username: string, results: seq<(int, int)>, now: string): (o: Outcome<()>)
    ensures o.result.Success? <==> forall i :: 0 <= i < |results| ==> (username, results[i].0) in db.queries
    ensures o.result.Failure? ==> o.db == db
    ensures o.result.Success? ==> o.db == db.(queryResults := db.queryResults + ResultRows(username, results, now))
  {
    Connection(db,
      var d :- InsertResultRows(db, username, results, now);
      Success((d, ())))
  }

  /** The leads a row contributes to one query of one user. */
  function Leads(row: ResultRow, username: string, queryId: int): int {
    if row.username == username && row.queryId == queryId then row.potentialLeads else 0
  }

  /** Sum of the leads logged for one query of one user. */
  function TotalLeads(rows: seq<ResultRow>, username: string, queryId: int): int {
    if rows == [] then 0
    else
      var last := rows[|rows| - 1];
      TotalLeads(rows[..|rows| - 1], username, queryId) + Leads(last, username, queryId)
  }

  /** `get_query_results_total`: the sum of the logged leads, 0 if none. */
  function GetQueryResultsTotal(db: Db, username: string, queryId: int): int {
    TotalLeads(db.queryResults, username, queryId)
  }

  /* ---------------- users ---------------- */

  datatype UserRecord = UserRecord(
    username: string,
    row: UserRow,
    aiMethod: string,
    apiKey: Option<string>,
    credentials: seq<string>,
    websites: seq<string>,
    sourceDocumentPaths: seq<string>,
    desiredJobTitles: seq<string>,
    desiredJobLocations: seq<string>,
    onlinePresence: map<string, PresenceRow>,
    combinedSourceDocuments: seq<string>)

  /** A list table of a user read back `ORDER BY position`. */
  function ReadUserList(db: Db, kind: UserList, username: string): seq<string> {
    Ordered(Project(db.userLists, kind, username))
  }

  /** `_build_user_dict`. A missing users row reads as all-empty fields, the
      values the user object falls back to; an API key is reported only when
      it is non-empty. Online presence has no ORDER BY and is kept as a map
      from site to entry. */
  function BuildUserDict(db: Db, username: string): (u: UserRecord)
    ensures u.username == username
    ensures username in db.users ==> u.row == db.users[username]
    ensures username !in db.users ==> u.row == DefaultUserRow
    ensures username !in db.aiCredentials ==> u.aiMethod == DefaultAiMethod && u.apiKey.None?
    ensures username in db.aiCredentials ==>
      var ai := db.aiCredentials[username];
      && u.aiMethod == ai.aiMethod
      && (u.apiKey.Some? <==> ai.apiKey.Some? && ai.apiKey.value != "")
      && (u.apiKey.Some? ==> u.apiKey == ai.apiKey)
    ensures u.apiKey.Some? ==> u.apiKey.value != ""
    ensures u.credentials == ReadUserList(db, Credentials, username)
    ensures u.websites == ReadUserList(db, Websites, username)
    ensures u.sourceDocumentPaths == ReadUserList(db, SourceDocumentPaths, username)
    ensures u.desiredJobTitles == ReadUserList(db, DesiredJobTitles, username)
    ensures u.desiredJobLocations == ReadUserList(db, DesiredJobLocations, username)
    ensures forall site :: site in u.onlinePresence <==> (username, site) in db.onlinePresence
    ensures forall site :: site in u.onlinePresence ==> u.onlinePresence[site] == db.onlinePresence[(username, site)]
    ensures var ps := SortedElems(UserDocuments(db, username).Keys);
      && |u.combinedSourceDocuments| == |ps|
      && forall i :: 0 <= i < |ps| ==>
           (username, ps[i]) in db.combinedDocuments && u.combinedSourceDocuments[i] == db.combinedDocuments[(username, ps[i])]
  {
    var row := if username in db.users then db.users[username] else DefaultUserRow;
    var ai := if username in db.aiCredentials then db.aiCredentials[username] else AiRow(DefaultAiMethod, None);
    var key := if ai.apiKey.Some? && ai.apiKey.value != "" then ai.apiKey else None;
    UserRecord(
      username, row, ai.aiMethod, key,
      ReadUserList(db, Credentials, username),
      ReadUserList(db, Websites, username),
      ReadUserList(db, SourceDocumentPaths, username),
      ReadUserList(db, DesiredJobTitles, username),
      ReadUserList(db, DesiredJobLocations, username),
      UserPresence(db, username),
      Ordered(UserDocuments(db, username)))
  }

  /** The online presence of one user, keyed by site. */
  function UserPresence(db: Db, username: string): (r: map<string, PresenceRow>)
    ensures forall site :: site in r <==> (username, site) in db.onlinePresence
    ensures forall site :: site in r ==> r[site] == db.onlinePresence[(username, site)]
  {
    map k | k in db.onlinePresence && k.0 == username :: k.1 := db.onlinePresence[k]
  }

  /** The combined documents of one user, keyed by position. */
  function UserDocuments(db: Db, username: string): (r: map<int, string>)
    ensures forall p :: p in r <==> (username, p) in db.combinedDocuments
    ensures forall p :: p in r ==> r[p] == db.combinedDocuments[(username, p)]
  {
    map k | k in db.combinedDocuments && k.0 == username :: k.1 := db.combinedDocuments[k]
  }

  /** `get_or_create_user`: the user dict and whether it was just created.
      Creating adds an all-default users row and an AI-credentials row with
      the default method. */
  function GetOrCreateUser(db: Db, username: string): (o: Outcome<(UserRecord, bool)>)
    ensures username in db.users ==> o.db == db && o.result.Success? && !o.result.value.1
    ensures username !in db.users ==> (o.result.Success? <==> username !in db.aiCredentials)
    ensures username !in db.users && o.result.Success? ==>
      && o.result.value.1
      && o.db == db.(users := db.users[username := DefaultUserRow],
                     aiCredentials := db.aiCredentials[username := AiRow(DefaultAiMethod, None)])
    ensures o.result.Failure? ==> o.db == db
    ensures o.result.Success? ==> o.result.value.0 == BuildUserDict(o.db, username)
  {
    Connection(db,
      if username in db.users then Success((db, (BuildUserDict(db, username), false)))
      else if username in db.aiCredentials then Failure(PrimaryKeyConflict("user_ai_credentials"))
      else
        var d := db.(users := db.users[username := DefaultUserRow],
                     aiCredentials := db.aiCredentials[username := AiRow(DefaultAiMethod, None)]);
        Success((d, (BuildUserDict(d, username), true))))
  }

  const UserFields: set<string> := {"name", "email", "source_document_summary", "online_presence_summary",
    "comprehensive_summary", "comprehensive_summary_generated_at", "cover_letter_output_dir"}

  function SetUserColumn(row: UserRow, field: string, value: string): UserRow
    requires field in UserFields
  {
    match field
    case "name" => row.(name := value)
    case "email" => row.(email := value)
    case "source_document_summary" => row.(sourceDocumentSummary := value)
    case "online_presence_summary" => row.(onlinePresenceSummary := value)
    case "comprehensive_summary" => row.(comprehensiveSummary := value)
    case "comprehensive_summary_generated_at" => row.(comprehensiveSummaryGeneratedAt := value)
    case _ => row.(coverLetterOutputDir := value)
  }

  /** `update_user_field`: allowlisted scalar columns only. */
  function UpdateUserField(db: Db, username: string, field: string, value: string): (o: Outcome<()>)
    ensures o.result.Failure? <==> field !in UserFields
    ensures o.result.Failure? ==> o.db == db
    ensures o.result.Success? && username !in db.users ==> o.db == db
    ensures o.result.Success? && username in db.users ==>
      o.db == db.(users := db.users[username := SetUserColumn(db.users[username], field, value)])
  {
    if field !in UserFields then Outcome(db, Failure(DisallowedField(field)))
    else Connection(db,
      if username in db.users then Success((db.(users := db.users[username := SetUserColumn(db.users[username], field, value)]), ()))
      else Success((db, ())))
  }

  /** `set_user_ai_credentials`: `INSERT OR REPLACE`. */
  function SetUserAiCredentials(db: Db, username: string, aiMethod: string, apiKey: Option<string>): (o: Outcome<()>)
    ensures o.result.Failure? <==> username !in db.users
    ensures o.result.Failure? ==> o.db == db
    ensures o.result.Success? ==> o.db == db.(aiCredentials := db.aiCredentials[username := AiRow(aiMethod, apiKey)])
  {
    Connection(db,
      if username !in db.users then Failure(ForeignKeyFailure("user_ai_credentials"))
      else Success((db.(aiCredentials := db.aiCredentials[username := AiRow(aiMethod, apiKey)]), ())))
  }

  /** `_set_user_list` (behind `set_user_credentials`, `set_user_websites`,
      `set_user_source_document_paths`, `set_user_desired_job_titles` and
      `set_user_desired_job_locations`): delete, then insert by position. */
  function SetUserList(db: Db, username: string, kind: UserList, items: seq<string>): (o: Outcome<()>)
    ensures o.result.Failure? <==> |items| > 0 && username !in db.users
    ensures o.result.Failure? ==> o.db == db
    ensures o.result.Success? ==> o.db == db.(userLists := Replace(db.userLists, kind, username, items))
  {
    Connection(db,
      if |items| > 0 && username !in db.users then Failure(ForeignKeyFailure("user list"))
      else Success((db.(userLists := Replace(db.userLists, kind, username, items)), ())))
  }

  /** `add_user_online_presence`: `INSERT OR REPLACE` keyed by site. */
  function AddUserOnlinePresence(db: Db, username: string, site: string, timeFetched: string, fetchSuccess: bool, content: string): (o: Outcome<()>)
    ensures o.result.Failure? <==> username !in db.users
    ensures o.result.Failure? ==> o.db == db
    ensures o.result.Success? ==>
      o.db == db.(onlinePresence := db.onlinePresence[(username, site) := PresenceRow(timeFetched, fetchSuccess, content)])
  {
    Connection(db,
      if username !in db.users then Failure(ForeignKeyFailure("user_online_presence"))
      else Success((db.(onlinePresence := db.onlinePresence[(username, site) := PresenceRow(timeFetched, fetchSuccess, content)]), ())))
  }

  /** `clear_user_online_presence`. */
  function ClearUserOnlinePresence(db: Db, username: string): (o: Outcome<()>)
    ensures o.result.Success?
    ensures forall k :: k in o.db.onlinePresence <==> k in db.onlinePresence && k.0 != username
    ensures o.db == db.(onlinePresence := o.db.onlinePresence)
  {
    Connection(db, Success((db.(onlinePresence := map k | k in db.onlinePresence && k.0 != username :: db.onlinePresence[k]), ())))
  }

  /** `DELETE ... WHERE username = ?` followed by one insert per document
      at positions 0..n-1. */
  function ReplaceDocuments(m: map<(string, int), string>, username: string, documents: seq<string>): (r: map<(string, int), string>)
    ensures forall k :: k in r <==> (k in m && k.0 != username) || (k.0 == username && 0 <= k.1 < |documents|)
    ensures forall k :: k in r && k.0 != username ==> r[k] == m[k]
    ensures forall p :: 0 <= p < |documents| ==> r[(username, p)] == documents[p]
  {
    var kept := map k | k in m && k.0 != username :: m[k];
    kept + map p | 0 <= p < |documents| :: (username, p) := documents[p]
  }

  /** `set_user_combined_source_documents`, each document as its JSON text:
      the user's documents become `documents`, everyone else's are kept. */
  function SetUserCombinedSourceDocuments(db: Db, username: string, documents: seq<string>): (o: Outcome<()>)
    ensures o.result.Failure? <==> |documents| > 0 && username !in db.users
    ensures o.result.Failure? ==> o.db == db
    ensures o.result.Success? ==> forall k :: k in o.db.combinedDocuments <==>
      (k in db.combinedDocuments && k.0 != username) || (k.0 == username && 0 <= k.1 < |documents|)
    ensures o.result.Success? ==> forall p :: 0 <= p < |documents| ==> o.db.combinedDocuments[(username, p)] == documents[p]
    ensures o.result.Success? ==> forall k :: k in db.combinedDocuments && k.0 != username ==>
      o.db.combinedDocuments[k] == db.combinedDocuments[k]
    ensures o.result.Success? ==> o.db == db.(combinedDocuments := o.db.combinedDocuments)
  {
    Connection(db,
      if |documents| > 0 && username !in db.users then Failure(ForeignKeyFailure("user_combined_source_documents"))
      else Success((db.(combinedDocuments := ReplaceDocuments(db.combinedDocuments, username, documents)), ())))
  }
}
