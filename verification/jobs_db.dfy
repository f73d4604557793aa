/** Jobs as objects over the store (src/data_handlers/jobs_db.py).

    A `Job` is the in-memory object; each setter updates the object and
    writes through to its own column of the store, so a setter is a
    function from (job, store) to the new job, the new store and whether
    the write raised. `JobCache` is `JobsDB`: the user's jobs keyed by id,
    loaded from the store and extended by `add`. Whether a file exists on
    disk is the parameter `fileExists`; the fresh uuid and the clock are
    parameters too. */
module JobsDb {
  import opened Wrappers
  import opened Seqs
  import opened Store
  import opened StoreLaws

  datatype JobStatus = Pending | InProgress | Applied | Discarded

  /** The string value of each status, as stored in `job_status`. */
  function StatusValue(s: JobStatus): string {
    match s
    case Pending => "pending"
    case InProgress => "in_progress"
    case Applied => "applied"
    case Discarded => "discarded"
  }

  /** `JobStatus(value)`: the status with that value, or the ValueError the
      enum raises for any other string. */
  function ParseStatus(v: string): (r: Option<JobStatus>)
    ensures r.Some? <==> exists s :: StatusValue(s) == v
    ensures r.Some? ==> StatusValue(r.value) == v
  {
    if v == "pending" then assert StatusValue(Pending) == v; Some(Pending)
    else if v == "in_progress" then assert StatusValue(InProgress) == v; Some(InProgress)
    else if v == "applied" then assert StatusValue(Applied) == v; Some(Applied)
    else if v == "discarded" then assert StatusValue(Discarded) == v; Some(Discarded)
    else None
  }

  /** A question dict; questions read back by `get_job` carry no id. */
  datatype Question = Question(id: Option<int>, question: string, answer: string)

  datatype Job = Job(
    id: string,
    username: string,
    company: string,
    title: string,
    dateFound: string,
    status: JobStatus,
    link: string,
    location: Option<string>,
    description: Option<string>,
    topics: seq<TopicDict>,
    fullDescription: Option<string>,
    body: string,
    addressee: Option<string>,
    pdfPath: Option<string>,
    questions: seq<Question>,
    queryIds: seq<int>)

  /** The constructor's handling of the pdf path: a path whose file does not
      exist is dropped. */
  function CheckedPdfPath(path: Option<string>, fileExists: string -> bool): (r: Option<string>)
    ensures r.Some? <==> path.Some? && fileExists(path.value)
    ensures r.Some? ==> r == path
  {
    if path.Some? && fileExists(path.value) then path else None
  }

  /** `Job.create`: a new job with the fresh id, status PENDING, no topics,
      empty body, no questions and no pdf path, inserted into the store.
      A NULL company, title or link fails the first INSERT. */
  function Create(
    db: Db, username: string, freshId: string, company: Option<string>, title: Option<string>,
    link: Option<string>, location: Option<string>, description: Option<string>,
    fullDescription: Option<string>, addressee: Option<string>, queryIds: seq<int>, now: string): (o: (Job, Outcome<()>))
    ensures o.1.result.Failure? ==> o.1.db == db
    ensures o.1.result.Success? <==>
      company.Some? && title.Some? && link.Some? && CanInsertJob(db, username, freshId, queryIds)
    ensures o.1.result.Success? ==>
      && o.0 == Job(freshId, username, company.value, title.value, now, Pending, link.value,
                    location, description, [], fullDescription, "", addressee, None, [], queryIds)
      && o.1.db == InsertJob(db, username, freshId, company.value, title.value, now, link.value, location,
                             description, fullDescription, addressee, StatusValue(Pending), queryIds, now).db
  {
    if company.None? then (NullJob(freshId, username, now), Outcome(db, Failure(NotNullFailure("company"))))
    else if title.None? then (NullJob(freshId, username, now), Outcome(db, Failure(NotNullFailure("title"))))
    else if link.None? then (NullJob(freshId, username, now), Outcome(db, Failure(NotNullFailure("link"))))
    else
      var job := Job(freshId, username, company.value, title.value, now, Pending, link.value,
                     location, description, [], fullDescription, "", addressee, None, [], queryIds);
      (job, InsertJob(db, username, freshId, company.value, title.value, now, link.value, location,
                      description, fullDescription, addressee, StatusValue(Pending), queryIds, now))
  }

  /** The object a failed `create` would have built; it never reaches the
      caller, since the exception propagates. */
  function NullJob(freshId: string, username: string, now: string): Job {
    Job(freshId, username, "", "", now, Pending, "", None, None, [], None, "", None, None, [], [])
  }

  /** The state after a setter: the object, the store, and the exception the
      write raised, if any. The object is updated before the write, so it
      keeps the new value even when the write raises. */
  datatype Step = Step(job: Job, db: Db, result: Result<(), DbError>)

  /** The columns with a plain setter. */
  datatype Field = Company | Title | Location | Description | FullDescription | Addressee

  function ColumnName(f: Field): (c: string)
    ensures c in JobFields
  {
    match f
    case Company => "company"
    case Title => "title"
    case Location => "location"
    case Description => "description"
    case FullDescription => "full_description"
    case Addressee => "addressee"
  }

  /** The in-memory side of a setter. */
  function WithField(job: Job, f: Field, value: Option<string>): Job
    requires f == Company || f == Title ==> value.Some?
  {
    match f
    case Company => job.(company := value.value)
    case Title => job.(title := value.value)
    case Location => job.(location := value)
    case Description => job.(description := value)
    case FullDescription => job.(fullDescription := value)
    case Addressee => job.(addressee := value)
  }

  /** The `company`, `title`, `location`, `description`, `full_description`
      and `addressee` setters. Only `addressee` takes `None`; the others
      take a string. */
  function SetField(job: Job, db: Db, f: Field, value: Option<string>): (s: Step)
    requires f != Addressee ==> value.Some?
    ensures s.job == WithField(job, f, value)
    ensures s.result.Success?
    ensures (job.username, job.id) !in db.jobs ==> s.db == db
    ensures (job.username, job.id) in db.jobs ==>
      s.db == db.(jobs := db.jobs[(job.username, job.id) := SetJobColumn(db.jobs[(job.username, job.id)], ColumnName(f), value)])
  {
    var o := UpdateJobField(db, job.username, job.id, ColumnName(f), value);
    Step(WithField(job, f, value), o.db, o.result)
  }

  /** The `status` setter: any status may follow any other. */
  function SetStatus(job: Job, db: Db, status: JobStatus, now: string): (s: Step)
    ensures s.job == job.(status := status)
    ensures s.result.Success?
    ensures (job.username, job.id) in db.jobStatus ==>
      s.db == db.(jobStatus := db.jobStatus[(job.username, job.id) := StatusRow(StatusValue(status), now)])
    ensures (job.username, job.id) !in db.jobStatus ==> s.db == db
  {
    var o := UpdateJobStatus(db, job.username, job.id, StatusValue(status), now);
    Step(job.(status := status), o.db, o.result)
  }

  /** The `cover_letter_topics` setter. */
  function SetTopics(job: Job, db: Db, topics: seq<TopicDict>): (s: Step)
    ensures s.job == job.(topics := topics)
    ensures s.result.Failure? <==> |topics| > 0 && (job.username, job.id) !in db.jobs
    ensures s.result.Failure? ==> s.db == db
    ensures s.result.Success? ==> s.db == db.(topics := Replace(db.topics, job.username, job.id, TopicRows(topics)))
  {
    var o := UpdateJobCoverLetter(db, job.username, job.id, Some(topics), None, None);
    Step(job.(topics := topics), o.db, o.result)
  }

  /** The `cover_letter_body` setter. */
  function SetBody(job: Job, db: Db, body: string): (s: Step)
    ensures s.job == job.(body := body)
    ensures s.result.Success?
    ensures s.db == db.(coverLetters := s.db.coverLetters)
    ensures s.db.coverLetters.Keys == db.coverLetters.Keys
    ensures (job.username, job.id) in db.coverLetters ==>
      s.db.coverLetters[(job.username, job.id)] == db.coverLetters[(job.username, job.id)].(body := body)
    ensures forall k :: k in db.coverLetters && k != (job.username, job.id) ==> s.db.coverLetters[k] == db.coverLetters[k]
  {
    var o := UpdateJobCoverLetter(db, job.username, job.id, None, Some(body), None);
    Step(job.(body := body), o.db, o.result)
  }

  /** `set_cover_letter_pdf_path`: a path whose file does not exist changes
      nothing; otherwise the object takes the new path (`None` included).
      Only a path is written to the store: `None` leaves the stored path as
      it was. Deleting the old file is not modelled. */
  function SetPdfPath(job: Job, db: Db, newPath: Option<string>, fileExists: string -> bool): (s: Step)
    ensures newPath.Some? && !fileExists(newPath.value) ==> s == Step(job, db, Success(()))
    ensures newPath.None? || fileExists(newPath.value) ==> s.job == job.(pdfPath := newPath)
    ensures s.result.Success?
    ensures newPath.None? ==> s.db == db
    ensures s.db == db.(coverLetters := s.db.coverLetters)
    ensures s.db.coverLetters.Keys == db.coverLetters.Keys
    ensures newPath.Some? && fileExists(newPath.value) && (job.username, job.id) in db.coverLetters ==>
      s.db.coverLetters[(job.username, job.id)].pdfPath == newPath
  {
    if newPath.Some? && !fileExists(newPath.value) then Step(job, db, Success(()))
    else
      var o := UpdateJobCoverLetter(db, job.username, job.id, None, None, newPath);
      Step(job.(pdfPath := newPath), o.db, o.result)
  }

  /** The `questions` setter: only an empty list reaches the store. */
  function SetQuestions(job: Job, db: Db, questions: seq<Question>): (s: Step)
    ensures s.job == job.(questions := questions)
    ensures s.result.Success?
    ensures questions != [] ==> s.db == db
    ensures questions == [] ==> s.db == db.(questions := Drop(db.questions, job.username, job.id))
  {
    if questions == [] then
      var o := ClearJobQuestions(db, job.username, job.id);
      Step(job.(questions := questions), o.db, o.result)
    else Step(job.(questions := questions), db, Success(()))
  }

  /** `add_question`: the store allocates the id, then the object appends
      the question with an empty answer. A failed insert leaves the object
      as it was. */
  function AddQuestion(job: Job, db: Db, question: string): (s: Step)
    ensures s.result.Failure? <==> (job.username, job.id) !in db.jobs
    ensures s.result.Failure? ==> s.job == job && s.db == db
    ensures s.result.Success? ==>
      exists id ::
        && s.job == job.(questions := job.questions + [Question(Some(id), question, "")])
        && id !in QuestionIds(db, job.username, job.id)
        && s.db == db.(questions := db.questions[(job.username, job.id, id) := QuestionRow(question, "")])
  {
    var o := AddJobQuestion(db, job.username, job.id, question);
    match o.result
    case Failure(e) => Step(job, o.db, Failure(e))
    case Success(id) => Step(job.(questions := job.questions + [Question(Some(id), question, "")]), o.db, Success(()))
  }

  /** Index of the first question with the given text, if any. */
  function FirstQuestion(qs: seq<Question>, text: string): (r: Option<nat>)
    ensures r.None? <==> forall i :: 0 <= i < |qs| ==> qs[i].question != text
    ensures r.Some? ==> r.value < |qs| && qs[r.value].question == text
    ensures r.Some? ==> forall i :: 0 <= i < r.value ==> qs[i].question != text
  {
    if qs == [] then None
    else if qs[0].question == text then Some(0)
    else
      match FirstQuestion(qs[1..], text)
      case None => None
      case Some(i) => Some(i + 1)
  }

  /** `update_question_answer`: the first question with that text takes the
      answer, and the store is written only when that question has an id. */
  function UpdateQuestionAnswer(job: Job, db: Db, text: string, answer: string): (s: Step)
    ensures s.result.Success?
    ensures FirstQuestion(job.questions, text).None? ==> s.job == job && s.db == db
    ensures FirstQuestion(job.questions, text).Some? ==>
      var i := FirstQuestion(job.questions, text).value;
      && s.job == job.(questions := job.questions[i := job.questions[i].(answer := answer)])
      && (job.questions[i].id.None? ==> s.db == db)
      && (job.questions[i].id.Some? ==> s.db == UpdateJobQuestionAnswer(db, job.username, job.id, job.questions[i].id.value, answer).db)
  {
    match FirstQuestion(job.questions, text)
    case None => Step(job, db, Success(()))
    case Some(i) =>
      var q := job.questions[i];
      var job' := job.(questions := job.questions[i := q.(answer := answer)]);
      if q.id.Some? then
        var o := UpdateJobQuestionAnswer(db, job.username, job.id, q.id.value, answer);
        Step(job', o.db, o.result)
      else Step(job', db, Success(()))
  }

  /** `bool(job)`. */
  predicate IsApplied(job: Job) {
    job.status == Applied
  }

  /** The seven lines of the plain-text letter, before joining. */
  function LetterLines(addressee: Option<string>, body: string, name: string): seq<string> {
    [Salutation(addressee), "", body, "", SignOff(addressee), "", name]
  }

  /** `cover_letter_full_text`: nothing without a body; otherwise the
      salutation, the body, the sign-off and the name, each separated by a
      blank line. */
  function CoverLetterFullText(job: Job, name: string): (r: Option<string>)
    ensures r.None? <==> job.body == ""
    ensures r.Some? ==> r.value == LetterText(Salutation(job.addressee), job.body, SignOff(job.addressee), name)
  {
    if job.body == "" then None
    else
      var lines := LetterLines(job.addressee, job.body, name);
      JoinSeven(lines);
      Some(Join("\n", lines))
  }

  /** "Dear {addressee}," when the addressee is set and non-empty, else
      "Dear hiring team,". */
  function Salutation(addressee: Option<string>): string {
    if addressee.Some? && addressee.value != "" then "Dear " + addressee.value + "," else "Dear hiring team,"
  }

  /** "Yours sincerely," to a named addressee, else "Yours faithfully,". */
  function SignOff(addressee: Option<string>): string {
    if addressee.Some? && addressee.value != "" then "Yours sincerely," else "Yours faithfully,"
  }

  /** Four paragraphs separated by blank lines. */
  function LetterText(salutation: string, body: string, signOff: string, name: string): string {
    salutation + ("\n" + ("\n" + (body + ("\n" + ("\n" + (signOff + ("\n" + ("\n" + name))))))))
  }

  /** Seven lines joined by newlines, the even ones blank, unfolded. */
  lemma JoinSeven(l: seq<string>)
    requires |l| == 7 && l[1] == "" && l[3] == "" && l[5] == ""
    ensures Join("\n", l) == LetterText(l[0], l[2], l[4], l[6])
  {
    assert l[6..] == [l[6]];
    assert l[5..][1..] == l[6..];
    assert l[4..][1..] == l[5..];
    assert l[3..][1..] == l[4..];
    assert l[2..][1..] == l[3..];
    assert l[1..][1..] == l[2..];
    assert Join("\n", l[6..]) == l[6];
    var j5 := Join("\n", l[5..]);
    assert j5 == l[5] + ("\n" + l[6]);
    EmptyPrefix(l[5], "\n" + l[6]);
    var j4 := Join("\n", l[4..]);
    assert j4 == l[4] + ("\n" + j5);
    var j3 := Join("\n", l[3..]);
    assert j3 == l[3] + ("\n" + (l[4] + ("\n" + j5)));
    EmptyPrefix(l[3], "\n" + (l[4] + ("\n" + j5)));
    var j2 := Join("\n", l[2..]);
    assert j2 == l[2] + ("\n" + j3);
    var j1 := Join("\n", l[1..]);
    assert j1 == l[1] + ("\n" + (l[2] + ("\n" + j3)));
    EmptyPrefix(l[1], "\n" + (l[2] + ("\n" + j3)));
  }

  lemma EmptyPrefix(e: string, s: string)
    requires e == ""
    ensures e + s == s
  {
  }

  /* ---------------- the collection ---------------- */

  datatype JobCache = JobCache(username: string, jobs: map<string, Job>)

  /** `_dict_to_job`: fails (ValueError) on a status string outside the
      enum. Topics read back carry both keys; questions carry no id. */
  function DictToJob(username: string, rec: JobRecord, fileExists: string -> bool): (r: Option<Job>)
    ensures r.Some? <==> ParseStatus(rec.status).Some?
    ensures r.Some? ==> r.value.id == rec.jobId && r.value.username == username
    ensures r.Some? ==> |r.value.questions| == |rec.questions|
    ensures r.Some? ==> forall i :: 0 <= i < |rec.questions| ==>
      r.value.questions[i] == Question(None, rec.questions[i].question, rec.questions[i].answer)
  {
    var status :- ParseStatus(rec.status);
    Some(Job(
      rec.jobId, username, rec.row.company, rec.row.title, rec.row.dateFound, status, rec.row.link,
      rec.row.location, rec.row.description,
      seq(|rec.topics|, i requires 0 <= i < |rec.topics| => TopicDict(Some(rec.topics[i].topic), Some(rec.topics[i].relevantExperience))),
      rec.row.fullDescription, rec.coverLetterBody, rec.row.addressee,
      CheckedPdfPath(rec.coverLetterPdfPath, fileExists),
      seq(|rec.questions|, i requires 0 <= i < |rec.questions| => Question(None, rec.questions[i].question, rec.questions[i].answer)),
      rec.queryIds))
  }

  /** Every loaded record converts. */
  predicate AllStatusesValid(db: Db, username: string) {
    forall k :: k in db.jobStatus && k.0 == username ==> ParseStatus(db.jobStatus[k].status).Some?
  }

  /** The cache holds exactly the store's jobs of its user. */
  ghost predicate Coherent(c: JobCache, db: Db) {
    && (forall id :: id in c.jobs <==> (c.username, id) in db.jobs)
    && (forall id :: id in c.jobs ==> c.jobs[id].id == id && c.jobs[id].username == c.username)
  }

  /** The questions of a job as `get_job_questions` returns them: each
      with its id. */
  function StoredQuestions(db: Db, username: string, jobId: string): (r: seq<Question>)
    ensures |r| == |GetJobQuestions(db, username, jobId)|
    ensures forall i :: 0 <= i < |r| ==>
      var q := GetJobQuestions(db, username, jobId)[i];
      r[i] == Question(Some(q.id), q.question, q.answer)
  {
    var qs := GetJobQuestions(db, username, jobId);
    seq(|qs|, i requires 0 <= i < |qs| => Question(Some(qs[i].id), qs[i].question, qs[i].answer))
  }

  /** `JobsDB.__init__` / `_load_all`: every stored job of the user
      converted by `_dict_to_job`, or nothing when a stored status is not a
      `JobStatus` value. As `get_job` omits the question ids, no loaded
      question carries one. */
  function Load(db: Db, username: string, fileExists: string -> bool): (r: Option<JobCache>)
    ensures r.Some? <==> forall j :: (username, j) in db.jobs ==> ParseStatus(GetJob(db, username, j).value.status).Some?
    ensures r.Some? ==> r.value.username == username && Coherent(r.value, db)
    ensures r.Some? ==> forall j :: j in r.value.jobs ==>
      Some(r.value.jobs[j]) == DictToJob(username, GetJob(db, username, j).value, fileExists)
  {
    var recs := GetAllJobs(db, username);
    if forall j :: j in recs ==> ParseStatus(recs[j].status).Some? then
      Some(JobCache(username, map j | j in recs :: DictToJob(username, recs[j], fileExists).value))
    else None
  }

  /** As written, answering a question of any job the collection loaded
      changes only the object: the store is left as it was. */
  lemma LoadedAnswersNotStored(db: Db, username: string, fileExists: string -> bool, jobId: string, text: string, answer: string)
    requires Load(db, username, fileExists).Some?
    requires jobId in Load(db, username, fileExists).value.jobs
    ensures UpdateQuestionAnswer(Load(db, username, fileExists).value.jobs[jobId], db, text, answer).db == db
  {
    AnswerNotStoredAsWritten(db, username, GetJob(db, username, jobId).value, fileExists, text, answer);
  }

  /** The corrected conversion of one stored job (see Findings in the
      README): `_dict_to_job` with the questions read through
      `get_job_questions`, so each keeps its id. */
  function LoadJobWithIds(db: Db, username: string, jobId: string, fileExists: string -> bool): (r: Option<Job>)
    requires (username, jobId) in db.jobs
    ensures r.Some? <==> DictToJob(username, GetJob(db, username, jobId).value, fileExists).Some?
    ensures r.Some? ==> r.value == DictToJob(username, GetJob(db, username, jobId).value, fileExists).value.(
      questions := StoredQuestions(db, username, jobId))
  {
    var job :- DictToJob(username, GetJob(db, username, jobId).value, fileExists);
    Some(job.(questions := StoredQuestions(db, username, jobId)))
  }

  /** The corrected `_load_all`: as `Load`, with every question carrying
      its id. */
  function LoadWithIds(db: Db, username: string, fileExists: string -> bool): (r: Option<JobCache>)
    ensures r.Some? <==> Load(db, username, fileExists).Some?
    ensures r.Some? ==> r.value.username == username && Coherent(r.value, db)
    ensures r.Some? ==> forall j :: j in r.value.jobs ==>
      r.value.jobs[j] == Load(db, username, fileExists).value.jobs[j].(questions := StoredQuestions(db, username, j))
  {
    var recs := GetAllJobs(db, username);
    if forall j :: j in recs ==> ParseStatus(recs[j].status).Some? then
      Some(JobCache(username, map j | j in recs :: LoadJobWithIds(db, username, j, fileExists).value))
    else None
  }

  /** `number_total` and `len`. */
  function NumberTotal(c: JobCache): nat {
    |c.jobs|
  }

  /** `number_applied`, `number_in_progress`, `number_discarded` and
      `number_pending`: counted by the store, not the cache. */
  function NumberWithStatus(c: JobCache, db: Db, s: JobStatus): nat {
    CountJobsByStatus(db, c.username, StatusValue(s))
  }

  /** `has_link`: asked of the store, exact string equality. */
  predicate HasLink(c: JobCache, db: Db, link: string) {
    JobHasLink(db, c.username, link)
  }

  /** `get`. */
  function Get(c: JobCache, id: string): (r: Option<Job>)
    ensures r.Some? <==> id in c.jobs
    ensures r.Some? ==> r.value == c.jobs[id]
  {
    if id in c.jobs then Some(c.jobs[id]) else None
  }

  datatype Added = Added(cache: JobCache, db: Db, result: Result<Job, DbError>)

  /** `JobsDB.add`: `Job.create`, then the new job joins the cache. */
  function Add(
    c: JobCache, db: Db, freshId: string, company: Option<string>, title: Option<string>,
    link: Option<string>, location: Option<string>, description: Option<string>,
    fullDescription: Option<string>, addressee: Option<string>, queryIds: seq<int>, now: string): (a: Added)
    ensures a.result.Failure? ==> a.cache == c && a.db == db
    ensures a.result.Success? <==>
      company.Some? && title.Some? && link.Some? && CanInsertJob(db, c.username, freshId, queryIds)
    ensures a.result.Success? ==>
      && a.cache == c.(jobs := c.jobs[freshId := a.result.value])
      && a.result.value.id == freshId
      && a.result.value.status == Pending
  {
    var (job, o) := Create(db, c.username, freshId, company, title, link, location, description,
                           fullDescription, addressee, queryIds, now);
    match o.result
    case Failure(e) => Added(c, o.db, Failure(e))
    case Success(_) => Added(c.(jobs := c.jobs[freshId := job]), o.db, Success(job))
  }

  /** Adding to a coherent cache keeps it coherent, grows it by one, and
      makes the new job retrievable by id. */
  lemma AddGrowsByOne(
    c: JobCache, db: Db, freshId: string, company: string, title: string,
    link: string, location: Option<string>, description: Option<string>,
    fullDescription: Option<string>, addressee: Option<string>, queryIds: seq<int>, now: string)
    requires Coherent(c, db)
    requires CanInsertJob(db, c.username, freshId, queryIds)
    ensures var a := Add(c, db, freshId, Some(company), Some(title), Some(link), location, description,
                         fullDescription, addressee, queryIds, now);
      && a.result.Success?
      && Coherent(a.cache, a.db)
      && NumberTotal(a.cache) == NumberTotal(c) + 1
      && Get(a.cache, freshId) == Some(a.result.value)
  {
    AddCoherent(c, db, freshId, company, title, link, location, description, fullDescription, addressee, queryIds, now);
    var a := Add(c, db, freshId, Some(company), Some(title), Some(link), location, description,
                 fullDescription, addressee, queryIds, now);
    assert freshId !in c.jobs;
  }

  lemma AddCoherent(
    c: JobCache, db: Db, freshId: string, company: string, title: string,
    link: string, location: Option<string>, description: Option<string>,
    fullDescription: Option<string>, addressee: Option<string>, queryIds: seq<int>, now: string)
    requires Coherent(c, db)
    requires CanInsertJob(db, c.username, freshId, queryIds)
    ensures var a := Add(c, db, freshId, Some(company), Some(title), Some(link), location, description,
                         fullDescription, addressee, queryIds, now);
      Coherent(a.cache, a.db)
  {
    AddStoresRow(c, db, freshId, company, title, link, location, description, fullDescription, addressee, queryIds, now);
  }

  /** A successful add stores exactly one new job row. */
  lemma AddStoresRow(
    c: JobCache, db: Db, freshId: string, company: string, title: string,
    link: string, location: Option<string>, description: Option<string>,
    fullDescription: Option<string>, addressee: Option<string>, queryIds: seq<int>, now: string)
    requires CanInsertJob(db, c.username, freshId, queryIds)
    ensures var a := Add(c, db, freshId, Some(company), Some(title), Some(link), location, description,
                         fullDescription, addressee, queryIds, now);
      a.db.jobs == db.jobs[(c.username, freshId) := JobRow(company, title, now, link, location, description, fullDescription, addressee)]
  {
  }

  /** Reloading after `create` gives back the created job, provided its
      query ids were listed in ascending order (the order they are read
      back in) and no stored pdf path is involved. */
  lemma {:induction false} LoadAfterCreate(
    db: Db, username: string, freshId: string, company: string, title: string,
    link: string, location: Option<string>, description: Option<string>,
    fullDescription: Option<string>, addressee: Option<string>, queryIds: seq<int>, now: string,
    fileExists: string -> bool)
    requires Wellformed(db)
    requires CanInsertJob(db, username, freshId, queryIds)
    requires StrictlyIncreasing(queryIds)
    ensures var (job, o) := Create(db, username, freshId, Some(company), Some(title), Some(link), location,
                                   description, fullDescription, addressee, queryIds, now);
      && o.result.Success?
      && GetJob(o.db, username, freshId).Some?
      && DictToJob(username, GetJob(o.db, username, freshId).value, fileExists) == Some(job)
  {
    var (job, o) := Create(db, username, freshId, Some(company), Some(title), Some(link), location,
                           description, fullDescription, addressee, queryIds, now);
    var ins := InsertJob(db, username, freshId, company, title, now, link, location, description,
                         fullDescription, addressee, StatusValue(Pending), queryIds, now);
    assert o == ins;
    GetJobAfterInsert(db, username, freshId, company, title, now, link, location, description,
                      fullDescription, addressee, StatusValue(Pending), queryIds, now);
    var rec := GetJob(ins.db, username, freshId).value;
    assert rec.queryIds == queryIds by {
      assert StrictlyIncreasing(rec.queryIds);
      IncreasingUnique(rec.queryIds, queryIds);
    }
    FreshRecordLoads(username, rec, fileExists);
  }

  /** A record with no side data loads as a pending job with nothing
      attached. */
  lemma FreshRecordLoads(username: string, rec: JobRecord, fileExists: string -> bool)
    requires rec.status == "pending" && rec.topics == [] && rec.questions == []
    requires rec.coverLetterBody == "" && rec.coverLetterPdfPath.None?
    ensures DictToJob(username, rec, fileExists) == Some(Job(
      rec.jobId, username, rec.row.company, rec.row.title, rec.row.dateFound, Pending, rec.row.link,
      rec.row.location, rec.row.description, [], rec.row.fullDescription, "", rec.row.addressee,
      None, [], rec.queryIds))
  {
    var loaded := DictToJob(username, rec, fileExists).value;
    assert |loaded.topics| == 0 && |loaded.questions| == 0;
  }

  /** As written, a job read back through `get_job` has questions without
      ids, so answering one of them changes only the object: the store keeps
      the old answer and the next load loses the new one. */
  lemma AnswerNotStoredAsWritten(db: Db, username: string, rec: JobRecord, fileExists: string -> bool, text: string, answer: string)
    requires DictToJob(username, rec, fileExists).Some?
    ensures var job := DictToJob(username, rec, fileExists).value;
      UpdateQuestionAnswer(job, db, text, answer).db == db
  {
    var job := DictToJob(username, rec, fileExists).value;
    match FirstQuestion(job.questions, text)
    case None =>
    case Some(i) =>
      assert job.questions[i].id.None?;
  }

  /** A concrete case: a job whose one question, read back without its
      id, is answered; the object has the answer and the store does not. */
  lemma AnswerLostExample()
    ensures var db := SampleDb();
      var rec := JobRecord("j", SampleRow(), "pending", "", None, [], [], [QuestionRow("Why us?", "")]);
      var job := DictToJob("u", rec, NoFiles).value;
      var s := UpdateQuestionAnswer(job, db, "Why us?", "Because.");
      && s.job.questions[0].answer == "Because."
      && s.db.questions[("u", "j", 1)].answer == ""
  {
    var rec := JobRecord("j", SampleRow(), "pending", "", None, [], [], [QuestionRow("Why us?", "")]);
    var job := DictToJob("u", rec, NoFiles).value;
    assert job.questions == [Question(None, "Why us?", "")];
    assert FirstQuestion(job.questions, "Why us?") == Some(0);
  }

  function NoFiles(path: string): bool {
    false
  }

  function SampleRow(): JobRow {
    JobRow("Acme", "Engineer", "2024-01-01", "https://acme.example/1", None, None, None, None)
  }

  function SampleDb(): Db {
    EmptyDb.(
      jobs := map[("u", "j") := SampleRow()],
      jobStatus := map[("u", "j") := StatusRow("pending", "2024-01-01")],
      questions := map[("u", "j", 1) := QuestionRow("Why us?", "")])
  }

  /** With the ids loaded, answering a question stores the answer under
      that question's id: the store's list of questions shows it at the
      same position. */
  lemma AnswerStored(db: Db, job: Job, text: string, answer: string)
    requires job.questions == StoredQuestions(db, job.username, job.id)
    requires FirstQuestion(job.questions, text).Some?
    ensures var i := FirstQuestion(job.questions, text).value;
      var s := UpdateQuestionAnswer(job, db, text, answer);
      && s.job.questions[i].answer == answer
      && |GetJobQuestions(s.db, job.username, job.id)| == |job.questions|
      && GetJobQuestions(s.db, job.username, job.id)[i].answer == answer
  {
    var i := FirstQuestion(job.questions, text).value;
    var id := GetJobQuestions(db, job.username, job.id)[i].id;
    assert job.questions[i].id == Some(id);
    AnswerListed(db, job.username, job.id, i, answer);
  }

  /** With the corrected loader, answering a question of a loaded job
      stores the answer at that question's place in the store's list. */
  lemma LoadedWithIdsAnswersStored(db: Db, username: string, fileExists: string -> bool, jobId: string, text: string, answer: string)
    requires LoadWithIds(db, username, fileExists).Some?
    requires jobId in LoadWithIds(db, username, fileExists).value.jobs
    requires FirstQuestion(LoadWithIds(db, username, fileExists).value.jobs[jobId].questions, text).Some?
    ensures var job := LoadWithIds(db, username, fileExists).value.jobs[jobId];
      var i := FirstQuestion(job.questions, text).value;
      var s := UpdateQuestionAnswer(job, db, text, answer);
      && |GetJobQuestions(s.db, username, jobId)| == |job.questions|
      && GetJobQuestions(s.db, username, jobId)[i].answer == answer
  {
    var job := LoadWithIds(db, username, fileExists).value.jobs[jobId];
    AnswerStored(db, job, text, answer);
  }

  /** The status setter accepts every transition: whatever the status was,
      afterwards it is the one set, in the object and in the store. */
  lemma AnyTransition(job: Job, db: Db, status: JobStatus, now: string)
    requires (job.username, job.id) in db.jobStatus
    ensures var s := SetStatus(job, db, status, now);
      && s.job.status == status
      && ParseStatus(s.db.jobStatus[(job.username, job.id)].status) == Some(status)
      && (IsApplied(s.job) <==> status == Applied)
  {
  }
}
