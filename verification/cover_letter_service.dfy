/** The cover letter workflow (src/services/cover_letter_service.py): check
    the inputs, have the topics and the body written, store them on the
    job, and compile the letter to a PDF whose path is stored too.

    The language model, the LaTeX compiler, path resolution, the file
    system and the clock are all outside the program: they are the fields
    of `World`. Progress messages are not modelled. A write to the store
    that raises propagates out of the workflow as a `Failure`. */
module CoverLetterService {
  import opened Wrappers
  import opened Text
  import opened Store
  import JobsDb
  import UserData
  import UrlSlug
  import SearchJobs
  import CoverLetterWriter

  /** `CoverLetterResult`. */
  datatype LetterResult = LetterResult(
    success: bool,
    message: string,
    topicsGenerated: bool,
    bodyGenerated: bool,
    pdfPath: Option<string>)

  /** A failed result carrying only its message. */
  function Fail(message: string): (r: LetterResult)
    ensures !r.success && r.message == message && !r.topicsGenerated && !r.bodyGenerated && r.pdfPath.None?
  {
    LetterResult(false, message, false, false, None)
  }

  /** The user's fields the workflow reads beyond the stored profile:
      the email, the comprehensive summary and the configured output
      directory ("" when none is set). */
  datatype Applicant = Applicant(
    user: UserData.User,
    email: string,
    comprehensiveSummary: string,
    outputDirSetting: string)

  /** Everything outside the program. `topicsLlm` and `bodyLlm` are the
      two generators' model calls, already parsed and stripped;
      `combine` is `combined_documents_as_string`; `compile` is what
      `save_pdf` does with a letter: lay out its LaTeX source for the given
      date and compile it into the given path, reporting success;
      `resolve` makes a path absolute. */
  datatype World = World(
    topicsLlm: (string, string) -> seq<TopicDict>,
    bodyLlm: (string, string, string, string, seq<TopicDict>) -> string,
    combine: seq<string> -> string,
    compile: (CoverLetterWriter.Letter, string, string) -> bool,
    resolve: string -> string,
    fileExists: string -> bool,
    home: string,
    date: string,
    timestamp: string)

  /** The job and the store after a workflow that cannot raise, and what
      it returned. */
  datatype Exported = Exported(job: JobsDb.Job, db: Db, result: LetterResult)

  /** The job and the store after `generate`, and what it returned, or the
      store error it raised. */
  datatype ServiceStep = ServiceStep(job: JobsDb.Job, db: Db, outcome: Result<LetterResult, DbError>)

  /* ---- inputs ---- */

  /** `job.full_description or job.description`, "" standing for every
      falsy value. */
  function JobDescription(job: JobsDb.Job): (r: string)
    ensures job.fullDescription.Some? && job.fullDescription.value != "" ==> r == job.fullDescription.value
    ensures (job.fullDescription.None? || job.fullDescription.value == "") ==> r == job.description.GetOr("")
    ensures r == "" <==> (job.fullDescription.None? || job.fullDescription.value == "")
                         && (job.description.None? || job.description.value == "")
  {
    if job.fullDescription.Some? && job.fullDescription.value != "" then job.fullDescription.value
    else job.description.GetOr("")
  }

  /** `user.comprehensive_summary or combined_documents_as_string(...)`. */
  function UserBackground(a: Applicant, env: World): (r: string)
    ensures r == "" <==> a.comprehensiveSummary == "" && env.combine(a.user.combinedSourceDocuments) == ""
  {
    SearchJobs.Background(a.comprehensiveSummary, env.combine(a.user.combinedSourceDocuments))
  }

  /** `cover_letter_output_dir`: the configured directory, or
      `~/JobSearchCoverLetters/<username>` when none is set. */
  function OutputDir(a: Applicant, home: string): (r: string)
    ensures a.outputDirSetting != "" ==> r == a.outputDirSetting
    ensures a.outputDirSetting == "" ==> EndsWith(r, "/" + a.user.username)
  {
    if a.outputDirSetting != "" then a.outputDirSetting
    else
      var r := home + "/JobSearchCoverLetters" + ("/" + a.user.username);
      assert r[..|home|] == home;
      r
  }

  /** The first website not on linkedin.com, or nothing. */
  function FirstNonLinkedin(websites: seq<string>): (r: Option<string>)
    ensures r.None? <==> forall i :: 0 <= i < |websites| ==> UserData.IsLinkedin(websites[i])
    ensures r.Some? ==> exists i :: 0 <= i < |websites| && websites[i] == r.value && !UserData.IsLinkedin(r.value)
                          && forall k :: 0 <= k < i ==> UserData.IsLinkedin(websites[k])
  {
    if websites == [] then None
    else if !UserData.IsLinkedin(websites[0]) then Some(websites[0])
    else
      var r := FirstNonLinkedin(websites[1..]);
      assert forall i :: 1 <= i < |websites| ==> websites[i] == websites[1..][i - 1];
      assert r.Some? ==> exists i :: 0 <= i < |websites| && websites[i] == r.value && !UserData.IsLinkedin(r.value)
                          && forall k :: 0 <= k < i ==> UserData.IsLinkedin(websites[k]) by {
        if r.Some? {
          var j :| 0 <= j < |websites[1..]| && websites[1..][j] == r.value && !UserData.IsLinkedin(r.value)
                   && forall k :: 0 <= k < j ==> UserData.IsLinkedin(websites[1..][k]);
          assert websites[j + 1] == r.value;
        }
      }
      r
  }

  /** The letter `export_pdf` lays out for a job: the job's company, title,
      body and addressee, the user's name, email and credentials, the
      LinkedIn profile name taken from the user's LinkedIn URL, and the
      first other website. */
  function LetterFor(job: JobsDb.Job, a: Applicant, timestamp: string): (w: CoverLetterWriter.Letter)
    ensures w.company == job.company && w.title == job.title && w.body == job.body
    ensures w.userName == a.user.name && w.email == a.email && w.credentials == a.user.credentials
    ensures w.linkedinExt == UrlSlug.ExtractUrlSlug(UserData.LinkedinUrl(a.user.websites))
    ensures w.website == FirstNonLinkedin(a.user.websites)
    ensures "Dear " + w.addressee + "," == JobsDb.Salutation(job.addressee)
  {
    var w := CoverLetterWriter.NewLetter(
      job.company, job.title, job.body, a.user.name, a.email,
      UrlSlug.ExtractUrlSlug(UserData.LinkedinUrl(a.user.websites)),
      a.user.credentials, FirstNonLinkedin(a.user.websites), job.addressee, timestamp);
    CoverLetterWriter.SalutationAgrees(w, job.addressee, timestamp);
    w
  }

  /* ---- export_pdf ---- */

  /** Where `export_pdf` asks the compiler to write the job's letter. */
  function TargetPath(job: JobsDb.Job, a: Applicant, env: World): string {
    CoverLetterWriter.PdfPath(OutputDir(a, env.home), LetterFor(job, a, env.timestamp).filename)
  }

  /** Whether the compiler reports success for the job's letter. */
  predicate Compiles(job: JobsDb.Job, a: Applicant, env: World) {
    env.compile(LetterFor(job, a, env.timestamp), env.date, TargetPath(job, a, env))
  }

  /** `save_pdf` on the job's letter: where the PDF went, or nothing when
      it did not compile. */
  function SavedPdf(job: JobsDb.Job, a: Applicant, env: World): Option<string> {
    if Compiles(job, a, env) then Some(TargetPath(job, a, env)) else None
  }

  /** When the compiler is the writer's layout as written followed by a
      LaTeX run, saving the job's letter is the writer's `save_pdf` on the
      letter, in the output directory. */
  lemma SavedPdfIsSavePdf(job: JobsDb.Job, a: Applicant, env: World, latex: (string, string) -> bool)
    requires forall w, d, p :: env.compile(w, d, p) == latex(CoverLetterWriter.LatexSourceAsWritten(w, d), p)
    ensures SavedPdf(job, a, env)
         == CoverLetterWriter.SavePdf(LetterFor(job, a, env.timestamp), OutputDir(a, env.home), env.date, latex)
  {
  }

  /** The rest of `export_pdf` once the letter has been saved, or not: no
      body, or no PDF, changes nothing and says why; otherwise the resolved
      path is stored on the job (when the file is there) and the path
      itself returned. Only the cover letters table of the store can
      change, and its keys stay the same. */
  function StorePdf(job: JobsDb.Job, db: Db, saved: Option<string>, env: World): (s: Exported)
    ensures s.result.success <==> job.body != "" && saved.Some?
    ensures s.result.success ==> s.result.pdfPath == saved && s.result.message == "PDF exported successfully"
    ensures job.body == "" ==> s == Exported(job, db, Fail("No cover letter body to export"))
    ensures job.body != "" && saved.None? ==> s == Exported(job, db, Fail("Failed to compile PDF"))
    ensures s.result.success && env.fileExists(env.resolve(saved.value)) ==> s.job.pdfPath == Some(env.resolve(saved.value))
    ensures s.job == job.(pdfPath := s.job.pdfPath)
    ensures s.db == db.(coverLetters := s.db.coverLetters) && s.db.coverLetters.Keys == db.coverLetters.Keys
    ensures !s.result.topicsGenerated && !s.result.bodyGenerated
  {
    if job.body == "" then Exported(job, db, Fail("No cover letter body to export"))
    else if saved.None? then Exported(job, db, Fail("Failed to compile PDF"))
    else
      var st := JobsDb.SetPdfPath(job, db, Some(env.resolve(saved.value)), env.fileExists);
      Exported(st.job, st.db, LetterResult(true, "PDF exported successfully", false, false, saved))
  }

  /** `export_pdf`: the letter is saved only when there is a body; the job
      gets its PDF exactly when there is a body and the letter compiles. */
  function ExportPdf(job: JobsDb.Job, db: Db, a: Applicant, env: World): (s: Exported)
    ensures s.result.success <==> job.body != "" && Compiles(job, a, env)
    ensures s.result.success ==> s.result.pdfPath == Some(TargetPath(job, a, env))
    ensures !s.result.success ==> s.job == job && s.db == db && s.result.pdfPath.None?
    ensures s.job == job.(pdfPath := s.job.pdfPath)
  {
    StorePdf(job, db, if job.body == "" then None else SavedPdf(job, a, env), env)
  }

  /** `export_pdf` as written: it passes the LinkedIn URL under the
      keyword `user_linkedin_url`, which `LetterWriter` does not accept
      (its parameter is `user_linkedin_ext`), and `on_progress` to
      `save_pdf`, which takes none. With a body present the call raises
      `TypeError` before anything is stored. */
  function ExportPdfAsWritten(job: JobsDb.Job, db: Db, a: Applicant, env: World): (r: Result<Exported, string>)
    ensures job.body == "" ==> r == Success(ExportPdf(job, db, a, env))
    ensures job.body != "" ==> r.Failure?
  {
    if job.body == "" then Success(Exported(job, db, Fail("No cover letter body to export")))
    else Failure("TypeError: unexpected keyword argument 'user_linkedin_url'")
  }

  /** As written, no job ever gets a PDF: the call either reports the
      missing body or raises. */
  lemma AsWrittenNeverExports(job: JobsDb.Job, db: Db, a: Applicant, env: World)
    ensures var r := ExportPdfAsWritten(job, db, a, env);
            r.Success? ==> !r.value.result.success && r.value.job == job && r.value.db == db
  {
  }

  /** Whereas with the keyword fixed a job with a body whose letter
      compiles gets its PDF. */
  lemma CorrectedExports(job: JobsDb.Job, db: Db, a: Applicant, env: World)
    requires job.body != "" && Compiles(job, a, env)
    ensures ExportPdfAsWritten(job, db, a, env).Failure?
    ensures ExportPdf(job, db, a, env).result.success
  {
  }

  /* ---- generate ---- */

  /** Whether `generate` asks for new topics. */
  predicate NeedsTopics(job: JobsDb.Job, force: bool) {
    job.topics == [] || force
  }

  /** The job and store after the topic step: new topics stored when they
      are needed, the job as it was otherwise. */
  function TopicStep(job: JobsDb.Job, db: Db, topics: seq<TopicDict>, needed: bool): (t: JobsDb.Step)
    ensures !needed ==> t == JobsDb.Step(job, db, Success(()))
    ensures needed ==> t == JobsDb.SetTopics(job, db, topics)
  {
    if needed then JobsDb.SetTopics(job, db, topics) else JobsDb.Step(job, db, Success(()))
  }

  /** The generator's body for a job whose topics are settled. */
  function BodyFor(job: JobsDb.Job, description: string, background: string, env: World): string {
    CoverLetterWriter.GenerateBody(job.title, job.company, description, background, job.topics, env.bodyLlm)
  }

  /** The body step of `generate`: an empty body is a failure that
      changes nothing; otherwise the body is stored, the PDF exported, and
      the result reports the body as generated. `topicsGenerated` is only
      reported. */
  function WriteAndExport(job: JobsDb.Job, db: Db, a: Applicant, env: World, body: string,
                          topicsGenerated: bool, done: string, failed: string): (s: Exported)
    ensures body == "" ==> s == Exported(job, db, LetterResult(false, failed, topicsGenerated, false, None))
    ensures body != "" ==> s.job.body == body && s.result.bodyGenerated
    ensures s.result.topicsGenerated == topicsGenerated
    ensures s.result.success <==> body != "" && Compiles(job.(body := body), a, env)
    ensures s.result.success ==>
      && s.result.message == done
      && s.result.pdfPath == Some(TargetPath(job.(body := body), a, env))
    ensures s.job == job.(body := s.job.body, pdfPath := s.job.pdfPath)
    ensures s.db.topics == db.topics
  {
    if body == "" then Exported(job, db, LetterResult(false, failed, topicsGenerated, false, None))
    else
      var b := JobsDb.SetBody(job, db, body);
      var e := ExportPdf(b.job, b.db, a, env);
      var r := if !e.result.success then LetterResult(false, e.result.message, topicsGenerated, true, None)
               else LetterResult(true, done, topicsGenerated, true, e.result.pdfPath);
      Exported(e.job, e.db, r)
  }

  /** `generate`: the description and the background must be non-empty;
      topics are generated when the job has none or when forced, and an
      empty answer stops the workflow; then the body is generated, stored
      and exported. A store error while saving the topics propagates. */
  function Generate(job: JobsDb.Job, db: Db, a: Applicant, env: World, force: bool): (s: ServiceStep)
    ensures JobDescription(job) == "" ==> s == ServiceStep(job, db, Success(Fail("No job description available")))
    ensures JobDescription(job) != "" && UserBackground(a, env) == "" ==>
      s == ServiceStep(job, db, Success(Fail("No source documents configured")))
    ensures s.job == job.(topics := s.job.topics, body := s.job.body, pdfPath := s.job.pdfPath)
    ensures !NeedsTopics(job, force) ==> s.job.topics == job.topics && s.db.topics == db.topics && s.outcome.Success?
    ensures s.outcome.Success? && s.outcome.value.topicsGenerated ==>
      NeedsTopics(job, force) && s.job.topics != [] && s.job.topics == env.topicsLlm(JobDescription(job), UserBackground(a, env))
    ensures s.outcome.Success? && !s.outcome.value.topicsGenerated ==> s.job.topics == job.topics && s.db.topics == db.topics
    ensures s.outcome.Failure? ==> NeedsTopics(job, force) && s.db == db
    ensures s.outcome.Success? && s.outcome.value.success ==>
      && s.outcome.value.bodyGenerated && s.job.topics != [] && s.job.body != "" && s.outcome.value.pdfPath.Some?
      && s.outcome.value.message == "Cover letter generated successfully"
  {
    var description := JobDescription(job);
    var background := UserBackground(a, env);
    if description == "" then ServiceStep(job, db, Success(Fail("No job description available")))
    else if background == "" then ServiceStep(job, db, Success(Fail("No source documents configured")))
    else
      var needed := NeedsTopics(job, force);
      var topics := if needed then CoverLetterWriter.GenerateTopics(description, background, env.topicsLlm) else [];
      if needed && topics == [] then ServiceStep(job, db, Success(Fail("Failed to analyze job description")))
      else
        var t := TopicStep(job, db, topics, needed);
        if t.result.Failure? then ServiceStep(t.job, t.db, Failure(t.result.error))
        else
          var e := WriteAndExport(t.job, t.db, a, env, BodyFor(t.job, description, background, env), needed,
                                  "Cover letter generated successfully", "Failed to generate cover letter body");
          ServiceStep(e.job, e.db, Success(e.result))
  }

  /* ---- regenerate_body_only ---- */

  /** `regenerate_body_only`: the job must already have topics, a
      description and a background; a new body is generated and stored,
      and what `export_pdf` returns is returned as it is, so the result
      never reports a generated body. The topics are never touched. */
  function RegenerateBodyOnly(job: JobsDb.Job, db: Db, a: Applicant, env: World): (s: Exported)
    ensures job.topics == [] ==> s == Exported(job, db, Fail("No topics available - generate full cover letter first"))
    ensures job.topics != [] && JobDescription(job) == "" ==> s == Exported(job, db, Fail("No job description available"))
    ensures s.job.topics == job.topics && s.db.topics == db.topics
    ensures s.job == job.(body := s.job.body, pdfPath := s.job.pdfPath)
    ensures !s.result.topicsGenerated && !s.result.bodyGenerated
    ensures s.result.success ==>
      && s.job.body == BodyFor(job, JobDescription(job), UserBackground(a, env), env)
      && s.job.body != "" && s.result.pdfPath.Some?
      && s.result.message == "PDF exported successfully"
  {
    var description := JobDescription(job);
    var background := UserBackground(a, env);
    if job.topics == [] then Exported(job, db, Fail("No topics available - generate full cover letter first"))
    else if description == "" then Exported(job, db, Fail("No job description available"))
    else if background == "" then Exported(job, db, Fail("No source documents configured"))
    else
      var body := BodyFor(job, description, background, env);
      if body == "" then Exported(job, db, Fail("Failed to generate cover letter body"))
      else
        var b := JobsDb.SetBody(job, db, body);
        ExportPdf(b.job, b.db, a, env)
  }

  /** On a job that already has topics, `generate` without forcing does
      what `regenerate_body_only` does: the same job, the same store, the
      same verdict and the same PDF. Only the messages and the
      `body_generated` flag differ. */
  lemma GenerateWithTopicsIsRegenerate(job: JobsDb.Job, db: Db, a: Applicant, env: World)
    requires job.topics != []
    ensures var g := Generate(job, db, a, env, false);
            var r := RegenerateBodyOnly(job, db, a, env);
            && g.job == r.job && g.db == r.db && g.outcome.Success?
            && g.outcome.value.success == r.result.success
            && g.outcome.value.pdfPath == r.result.pdfPath
  {
    var d := JobDescription(job);
    var bg := UserBackground(a, env);
    if d != "" && bg != "" {
      var body := BodyFor(job, d, bg, env);
      GenerateSettled(job, db, a, env);
      if body != "" {
        WriteAndExportIsExport(job, db, a, env, body, false,
                               "Cover letter generated successfully", "Failed to generate cover letter body");
      }
    }
  }

  /** With topics present and not forced, `generate` goes straight to the
      body step. */
  lemma GenerateSettled(job: JobsDb.Job, db: Db, a: Applicant, env: World)
    requires job.topics != [] && JobDescription(job) != "" && UserBackground(a, env) != ""
    ensures var x := WriteAndExport(job, db, a, env, BodyFor(job, JobDescription(job), UserBackground(a, env), env), false,
                                    "Cover letter generated successfully", "Failed to generate cover letter body");
            Generate(job, db, a, env, false) == ServiceStep(x.job, x.db, Success(x.result))
  {
    assert TopicStep(job, db, [], false) == JobsDb.Step(job, db, Success(()));
  }

  /** With a body, the body step is storing it and exporting the PDF: the
      job, the store, the verdict and the PDF are those of `export_pdf`;
      only the message and the flags are the caller's. */
  lemma WriteAndExportIsExport(job: JobsDb.Job, db: Db, a: Applicant, env: World, body: string,
                               topicsGenerated: bool, done: string, failed: string)
    requires body != ""
    ensures var x := WriteAndExport(job, db, a, env, body, topicsGenerated, done, failed);
            var b := JobsDb.SetBody(job, db, body);
            var e := ExportPdf(b.job, b.db, a, env);
            x.job == e.job && x.db == e.db && x.result.success == e.result.success && x.result.pdfPath == e.result.pdfPath
  {
  }
}
