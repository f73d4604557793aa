# JobSearchAgent core, modelled in Dafny

JobSearchAgent is a personal job-hunting assistant. It keeps a user's profile,
search queries, found jobs and cover letters in a SQLite database. It runs web
searches through a language model, removes duplicate and unsuitable results,
and writes cover letters that it compiles to PDF through LaTeX. This project
models the part of it that decides what is stored and what is produced:

- `store.dfy` (module `Store`) is the SQLite data layer. Every table is a map
  keyed by its primary key; the results log is a sequence because it has no
  key. Every operation runs inside `Connection`: when a statement raises, the
  database is left exactly as it was. The foreign keys the schema declares are
  checked on insert.
- `store_laws.dfy` (`StoreLaws`) states what holds across operations: the
  foreign-key invariant `Wellformed`, read-after-write laws, and counting laws.
- `jobs_db.dfy` (`JobsDb`) is the database-backed `Job` with its write-through
  setters and the `JobsDB` cache.
- `queries.dfy` (`Queries`) is the database-backed `QueryHandler` with soft
  removal.
- `user_data.dfy` (`UserData`) is the `User` profile: its lists, online
  presence, and the discard/restore bookkeeping of query scores.
- `search_jobs.dfy` (`SearchJobs`) is the search pipeline:
  1. query selection;
  2. per-query search;
  3. merge by link;
  4. duplicate filter;
  5. description fetch;
  6. suitability filter with its negative-score ledger;
  7. insertion.
- `jobs_data.dfy` (`JobsData`) and `query_data.dfy` (`QueryData`) are the
  legacy JSON and CSV stores.
- `timestamps.dfy`, `url_slug.dfy` and `cover_letter_writer.dfy` hold the text
  helpers and the LaTeX letter writer.
- `cover_letter_service.dfy` (`CoverLetterService`) holds the generate, export
  and regenerate workflows.
- `wrappers.dfy`, `seqs.dfy` and `text.dfy` are generic helpers (Option/Result,
  sequence facts, ASCII text functions).

Clocks, fresh uuids, file-system existence checks, the language model, web
scraping and the LaTeX compiler are parameters of the functions that use them:
plain values, or functions supplied by the caller (the `World` record in the
service). Python's in-place mutation of a `Job` or `User` becomes a function
returning the new object together with the new database.

## Model

| member | source | states |
|---|---|---|
| Store.Connection | src/data_handlers/database.py:193-206 | a transaction commits the block's database when the block succeeds and otherwise leaves the database unchanged while reporting the failure |
| Store.Replace | src/data_handlers/database.py:644-652 | deleting a user's (or job's) rows and re-inserting a list by position leaves exactly that list under the key, every other key untouched |
| Store.NextId | src/data_handlers/database.py:394-409 | the AUTOINCREMENT id chosen is fresh, above every id already used, and 1 in an empty table |
| Store.InsertQueryIdRows | src/data_handlers/database.py:241-246 | the query-id rows of a new job insert iff the job exists and no id repeats or is already linked; on success exactly those pairs are added |
| Store.InsertJob | src/data_handlers/database.py:210-246 | inserting a job succeeds iff its job, status and cover-letter rows are new and its query ids are distinct and unlinked; it then adds exactly the job row, the status row stamped now, an empty cover-letter row and the query-id links, and on failure nothing changes |
| Store.GetJob | src/data_handlers/database.py:248-303 | a job is found iff its row exists; the record carries the stored row, the stored status or "pending", the stored cover letter or an empty one, the topic rows in position order, the question rows in question-id order, and its query ids in ascending order |
| Store.GetAllJobs | src/data_handlers/database.py:305-312 | every job of the user, and only those, is returned, each as get_job returns it |
| Store.UpdateJobStatus | src/data_handlers/database.py:341-348 | the status row of an existing job gets the new status and time; an absent row leaves the database unchanged |
| Store.UpdateJobField | src/data_handlers/database.py:350-360 | a column outside the allowed set raises before touching the database; an UPDATE of a job that is not stored succeeds and changes nothing; a NULL written to a NOT NULL column raises when the job's row exists; otherwise only that column of that row changes |
| Store.TopicRows | src/data_handlers/database.py:373-380 | each topic dict is stored with missing keys read as empty strings, in order |
| Store.UpdateJobCoverLetter | src/data_handlers/database.py:362-390 | only the given parts change; topics are replaced wholesale and fail only for an unknown job with a non-empty list; the body or path of an existing cover-letter row is updated and no row is created |
| Store.AddJobQuestion | src/data_handlers/database.py:394-409 | a question is added to an existing job under a fresh id above all earlier ones, with an empty answer; an unknown job raises and changes nothing |
| Store.UpdateJobQuestionAnswer | src/data_handlers/database.py:411-418 | only the answer of the addressed question changes; an unknown id changes nothing |
| Store.ClearJobQuestions | src/data_handlers/database.py:420-425 | afterwards the job has no questions and every other job's questions are unchanged |
| Store.GetJobQuestions | src/data_handlers/database.py:427-436 | one record per stored question, ids strictly ascending, each matching its stored row |
| Store.AnswerListed | src/data_handlers/database.py:411-436 | answering a listed question by its id makes the same list show the new answer at the same place |
| Store.AddJobQueryId | src/data_handlers/database.py:440-446 | INSERT OR IGNORE: an existing link is kept, a new link needs the job to exist, and only that link is added |
| Store.GetJobQueryIds | src/data_handlers/database.py:448-455 | exactly the job's linked query ids, each once |
| Store.InsertQuery | src/data_handlers/database.py:459-475 | a new query gets a fresh id above every id of the user (1 for the first), not removed, stamped now |
| Store.GetAllQueries | src/data_handlers/database.py:477-487 | every query of the user once, in id order, with its stored text and removed flag |
| Store.UpdateQueryRemoved | src/data_handlers/database.py:489-495 | only the removed flag of that query changes |
| Store.InsertQueryResult | src/data_handlers/database.py:497-504 | a result for a known query is appended to the log; an unknown query violates the foreign key and changes nothing |
| Store.InsertQueryResults | src/data_handlers/database.py:506-514 | a batch is appended in order when every query is known, and otherwise the whole batch is rolled back |
| Store.BuildUserDict | src/data_handlers/database.py:550-617 | the user dict carries the stored row (empty fields for a missing one), the stored or default AI method, the key only when it is non-empty, each list as stored in position order, one presence entry per stored site, and the combined documents in position order |
| Store.GetOrCreateUser | src/data_handlers/database.py:528-548 | an existing user is read without change and reported as not new; a missing user gets a default row and default credentials and is reported as new |
| Store.UpdateUserField | src/data_handlers/database.py:619-630 | a field outside the allowed set raises; otherwise only that column of that user changes |
| Store.SetUserAiCredentials | src/data_handlers/database.py:634-640 | INSERT OR REPLACE of the credentials row; it fails on the foreign key for an unknown user |
| Store.SetUserList | src/data_handlers/database.py:644-673 | the list under the user is replaced by the given items; a non-empty list for an unknown user raises and changes nothing |
| Store.AddUserOnlinePresence | src/data_handlers/database.py:676-684 | the site's entry is inserted or replaced and nothing else changes |
| Store.ClearUserOnlinePresence | src/data_handlers/database.py:686-691 | exactly the user's presence rows are removed |
| Store.SetUserCombinedSourceDocuments | src/data_handlers/database.py:695-705 | afterwards the user holds exactly the given documents, the p-th at position p; other users' documents and all other tables are kept |
| StoreLaws.DocumentsRoundTrip | src/data_handlers/database.py:695-705 | setting a user's combined documents and then building the user dict gives back exactly those documents, every other field unchanged |
| StoreLaws.EmptyWellformed | src/data_handlers/database.py:10-177 | the empty database satisfies every foreign key of the schema |
| StoreLaws.InsertJobWellformed | src/data_handlers/database.py:210-246 | insert_job preserves every foreign key |
| StoreLaws.UpdateJobCoverLetterWellformed | src/data_handlers/database.py:362-390 | update_job_cover_letter preserves every foreign key |
| StoreLaws.SetUserListWellformed | src/data_handlers/database.py:644-652 | replacing a user list preserves every foreign key |
| StoreLaws.InsertQueryResultsWellformed | src/data_handlers/database.py:506-514 | logging a batch of results preserves every foreign key |
| StoreLaws.GetJobAfterInsert | src/data_handlers/database.py:210-303 | a job read back after insert_job has the inserted fields and status, an empty cover letter, no topics or questions, and exactly the inserted query ids |
| StoreLaws.TopicsRoundTrip | src/data_handlers/database.py:362-390 | topics written for an existing job are read back by get_job in the same order |
| StoreLaws.UserListRoundTrip | src/data_handlers/database.py:570-597 | a list written with _set_user_list is read back unchanged by _build_user_dict, and the other lists are not affected |
| StoreLaws.ReadAfterReplace | src/data_handlers/database.py:644-652 | reading a replaced list in position order yields the written items |
| StoreLaws.ReplaceElsewhere | src/data_handlers/database.py:644-652 | replacing one key's list leaves every other key's list unchanged |
| StoreLaws.AddJobQueryIdIdempotent | src/data_handlers/database.py:440-446 | adding the same query id link twice is the same as adding it once |
| StoreLaws.GetOrCreateUserOnce | src/data_handlers/database.py:528-548 | a second get_or_create_user finds the user, changes nothing and returns the same dict |
| StoreLaws.TotalAfterLog | src/data_handlers/database.py:497-524 | logging a result raises that query's total by the leads and leaves every other total unchanged |
| StoreLaws.TotalAfterRows | src/data_handlers/database.py:506-524 | logging a batch raises each query's total by the sum of its entries in the batch |
| StoreLaws.AddJobQuestionIdsIncrease | src/data_handlers/database.py:394-409 | questions added one after another get increasing ids |
| StoreLaws.InsertJobCounts | src/data_handlers/database.py:322-337 | a successful insert_job raises count_jobs by one, raises the count of its status by one and leaves the other status counts alone |
| StoreLaws.StatusUpdateCounts | src/data_handlers/database.py:330-348 | moving a job from one status to another moves exactly one unit between the two counts |
| StoreLaws.InsertJobHasLink | src/data_handlers/database.py:314-320 | after insert_job a link is known iff it was known before or is the new job's link |
| JobsDb.ParseStatus | src/data_handlers/jobs_db.py:12-16 | a status string parses iff it is the value of one of the four statuses, and parses to that status |
| JobsDb.CheckedPdfPath | src/data_handlers/jobs_db.py:57-63 | a stored PDF path is kept iff the file exists |
| JobsDb.Create | src/data_handlers/jobs_db.py:65-113 | a new job is pending, dated now, with empty letter, topics and questions; it is stored through insert_job and the insert fails exactly when insert_job does |
| JobsDb.SetField | src/data_handlers/jobs_db.py:138-191 | a field setter changes that attribute and writes the same value to the job's column |
| JobsDb.SetStatus | src/data_handlers/jobs_db.py:197-200 | the status setter changes the attribute and the stored status row |
| JobsDb.SetTopics | src/data_handlers/jobs_db.py:208-211 | the topics setter replaces the stored topics; only a non-empty list on an unknown job raises |
| JobsDb.SetBody | src/data_handlers/jobs_db.py:217-220 | the body setter changes only the body of the job's cover-letter row |
| JobsDb.SetPdfPath | src/data_handlers/jobs_db.py:226-240 | a path to a missing file is ignored; otherwise the path is set on the job and its cover-letter row |
| JobsDb.SetQuestions | src/data_handlers/jobs_db.py:248-255 | setting the questions touches the database only when clearing them |
| JobsDb.AddQuestion | src/data_handlers/jobs_db.py:257-260 | the question is appended with its fresh database id and an empty answer |
| JobsDb.FirstQuestion | src/data_handlers/jobs_db.py:264-265 | finds the first question with the given text, or reports that none has it |
| JobsDb.UpdateQuestionAnswer | src/data_handlers/jobs_db.py:262-269 | the first matching question gets the answer in memory, and it is written to the database only when that question carries an id |
| JobsDb.CoverLetterFullText | src/data_handlers/jobs_db.py:276-296 | no text without a body; otherwise the salutation and sign-off depend on whether there is an addressee, and the lines are joined with newlines |
| JobsDb.JoinSeven | src/data_handlers/jobs_db.py:286-295 | joining the seven letter lines with newlines puts a blank line between salutation, body, sign-off and name |
| JobsDb.DictToJob | src/data_handlers/jobs_db.py:315-335 | a record converts iff its status is valid; questions are kept in order but lose their ids |
| JobsDb.LoadJobWithIds | src/data_handlers/jobs_db.py:315-335 | the corrected conversion is _dict_to_job's job with the stored questions, each carrying its id |
| JobsDb.LoadWithIds | src/data_handlers/jobs_db.py:308-313 | the corrected load succeeds exactly when the load as written does, agrees with the store, and differs from it only in that every question carries its id |
| JobsDb.LoadedWithIdsAnswersStored | src/data_handlers/jobs_db.py:262-269 | after the corrected load, answering a loaded job's question stores the answer at that question's place in the store |
| JobsDb.Load | src/data_handlers/jobs_db.py:308-335 | loading succeeds iff every stored status is a JobStatus value; the cache then holds exactly the user's jobs, each the _dict_to_job conversion of its get_job record |
| JobsDb.LoadedAnswersNotStored | src/data_handlers/jobs_db.py:262-269 | as written, answering a question of any job the collection loaded leaves the database unchanged |
| JobsDb.Get | src/data_handlers/jobs_db.py:388-390 | a job is returned iff its id is cached |
| JobsDb.Add | src/data_handlers/jobs_db.py:370-386 | a successful add caches the new pending job under its id; a failed add changes neither cache nor database |
| JobsDb.AddGrowsByOne | src/data_handlers/jobs_db.py:346-386 | after an add the cache still mirrors the database, number_total grows by one and get returns the new job |
| JobsDb.LoadAfterCreate | src/data_handlers/jobs_db.py:65-113 | a job created and then read back through get_job and _dict_to_job is the job create returned |
| JobsDb.AnswerNotStoredAsWritten | src/data_handlers/jobs_db.py:262-269 | for any job loaded through _dict_to_job, update_question_answer leaves the database unchanged |
| JobsDb.AnswerLostExample | src/data_handlers/jobs_db.py:262-269 | a concrete job whose answer changes in memory while the stored answer stays empty |
| JobsDb.AnswerStored | src/data_handlers/jobs_db.py:262-269 | when loaded questions keep their ids, the answer reaches the database at the same position |
| JobsDb.AnyTransition | src/data_handlers/jobs_db.py:197-200 | any status can follow any status; the stored value parses back to it, and a job is truthy iff it is applied |
| Queries.Load | src/data_handlers/queries.py:51-61 | the loaded handler mirrors the user's stored queries: same ids, text and removed flag, each id once |
| Queries.LenIsActiveCount | src/data_handlers/queries.py:63-69 | len counts exactly the queries that iteration yields |
| Queries.Save | src/data_handlers/queries.py:76-86 | each saved text is appended as an active query with an id above all earlier ones, len grows by the number saved, and the handler still mirrors the database |
| Queries.SetRemovedCoherent | src/data_handlers/queries.py:27-30 | the removed setter keeps the handler and the database in step |
| Queries.Remove | src/data_handlers/queries.py:100-104 | exactly the listed cached queries become removed, in the cache and in their store rows; ids and text are unchanged, unknown ids are ignored, and a cache that agrees with the store still does |
| Queries.Clear | src/data_handlers/queries.py:106-109 | every cached query becomes removed in the cache and, for a cache that agrees with the store, every store row of the user too; other users' rows are untouched |
| Queries.ClearPersists | src/data_handlers/queries.py:106-109 | after clear, a handler loaded afresh from the store has no active query |
| Queries.ClearEmpties | src/data_handlers/queries.py:63-69 | after clear the handler has no active queries |
| Queries.RemoveIdempotent | src/data_handlers/queries.py:100-104 | removing the same ids twice is the same as removing them once |
| Queries.WriteResult | src/data_handlers/queries.py:88-90 | logs one result row for a known query, fails for an unknown one, and leaves the queries unchanged |
| Queries.WriteResults | src/data_handlers/queries.py:92-94 | logs a batch through insert_query_results without touching the queries |
| Queries.WriteResultKeepsActive | src/data_handlers/queries.py:63-90 | logging a result changes neither the active queries nor len |
| QueryData.Reload | src/data_handlers/query_data.py:29-34 | reloading reads the file when it exists and otherwise keeps the queries in memory |
| QueryData.StartId | src/data_handlers/query_data.py:44 | the next id is one above the largest id, or 1 for no queries |
| QueryData.Save | src/data_handlers/query_data.py:42-49 | the file gains one row per text, numbered consecutively above every existing id, and the queries are reloaded from it |
| QueryData.WriteResult | src/data_handlers/query_data.py:51-54 | one result line is appended and the queries are untouched |
| QueryData.SaveNoDup | src/data_handlers/query_data.py:42-49 | saving never creates a duplicate id |
| QueryData.SaveTwice | src/data_handlers/query_data.py:42-49 | saving two lists one after the other is the same as saving their concatenation |
| SearchJobs.SearchQuery | src/search_jobs.py:41-58 | a failed or unparsable search returns nothing; otherwise exactly the dict items that have company, title and link are kept |
| SearchJobs.KeptDictsCount | src/search_jobs.py:51-53 | the number kept is the number of items passing the field check |
| SearchJobs.Merge | src/search_jobs.py:130-144 | each link appears once in first-seen order, numbered from zero, with the fields of its first occurrence and the query ids of all its occurrences |
| SearchJobs.FilterDuplicates | src/search_jobs.py:146-152 | the returned indices are exactly those of jobs whose link is already stored |
| SearchJobs.DropDuplicates | src/search_jobs.py:205-206 | after dropping them no remaining job has a stored link and every job with a new link remains |
| SearchJobs.Background | src/search_jobs.py:159-162 | the comprehensive summary is used when present, otherwise the combined documents |
| SearchJobs.FilterUnsuitable | src/search_jobs.py:154-177 | nothing is flagged without jobs or background; a failed model call raises; otherwise exactly the indices not judged good are flagged |
| SearchJobs.LedgerCounts | src/search_jobs.py:228-233 | the ledger has one entry per query id of a flagged job, holding minus the number of times that id occurs |
| SearchJobs.LedgerTotals | src/search_jobs.py:228-235 | writing the ledger lowers each query's total by its occurrences among flagged jobs |
| SearchJobs.FetchDescriptions | src/search_jobs.py:213-222 | a non-empty fetched description replaces full_description and everything else is kept |
| SearchJobs.PostProcess | src/search_jobs.py:198-237 | the merged list is the merge of the found jobs; on success the survivors are exactly the described merged jobs that have no stored link and were not judged unsuitable, and each query's logged total drops by the number of times it found an unsuitable job; when the model judged suitability every survivor was judged good |
| SearchJobs.SelectQueries | src/search_jobs.py:241-259 | the queries run are the active ones, cut to max_queries when it is set, minus those whose text was used in the last 12 hours |
| SearchJobs.SearchForJobs | src/search_jobs.py:179-196 | every found job is tagged with the id of the query that found it, and one result row per query records how many it found |
| SearchJobs.AddFound | src/search_jobs.py:280-290 | every kept job is stored with defaults for missing fields and no earlier job is changed |
| SearchJobs.Search | src/search_jobs.py:239-296 | every job added had a link not stored before and is stored afterwards, added links are distinct, and with nothing to search or recover the database is untouched |
| JobsData.Base | src/data_handlers/jobs_data.py:106-108 | the base id is a slug that keeps the company's lower-case letters and digits in order, or "unknown" when there are none |
| JobsData.BaseOfSlug | src/data_handlers/jobs_data.py:106-108 | a slug is its own base id |
| JobsData.BaseIdempotent | src/data_handlers/jobs_data.py:106-108 | the base of a base id is itself |
| JobsData.GeneratedUnique | src/data_handlers/jobs_data.py:103-117 | the id rule (the base when free, else the base with the first free counter from 2) determines one id |
| JobsData.GenerateId | src/data_handlers/jobs_data.py:103-117 | the generated id is unused and follows the id rule |
| JobsData.FirstFreeSuffix | src/data_handlers/jobs_data.py:114-117 | the counter found is the first one from 2 whose suffixed id is unused |
| JobsData.Add | src/data_handlers/jobs_data.py:119-140 | a new job is stored under a fresh id with the given fields, not applied, empty notes and letter; the store grows by one and the new link becomes known |
| JobsData.Get | src/data_handlers/jobs_data.py:142-144 | a job is returned iff its id is present |
| JobsData.JobToDict | src/data_handlers/jobs_data.py:38-52 | the dict has exactly the twelve keys, each holding a value of its field's type |
| JobsData.ToDict | src/data_handlers/jobs_data.py:92-93 | one dict per job id |
| JobsData.Load | src/data_handlers/jobs_data.py:64-84 | one job per id, with missing keys defaulted |
| JobsData.LoadToDict | src/data_handlers/jobs_data.py:64-93 | loading what to_dict wrote gives back the same jobs |
| JobsData.ToDictLoad | src/data_handlers/jobs_data.py:64-93 | writing what was loaded from a well-typed file gives back the same file contents |
| UserData.WithList | src/data_handlers/user_data.py:155-163 | setting one list changes that list only |
| UserData.AddItem | src/data_handlers/user_data.py:189-192 | an absent item is appended and the list is written through; a present item changes nothing; the other lists are kept |
| UserData.RemoveItem | src/data_handlers/user_data.py:194-197 | the first occurrence is removed and the list written through; an absent item changes nothing |
| UserData.AddItemIdempotent | src/data_handlers/user_data.py:189-192 | adding an item twice is the same as adding it once |
| UserData.AddThenRemove | src/data_handlers/user_data.py:189-197 | adding a new item and then removing it restores the list in memory and in the database |
| UserData.NameWithCredentialsJoin | src/data_handlers/user_data.py:67-71 | the name with credentials is the name and the credentials joined by ", " |
| UserData.LinkedinUrl | src/data_handlers/user_data.py:182-187 | the first website containing "linkedin.com" in any case, or "" when none does |
| UserData.AddOnlinePresence | src/data_handlers/user_data.py:277-287 | the site's old entry is dropped, the new one appended, so each site appears once |
| UserData.AddOnlinePresenceStored | src/data_handlers/user_data.py:277-287 | the in-memory presence list and the stored presence rows stay in step |
| UserData.ClearOnlinePresence | src/data_handlers/user_data.py:289-292 | the list becomes empty and exactly the user's rows are deleted |
| UserData.ClearSourceDocumentPaths | src/data_handlers/user_data.py:215-222 | paths, combined documents and summary are emptied in memory and in the database, and other lists are kept |
| UserData.DiscardJob | src/data_handlers/user_data.py:296-306 | a known job becomes discarded, in the cache and in its store status row, and every other status row is kept; an unknown one changes nothing |
| UserData.RestoreJob | src/data_handlers/user_data.py:308-318 | a known job becomes pending, in the cache and in its store status row, and every other status row is kept; an unknown one changes nothing |
| UserData.RetagTotals | src/data_handlers/user_data.py:296-318 | discarding or restoring moves each of the job's queries' totals by exactly the delta once, however often the id repeats |
| Timestamps.IsRecent | src/data_handlers/utils.py:8-26 | recent iff the timestamp is non-empty, parses with an offset, and is less than the threshold in hours before now |
| Timestamps.RecentMonotone | src/data_handlers/utils.py:24 | what is recent under a threshold is recent under any larger one |
| Timestamps.FutureIsRecent | src/data_handlers/utils.py:21-24 | a timestamp not before now is recent for any positive threshold |
| UrlSlug.LastSegment | src/utils.py:14 | the last path segment is the slash-free suffix that is either the whole string or follows a slash |
| UrlSlug.LastSegmentUnique | src/utils.py:14 | those three properties determine the segment |
| UrlSlug.ExtractUrlSlug | src/utils.py:6-14 | the slug is the last segment after trailing slashes are stripped |
| UrlSlug.Idempotent | src/utils.py:6-14 | the slug of a slug is itself |
| UrlSlug.GithubExample | src/utils.py:9-12 | the documented GitHub example |
| UrlSlug.LinkedinExample | src/utils.py:9-12 | the documented LinkedIn example with a trailing slash |
| CoverLetterWriter.EscapeLatexPerChar | src/cover_letter_writer.py:71-86 | the chained replacements escape each character independently, because no replacement introduces a character replaced later |
| CoverLetterWriter.EscapePlain | src/cover_letter_writer.py:71-86 | text without special characters is unchanged |
| CoverLetterWriter.HeaderNameIsNameWithCredentials | src/cover_letter_writer.py:167-171 | the letter header name equals the profile's name with credentials |
| CoverLetterWriter.TildeHeaderBroken | src/cover_letter_writer.py:178-191 | upper-casing after escaping turns a tilde into an unknown LaTeX command |
| CoverLetterWriter.HeaderAgrees | src/cover_letter_writer.py:178-191 | without a tilde or caret the header as written equals escaping the upper-cased name |
| CoverLetterWriter.NewLetter | src/cover_letter_writer.py:115-144 | a non-empty addressee gives "sincerely"; otherwise "hiring team" and "faithfully" |
| CoverLetterWriter.SalutationAgrees | src/cover_letter_writer.py:137-142 | the PDF letter and the plain-text letter choose the same salutation and sign-off |
| CoverLetterWriter.SafeCompanySpec | src/cover_letter_writer.py:149 | spaces, slashes and backslashes in the company become underscores and nothing else changes |
| CoverLetterWriter.FilenameSafe | src/cover_letter_writer.py:146-151 | the file name contains no space, slash or backslash |
| CoverLetterWriter.WordOnly | src/cover_letter_writer.py:148 | only word characters of the user name are kept |
| CoverLetterWriter.WebsiteLabel | src/cover_letter_writer.py:159 | the website label drops the leading scheme |
| CoverLetterWriter.ContactItems | src/cover_letter_writer.py:154-164 | email first and LinkedIn last, with the website between them only when there is one |
| CoverLetterWriter.ContactInfoForm | src/cover_letter_writer.py:154-164 | the contact line joins those items with the textbar separator |
| CoverLetterWriter.NewlinesAfterEscape | src/cover_letter_writer.py:180-188 | each newline of the body becomes a paragraph break and each other character is escaped |
| CoverLetterWriter.LatexSourceParts | src/cover_letter_writer.py:174-200 | the letter source contains the header, salutation, formatted body and sign-off, and ends with the escaped user name as signature |
| CoverLetterWriter.AsWrittenSignsFixedName | src/cover_letter_writer.py:65 | the template as written ends with a fixed name, whoever the user is |
| CoverLetterWriter.SignatureIsTheOnlyOtherChange | src/cover_letter_writer.py:174-200 | apart from the header and the signature, the corrected source equals the source as written |
| CoverLetterWriter.PdfPath | src/cover_letter_writer.py:204 | the PDF path is the output directory, a slash, the file name and ".pdf" |
| CoverLetterWriter.AsWrittenParts | src/cover_letter_writer.py:173-200 | the source as written contains the header as written, the salutation, the formatted body and the sign-off |
| CoverLetterWriter.SavePdf | src/cover_letter_writer.py:202-209 | save_pdf as written: the path is returned iff the source as written compiles to it |
| CoverLetterWriter.SavePdfCorrected | src/cover_letter_writer.py:202-209 | the same save step over the corrected source |
| CoverLetterService.JobDescription | src/services/cover_letter_service.py:52 | the full description when non-empty, otherwise the summary description |
| CoverLetterService.UserBackground | src/services/cover_letter_service.py:60-63 | the background is empty iff both the summary and the combined documents are empty |
| CoverLetterService.OutputDir | src/data_handlers/user_data.py:119-126 | the configured directory, or a directory named after the user under the home directory |
| CoverLetterService.FirstNonLinkedin | src/services/cover_letter_service.py:168 | the first website not on LinkedIn, if any |
| CoverLetterService.LetterFor | src/services/cover_letter_service.py:170-180 | the letter uses the job's company, title, body and addressee and the user's name, email, credentials, LinkedIn slug and first other website |
| CoverLetterService.SavedPdfIsSavePdf | src/cover_letter_writer.py:202-209 | when the service's compile step compiles the letter source as written, the export's PDF step is save_pdf as written |
| CoverLetterService.StorePdf | src/services/cover_letter_service.py:187-199 | no body or failed compile give their failure messages and change nothing; success records the resolved path when that file exists |
| CoverLetterService.ExportPdf | src/services/cover_letter_service.py:146-199 | export succeeds iff there is a body and it compiles; it then reports the target path; failure leaves job and database unchanged |
| CoverLetterService.ExportPdfAsWritten | src/services/cover_letter_service.py:170-185 | with a body the call as written raises before compiling; without one it reports the missing body |
| CoverLetterService.AsWrittenNeverExports | src/services/cover_letter_service.py:146-185 | export as written never reports success |
| CoverLetterService.TopicStep | src/services/cover_letter_service.py:91-103 | topics are regenerated only when missing or forced, and stored through the topics setter |
| CoverLetterService.WriteAndExport | src/services/cover_letter_service.py:106-144 | an empty body fails without change; otherwise the body is stored and success means the PDF compiled at the target path |
| CoverLetterService.Generate | src/services/cover_letter_service.py:27-144 | the two guards give their messages; topics are generated only when needed; success implies topics, a body and a PDF |
| CoverLetterService.RegenerateBodyOnly | src/services/cover_letter_service.py:201-266 | requires existing topics and keeps them; the result is export_pdf's own, so it never reports a generated body or topics; on success the stored body is the new body and a PDF path is returned |
| CoverLetterService.GenerateWithTopicsIsRegenerate | src/services/cover_letter_service.py:27-266 | with topics present and no forcing, generate and regenerate_body_only leave the same job and database and agree on success and path |
| CoverLetterService.WriteAndExportIsExport | src/services/cover_letter_service.py:124-144 | with a body, generate's body step leaves the job and database export_pdf leaves and agrees with it on success and path |

## Left out

- I/O in general. Files, the SQLite connection and PRAGMAs, and directory creation (`mkdir`) are not modelled; each read or write is a pure state change. Cascading deletes are not modelled because no operation deletes a job or user.
- Progress callbacks (`on_progress`) and printing are not modelled; they have no effect on state.
- Language-model prompts and reply parsing are not modelled. `search_query`'s JSON extraction becomes the `Parsed` input, `filter_unsuitable_jobs` becomes the optional list of good indices, and `fetch_full_description` becomes a function of the link.
- CoverLetterWriter.GenerateTopics: only the empty-input guard (cover_letter_writer.py:230-231) is modelled. The generated topics are the model's answer, taken as a parameter.
- CoverLetterWriter.GenerateBody: only the empty-input guard (cover_letter_writer.py:319-320) is modelled. The writing instructions are not modelled either.
- Writing instructions are not modelled:
  - the profile setter for them (user_data.py:166-176) calls a database method that database.py does not define;
  - `DEFAULT_WRITING_INSTRUCTIONS` is not defined in cover_letter_writer.py;
  - `generate_cover_letter_body` has no such parameter in cover_letter_writer.py.
- The files above are not all from one revision. export_pdf passes `user_linkedin_url` and `on_progress`, which `LetterWriter` and `save_pdf` do not accept. ExportPdfAsWritten records that call as written. The workflows use ExportPdf with the evidently intended arguments.
- `compile_latex_to_pdf` (pdflatex run twice, then a copy) is not modelled; it is a compile parameter. The service's compile parameter acts on the letter; SavedPdfIsSavePdf ties it to compiling the LaTeX text.
- Clock, uuid4, `Path.exists`, `Path.resolve` and `Path.home` are parameters.
- Python's `str.lower`, `str.upper` and the regex class `\W` are modelled on ASCII only. Characters at or above 128 count as word characters.
- get_all_jobs row order is not modelled: jobs are keyed by id.
- get_job_query_ids has no ORDER BY; the model returns the ids ascending.
- The crash-recovery file (`append_to_temp`, `read_temp`, `clear_temp`) is not modelled as a file. Recovered records are the `records` input of Search.
- The trailing `job_handler.save()` of `search` is not modelled; JobsDB has no such method. `clear_temp` is not modelled either.
- In the LaTeX template, a later `.replace` can rescan text substituted by an earlier one (for example a body containing `<INSERT_SIGNOFF>`). The model substitutes each placeholder once, in place.
- CSV quoting and encoding in the legacy query store are not modelled; rows are (id, text) pairs.
- The `User` constructor (user_data.py:20-49) is modelled only through GetOrCreateUser and BuildUserDict. The AI-credentials dict is a method plus an optional key.
- JobsDB's `number_applied` and the other status counts (jobs_db.py:346-368) are thin calls to the store. Their laws are stated on the store: StoreLaws.InsertJobCounts, StoreLaws.StatusUpdateCounts and StoreLaws.InsertJobHasLink.
- Combined source documents are JSON dicts in the source; here they are opaque strings (their JSON text).
- SearchJobs.PostProcess: the result also carries the merged list, so that the contract can state the survivors against it. On a failed ledger write only the jobs and queries tables are promised unchanged; rows written before the failure stay, as each write commits on its own.
- SearchJobs.AddFound: found jobs hold string values only, so a JSON `null` or a non-string value in a search result is not represented. `search_query` keeps any dict that has the three required keys, and the search prompt asks for a `null` addressee. In the source a `null` company, title or link reaches `insert_job` as NULL and raises on the NOT NULL column, and a `null` location or description is stored as NULL where the model stores the value as a string. The addressee is NULL in the model only when its key is missing.
- JobsData.Load: a field present with the wrong type, `null` included, is read as its default. `dict.get(key, default)` keeps such a value, and `to_dict` writes it back as it was. Only files written by `to_dict`, where every field has its type, are loaded as the source loads them (JobsData.LoadToDict).
- Queries.Clear: the store rows are promised removed only for a handler that agrees with the store (Coherent); for any other handler only the cached queries' rows are written.

## Findings

| source | as written | input that shows it | evidently intended | confidence | as-written member | corrected member |
|---|---|---|---|---|---|---|
| src/cover_letter_writer.py:178-191 | the header name is escaped and then upper-cased | a user named `~`: `\textasciitilde{}` becomes `\TEXTASCIITILDE{}`, an undefined command | upper-case the name, then escape it | not executed | CoverLetterWriter.TildeHeaderBroken | CoverLetterWriter.HeaderAgrees |
| src/cover_letter_writer.py:65 | the template signs every letter with one fixed name | any user whose name is not that name | sign with the user's own (escaped) name | not executed | CoverLetterWriter.AsWrittenSignsFixedName | CoverLetterWriter.LatexSourceParts |
| src/data_handlers/jobs_db.py:262-269 | `update_question_answer` writes to the database only when the question dict has an "id", but questions loaded by `_dict_to_job` from `get_job` never have one | a stored job with question "Why us?": after answering it in a fresh session, the stored answer stays empty | loaded questions keep their database ids, so answers persist | not executed | JobsDb.LoadedAnswersNotStored | JobsDb.LoadedWithIdsAnswersStored |
