/** The user profile object (src/data_handlers/user_data.py): its ordered
    duplicate-free lists, the derived name and LinkedIn link, the online
    presence entries and the job discard/restore bookkeeping. Every change
    is made in memory first and then written through to the store; a store
    failure leaves the in-memory change in place and is reported. */
module UserData {
  import opened Wrappers
  import opened Seqs
  import opened Text
  import opened Store
  import StoreLaws
  import JobsDb
  import Queries

  /** An online presence dict. */
  datatype Presence = Presence(site: string, timeFetched: string, fetchSuccess: bool, content: string)

  datatype User = User(
    username: string,
    name: string,
    credentials: seq<string>,
    websites: seq<string>,
    sourceDocumentPaths: seq<string>,
    desiredJobTitles: seq<string>,
    desiredJobLocations: seq<string>,
    onlinePresence: seq<Presence>,
    sourceDocumentSummary: string,
    combinedSourceDocuments: seq<string>)

  /** A user after an operation, with the store and the outcome of the
      write-through. */
  datatype UserStep = UserStep(user: User, db: Db, result: Result<(), DbError>)

  function List(u: User, kind: UserList): seq<string> {
    match kind
    case Credentials => u.credentials
    case Websites => u.websites
    case SourceDocumentPaths => u.sourceDocumentPaths
    case DesiredJobTitles => u.desiredJobTitles
    case DesiredJobLocations => u.desiredJobLocations
  }

  function WithList(u: User, kind: UserList, items: seq<string>): (r: User)
    ensures List(r, kind) == items
    ensures forall k :: k != kind ==> List(r, k) == List(u, k)
    ensures r.username == u.username && r.onlinePresence == u.onlinePresence
  {
    match kind
    case Credentials => u.(credentials := items)
    case Websites => u.(websites := items)
    case SourceDocumentPaths => u.(sourceDocumentPaths := items)
    case DesiredJobTitles => u.(desiredJobTitles := items)
    case DesiredJobLocations => u.(desiredJobLocations := items)
  }

  /** Every list the user object holds is the one the store reads back. */
  predicate ListsStored(u: User, db: Db) {
    forall kind :: List(u, kind) == ReadUserList(db, kind, u.username)
  }

  /** Writing one list through keeps the object and the store in step. */
  lemma WriteListStored(u: User, db: Db, kind: UserList, items: seq<string>)
    requires ListsStored(u, db)
    requires SetUserList(db, u.username, kind, items).result.Success?
    ensures ListsStored(WithList(u, kind, items), SetUserList(db, u.username, kind, items).db)
  {
    var d := SetUserList(db, u.username, kind, items).db;
    var u2 := WithList(u, kind, items);
    forall k
      ensures List(u2, k) == ReadUserList(d, k, u.username)
    {
      if k == kind {
        StoreLaws.ReadAfterReplace(db.userLists, kind, u.username, items);
      } else {
        StoreLaws.ReplaceElsewhere(db.userLists, kind, u.username, items, k, u.username);
      }
    }
  }

  /** `add_website`, `add_source_document_path`, `add_desired_job_title`
      and `add_desired_job_location`: append only an absent item. */
  function AddItem(u: User, db: Db, kind: UserList, item: string): (s: UserStep)
    requires kind != Credentials
    ensures item in List(s.user, kind)
    ensures item in List(u, kind) ==> s == UserStep(u, db, Success(()))
    ensures item !in List(u, kind) ==> List(s.user, kind) == List(u, kind) + [item]
    ensures forall k :: k != kind ==> List(s.user, k) == List(u, k)
    ensures NoDup(List(u, kind)) ==> NoDup(List(s.user, kind))
    ensures s.result.Failure? <==> item !in List(u, kind) && u.username !in db.users
    ensures s.result.Failure? ==> s.db == db
  {
    var items := List(u, kind);
    if item in items then UserStep(u, db, Success(()))
    else
      var o := SetUserList(db, u.username, kind, items + [item]);
      assert NoDup(items) ==> NoDup(items + [item]);
      UserStep(WithList(u, kind, items + [item]), o.db, o.result)
  }

  /** An added item is written through: the store reads back every list as
      the object holds it. */
  lemma AddItemStored(u: User, db: Db, kind: UserList, item: string)
    requires kind != Credentials
    requires ListsStored(u, db)
    ensures var s := AddItem(u, db, kind, item);
      s.result.Success? ==> ListsStored(s.user, s.db)
  {
    var items := List(u, kind);
    if item !in items && SetUserList(db, u.username, kind, items + [item]).result.Success? {
      WriteListStored(u, db, kind, items + [item]);
    }
  }

  /** `remove_website` and the other removers: delete a present item. */
  function RemoveItem(u: User, db: Db, kind: UserList, item: string): (s: UserStep)
    requires kind != Credentials
    ensures item !in List(u, kind) ==> s == UserStep(u, db, Success(()))
    ensures item in List(u, kind) ==> List(s.user, kind) == RemoveFirst(List(u, kind), item)
    ensures NoDup(List(u, kind)) ==>
      && item !in List(s.user, kind)
      && NoDup(List(s.user, kind))
      && forall x :: x != item ==> (x in List(s.user, kind) <==> x in List(u, kind))
    ensures forall k :: k != kind ==> List(s.user, k) == List(u, k)
    ensures s.result.Failure? <==> item in List(u, kind) && |List(u, kind)| > 1 && u.username !in db.users
    ensures ListsStored(u, db) && s.result.Success? ==> ListsStored(s.user, s.db)
  {
    var items := List(u, kind);
    if item !in items then UserStep(u, db, Success(()))
    else
      var rest := RemoveFirst(items, item);
      assert NoDup(items) ==>
        && item !in rest && NoDup(rest)
        && forall x :: x != item ==> (x in rest <==> x in items) by {
        if NoDup(items) {
          RemoveFirstNoDup(items, item);
        }
      }
      var o := SetUserList(db, u.username, kind, rest);
      assert ListsStored(u, db) && o.result.Success? ==> ListsStored(WithList(u, kind, rest), o.db) by {
        if ListsStored(u, db) && o.result.Success? {
          WriteListStored(u, db, kind, rest);
        }
      }
      UserStep(WithList(u, kind, rest), o.db, o.result)
  }

  /** Adding an item twice is adding it once. */
  lemma AddItemIdempotent(u: User, db: Db, kind: UserList, item: string)
    requires kind != Credentials
    ensures var s := AddItem(u, db, kind, item);
      AddItem(s.user, s.db, kind, item) == UserStep(s.user, s.db, Success(()))
  {
  }

  /** Removing an item just added restores the list, in memory and in the
      store. */
  lemma AddThenRemove(u: User, db: Db, kind: UserList, item: string)
    requires kind != Credentials
    requires item !in List(u, kind)
    requires ListsStored(u, db)
    ensures var s1 := AddItem(u, db, kind, item);
      var s2 := RemoveItem(s1.user, s1.db, kind, item);
      && List(s2.user, kind) == List(u, kind)
      && (s1.result.Success? && s2.result.Success? ==> ReadUserList(s2.db, kind, u.username) == List(u, kind))
  {
    var s1 := AddItem(u, db, kind, item);
    assert List(s1.user, kind) == List(u, kind) + [item];
    RemoveFirstAppended(List(u, kind), item);
    var s2 := RemoveItem(s1.user, s1.db, kind, item);
    assert List(s2.user, kind) == List(u, kind);
    if s1.result.Success? && s2.result.Success? {
      AddItemStored(u, db, kind, item);
      assert ListsStored(s2.user, s2.db);
      assert s2.user.username == u.username;
    }
  }

  /** `name_with_credentials`. */
  function NameWithCredentials(u: User): (r: string)
    ensures u.credentials == [] ==> r == u.name
  {
    if u.credentials == [] then u.name else u.name + ", " + Join(", ", u.credentials)
  }

  /** The name followed by the credentials is the comma-separated join of
      the name and every credential. */
  lemma NameWithCredentialsJoin(u: User)
    ensures NameWithCredentials(u) == Join(", ", [u.name] + u.credentials)
  {
    var l := [u.name] + u.credentials;
    if u.credentials != [] {
      assert l[1..] == u.credentials;
    }
  }

  predicate IsLinkedin(url: string) {
    Contains(Lower(url), "linkedin.com")
  }

  /** The position of the first website mentioning linkedin.com, or the
      length of the list when none does. */
  function LinkedinIndex(websites: seq<string>): (r: nat)
    ensures r <= |websites|
    ensures forall k :: 0 <= k < r ==> !IsLinkedin(websites[k])
    ensures r < |websites| ==> IsLinkedin(websites[r])
  {
    if websites == [] || IsLinkedin(websites[0]) then 0
    else
      var r := LinkedinIndex(websites[1..]);
      assert forall k :: 1 <= k <= r ==> websites[k] == websites[1..][k - 1];
      1 + r
  }

  /** A website mentioning linkedin.com is not empty. */
  lemma LinkedinNonEmpty(url: string)
    requires IsLinkedin(url)
    ensures url != ""
  {
    assert |Lower(url)| == |url|;
  }

  /** `linkedin_url`: the first website mentioning linkedin.com in any
      letter case, or "" when none does. */
  function LinkedinUrl(websites: seq<string>): (r: string)
    ensures r == "" <==> forall i :: 0 <= i < |websites| ==> !IsLinkedin(websites[i])
    ensures r != "" ==> exists i :: (0 <= i < |websites| && websites[i] == r && IsLinkedin(r)
      && forall k :: 0 <= k < i ==> !IsLinkedin(websites[k]))
  {
    var i := LinkedinIndex(websites);
    if i < |websites| then
      LinkedinNonEmpty(websites[i]);
      websites[i]
    else ""
  }

  function Sites(ps: seq<Presence>): (r: seq<string>)
    ensures |r| == |ps|
    ensures forall i :: 0 <= i < |ps| ==> r[i] == ps[i].site
  {
    seq(|ps|, i requires 0 <= i < |ps| => ps[i].site)
  }

  /** The entries of other sites, in their order. */
  function WithoutSite(ps: seq<Presence>, site: string): (r: seq<Presence>)
    ensures site !in Sites(r)
    ensures forall i :: 0 <= i < |r| ==> r[i] in ps
    ensures forall i :: 0 <= i < |ps| && ps[i].site != site ==> ps[i] in r
  {
    if ps == [] then []
    else
      var rest := WithoutSite(ps[1..], site);
      if ps[0].site == site then rest
      else
        assert Sites([ps[0]] + rest) == [ps[0].site] + Sites(rest);
        [ps[0]] + rest
  }

  /** `add_online_presence`: any entry for the site is dropped and the new
      one appended; the store replaces the row keyed by the site. */
  function AddOnlinePresence(u: User, db: Db, site: string, content: string, timeFetched: string, success: bool): (s: UserStep)
    ensures var ps := s.user.onlinePresence;
      && |ps| > 0
      && ps[|ps| - 1] == Presence(site, timeFetched, success, content)
      && ps[..|ps| - 1] == WithoutSite(u.onlinePresence, site)
    ensures Count(Sites(s.user.onlinePresence), site) == 1
    ensures s.user == u.(onlinePresence := s.user.onlinePresence)
    ensures s.result.Failure? <==> u.username !in db.users
  {
    var ps := WithoutSite(u.onlinePresence, site) + [Presence(site, timeFetched, success, content)];
    var o := AddUserOnlinePresence(db, u.username, site, timeFetched, success, content);
    assert Sites(ps) == Sites(WithoutSite(u.onlinePresence, site)) + [site];
    CountAppend(Sites(WithoutSite(u.onlinePresence, site)), [site], site);
    CountPositive(Sites(WithoutSite(u.onlinePresence, site)), site);
    assert ps[..|ps| - 1] == WithoutSite(u.onlinePresence, site);
    UserStep(u.(onlinePresence := ps), o.db, o.result)
  }

  /** The presence entries held in memory are exactly the user's rows in
      the store, one per site. */
  ghost predicate PresenceStored(u: User, db: Db) {
    && NoDup(Sites(u.onlinePresence))
    && (forall i :: 0 <= i < |u.onlinePresence| ==>
          var p := u.onlinePresence[i];
          && (u.username, p.site) in db.onlinePresence
          && db.onlinePresence[(u.username, p.site)] == PresenceRow(p.timeFetched, p.fetchSuccess, p.content))
    && (forall k :: k in db.onlinePresence && k.0 == u.username ==> k.1 in Sites(u.onlinePresence))
  }

  /** `add_online_presence` keeps memory and store in step. */
  lemma AddOnlinePresenceStored(u: User, db: Db, site: string, content: string, timeFetched: string, success: bool)
    requires PresenceStored(u, db)
    requires u.username in db.users
    ensures var s := AddOnlinePresence(u, db, site, content, timeFetched, success);
      PresenceStored(s.user, s.db)
  {
    var s := AddOnlinePresence(u, db, site, content, timeFetched, success);
    var kept := WithoutSite(u.onlinePresence, site);
    var entry := Presence(site, timeFetched, success, content);
    var ps := s.user.onlinePresence;
    assert ps == kept + [entry] by {
      assert ps == ps[..|ps| - 1] + [ps[|ps| - 1]];
    }
    assert s.db.onlinePresence == db.onlinePresence[(u.username, site) := PresenceRow(timeFetched, success, content)];
    PutPresenceStored(u, db, entry);
  }

  /** Storing an entry for a site in memory (after dropping the site's old
      entry) and in the store keeps the two in step. */
  lemma PutPresenceStored(u: User, db: Db, entry: Presence)
    requires PresenceStored(u, db)
    ensures PresenceStored(
      u.(onlinePresence := WithoutSite(u.onlinePresence, entry.site) + [entry]),
      db.(onlinePresence := db.onlinePresence[(u.username, entry.site) := PresenceRow(entry.timeFetched, entry.fetchSuccess, entry.content)]))
  {
    var site := entry.site;
    var kept := WithoutSite(u.onlinePresence, site);
    var ps := kept + [entry];
    KeptNoDup(u.onlinePresence, site);
    assert Sites(ps) == Sites(kept) + [site];
    PutPresenceKeys(u, db, entry);
    PutPresenceRows(u, db, entry);
  }

  lemma PutPresenceKeys(u: User, db: Db, entry: Presence)
    requires PresenceStored(u, db)
    ensures var ps := WithoutSite(u.onlinePresence, entry.site) + [entry];
      var m := db.onlinePresence[(u.username, entry.site) := PresenceRow(entry.timeFetched, entry.fetchSuccess, entry.content)];
      forall k :: k in m && k.0 == u.username ==> k.1 in Sites(ps)
  {
    var site := entry.site;
    var kept := WithoutSite(u.onlinePresence, site);
    var ps := kept + [entry];
    var m := db.onlinePresence[(u.username, site) := PresenceRow(entry.timeFetched, entry.fetchSuccess, entry.content)];
    assert Sites(ps) == Sites(kept) + [site];
    forall k | k in m && k.0 == u.username
      ensures k.1 in Sites(ps)
    {
      if k.1 != site {
        assert k in db.onlinePresence;
        KeptSite(u.onlinePresence, site, k.1);
      }
    }
  }

  /** A site other than the dropped one keeps its entry. */
  lemma KeptSite(ps: seq<Presence>, site: string, x: string)
    requires x in Sites(ps) && x != site
    ensures x in Sites(WithoutSite(ps, site))
  {
    var kept := WithoutSite(ps, site);
    var i :| 0 <= i < |ps| && Sites(ps)[i] == x;
    assert ps[i] in kept;
    var j :| 0 <= j < |kept| && kept[j] == ps[i];
    assert Sites(kept)[j] == x;
  }

  lemma PutPresenceRows(u: User, db: Db, entry: Presence)
    requires PresenceStored(u, db)
    ensures var ps := WithoutSite(u.onlinePresence, entry.site) + [entry];
      var m := db.onlinePresence[(u.username, entry.site) := PresenceRow(entry.timeFetched, entry.fetchSuccess, entry.content)];
      forall i :: 0 <= i < |ps| ==>
        && (u.username, ps[i].site) in m
        && m[(u.username, ps[i].site)] == PresenceRow(ps[i].timeFetched, ps[i].fetchSuccess, ps[i].content)
  {
    var site := entry.site;
    var kept := WithoutSite(u.onlinePresence, site);
    var m := db.onlinePresence[(u.username, site) := PresenceRow(entry.timeFetched, entry.fetchSuccess, entry.content)];
    forall i | 0 <= i < |kept|
      ensures (u.username, kept[i].site) in m
      ensures m[(u.username, kept[i].site)] == PresenceRow(kept[i].timeFetched, kept[i].fetchSuccess, kept[i].content)
    {
      assert kept[i] in u.onlinePresence;
      assert Sites(kept)[i] != site;
    }
  }

  /** Dropping one site's entries keeps the sites distinct. */
  lemma {:induction false} KeptNoDup(ps: seq<Presence>, site: string)
    requires NoDup(Sites(ps))
    ensures NoDup(Sites(WithoutSite(ps, site)))
  {
    if ps != [] {
      assert Sites(ps[1..]) == Sites(ps)[1..];
      NoDupCons(Sites(ps));
      KeptNoDup(ps[1..], site);
      if ps[0].site != site {
        var rest := WithoutSite(ps[1..], site);
        assert Sites([ps[0]] + rest) == [ps[0].site] + Sites(rest);
        forall i | 0 <= i < |rest|
          ensures Sites(rest)[i] != ps[0].site
        {
          assert rest[i] in ps[1..];
          var j :| 0 <= j < |ps[1..]| && ps[1..][j] == rest[i];
          assert Sites(ps[1..])[j] == rest[i].site;
        }
        NoDupCons([ps[0].site] + Sites(rest));
        assert ([ps[0].site] + Sites(rest))[1..] == Sites(rest);
      }
    }
  }

  /** `clear_online_presence`. */
  function ClearOnlinePresence(u: User, db: Db): (s: UserStep)
    ensures s.user == u.(onlinePresence := [])
    ensures PresenceStored(s.user, s.db)
    ensures s.result.Success?
    ensures forall k :: k in s.db.onlinePresence <==> k in db.onlinePresence && k.0 != u.username
  {
    var o := ClearUserOnlinePresence(db, u.username);
    UserStep(u.(onlinePresence := []), o.db, o.result)
  }

  /** `clear_source_document_paths`: the paths, the combined documents and
      the summary are emptied, in memory and in the store. */
  function ClearSourceDocumentPaths(u: User, db: Db): (s: UserStep)
    ensures s.user == u.(sourceDocumentPaths := [], combinedSourceDocuments := [], sourceDocumentSummary := "")
    ensures s.result.Success?
    ensures ReadUserList(s.db, SourceDocumentPaths, u.username) == []
    ensures forall k :: k != SourceDocumentPaths ==> ReadUserList(s.db, k, u.username) == ReadUserList(db, k, u.username)
    ensures forall k :: k in s.db.combinedDocuments ==> k.0 != u.username
    ensures u.username in db.users ==>
      u.username in s.db.users && s.db.users[u.username] == db.users[u.username].(sourceDocumentSummary := "")
  {
    var o1 := SetUserList(db, u.username, SourceDocumentPaths, []);
    var o2 := SetUserCombinedSourceDocuments(o1.db, u.username, []);
    var o3 := UpdateUserField(o2.db, u.username, "source_document_summary", "");
    StoreLaws.ReadAfterReplace(db.userLists, SourceDocumentPaths, u.username, []);
    forall k | k != SourceDocumentPaths
      ensures ReadUserList(o3.db, k, u.username) == ReadUserList(db, k, u.username)
    {
      StoreLaws.ReplaceElsewhere(db.userLists, SourceDocumentPaths, u.username, [], k, u.username);
    }
    UserStep(u.(sourceDocumentPaths := [], combinedSourceDocuments := [], sourceDocumentSummary := ""), o3.db, Success(()))
  }

  /* ---- job discard and restore ---- */

  /** The jobs and the store after a discard or restore. */
  datatype JobsStep = JobsStep(cache: JobsDb.JobCache, db: Db, result: Result<(), DbError>)

  /** `{qid: delta for qid in query_ids}` as its items. */
  function Deltas(queryIds: seq<int>, delta: int): (r: seq<(int, int)>)
    ensures |r| == |Dedup(queryIds)|
    ensures forall i :: 0 <= i < |r| ==> r[i] == (Dedup(queryIds)[i], delta)
  {
    var ids := Dedup(queryIds);
    seq(|ids|, i requires 0 <= i < |ids| => (ids[i], delta))
  }

  /** The common shape of `discard_job` and `restore_job`: an unknown job
      is ignored; otherwise the status is set, then `delta` is logged once
      for each distinct query id of the job. */
  function Retag(c: JobsDb.JobCache, qh: Queries.Handler, db: Db, jobId: string,
                 status: JobsDb.JobStatus, delta: int, now: string): (r: JobsStep)
    ensures jobId !in c.jobs ==> r == JobsStep(c, db, Success(()))
    ensures jobId in c.jobs ==> r.cache == c.(jobs := c.jobs[jobId := c.jobs[jobId].(status := status)])
    ensures jobId in c.jobs ==> jobId in r.cache.jobs && r.cache.jobs[jobId].status == status
    ensures jobId in c.jobs ==>
      (r.result.Success? <==> forall q :: q in c.jobs[jobId].queryIds ==> (qh.username, q) in db.queries)
    ensures r.db.queries == db.queries
    ensures jobId in c.jobs ==>
      var key := (c.jobs[jobId].username, c.jobs[jobId].id);
      r.db.jobStatus == if key in db.jobStatus then db.jobStatus[key := StatusRow(JobsDb.StatusValue(status), now)] else db.jobStatus
  {
    match JobsDb.Get(c, jobId)
    case None => JobsStep(c, db, Success(()))
    case Some(job) =>
      var s := JobsDb.SetStatus(job, db, status, now);
      var c1 := c.(jobs := c.jobs[jobId := s.job]);
      if job.queryIds == [] then JobsStep(c1, s.db, s.result)
      else
        var results := Deltas(job.queryIds, delta);
        var (_, o) := Queries.WriteResults(qh, s.db, results, now);
        assert (forall i :: 0 <= i < |results| ==> (qh.username, results[i].0) in s.db.queries)
            <==> (forall q :: q in job.queryIds ==> (qh.username, q) in db.queries) by {
          assert forall i :: 0 <= i < |results| ==> results[i].0 == Dedup(job.queryIds)[i];
        }
        JobsStep(c1, o.db, o.result)
  }

  /** `discard_job`. */
  function DiscardJob(c: JobsDb.JobCache, qh: Queries.Handler, db: Db, jobId: string, now: string): (r: JobsStep)
    ensures jobId !in c.jobs ==> r == JobsStep(c, db, Success(()))
    ensures jobId in c.jobs ==> jobId in r.cache.jobs && r.cache.jobs[jobId].status == JobsDb.Discarded
    ensures jobId in c.jobs && JobsDb.Coherent(c, db) && (c.username, jobId) in db.jobStatus ==>
      (c.username, jobId) in r.db.jobStatus && r.db.jobStatus[(c.username, jobId)].status == "discarded"
    ensures JobsDb.Coherent(c, db) ==> forall k :: k in db.jobStatus && k != (c.username, jobId) ==>
      k in r.db.jobStatus && r.db.jobStatus[k] == db.jobStatus[k]
  {
    Retag(c, qh, db, jobId, JobsDb.Discarded, -1, now)
  }

  /** `restore_job`. */
  function RestoreJob(c: JobsDb.JobCache, qh: Queries.Handler, db: Db, jobId: string, now: string): (r: JobsStep)
    ensures jobId !in c.jobs ==> r == JobsStep(c, db, Success(()))
    ensures jobId in c.jobs ==> jobId in r.cache.jobs && r.cache.jobs[jobId].status == JobsDb.Pending
    ensures jobId in c.jobs && JobsDb.Coherent(c, db) && (c.username, jobId) in db.jobStatus ==>
      (c.username, jobId) in r.db.jobStatus && r.db.jobStatus[(c.username, jobId)].status == "pending"
    ensures JobsDb.Coherent(c, db) ==> forall k :: k in db.jobStatus && k != (c.username, jobId) ==>
      k in r.db.jobStatus && r.db.jobStatus[k] == db.jobStatus[k]
  {
    Retag(c, qh, db, jobId, JobsDb.Pending, 1, now)
  }

  /** Each distinct id gets `delta` once. */
  lemma {:induction false} DeltaForDistinct(ids: seq<int>, delta: int, q: int)
    requires NoDup(ids)
    ensures StoreLaws.DeltaFor(seq(|ids|, i requires 0 <= i < |ids| => (ids[i], delta)), q) == (if q in ids then delta else 0)
  {
    if ids != [] {
      var init := ids[..|ids| - 1];
      var items := seq(|ids|, i requires 0 <= i < |ids| => (ids[i], delta));
      assert items[..|items| - 1] == seq(|init|, i requires 0 <= i < |init| => (init[i], delta));
      assert NoDup(init);
      DeltaForDistinct(init, delta, q);
      assert ids == init + [ids[|ids| - 1]];
      assert ids[|ids| - 1] !in init;
    }
  }

  /** A successful `discard_job` lowers by one the leads total of every
      query that found the job, and leaves every other total alone;
      `restore_job` raises them by one. */
  lemma RetagTotals(c: JobsDb.JobCache, qh: Queries.Handler, db: Db, jobId: string,
                    status: JobsDb.JobStatus, delta: int, now: string, q: int)
    requires jobId in c.jobs
    requires Retag(c, qh, db, jobId, status, delta, now).result.Success?
    ensures GetQueryResultsTotal(Retag(c, qh, db, jobId, status, delta, now).db, qh.username, q)
         == GetQueryResultsTotal(db, qh.username, q) + (if q in c.jobs[jobId].queryIds then delta else 0)
  {
    var job := c.jobs[jobId];
    var s := JobsDb.SetStatus(job, db, status, now);
    assert s.db.queryResults == db.queryResults;
    if job.queryIds != [] {
      var ids := Dedup(job.queryIds);
      var results := Deltas(job.queryIds, delta);
      assert results == seq(|ids|, i requires 0 <= i < |ids| => (ids[i], delta));
      StoreLaws.TotalAfterRows(db.queryResults, qh.username, results, now, q);
      DeltaForDistinct(ids, delta, q);
      assert q in ids <==> q in job.queryIds;
    }
  }
}
