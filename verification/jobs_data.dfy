/** The legacy file-backed job list (src/data_handlers/jobs_data.py): jobs
    keyed by a slug made from the company name, saved as one JSON object.
    The file itself is left out; its decoded contents are a map of records. */
module JobsData {
  import opened Wrappers
  import opened Text

  /** A `fit_notes` or `cover_letter_topics` entry. */
  type Note = map<string, string>

  datatype LegacyJob = LegacyJob(
    id: string,
    company: string,
    title: string,
    dateFound: string,
    applied: bool,
    link: string,
    location: string,
    description: string,
    fitNotes: seq<Note>,
    topics: seq<Note>,
    fullDescription: string,
    body: string,
    addressee: Option<string>)

  type Jobs = map<string, LegacyJob>

  /* ---- the slug ---- */

  /** The characters `[a-z0-9]` the slug keeps. */
  predicate SlugChar(c: char) {
    IsLower(c) || IsDigit(c)
  }

  /** Drops a leading run of characters outside `[a-z0-9]`. */
  function SkipRun(s: string): (r: string)
    ensures |r| <= |s| && r == s[|s| - |r|..]
    ensures r == [] || SlugChar(r[0])
    ensures forall i :: 0 <= i < |s| - |r| ==> !SlugChar(s[i])
  {
    if s == [] || SlugChar(s[0]) then s else SkipRun(s[1..])
  }

  /** `re.sub(r'[^a-z0-9]+', '-', s)`: each maximal run of other
      characters becomes one hyphen. */
  function Collapse(s: string): (r: string)
    ensures s == [] <==> r == []
    ensures s != [] && SlugChar(s[0]) ==> r[0] == s[0]
    ensures s != [] && !SlugChar(s[0]) ==> r[0] == '-'
    decreases |s|
  {
    if s == [] then []
    else if SlugChar(s[0]) then [s[0]] + Collapse(s[1..])
    else "-" + Collapse(SkipRun(s[1..]))
  }

  /** Only slug characters and hyphens. */
  predicate Allowed(s: string) {
    forall i :: 0 <= i < |s| ==> SlugChar(s[i]) || s[i] == '-'
  }

  /** No two hyphens in a row. */
  predicate NoDouble(s: string) {
    forall i :: 0 <= i < |s| - 1 ==> !(s[i] == '-' && s[i + 1] == '-')
  }

  /** What `_generate_id` can produce as a base: non-empty, slug characters
      and single hyphens, no hyphen at either end. */
  predicate IsSlug(s: string) {
    && s != []
    && Allowed(s)
    && NoDouble(s)
    && s[0] != '-'
    && s[|s| - 1] != '-'
  }

  /** The slug characters of a string, in order. */
  function Kept(s: string): string {
    if s == [] then [] else (if SlugChar(s[0]) then [s[0]] else []) + Kept(s[1..])
  }

  lemma {:induction false} KeptAppend(a: string, b: string)
    ensures Kept(a + b) == Kept(a) + Kept(b)
  {
    if a == [] {
      assert a + b == b;
    } else {
      assert (a + b)[1..] == a[1..] + b;
      KeptAppend(a[1..], b);
    }
  }

  /** A run of characters the slug drops contributes nothing. */
  lemma {:induction false} KeptNone(s: string)
    requires forall i :: 0 <= i < |s| ==> !SlugChar(s[i])
    ensures Kept(s) == []
  {
    if s != [] {
      KeptNone(s[1..]);
    }
  }

  lemma AllowedCons(c: char, rest: string)
    requires SlugChar(c) || c == '-'
    requires Allowed(rest)
    ensures Allowed([c] + rest)
  {
    var r := [c] + rest;
    assert forall i :: 1 <= i < |r| ==> r[i] == rest[i - 1];
  }

  lemma NoDoubleCons(c: char, rest: string)
    requires NoDouble(rest)
    requires c == '-' ==> rest == [] || rest[0] != '-'
    ensures NoDouble([c] + rest)
  {
    var r := [c] + rest;
    assert forall i :: 1 <= i < |r| ==> r[i] == rest[i - 1];
  }

  lemma AllowedSlice(s: string, i: nat, j: nat)
    requires Allowed(s) && i <= j <= |s|
    ensures Allowed(s[i..j])
  {
    assert forall k :: 0 <= k < j - i ==> s[i..j][k] == s[i + k];
  }

  lemma NoDoubleSlice(s: string, i: nat, j: nat)
    requires NoDouble(s) && i <= j <= |s|
    ensures NoDouble(s[i..j])
  {
    assert forall k :: 0 <= k < j - i ==> s[i..j][k] == s[i + k];
  }

  /** Collapsing leaves only slug characters and hyphens. */
  lemma {:induction false} CollapseAllowed(s: string)
    ensures Allowed(Collapse(s))
    decreases |s|
  {
    if s == [] {
    } else if SlugChar(s[0]) {
      CollapseAllowed(s[1..]);
      AllowedCons(s[0], Collapse(s[1..]));
    } else {
      CollapseAllowed(SkipRun(s[1..]));
      AllowedCons('-', Collapse(SkipRun(s[1..])));
    }
  }

  /** Collapsing never leaves two hyphens in a row. */
  lemma {:induction false} CollapseNoDouble(s: string)
    ensures NoDouble(Collapse(s))
    decreases |s|
  {
    if s == [] {
    } else if SlugChar(s[0]) {
      CollapseNoDouble(s[1..]);
      NoDoubleCons(s[0], Collapse(s[1..]));
    } else {
      var t := SkipRun(s[1..]);
      CollapseNoDouble(t);
      NoDoubleCons('-', Collapse(t));
    }
  }

  /** Collapsing keeps every slug character, in order. */
  lemma {:induction false} CollapseKept(s: string)
    ensures Kept(Collapse(s)) == Kept(s)
    decreases |s|
  {
    if s == [] {
    } else if SlugChar(s[0]) {
      CollapseKept(s[1..]);
      var r := [s[0]] + Collapse(s[1..]);
      assert r[1..] == Collapse(s[1..]);
    } else {
      var t := SkipRun(s[1..]);
      CollapseKept(t);
      SkipKept(s[1..]);
      var r := "-" + Collapse(t);
      assert r[1..] == Collapse(t);
    }
  }

  /** The run `SkipRun` drops holds no slug character. */
  lemma {:induction false} SkipKept(s: string)
    ensures Kept(SkipRun(s)) == Kept(s)
  {
    if s != [] && !SlugChar(s[0]) {
      SkipKept(s[1..]);
    }
  }

  /** Python's `s.strip('-')`. */
  function Strip(s: string): (r: string)
    ensures r == [] || (r[0] != '-' && r[|r| - 1] != '-')
  {
    RStrip(LStrip(s, '-'), '-')
  }

  /** Stripping hyphens takes a slice, so it keeps an allowed string
      allowed and single hyphens single. */
  lemma StripShape(s: string)
    requires Allowed(s) && NoDouble(s)
    ensures Allowed(Strip(s)) && NoDouble(Strip(s))
  {
    var l := LStrip(s, '-');
    var r := RStrip(l, '-');
    AllowedSlice(s, |s| - |l|, |s|);
    NoDoubleSlice(s, |s| - |l|, |s|);
    assert r == l[..|r|];
    AllowedSlice(l, 0, |r|);
    NoDoubleSlice(l, 0, |r|);
  }

  /** Stripping hyphens keeps every slug character. */
  lemma StripKept(s: string)
    ensures Kept(Strip(s)) == Kept(s)
  {
    LStripKept(s);
    RStripKept(LStrip(s, '-'));
  }

  lemma {:induction false} LStripKept(s: string)
    ensures Kept(LStrip(s, '-')) == Kept(s)
  {
    if s != [] && s[0] == '-' {
      LStripKept(s[1..]);
    }
  }

  lemma {:induction false} RStripKept(s: string)
    ensures Kept(RStrip(s, '-')) == Kept(s)
  {
    if s != [] && s[|s| - 1] == '-' {
      var init := s[..|s| - 1];
      RStripKept(init);
      assert s == init + "-";
      KeptAppend(init, "-");
    }
  }

  /** What `Base` relies on: the stripped collapse of the lowercased name
      is a slug unless empty, and keeps the name's slug characters. */
  lemma StrippedFacts(company: string)
    ensures var t := Strip(Collapse(Lower(company)));
            Allowed(t) && NoDouble(t) && Kept(t) == Kept(Lower(company))
  {
    var c := Collapse(Lower(company));
    CollapseAllowed(Lower(company));
    CollapseNoDouble(Lower(company));
    CollapseKept(Lower(company));
    StripShape(c);
    StripKept(c);
  }

  /** The `_generate_id` base: the lowercased company with every run of
      characters outside `[a-z0-9]` made one hyphen, hyphens stripped from
      both ends, or `"unknown"` if nothing is left. */
  function Base(company: string): (r: string)
    ensures IsSlug(r)
    ensures Kept(Lower(company)) != [] ==> Kept(r) == Kept(Lower(company))
    ensures Kept(Lower(company)) == [] ==> r == "unknown"
  {
    var t := Strip(Collapse(Lower(company)));
    StrippedFacts(company);
    if t == [] then
      UnknownIsSlug();
      "unknown"
    else
      StripNotEmpty(t);
      t
  }

  lemma UnknownIsSlug()
    ensures IsSlug("unknown")
  {
    var u := "unknown";
    assert forall i :: 0 <= i < |u| ==> IsLower(u[i]);
  }

  /** A non-empty stripped allowed string without doubled hyphens holds a
      slug character. */
  lemma StripNotEmpty(t: string)
    requires t != [] && Allowed(t) && t[0] != '-'
    ensures Kept(t) != []
  {
    assert SlugChar(t[0]);
    KeptAppend([t[0]], t[1..]);
    assert t == [t[0]] + t[1..];
  }

  /** Collapsing a string that is already allowed and has no doubled hyphen
      changes nothing. */
  lemma {:induction false} CollapseFixed(w: string)
    requires Allowed(w) && NoDouble(w)
    ensures Collapse(w) == w
    decreases |w|
  {
    if w != [] {
      var rest := w[1..];
      AllowedSlice(w, 1, |w|);
      NoDoubleSlice(w, 1, |w|);
      if SlugChar(w[0]) {
        assert Collapse(w) == [w[0]] + Collapse(rest);
      } else {
        assert rest == [] || SlugChar(rest[0]);
        assert SkipRun(rest) == rest;
        assert Collapse(w) == "-" + Collapse(rest);
      }
      CollapseFixed(rest);
    }
  }

  /** A slug is its own base, so taking the base twice is taking it once. */
  lemma BaseOfSlug(w: string)
    requires IsSlug(w)
    ensures Base(w) == w
  {
    assert Lower(w) == w;
    CollapseFixed(w);
    assert LStrip(w, '-') == w;
  }

  lemma BaseIdempotent(company: string)
    ensures Base(Base(company)) == Base(company)
  {
    BaseOfSlug(Base(company));
  }

  /* ---- the id ---- */

  /** `f"{base}-{counter}"`. */
  function Suffixed(base: string, k: nat): string {
    base + "-" + NatToString(k)
  }

  lemma SuffixedDistinct(base: string, a: nat, b: nat)
    requires a != b
    ensures Suffixed(base, a) != Suffixed(base, b)
  {
    if Suffixed(base, a) == Suffixed(base, b) {
      var n := |base| + 1;
      assert Suffixed(base, a)[n..] == NatToString(a);
      assert Suffixed(base, b)[n..] == NatToString(b);
      NatToStringInjective(a, b);
    }
  }

  /** The id `_generate_id` gives: the base when free, else `base-k` for
      the least `k >= 2` not taken. */
  ghost predicate Generated(jobs: Jobs, base: string, id: string) {
    && id !in jobs
    && (base !in jobs ==> id == base)
    && (base in jobs ==>
          exists k: nat :: k >= 2 && id == Suffixed(base, k) && forall j :: 2 <= j < k ==> Suffixed(base, j) in jobs)
  }

  /** At most one id fits that description. */
  lemma GeneratedUnique(jobs: Jobs, base: string, id1: string, id2: string)
    requires Generated(jobs, base, id1) && Generated(jobs, base, id2)
    ensures id1 == id2
  {
    if base in jobs {
      var k1: nat :| k1 >= 2 && id1 == Suffixed(base, k1) && forall j :: 2 <= j < k1 ==> Suffixed(base, j) in jobs;
      var k2: nat :| k2 >= 2 && id2 == Suffixed(base, k2) && forall j :: 2 <= j < k2 ==> Suffixed(base, j) in jobs;
      assert !(k1 < k2) by {
        assert Suffixed(base, k1) !in jobs;
      }
      assert !(k2 < k1) by {
        assert Suffixed(base, k2) !in jobs;
      }
    }
  }

  /** `_generate_id`. */
  method GenerateId(jobs: Jobs, company: string) returns (id: string)
    ensures Generated(jobs, Base(company), id)
  {
    var base := Base(company);
    if base !in jobs {
      return base;
    }
    var k := FirstFreeSuffix(jobs, base);
    id := Suffixed(base, k);
  }

  /** The counter loop of `_generate_id`. It ends because every number it
      passes names a different key of the finite map. */
  method FirstFreeSuffix(jobs: Jobs, base: string) returns (counter: nat)
    ensures counter >= 2 && Suffixed(base, counter) !in jobs
    ensures forall j :: 2 <= j < counter ==> Suffixed(base, j) in jobs
  {
    counter := 2;
    ghost var seen: set<string> := {};
    while Suffixed(base, counter) in jobs
      invariant counter >= 2
      invariant forall j :: 2 <= j < counter ==> Suffixed(base, j) in jobs
      invariant SeenBelow(base, counter, seen)
      invariant seen <= jobs.Keys
      invariant |seen| == counter - 2
      decreases |jobs.Keys| - |seen|
    {
      var x := Suffixed(base, counter);
      SuffixFresh(base, counter, seen);
      SubsetSize(seen + {x}, jobs.Keys);
      SeenStep(base, counter, seen);
      seen := seen + {x};
      counter := counter + 1;
    }
  }

  /** Every id in `seen` is a candidate below `counter`. */
  ghost predicate SeenBelow(base: string, counter: nat, seen: set<string>) {
    forall y :: y in seen ==> exists j :: 2 <= j < counter && y == Suffixed(base, j)
  }

  lemma SeenStep(base: string, counter: nat, seen: set<string>)
    requires counter >= 2
    requires SeenBelow(base, counter, seen)
    ensures SeenBelow(base, counter + 1, seen + {Suffixed(base, counter)})
  {
  }

  /** The next candidate is none of the ones already passed. */
  lemma SuffixFresh(base: string, counter: nat, seen: set<string>)
    requires SeenBelow(base, counter, seen)
    ensures Suffixed(base, counter) !in seen
  {
    forall j | 2 <= j < counter
      ensures Suffixed(base, j) != Suffixed(base, counter)
    {
      SuffixedDistinct(base, j, counter);
    }
  }

  lemma {:induction false} SubsetSize<T>(a: set<T>, b: set<T>)
    requires a <= b
    ensures |a| <= |b|
    decreases |b|
  {
    if a != {} {
      var x :| x in a;
      SubsetSize(a - {x}, b - {x});
    }
  }

  /* ---- the collection ---- */

  /** `has_link`: exact string equality. */
  ghost predicate HasLink(jobs: Jobs, link: string) {
    exists id :: id in jobs && jobs[id].link == link
  }

  /** `add`: a new job under the generated id, not applied, with no notes,
      no topics and no body. */
  method Add(
    jobs: Jobs, company: string, title: string, link: string, location: string,
    description: string, fullDescription: string, addressee: Option<string>, now: string)
    returns (jobs2: Jobs, job: LegacyJob)
    ensures job.id !in jobs && jobs2 == jobs[job.id := job]
    ensures |jobs2| == |jobs| + 1
    ensures job == LegacyJob(job.id, company, title, now, false, link, location, description, [], [],
                             fullDescription, "", addressee)
    ensures Generated(jobs, Base(company), job.id)
    ensures forall l :: HasLink(jobs2, l) <==> HasLink(jobs, l) || l == link
  {
    var id := GenerateId(jobs, company);
    job := LegacyJob(id, company, title, now, false, link, location, description, [], [], fullDescription, "", addressee);
    jobs2 := jobs[id := job];
    forall l
      ensures HasLink(jobs2, l) <==> HasLink(jobs, l) || l == link
    {
      if HasLink(jobs, l) {
        var k :| k in jobs && jobs[k].link == l;
        assert k in jobs2 && jobs2[k].link == l;
      }
      assert id in jobs2 && jobs2[id].link == link;
    }
  }

  /** `get`. */
  function Get(jobs: Jobs, id: string): (r: Option<LegacyJob>)
    ensures r.Some? <==> id in jobs
    ensures r.Some? ==> r.value == jobs[id]
  {
    Lookup(jobs, id)
  }

  /* ---- to_dict and loading ---- */

  /** The twelve keys `Job.to_dict` writes. */
  datatype Field =
    | Company | Title | DateFound | Applied | Link | Location | Description
    | FitNotes | Topics | FullDescription | Body | Addressee

  /** The JSON key of each field. */
  function Key(f: Field): string {
    match f
    case Company => "company"
    case Title => "title"
    case DateFound => "date_found"
    case Applied => "applied"
    case Link => "link"
    case Location => "location"
    case Description => "description"
    case FitNotes => "fit_notes"
    case Topics => "cover_letter_topics"
    case FullDescription => "full_description"
    case Body => "cover_letter_body"
    case Addressee => "addressee"
  }

  const AllFields: set<Field> := {Company, Title, DateFound, Applied, Link, Location, Description,
                                   FitNotes, Topics, FullDescription, Body, Addressee}

  /** A decoded JSON value of a job record. */
  datatype Value = Str(s: string) | Bool(b: bool) | Notes(items: seq<Note>) | Null

  type Record = map<Field, Value>

  /** The JSON type `to_dict` writes for each field. */
  predicate Typed(f: Field, v: Value) {
    match f
    case Applied => v.Bool?
    case FitNotes | Topics => v.Notes?
    case Addressee => v.Str? || v.Null?
    case _ => v.Str?
  }

  /** One field of `Job.to_dict`; an absent addressee is written as null. */
  function FieldValue(j: LegacyJob, f: Field): (v: Value)
    ensures Typed(f, v)
  {
    match f
    case Company => Str(j.company)
    case Title => Str(j.title)
    case DateFound => Str(j.dateFound)
    case Applied => Bool(j.applied)
    case Link => Str(j.link)
    case Location => Str(j.location)
    case Description => Str(j.description)
    case FitNotes => Notes(j.fitNotes)
    case Topics => Notes(j.topics)
    case FullDescription => Str(j.fullDescription)
    case Body => Str(j.body)
    case Addressee => if j.addressee.Some? then Str(j.addressee.value) else Null
  }

  /** A record holding every field with the type `to_dict` writes. */
  predicate WellTyped(r: Record) {
    r.Keys == AllFields && forall f :: f in r ==> Typed(f, r[f])
  }

  /** `Job.to_dict`: every field but the id, which is the key. */
  function JobToDict(j: LegacyJob): (r: Record)
    ensures WellTyped(r)
  {
    map f | f in AllFields :: FieldValue(j, f)
  }

  /** `Jobs.to_dict`. */
  function ToDict(jobs: Jobs): (d: map<string, Record>)
    ensures d.Keys == jobs.Keys
    ensures forall id :: id in jobs ==> d[id] == JobToDict(jobs[id])
  {
    map id | id in jobs :: JobToDict(jobs[id])
  }

  function GetStr(r: Record, f: Field): string {
    if f in r && r[f].Str? then r[f].s else ""
  }

  function GetNotes(r: Record, f: Field): seq<Note> {
    if f in r && r[f].Notes? then r[f].items else []
  }

  /** The loader's reading of one record: a missing field takes its
      default (`""`, `False`, `[]`, or `None` for the addressee). */
  function JobFromDict(id: string, r: Record): (j: LegacyJob)
    ensures r == map[] ==> j == LegacyJob(id, "", "", "", false, "", "", "", [], [], "", "", None)
  {
    LegacyJob(
      id,
      GetStr(r, Company),
      GetStr(r, Title),
      GetStr(r, DateFound),
      Applied in r && r[Applied].Bool? && r[Applied].b,
      GetStr(r, Link),
      GetStr(r, Location),
      GetStr(r, Description),
      GetNotes(r, FitNotes),
      GetNotes(r, Topics),
      GetStr(r, FullDescription),
      GetStr(r, Body),
      if Addressee in r && r[Addressee].Str? then Some(r[Addressee].s) else None)
  }

  /** `Jobs.__init__` over the decoded file. */
  function Load(d: map<string, Record>): (jobs: Jobs)
    ensures jobs.Keys == d.Keys
    ensures forall id :: id in d ==> jobs[id] == JobFromDict(id, d[id])
  {
    map id | id in d :: JobFromDict(id, d[id])
  }

  /** Every job is stored under its own id. */
  predicate KeyedById(jobs: Jobs) {
    forall id :: id in jobs ==> jobs[id].id == id
  }

  /** Saving and loading again gives back every job, field for field. */
  lemma LoadToDict(jobs: Jobs)
    requires KeyedById(jobs)
    ensures Load(ToDict(jobs)) == jobs
  {
    forall id | id in jobs
      ensures Load(ToDict(jobs))[id] == jobs[id]
    {
      RecordRoundTrip(jobs[id]);
    }
  }

  lemma RecordRoundTrip(j: LegacyJob)
    ensures JobFromDict(j.id, JobToDict(j)) == j
  {
    var r := JobToDict(j);
    assert r[Company] == Str(j.company) && r[Title] == Str(j.title) && r[DateFound] == Str(j.dateFound);
    assert r[Applied] == Bool(j.applied) && r[Link] == Str(j.link) && r[Location] == Str(j.location);
    assert r[Description] == Str(j.description) && r[FitNotes] == Notes(j.fitNotes) && r[Topics] == Notes(j.topics);
    assert r[FullDescription] == Str(j.fullDescription) && r[Body] == Str(j.body);
    assert r[Addressee] == FieldValue(j, Addressee);
  }

  /** Loading a well-typed file and writing it back gives the same file. */
  lemma ToDictLoad(d: map<string, Record>)
    requires forall id :: id in d ==> WellTyped(d[id])
    ensures ToDict(Load(d)) == d
  {
    forall id | id in d
      ensures ToDict(Load(d))[id] == d[id]
    {
      RecordBack(id, d[id]);
    }
  }

  lemma RecordBack(id: string, r: Record)
    requires WellTyped(r)
    ensures JobToDict(JobFromDict(id, r)) == r
  {
    var back := JobToDict(JobFromDict(id, r));
    forall f | f in AllFields
      ensures back[f] == r[f]
    {
      FieldBack(id, r, f);
    }
  }

  lemma FieldBack(id: string, r: Record, f: Field)
    requires WellTyped(r) && f in AllFields
    ensures FieldValue(JobFromDict(id, r), f) == r[f]
  {
    assert Typed(f, r[f]);
  }
}
