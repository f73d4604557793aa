/** The search ingest pipeline (src/search_jobs.py). The language-model
    calls are inputs: what a search returned, the description a page
    yielded, and the list of suitable indices. Candidate jobs are the dicts
    the search produced, with string values, plus the `query_ids` and
    `index` keys the pipeline adds. */
module SearchJobs {
  import opened Wrappers
  import opened Seqs
  import opened Store
  import StoreLaws
  import JobsDb
  import Queries
  import Timestamps

  /* ---- search_query: keeping well-formed results ---- */

  /** An element of the JSON array a search returns. */
  datatype Item = Dict(fields: map<string, string>) | NotDict

  /** The decoded search response. */
  datatype Parsed = Undecodable | NotList | List(items: seq<Item>)

  /** `REQUIRED_JOB_FIELDS`. */
  predicate HasRequired(fields: map<string, string>) {
    "company" in fields && "title" in fields && "link" in fields
  }

  predicate Keep(it: Item) {
    it.Dict? && HasRequired(it.fields)
  }

  function KeptDicts(items: seq<Item>): (r: seq<map<string, string>>)
    ensures forall i :: 0 <= i < |r| ==> HasRequired(r[i]) && Dict(r[i]) in items
    ensures forall i :: 0 <= i < |items| && Keep(items[i]) ==> items[i].fields in r
  {
    if items == [] then []
    else
      var rest := KeptDicts(items[1..]);
      assert forall i :: 1 <= i < |items| ==> items[i] == items[1..][i - 1];
      if Keep(items[0]) then [items[0].fields] + rest else rest
  }

  /** Number of items a search keeps. */
  function KeptCount(items: seq<Item>): nat {
    if items == [] then 0 else (if Keep(items[0]) then 1 else 0) + KeptCount(items[1..])
  }

  /** `search_query`: a failed call, an undecodable response or a non-list
      gives no jobs; otherwise the dicts holding every required key, in
      order. */
  function SearchQuery(success: bool, parsed: Parsed): (r: seq<map<string, string>>)
    ensures !success || !parsed.List? ==> r == []
    ensures forall i :: 0 <= i < |r| ==> HasRequired(r[i])
    ensures success && parsed.List? ==>
      && (forall i :: 0 <= i < |r| ==> Dict(r[i]) in parsed.items)
      && (forall i :: 0 <= i < |parsed.items| && Keep(parsed.items[i]) ==> parsed.items[i].fields in r)
  {
    if !success then []
    else
      match parsed
      case List(items) => KeptDicts(items)
      case _ => []
  }

  /** A search keeps exactly as many jobs as there are well-formed dicts. */
  lemma {:induction false} KeptDictsCount(items: seq<Item>)
    ensures |KeptDicts(items)| == KeptCount(items)
  {
    if items != [] {
      KeptDictsCount(items[1..]);
    }
  }

  /* ---- candidates ---- */

  datatype Candidate = Candidate(fields: map<string, string>, queryIds: seq<int>, index: int)

  /** Every candidate has a link (the required keys were checked). */
  predicate Linked(jobs: seq<Candidate>) {
    forall i :: 0 <= i < |jobs| ==> "link" in jobs[i].fields
  }

  function Links(jobs: seq<Candidate>): (r: seq<string>)
    requires Linked(jobs)
    ensures |r| == |jobs|
    ensures forall i :: 0 <= i < |jobs| ==> r[i] == jobs[i].fields["link"]
  {
    seq(|jobs|, i requires 0 <= i < |jobs| => jobs[i].fields["link"])
  }

  /** The query ids of every candidate with link `l`, in order. */
  function IdsFor(jobs: seq<Candidate>, l: string): seq<int>
    requires Linked(jobs)
  {
    if jobs == [] then []
    else
      var last := jobs[|jobs| - 1];
      IdsFor(jobs[..|jobs| - 1], l) + (if last.fields["link"] == l then last.queryIds else [])
  }

  lemma {:induction false} IdsForAbsent(jobs: seq<Candidate>, l: string)
    requires Linked(jobs)
    requires l !in Links(jobs)
    ensures IdsFor(jobs, l) == []
  {
    if jobs != [] {
      assert Links(jobs[..|jobs| - 1]) == Links(jobs)[..|jobs| - 1];
      IdsForAbsent(jobs[..|jobs| - 1], l);
      assert Links(jobs)[|jobs| - 1] != l;
    }
  }

  /** Position of the candidate with link `l`. */
  function FindLink(jobs: seq<Candidate>, l: string): (r: Option<nat>)
    requires Linked(jobs)
    ensures r.None? <==> l !in Links(jobs)
    ensures r.Some? ==> r.value < |jobs| && Links(jobs)[r.value] == l
  {
    var links := Links(jobs);
    if l in links then Some(IndexOf(links, l)) else None
  }

  /** The facts the merge loop keeps about the first `n` candidates:
      `out` holds one record per distinct link seen so far, the first record
      seen with it (at position `p[k]` of the input), in first-seen order,
      carrying the query ids of every record with that link. */
  ghost predicate MergedPrefix(jobs: seq<Candidate>, n: nat, out: seq<Candidate>, p: seq<nat>)
    requires Linked(jobs) && n <= |jobs|
  {
    && Covers(jobs, n, out)
    && FirstSeen(jobs, n, out, p)
    && Collects(jobs, n, out)
  }

  ghost predicate Covers(jobs: seq<Candidate>, n: nat, out: seq<Candidate>)
    requires Linked(jobs) && n <= |jobs|
  {
    && Linked(out)
    && NoDup(Links(out))
    && (forall x :: x in Links(out) <==> x in Links(jobs[..n]))
  }

  ghost predicate FirstSeen(jobs: seq<Candidate>, n: nat, out: seq<Candidate>, p: seq<nat>)
    requires Linked(jobs) && n <= |jobs|
  {
    && Linked(out)
    && |p| == |out|
    && (forall k :: 0 <= k < |out| ==>
          && p[k] < n
          && Links(jobs)[p[k]] == Links(out)[k]
          && out[k].fields == jobs[p[k]].fields
          && (forall j :: 0 <= j < p[k] ==> Links(jobs)[j] != Links(out)[k]))
    && (forall k1, k2 :: 0 <= k1 < k2 < |out| ==> p[k1] < p[k2])
  }

  ghost predicate Collects(jobs: seq<Candidate>, n: nat, out: seq<Candidate>)
    requires Linked(jobs) && n <= |jobs|
  {
    && Linked(out)
    && (forall k :: 0 <= k < |out| ==> out[k].queryIds == IdsFor(jobs[..n], Links(out)[k]))
  }

  lemma MergeStart(jobs: seq<Candidate>)
    requires Linked(jobs)
    ensures MergedPrefix(jobs, 0, [], [])
  {
    assert Links(jobs[..0]) == [];
  }

  lemma LinksSnoc(jobs: seq<Candidate>, n: nat)
    requires Linked(jobs) && n < |jobs|
    ensures Linked(jobs[..n]) && Linked(jobs[..n + 1])
    ensures Links(jobs[..n + 1]) == Links(jobs[..n]) + [jobs[n].fields["link"]]
    ensures jobs[..n + 1][..n] == jobs[..n]
    ensures forall j :: 0 <= j < n ==> Links(jobs[..n])[j] == Links(jobs)[j]
  {
    assert jobs[..n + 1][..n] == jobs[..n];
  }

  /** Appending a record whose link is new. */
  lemma MergeAppend(jobs: seq<Candidate>, n: nat, out: seq<Candidate>, p: seq<nat>)
    requires Linked(jobs) && n < |jobs|
    requires MergedPrefix(jobs, n, out, p)
    requires jobs[n].fields["link"] !in Links(out)
    ensures MergedPrefix(jobs, n + 1, out + [jobs[n]], p + [n])
  {
    LinksSnoc(jobs, n);
    AppendCovers(jobs, n, out);
    AppendFirstSeen(jobs, n, out, p);
    AppendCollects(jobs, n, out);
  }

  lemma AppendCovers(jobs: seq<Candidate>, n: nat, out: seq<Candidate>)
    requires Linked(jobs) && n < |jobs|
    requires Covers(jobs, n, out)
    requires jobs[n].fields["link"] !in Links(out)
    ensures Covers(jobs, n + 1, out + [jobs[n]])
  {
    LinksSnoc(jobs, n);
    assert Links(out + [jobs[n]]) == Links(out) + [jobs[n].fields["link"]];
  }

  lemma AppendFirstSeen(jobs: seq<Candidate>, n: nat, out: seq<Candidate>, p: seq<nat>)
    requires Linked(jobs) && n < |jobs|
    requires Covers(jobs, n, out) && FirstSeen(jobs, n, out, p)
    requires jobs[n].fields["link"] !in Links(out)
    ensures FirstSeen(jobs, n + 1, out + [jobs[n]], p + [n])
  {
    var l := jobs[n].fields["link"];
    LinksSnoc(jobs, n);
    assert l !in Links(jobs[..n]);
    var out2 := out + [jobs[n]];
    assert Links(out2) == Links(out) + [l];
    forall j | 0 <= j < n
      ensures Links(jobs)[j] != l
    {
      assert Links(jobs[..n])[j] == Links(jobs)[j];
    }
  }

  lemma AppendCollects(jobs: seq<Candidate>, n: nat, out: seq<Candidate>)
    requires Linked(jobs) && n < |jobs|
    requires Covers(jobs, n, out) && Collects(jobs, n, out)
    requires jobs[n].fields["link"] !in Links(out)
    ensures Collects(jobs, n + 1, out + [jobs[n]])
  {
    var l := jobs[n].fields["link"];
    LinksSnoc(jobs, n);
    var out2 := out + [jobs[n]];
    assert Links(out2) == Links(out) + [l];
    IdsForAbsent(jobs[..n], l);
    assert IdsFor(jobs[..n + 1], l) == IdsFor(jobs[..n], l) + jobs[n].queryIds;
    forall k | 0 <= k < |out2|
      ensures out2[k].queryIds == IdsFor(jobs[..n + 1], Links(out2)[k])
    {
      if k < |out| {
        assert Links(out2)[k] == Links(out)[k] != l;
      }
    }
  }

  /** Folding a record into the earlier one with the same link. */
  lemma MergeInto(jobs: seq<Candidate>, n: nat, out: seq<Candidate>, p: seq<nat>, k0: nat)
    requires Linked(jobs) && n < |jobs|
    requires MergedPrefix(jobs, n, out, p)
    requires k0 < |out| && Links(out)[k0] == jobs[n].fields["link"]
    ensures MergedPrefix(jobs, n + 1, out[k0 := out[k0].(queryIds := out[k0].queryIds + jobs[n].queryIds)], p)
  {
    var l := jobs[n].fields["link"];
    var out2 := out[k0 := out[k0].(queryIds := out[k0].queryIds + jobs[n].queryIds)];
    LinksSnoc(jobs, n);
    assert Links(out2) == Links(out);
    assert Covers(jobs, n + 1, out2);
    assert FirstSeen(jobs, n + 1, out2, p);
    forall k | 0 <= k < |out2|
      ensures out2[k].queryIds == IdsFor(jobs[..n + 1], Links(out2)[k])
    {
      if k != k0 {
        assert Links(out)[k] != Links(out)[k0];
      }
    }
  }

  /** What `_merge_records_and_add_index` returns: one candidate per
      distinct link, in first-seen order and numbered by position, each
      with the fields of the first record with its link and the query ids
      of all of them. */
  ghost predicate MergedFrom(jobs: seq<Candidate>, merged: seq<Candidate>)
    requires Linked(jobs)
  {
    && Linked(merged)
    && NoDup(Links(merged))
    && (forall x :: x in Links(merged) <==> x in Links(jobs))
    && Numbered(merged)
    && (forall k :: 0 <= k < |merged| ==> merged[k].fields == jobs[IndexOf(Links(jobs), Links(merged)[k])].fields)
    && (forall k1, k2 :: 0 <= k1 < k2 < |merged| ==>
          IndexOf(Links(jobs), Links(merged)[k1]) < IndexOf(Links(jobs), Links(merged)[k2]))
    && (forall k :: 0 <= k < |merged| ==> merged[k].queryIds == IdsFor(jobs, Links(merged)[k]))
  }

  /** `_merge_records_and_add_index`: records sharing a link are merged
      into the first one seen, which collects the query ids of all of them;
      the survivors keep first-seen order and are numbered by position. */
  method Merge(jobs: seq<Candidate>) returns (out: seq<Candidate>)
    requires Linked(jobs)
    ensures Linked(out)
    ensures NoDup(Links(out))
    ensures forall x :: x in Links(out) <==> x in Links(jobs)
    ensures forall k :: 0 <= k < |out| ==> out[k].index == k
    ensures forall k :: 0 <= k < |out| ==> out[k].fields == jobs[IndexOf(Links(jobs), Links(out)[k])].fields
    ensures forall k1, k2 :: 0 <= k1 < k2 < |out| ==>
      IndexOf(Links(jobs), Links(out)[k1]) < IndexOf(Links(jobs), Links(out)[k2])
    ensures forall k :: 0 <= k < |out| ==> out[k].queryIds == IdsFor(jobs, Links(out)[k])
  {
    var acc: seq<Candidate> := [];
    ghost var p: seq<nat> := [];
    MergeStart(jobs);
    var n := 0;
    while n < |jobs|
      invariant 0 <= n <= |jobs|
      invariant MergedPrefix(jobs, n, acc, p)
      decreases |jobs| - n
    {
      var l := jobs[n].fields["link"];
      match FindLink(acc, l) {
        case None =>
          MergeAppend(jobs, n, acc, p);
          acc, p := acc + [jobs[n]], p + [n];
        case Some(k) =>
          MergeInto(jobs, n, acc, p, k);
          acc := acc[k := acc[k].(queryIds := acc[k].queryIds + jobs[n].queryIds)];
      }
      n := n + 1;
    }
    assert jobs[..n] == jobs;
    out := seq(|acc|, k requires 0 <= k < |acc| => acc[k].(index := k));
    assert Links(out) == Links(acc);
    forall k | 0 <= k < |out|
      ensures IndexOf(Links(jobs), Links(out)[k]) == p[k]
    {
      var i := IndexOf(Links(jobs), Links(out)[k]);
      assert Links(jobs)[p[k]] == Links(out)[k];
      assert !(i < p[k]);
    }
  }

  /* ---- dropping known links ---- */

  /** Indices equal positions, as after the merge. */
  predicate Numbered(jobs: seq<Candidate>) {
    forall k :: 0 <= k < |jobs| ==> jobs[k].index == k
  }

  /** `_filter_duplicates`: the indices of the candidates whose link the
      store already holds for the user. */
  function FilterDuplicates(jobs: seq<Candidate>, db: Db, username: string): (r: seq<int>)
    requires Linked(jobs)
    ensures forall x :: x in r <==>
      exists i :: 0 <= i < |jobs| && jobs[i].index == x && JobHasLink(db, username, jobs[i].fields["link"])
  {
    if jobs == [] then []
    else
      var rest := FilterDuplicates(jobs[1..], db, username);
      assert forall i :: 1 <= i < |jobs| ==> jobs[i] == jobs[1..][i - 1];
      assert forall x :: x in rest <==>
        exists i :: 1 <= i < |jobs| && jobs[i].index == x && JobHasLink(db, username, jobs[i].fields["link"]) by {
        forall x | x in rest
          ensures exists i :: 1 <= i < |jobs| && jobs[i].index == x && JobHasLink(db, username, jobs[i].fields["link"])
        {
          var i :| 0 <= i < |jobs[1..]| && jobs[1..][i].index == x && JobHasLink(db, username, jobs[1..][i].fields["link"]);
          assert jobs[i + 1] == jobs[1..][i];
        }
      }
      (if JobHasLink(db, username, jobs[0].fields["link"]) then [jobs[0].index] else []) + rest
  }

  /** `[j for j in jobs if j["index"] not in bad]`. */
  function DropIndices(jobs: seq<Candidate>, bad: set<int>): (r: seq<Candidate>)
    ensures forall i :: 0 <= i < |r| ==> r[i] in jobs && r[i].index !in bad
    ensures forall i :: 0 <= i < |jobs| && jobs[i].index !in bad ==> jobs[i] in r
  {
    if jobs == [] then []
    else
      var rest := DropIndices(jobs[1..], bad);
      assert forall i :: 1 <= i < |jobs| ==> jobs[i] == jobs[1..][i - 1];
      if jobs[0].index in bad then rest else [jobs[0]] + rest
  }

  /** After dropping the duplicates found among numbered candidates, no
      candidate left has a stored link, and every one with a new link is
      left. */
  lemma DropDuplicates(jobs: seq<Candidate>, db: Db, username: string)
    requires Linked(jobs) && Numbered(jobs)
    ensures var novel := DropIndices(jobs, ToSet(FilterDuplicates(jobs, db, username)));
      && Linked(novel)
      && (forall i :: 0 <= i < |novel| ==> !JobHasLink(db, username, novel[i].fields["link"]))
      && (forall i :: 0 <= i < |jobs| && !JobHasLink(db, username, jobs[i].fields["link"]) ==> jobs[i] in novel)
  {
    var dup := FilterDuplicates(jobs, db, username);
    var novel := DropIndices(jobs, ToSet(dup));
    forall i | 0 <= i < |novel|
      ensures "link" in novel[i].fields && !JobHasLink(db, username, novel[i].fields["link"])
    {
      var k :| 0 <= k < |jobs| && jobs[k] == novel[i];
      assert jobs[k].index !in dup;
    }
    forall i | 0 <= i < |jobs| && !JobHasLink(db, username, jobs[i].fields["link"])
      ensures jobs[i] in novel
    {
      assert forall j :: 0 <= j < |jobs| && jobs[j].index == jobs[i].index ==>
        j == i && !JobHasLink(db, username, jobs[j].fields["link"]);
      assert jobs[i].index !in dup;
    }
  }

  function ToSet(s: seq<int>): (r: set<int>)
    ensures forall x :: x in r <==> x in s
  {
    set x | x in s
  }

  /* ---- filtering unsuitable candidates ---- */

  /** The background given to the suitability check: the comprehensive
      summary, or failing that the combined source documents as text. */
  function Background(comprehensiveSummary: string, combinedDocumentsText: string): (r: string)
    ensures comprehensiveSummary != "" ==> r == comprehensiveSummary
    ensures comprehensiveSummary == "" ==> r == combinedDocumentsText
  {
    if comprehensiveSummary != "" then comprehensiveSummary else combinedDocumentsText
  }

  /** `_filter_unsuitable`: nothing when there are no candidates or no
      background; otherwise every candidate index the check did not call
      suitable. A failed check (`None`) makes the set difference raise. */
  function FilterUnsuitable(jobs: seq<Candidate>, background: string, good: Option<seq<int>>): (r: Result<set<int>, string>)
    ensures jobs == [] || background == "" ==> r == Success({})
    ensures r.Failure? <==> jobs != [] && background != "" && good.None?
    ensures jobs != [] && background != "" && good.Some? ==>
      forall x :: x in r.value <==> (exists i :: 0 <= i < |jobs| && jobs[i].index == x) && x !in good.value
  {
    if jobs == [] || background == "" then Success({})
    else if good.None? then Failure("TypeError")
    else
      var all := set i | 0 <= i < |jobs| :: jobs[i].index;
      Success(all - ToSet(good.value))
  }

  /* ---- the negative ledger ---- */

  /** Adds -1 for `q` to a dict of counts kept as its items. */
  function Bump(items: seq<(int, int)>, q: int): (r: seq<(int, int)>)
    ensures |r| >= |items|
  {
    if items == [] then [(q, -1)]
    else if items[0].0 == q then [(q, items[0].1 - 1)] + items[1..]
    else [items[0]] + Bump(items[1..], q)
  }

  function BumpAll(items: seq<(int, int)>, ids: seq<int>): seq<(int, int)>
    decreases |ids|
  {
    if ids == [] then items else BumpAll(Bump(items, ids[0]), ids[1..])
  }

  function Keys(items: seq<(int, int)>): (r: seq<int>)
    ensures |r| == |items|
    ensures forall i :: 0 <= i < |items| ==> r[i] == items[i].0
  {
    seq(|items|, i requires 0 <= i < |items| => items[i].0)
  }

  /** The query ids of the unsuitable candidates, job after job. */
  function BadIds(jobs: seq<Candidate>, bad: set<int>): seq<int> {
    if jobs == [] then []
    else (if jobs[0].index in bad then jobs[0].queryIds else []) + BadIds(jobs[1..], bad)
  }

  /** The `query_negative_results` dict of `_post_process_jobs`, as its
      items in insertion order. */
  function Ledger(jobs: seq<Candidate>, bad: set<int>): seq<(int, int)> {
    BumpAll([], BadIds(jobs, bad))
  }

  lemma BumpSpec(items: seq<(int, int)>, q: int)
    requires NoDup(Keys(items))
    ensures NoDup(Keys(Bump(items, q)))
    ensures forall x :: x in Keys(Bump(items, q)) <==> x in Keys(items) || x == q
    ensures forall x :: StoreLaws.DeltaFor(Bump(items, q), x) == StoreLaws.DeltaFor(items, x) - (if x == q then 1 else 0)
  {
    BumpKeys(items, q);
    forall x
      ensures StoreLaws.DeltaFor(Bump(items, q), x) == StoreLaws.DeltaFor(items, x) - (if x == q then 1 else 0)
    {
      BumpDelta(items, q, x);
    }
  }

  lemma {:induction false} BumpKeys(items: seq<(int, int)>, q: int)
    requires NoDup(Keys(items))
    ensures NoDup(Keys(Bump(items, q)))
    ensures forall x :: x in Keys(Bump(items, q)) <==> x in Keys(items) || x == q
  {
    BumpKeysIn(items, q);
    if items == [] {
      assert Keys(Bump(items, q)) == [q];
    } else {
      var head, rest := items[0], items[1..];
      assert items == [head] + rest;
      KeysFront(head, rest);
      assert Keys(items)[1..] == Keys(rest);
      NoDupCons(Keys(items));
      if head.0 == q {
        assert Bump(items, q) == [(q, head.1 - 1)] + rest;
        KeysFront((q, head.1 - 1), rest);
        assert Keys(Bump(items, q)) == Keys(items);
      } else {
        BumpKeys(rest, q);
        assert Bump(items, q) == [head] + Bump(rest, q);
        KeysCons(head, Bump(rest, q));
      }
    }
  }

  /** A pair whose key is new can go in front of a keyed list without
      repeating a key. */
  lemma KeysCons(head: (int, int), rest: seq<(int, int)>)
    requires NoDup(Keys(rest)) && head.0 !in Keys(rest)
    ensures NoDup(Keys([head] + rest))
  {
    var r := [head] + rest;
    assert Keys(r) == [head.0] + Keys(rest);
    NoDupCons(Keys(r));
  }

  lemma {:induction false} BumpKeysIn(items: seq<(int, int)>, q: int)
    ensures forall x :: x in Keys(Bump(items, q)) <==> x in Keys(items) || x == q
  {
    if items == [] {
      assert Keys(Bump(items, q)) == [q];
    } else {
      var head, rest := items[0], items[1..];
      assert items == [head] + rest;
      KeysFront(head, rest);
      var front := if head.0 == q then (q, head.1 - 1) else head;
      var tail := if head.0 == q then rest else Bump(rest, q);
      assert Bump(items, q) == [front] + tail;
      KeysFront(front, tail);
      if head.0 != q {
        BumpKeysIn(rest, q);
      }
    }
  }

  /** The keys of a list with a pair in front. */
  lemma KeysFront(head: (int, int), rest: seq<(int, int)>)
    ensures Keys([head] + rest) == [head.0] + Keys(rest)
    ensures forall x :: x in Keys([head] + rest) <==> x == head.0 || x in Keys(rest)
  {
    var r := [head] + rest;
    assert Keys(r) == [head.0] + Keys(rest);
  }

  lemma {:induction false} BumpDelta(items: seq<(int, int)>, q: int, x: int)
    ensures StoreLaws.DeltaFor(Bump(items, q), x) == StoreLaws.DeltaFor(items, x) - (if x == q then 1 else 0)
  {
    if items == [] {
      assert [(q, -1)][..0] == [];
    } else {
      var rest := items[1..];
      assert items == [items[0]] + rest;
      DeltaForCons(items[0], rest, x);
      if items[0].0 == q {
        DeltaForCons((q, items[0].1 - 1), rest, x);
      } else {
        BumpDelta(rest, q, x);
        DeltaForCons(items[0], Bump(rest, q), x);
      }
    }
  }

  /** The sum is the same read from the front. */
  lemma {:induction false} DeltaForCons(head: (int, int), rest: seq<(int, int)>, x: int)
    ensures StoreLaws.DeltaFor([head] + rest, x) == (if head.0 == x then head.1 else 0) + StoreLaws.DeltaFor(rest, x)
    decreases |rest|
  {
    if rest != [] {
      var s := [head] + rest;
      assert s[..|s| - 1] == [head] + rest[..|rest| - 1];
      DeltaForCons(head, rest[..|rest| - 1], x);
    } else {
      assert ([head] + rest)[..0] == [];
    }
  }

  lemma {:induction false} BumpAllSpec(items: seq<(int, int)>, ids: seq<int>)
    requires NoDup(Keys(items))
    ensures NoDup(Keys(BumpAll(items, ids)))
    ensures forall x :: x in Keys(BumpAll(items, ids)) <==> x in Keys(items) || x in ids
    ensures forall x :: StoreLaws.DeltaFor(BumpAll(items, ids), x) == StoreLaws.DeltaFor(items, x) - Count(ids, x)
    decreases |ids|
  {
    if ids != [] {
      BumpSpec(items, ids[0]);
      BumpAllSpec(Bump(items, ids[0]), ids[1..]);
      assert forall x :: x in ids <==> x == ids[0] || x in ids[1..];
    }
  }

  /** The ledger has one entry per query id found among the unsuitable
      candidates, and logs for each query minus the number of times its id
      occurs in their query ids. */
  lemma LedgerCounts(jobs: seq<Candidate>, bad: set<int>)
    ensures NoDup(Keys(Ledger(jobs, bad)))
    ensures forall x :: x in Keys(Ledger(jobs, bad)) <==> x in BadIds(jobs, bad)
    ensures forall x :: StoreLaws.DeltaFor(Ledger(jobs, bad), x) == -(Count(BadIds(jobs, bad), x) as int)
  {
    assert Keys([]) == [];
    BumpAllSpec([], BadIds(jobs, bad));
  }

  /** An id's count over the unsuitable candidates is the sum of its
      counts in each of their query-id lists. */
  lemma {:induction false} BadIdsCount(jobs: seq<Candidate>, bad: set<int>, x: int)
    ensures Count(BadIds(jobs, bad), x) == CountInBad(jobs, bad, x)
  {
    if jobs != [] {
      CountAppend(if jobs[0].index in bad then jobs[0].queryIds else [], BadIds(jobs[1..], bad), x);
      BadIdsCount(jobs[1..], bad, x);
    }
  }

  /** Occurrences of `x` summed over the unsuitable candidates' lists. */
  function CountInBad(jobs: seq<Candidate>, bad: set<int>, x: int): nat {
    if jobs == [] then 0
    else (if jobs[0].index in bad then Count(jobs[0].queryIds, x) else 0) + CountInBad(jobs[1..], bad, x)
  }

  /** Every item names a query of the user. */
  predicate AllKnown(db: Db, username: string, items: seq<(int, int)>) {
    forall i :: 0 <= i < |items| ==> (username, items[i].0) in db.queries
  }

  lemma AllKnownCons(db: Db, username: string, items: seq<(int, int)>)
    requires items != []
    ensures AllKnown(db, username, items) <==>
      (username, items[0].0) in db.queries && AllKnown(db, username, items[1..])
  {
    assert forall i :: 1 <= i < |items| ==> items[i] == items[1..][i - 1];
  }

  /** Logging the first item, then the rest, logs them all. */
  lemma LogCons(rows: seq<ResultRow>, username: string, items: seq<(int, int)>, now: string)
    requires items != []
    ensures (rows + [ResultRow(username, items[0].0, now, items[0].1)]) + ResultRows(username, items[1..], now)
         == rows + ResultRows(username, items, now)
  {
    var head := [ResultRow(username, items[0].0, now, items[0].1)];
    assert ResultRows(username, items, now) == head + ResultRows(username, items[1..], now);
  }

  /** The ledger's writes, `write_result` per item; the first unknown
      query id raises and ends the loop. */
  function WriteEach(qh: Queries.Handler, db: Db, items: seq<(int, int)>, now: string): (r: Outcome<()>)
    ensures r.result.Success? <==> AllKnown(db, qh.username, items)
    ensures r.result.Success? ==> r.db == db.(queryResults := db.queryResults + ResultRows(qh.username, items, now))
    ensures r.db.queries == db.queries && r.db.jobs == db.jobs
    decreases |items|
  {
    if items == [] then
      assert db.queryResults + ResultRows(qh.username, items, now) == db.queryResults;
      Outcome(db, Success(()))
    else
      var o := Queries.WriteResult(qh, db, items[0].0, items[0].1, now).1;
      AllKnownCons(db, qh.username, items);
      if o.result.Failure? then o
      else
        LogCons(db.queryResults, qh.username, items, now);
        WriteEach(qh, o.db, items[1..], now)
  }

  /** Writing the ledger lowers each query's leads total by its count over
      the unsuitable candidates. */
  lemma LedgerTotals(qh: Queries.Handler, db: Db, jobs: seq<Candidate>, bad: set<int>, now: string, q: int)
    requires WriteEach(qh, db, Ledger(jobs, bad), now).result.Success?
    ensures GetQueryResultsTotal(WriteEach(qh, db, Ledger(jobs, bad), now).db, qh.username, q)
         == GetQueryResultsTotal(db, qh.username, q) - CountInBad(jobs, bad, q)
  {
    LedgerCounts(jobs, bad);
    BadIdsCount(jobs, bad, q);
    StoreLaws.TotalAfterRows(db.queryResults, qh.username, Ledger(jobs, bad), now, q);
  }

  /* ---- post-processing ---- */

  /** Phase 2: the description fetched for a link replaces
      `full_description` when it is non-empty. */
  function FetchDescriptions(jobs: seq<Candidate>, fetch: string -> string): (r: seq<Candidate>)
    requires Linked(jobs)
    ensures |r| == |jobs| && Linked(r) && Links(r) == Links(jobs)
    ensures forall i :: 0 <= i < |jobs| ==> r[i].index == jobs[i].index && r[i].queryIds == jobs[i].queryIds
    ensures forall i :: 0 <= i < |jobs| ==>
      r[i].fields == if fetch(jobs[i].fields["link"]) != "" then jobs[i].fields["full_description" := fetch(jobs[i].fields["link"])] else jobs[i].fields
  {
    seq(|jobs|, i requires 0 <= i < |jobs| =>
      var d := fetch(jobs[i].fields["link"]);
      if d != "" then jobs[i].(fields := jobs[i].fields["full_description" := d]) else jobs[i])
  }

  /** Dropping candidates from a list with distinct links leaves a list
      with distinct links, each drawn from the first. */
  lemma {:induction false} DropLinks(xs: seq<Candidate>, bad: set<int>)
    requires Linked(xs) && NoDup(Links(xs))
    ensures Linked(DropIndices(xs, bad)) && NoDup(Links(DropIndices(xs, bad)))
  {
    DropLinked(xs, bad);
    if xs != [] {
      LinksTail(xs);
      DropLinks(xs[1..], bad);
      DropLinksHead(xs, bad);
    }
  }

  /** The tail of a list with distinct links has distinct links, none of
      them the head's. */
  lemma LinksTail(xs: seq<Candidate>)
    requires xs != [] && Linked(xs) && NoDup(Links(xs))
    ensures Linked(xs[1..]) && NoDup(Links(xs[1..])) && xs[0].fields["link"] !in Links(xs[1..])
  {
    assert Links(xs) == [xs[0].fields["link"]] + Links(xs[1..]);
    NoDupCons(Links(xs));
  }

  /** A head whose link the tail lacks keeps the kept links distinct. */
  lemma DropLinksHead(xs: seq<Candidate>, bad: set<int>)
    requires xs != [] && Linked(xs) && xs[0].fields["link"] !in Links(xs[1..])
    requires NoDup(Links(DropIndices(xs[1..], bad)))
    ensures Linked(DropIndices(xs, bad)) && NoDup(Links(DropIndices(xs, bad)))
  {
    var d := DropIndices(xs[1..], bad);
    DropLinked(xs[1..], bad);
    DropLinked(xs, bad);
    if xs[0].index in bad {
      assert DropIndices(xs, bad) == d;
    } else {
      assert DropIndices(xs, bad) == [xs[0]] + d;
      LinksCons(xs[0], d);
    }
  }

  /** Links of a list with a new head. */
  lemma LinksCons(x: Candidate, d: seq<Candidate>)
    requires "link" in x.fields && Linked(d) && NoDup(Links(d)) && x.fields["link"] !in Links(d)
    ensures Linked([x] + d) && NoDup(Links([x] + d))
  {
    var l := x.fields["link"];
    assert Links([x] + d) == [l] + Links(d);
    NoDupCons([l] + Links(d));
  }

  /** Every link kept was a link of the list. */
  lemma DropLinked(xs: seq<Candidate>, bad: set<int>)
    requires Linked(xs)
    ensures Linked(DropIndices(xs, bad))
    ensures forall x :: x in Links(DropIndices(xs, bad)) ==> x in Links(xs)
  {
    var r := DropIndices(xs, bad);
    forall i | 0 <= i < |r|
      ensures "link" in r[i].fields
    {
      var k :| 0 <= k < |xs| && xs[k] == r[i];
    }
    forall x | x in Links(r)
      ensures x in Links(xs)
    {
      var i :| 0 <= i < |r| && Links(r)[i] == x;
      var k :| 0 <= k < |xs| && xs[k] == r[i];
      assert Links(xs)[k] == x;
    }
  }

  /** What post-processing keeps true of its list: every candidate has a
      link, no two share one, none is already stored for the user, and each
      came from the search. */
  predicate Clean(xs: seq<Candidate>, db: Db, username: string, jobs: seq<Candidate>)
    requires Linked(jobs)
  {
    && Linked(xs)
    && NoDup(Links(xs))
    && (forall i :: 0 <= i < |xs| ==> !JobHasLink(db, username, xs[i].fields["link"]))
    && (forall i :: 0 <= i < |xs| ==> xs[i].fields["link"] in Links(jobs))
  }

  /** Fetching descriptions leaves links alone. */
  lemma CleanFetch(xs: seq<Candidate>, fetch: string -> string, db: Db, username: string, jobs: seq<Candidate>)
    requires Linked(jobs) && Clean(xs, db, username, jobs)
    ensures Clean(FetchDescriptions(xs, fetch), db, username, jobs)
  {
    var ys := FetchDescriptions(xs, fetch);
    forall i | 0 <= i < |ys|
      ensures ys[i].fields["link"] == xs[i].fields["link"]
    {
      assert Links(ys)[i] == Links(xs)[i];
    }
  }

  /** Dropping candidates keeps the list clean. */
  lemma CleanDrop(xs: seq<Candidate>, bad: set<int>, db: Db, username: string, jobs: seq<Candidate>)
    requires Linked(jobs) && Clean(xs, db, username, jobs)
    ensures Clean(DropIndices(xs, bad), db, username, jobs)
  {
    DropLinks(xs, bad);
    var r := DropIndices(xs, bad);
    forall i | 0 <= i < |r|
      ensures !JobHasLink(db, username, r[i].fields["link"]) && r[i].fields["link"] in Links(jobs)
    {
      var k :| 0 <= k < |xs| && xs[k] == r[i];
    }
  }

  /** The merged candidates less the stored links are clean. */
  lemma CleanStart(jobs: seq<Candidate>, merged: seq<Candidate>, db: Db, username: string)
    requires Linked(jobs) && Linked(merged) && Numbered(merged) && NoDup(Links(merged))
    requires forall x :: x in Links(merged) <==> x in Links(jobs)
    ensures Clean(DropIndices(merged, ToSet(FilterDuplicates(merged, db, username))), db, username, jobs)
  {
    var dup := ToSet(FilterDuplicates(merged, db, username));
    DropDuplicates(merged, db, username);
    DropLinks(merged, dup);
    var novel := DropIndices(merged, dup);
    forall i | 0 <= i < |novel|
      ensures novel[i].fields["link"] in Links(jobs)
    {
      var k :| 0 <= k < |merged| && merged[k] == novel[i];
      assert Links(merged)[k] == novel[i].fields["link"];
    }
  }

  /** The candidates left after the suitability check were all called
      suitable. */
  lemma KeptSuitable(xs: seq<Candidate>, background: string, good: seq<int>)
    requires xs != [] && background != ""
    requires FilterUnsuitable(xs, background, Some(good)).Success?
    ensures var kept := DropIndices(xs, FilterUnsuitable(xs, background, Some(good)).value);
      forall i :: 0 <= i < |kept| ==> kept[i].index in good
  {
    var bad := FilterUnsuitable(xs, background, Some(good)).value;
    var kept := DropIndices(xs, bad);
    forall i | 0 <= i < |kept|
      ensures kept[i].index in good
    {
      var k :| 0 <= k < |xs| && xs[k] == kept[i];
    }
  }

  /** A candidate after phase 2: its fetched description replaces
      `full_description` when fetching is on and the text is non-empty. */
  function Described(c: Candidate, fetchDescriptions: bool, fetch: string -> string): (r: Candidate)
    requires "link" in c.fields
    ensures r.index == c.index && r.queryIds == c.queryIds && r.fields.Keys >= c.fields.Keys
    ensures r.fields["link"] == c.fields["link"]
  {
    if fetchDescriptions && fetch(c.fields["link"]) != ""
    then c.(fields := c.fields["full_description" := fetch(c.fields["link"])])
    else c
  }

  /** The indices of the merged candidates with a new link that the
      suitability check rejects: none without a background or a verdict,
      otherwise those not in `good`. */
  function Rejected(merged: seq<Candidate>, db: Db, username: string, background: string, good: Option<seq<int>>): (r: set<int>)
    requires Linked(merged)
    ensures forall k :: 0 <= k < |merged| ==>
      (merged[k].index in r <==>
         exists j :: 0 <= j < |merged| && merged[j].index == merged[k].index
           && !JobHasLink(db, username, merged[j].fields["link"])
           && background != "" && good.Some? && merged[j].index !in good.value)
  {
    if background == "" || good.None? then {}
    else set k | 0 <= k < |merged| && !JobHasLink(db, username, merged[k].fields["link"]) && merged[k].index !in good.value :: merged[k].index
  }

  datatype Processed = Processed(jobs: seq<Candidate>, merged: seq<Candidate>, db: Db, result: Result<(), string>)

  /** `Merge`, its result summed up as `MergedFrom`. */
  method MergeAll(jobs: seq<Candidate>) returns (out: seq<Candidate>)
    requires Linked(jobs)
    ensures MergedFrom(jobs, out)
  {
    out := Merge(jobs);
  }

  /** `_post_process_jobs`: merge, drop stored links, fetch descriptions,
      drop unsuitable candidates and log the negative ledger. `merged` is
      the list after the merge step, so that the contract can name each
      survivor's index. */
  method PostProcess(
    jobs: seq<Candidate>, db: Db, qh: Queries.Handler, fetchDescriptions: bool,
    fetch: string -> string, background: string, good: Option<seq<int>>, now: string)
    returns (r: Processed)
    requires Linked(jobs)
    ensures Clean(r.jobs, db, qh.username, jobs)
    ensures MergedFrom(jobs, r.merged)
    ensures r.result.Success? && background != "" && good.Some? ==>
      forall i :: 0 <= i < |r.jobs| ==> r.jobs[i].index in good.value
    ensures r.result.Success? ==> Succeeded(r, db, qh.username, fetchDescriptions, fetch, background, good)
    ensures r.result.Failure? ==> r.jobs == []
    ensures r.db.jobs == db.jobs && r.db.queries == db.queries
  {
    var merged := MergeAll(jobs);
    var dup := ToSet(FilterDuplicates(merged, db, qh.username));
    var novel := DropIndices(merged, dup);
    CleanStart(jobs, merged, db, qh.username);
    if novel == [] {
      NovelFromMerged(merged, db, qh.username);
      NothingRejected(merged, db, qh.username, background, good);
      return Processed([], merged, db, Success(()));
    }
    var described := novel;
    if fetchDescriptions {
      CleanFetch(novel, fetch, db, qh.username, jobs);
      described := FetchDescriptions(novel, fetch);
    }
    match FilterUnsuitable(described, background, good) {
      case Failure(e) =>
        r := Processed([], merged, db, Failure(e));
      case Success(bad) =>
        var o := WriteEach(qh, db, Ledger(described, bad), now);
        if o.result.Failure? {
          r := Processed([], merged, o.db, Failure("write_result"));
        } else {
          CleanDrop(described, bad, db, qh.username, jobs);
          if background != "" && good.Some? {
            KeptSuitable(described, background, good.value);
          }
          r := Processed(DropIndices(described, bad), merged, o.db, Success(()));
          SuccessFacts(jobs, qh, db, merged, novel, described, bad, fetchDescriptions, fetch, background, good, now, r);
        }
    }
  }

  /** What a successful post-processing run returns, stated against the
      merged list: the survivors and the ledger's effect. */
  ghost predicate Succeeded(
    r: Processed, db: Db, username: string, fetchDescriptions: bool, fetch: string -> string,
    background: string, good: Option<seq<int>>)
  {
    && Linked(r.merged)
    && (forall i :: 0 <= i < |r.jobs| ==>
          && 0 <= r.jobs[i].index < |r.merged|
          && r.jobs[i].index !in Rejected(r.merged, db, username, background, good)
          && r.jobs[i] == Described(r.merged[r.jobs[i].index], fetchDescriptions, fetch))
    && (forall k :: 0 <= k < |r.merged| ==>
          !JobHasLink(db, username, r.merged[k].fields["link"]) && k !in Rejected(r.merged, db, username, background, good) ==>
          Described(r.merged[k], fetchDescriptions, fetch) in r.jobs)
    && r.db == db.(queryResults := r.db.queryResults)
    && (forall q ::
          GetQueryResultsTotal(r.db, username, q)
            == GetQueryResultsTotal(db, username, q) - CountInBad(r.merged, Rejected(r.merged, db, username, background, good), q))
  }

  /** The success branch of `PostProcess` meets `Succeeded`. */
  lemma SuccessFacts(
    jobs: seq<Candidate>, qh: Queries.Handler, db: Db, merged: seq<Candidate>, novel: seq<Candidate>,
    described: seq<Candidate>, bad: set<int>, fetchDescriptions: bool, fetch: string -> string,
    background: string, good: Option<seq<int>>, now: string, r: Processed)
    requires Linked(jobs) && MergedFrom(jobs, merged)
    requires novel == DropIndices(merged, ToSet(FilterDuplicates(merged, db, qh.username))) && novel != []
    requires Linked(novel)
    requires described == if fetchDescriptions then FetchDescriptions(novel, fetch) else novel
    requires FilterUnsuitable(described, background, good) == Success(bad)
    requires WriteEach(qh, db, Ledger(described, bad), now).result.Success?
    requires r == Processed(DropIndices(described, bad), merged, WriteEach(qh, db, Ledger(described, bad), now).db, Success(()))
    ensures Succeeded(r, db, qh.username, fetchDescriptions, fetch, background, good)
  {
    NovelFromMerged(merged, db, qh.username);
    DescribedNovel(novel, described, fetchDescriptions, fetch);
    Survivors(merged, novel, described, bad, db, qh.username, fetchDescriptions, fetch, background, good);
    LedgerAll(qh, db, merged, novel, described, bad, background, good, now);
  }

  /** The candidates with a new link are exactly the merged ones whose
      link the store lacks, each at its own index. */
  lemma NovelFromMerged(merged: seq<Candidate>, db: Db, username: string)
    requires Linked(merged) && Numbered(merged)
    ensures var novel := DropIndices(merged, ToSet(FilterDuplicates(merged, db, username)));
      && (forall i :: 0 <= i < |novel| ==> 0 <= novel[i].index < |merged| && novel[i] == merged[novel[i].index])
      && (forall k :: 0 <= k < |merged| ==> (merged[k] in novel <==> !JobHasLink(db, username, merged[k].fields["link"])))
  {
    var novel := DropIndices(merged, ToSet(FilterDuplicates(merged, db, username)));
    DropDuplicates(merged, db, username);
    forall i | 0 <= i < |novel|
      ensures 0 <= novel[i].index < |merged| && novel[i] == merged[novel[i].index]
    {
      var k :| 0 <= k < |merged| && merged[k] == novel[i];
    }
    forall k | 0 <= k < |merged| && merged[k] in novel
      ensures !JobHasLink(db, username, merged[k].fields["link"])
    {
      var i :| 0 <= i < |novel| && novel[i] == merged[k];
    }
  }

  /** With no new link, nothing is rejected and the ledger is empty. */
  lemma NothingRejected(merged: seq<Candidate>, db: Db, username: string, background: string, good: Option<seq<int>>)
    requires Linked(merged) && Numbered(merged)
    requires forall k :: 0 <= k < |merged| ==> JobHasLink(db, username, merged[k].fields["link"])
    ensures forall q :: CountInBad(merged, Rejected(merged, db, username, background, good), q) == 0
  {
    var rej := Rejected(merged, db, username, background, good);
    forall q
      ensures CountInBad(merged, rej, q) == 0
    {
      CountInBadNone(merged, rej, q);
    }
  }

  /** Phase 2 changes each candidate as `Described` says. */
  lemma DescribedNovel(novel: seq<Candidate>, described: seq<Candidate>, fetchDescriptions: bool, fetch: string -> string)
    requires Linked(novel)
    requires described == if fetchDescriptions then FetchDescriptions(novel, fetch) else novel
    ensures |described| == |novel| && Linked(described)
    ensures forall i :: 0 <= i < |novel| ==> described[i] == Described(novel[i], fetchDescriptions, fetch)
  {
  }

  /** The survivors of the suitability check, in terms of the merged
      list: each is a described merged candidate that was not rejected,
      and every described merged candidate with a new link that was not
      rejected survives. */
  lemma Survivors(
    merged: seq<Candidate>, novel: seq<Candidate>, described: seq<Candidate>, bad: set<int>,
    db: Db, username: string, fetchDescriptions: bool, fetch: string -> string, background: string, good: Option<seq<int>>)
    requires Linked(merged) && Numbered(merged) && NoDup(Links(merged))
    requires novel == DropIndices(merged, ToSet(FilterDuplicates(merged, db, username)))
    requires novel != []
    requires forall i :: 0 <= i < |novel| ==> 0 <= novel[i].index < |merged| && novel[i] == merged[novel[i].index]
    requires forall k :: 0 <= k < |merged| ==> (merged[k] in novel <==> !JobHasLink(db, username, merged[k].fields["link"]))
    requires Linked(novel) && |described| == |novel| && Linked(described)
    requires forall i :: 0 <= i < |novel| ==> described[i] == Described(novel[i], fetchDescriptions, fetch)
    requires FilterUnsuitable(described, background, good) == Success(bad)
    ensures var kept := DropIndices(described, bad);
      && (forall i :: 0 <= i < |kept| ==>
            && 0 <= kept[i].index < |merged|
            && kept[i].index !in Rejected(merged, db, username, background, good)
            && kept[i] == Described(merged[kept[i].index], fetchDescriptions, fetch))
      && (forall k :: 0 <= k < |merged| ==>
            !JobHasLink(db, username, merged[k].fields["link"]) && k !in Rejected(merged, db, username, background, good) ==>
            Described(merged[k], fetchDescriptions, fetch) in kept)
  {
    var kept := DropIndices(described, bad);
    var rej := Rejected(merged, db, username, background, good);
    forall i | 0 <= i < |kept|
      ensures 0 <= kept[i].index < |merged|
      ensures kept[i].index !in rej
      ensures kept[i] == Described(merged[kept[i].index], fetchDescriptions, fetch)
    {
      var j :| 0 <= j < |described| && described[j] == kept[i];
      var k := novel[j].index;
      assert merged[k] == novel[j] && described[j].index == k;
    }
    forall k | 0 <= k < |merged| && !JobHasLink(db, username, merged[k].fields["link"]) && k !in rej
      ensures Described(merged[k], fetchDescriptions, fetch) in kept
    {
      var j :| 0 <= j < |novel| && novel[j] == merged[k];
      assert described[j].index == k && merged[k].index == k;
    }
  }

  /** Writing the ledger lowers every query's total by its count over
      the rejected merged candidates. */
  lemma LedgerAll(
    qh: Queries.Handler, db: Db, merged: seq<Candidate>, novel: seq<Candidate>, described: seq<Candidate>, bad: set<int>,
    background: string, good: Option<seq<int>>, now: string)
    requires Linked(merged) && Numbered(merged)
    requires novel == DropIndices(merged, ToSet(FilterDuplicates(merged, db, qh.username)))
    requires novel != []
    requires forall k :: 0 <= k < |merged| ==> (merged[k] in novel <==> !JobHasLink(db, qh.username, merged[k].fields["link"]))
    requires |described| == |novel|
    requires forall i :: 0 <= i < |novel| ==> described[i].index == novel[i].index && described[i].queryIds == novel[i].queryIds
    requires FilterUnsuitable(described, background, good) == Success(bad)
    requires WriteEach(qh, db, Ledger(described, bad), now).result.Success?
    ensures var o := WriteEach(qh, db, Ledger(described, bad), now);
      forall q :: GetQueryResultsTotal(o.db, qh.username, q)
        == GetQueryResultsTotal(db, qh.username, q) - CountInBad(merged, Rejected(merged, db, qh.username, background, good), q)
  {
    forall q
      ensures GetQueryResultsTotal(WriteEach(qh, db, Ledger(described, bad), now).db, qh.username, q)
           == GetQueryResultsTotal(db, qh.username, q) - CountInBad(merged, Rejected(merged, db, qh.username, background, good), q)
    {
      LedgerTotals(qh, db, described, bad, now, q);
      LedgerOverMerged(merged, novel, described, bad, db, qh.username, background, good, q);
    }
  }

  /** The ledger's count over the described new candidates equals the
      count over the merged list of the rejected ones. */
  lemma LedgerOverMerged(
    merged: seq<Candidate>, novel: seq<Candidate>, described: seq<Candidate>, bad: set<int>,
    db: Db, username: string, background: string, good: Option<seq<int>>, q: int)
    requires Linked(merged) && Numbered(merged)
    requires novel == DropIndices(merged, ToSet(FilterDuplicates(merged, db, username)))
    requires novel != []
    requires forall k :: 0 <= k < |merged| ==> (merged[k] in novel <==> !JobHasLink(db, username, merged[k].fields["link"]))
    requires |described| == |novel|
    requires forall i :: 0 <= i < |novel| ==> described[i].index == novel[i].index && described[i].queryIds == novel[i].queryIds
    requires FilterUnsuitable(described, background, good) == Success(bad)
    ensures CountInBad(described, bad, q) == CountInBad(merged, Rejected(merged, db, username, background, good), q)
  {
    var dup := ToSet(FilterDuplicates(merged, db, username));
    var rej := Rejected(merged, db, username, background, good);
    CountInBadSame(described, novel, bad, q);
    CountInBadDrop(merged, dup, bad, q);
    forall k | 0 <= k < |merged|
      ensures merged[k].index in bad - dup <==> merged[k].index in rej
    {
      assert merged[k].index == k;
      if merged[k].index in bad - dup {
        assert !JobHasLink(db, username, merged[k].fields["link"]);
      }
      if k in rej {
        assert merged[k] in novel;
        var j :| 0 <= j < |novel| && novel[j] == merged[k];
        assert described[j].index == k;
      }
    }
    CountInBadCongruent(merged, bad - dup, rej, q);
  }

  /** Lists with the same indices and query ids count alike. */
  lemma {:induction false} CountInBadSame(xs: seq<Candidate>, ys: seq<Candidate>, bad: set<int>, q: int)
    requires |xs| == |ys|
    requires forall i :: 0 <= i < |xs| ==> xs[i].index == ys[i].index && xs[i].queryIds == ys[i].queryIds
    ensures CountInBad(xs, bad, q) == CountInBad(ys, bad, q)
  {
    if xs != [] {
      CountInBadSame(xs[1..], ys[1..], bad, q);
    }
  }

  /** Dropping the indices in `d` first is counting only outside `d`. */
  lemma {:induction false} CountInBadDrop(xs: seq<Candidate>, d: set<int>, bad: set<int>, q: int)
    ensures CountInBad(DropIndices(xs, d), bad, q) == CountInBad(xs, bad - d, q)
  {
    if xs != [] {
      CountInBadDrop(xs[1..], d, bad, q);
      if xs[0].index !in d {
        assert DropIndices(xs, d) == [xs[0]] + DropIndices(xs[1..], d);
        assert ([xs[0]] + DropIndices(xs[1..], d))[1..] == DropIndices(xs[1..], d);
      }
    }
  }

  /** Sets that agree on the list's indices count alike. */
  lemma {:induction false} CountInBadCongruent(xs: seq<Candidate>, a: set<int>, b: set<int>, q: int)
    requires forall i :: 0 <= i < |xs| ==> (xs[i].index in a <==> xs[i].index in b)
    ensures CountInBad(xs, a, q) == CountInBad(xs, b, q)
  {
    if xs != [] {
      assert xs[0].index in a <==> xs[0].index in b;
      CountInBadCongruent(xs[1..], a, b, q);
    }
  }

  /** Nothing counts when no index is in the set. */
  lemma {:induction false} CountInBadNone(xs: seq<Candidate>, bad: set<int>, q: int)
    requires forall i :: 0 <= i < |xs| ==> xs[i].index !in bad
    ensures CountInBad(xs, bad, q) == 0
  {
    if xs != [] {
      assert xs[0].index !in bad;
      CountInBadNone(xs[1..], bad, q);
    }
  }

  /* ---- choosing the queries to run ---- */

  /** Python's `s[:k]`: a negative bound counts from the end. */
  function PrefixSlice<T>(s: seq<T>, k: int): (r: seq<T>)
    ensures k >= 0 ==> r == s[..if k < |s| then k else |s|]
    ensures k < 0 ==> r == s[..if |s| + k > 0 then |s| + k else 0]
  {
    if k >= 0 then s[..if k < |s| then k else |s|]
    else s[..if |s| + k > 0 then |s| + k else 0]
  }

  /** One record of the crash-recovery file. */
  datatype Recovered = Recovered(jobs: seq<Candidate>, timestamp: string, queryStr: Option<string>)

  /** The query strings of records written in the last twelve hours. */
  function RecentQueries(records: seq<Recovered>, now: int, parse: string -> Option<Timestamps.Instant>): (r: set<Option<string>>)
    ensures forall s :: s in r <==>
      exists i :: 0 <= i < |records| && records[i].queryStr == s && Timestamps.IsRecent(records[i].timestamp, 12, now, parse)
  {
    set i | 0 <= i < |records| && Timestamps.IsRecent(records[i].timestamp, 12, now, parse) :: records[i].queryStr
  }

  /** The queries `search` runs: the active queries, cut to `max_queries`
      when that is given and non-zero, minus those run recently. */
  function SelectQueries(
    active: seq<Queries.Query>, maxQueries: Option<int>, records: seq<Recovered>,
    now: int, parse: string -> Option<Timestamps.Instant>): (r: seq<Queries.Query>)
    ensures var pool := if maxQueries.Some? && maxQueries.value != 0 then PrefixSlice(active, maxQueries.value) else active;
      && (forall i :: 0 <= i < |r| ==> r[i] in pool && Some(r[i].query) !in RecentQueries(records, now, parse))
      && (forall i :: 0 <= i < |pool| && Some(pool[i].query) !in RecentQueries(records, now, parse) ==> pool[i] in r)
    ensures maxQueries.Some? && maxQueries.value > 0 ==> |r| <= maxQueries.value
  {
    var pool := if maxQueries.Some? && maxQueries.value != 0 then PrefixSlice(active, maxQueries.value) else active;
    var recent := RecentQueries(records, now, parse);
    NotRecent(pool, recent)
  }

  function NotRecent(qs: seq<Queries.Query>, recent: set<Option<string>>): (r: seq<Queries.Query>)
    ensures |r| <= |qs|
    ensures forall i :: 0 <= i < |r| ==> r[i] in qs && Some(r[i].query) !in recent
    ensures forall i :: 0 <= i < |qs| && Some(qs[i].query) !in recent ==> qs[i] in r
  {
    if qs == [] then []
    else
      var rest := NotRecent(qs[1..], recent);
      assert forall i :: 1 <= i < |qs| ==> qs[i] == qs[1..][i - 1];
      if Some(qs[0].query) in recent then rest else [qs[0]] + rest
  }

  /** The jobs recovered from earlier, unfinished searches. */
  function RecoveredJobs(records: seq<Recovered>): seq<Candidate> {
    if records == [] then [] else records[0].jobs + RecoveredJobs(records[1..])
  }

  /** A search result tagged with the id of the query that found it. */
  function Tag(found: seq<map<string, string>>, queryId: int): (r: seq<Candidate>)
    ensures |r| == |found|
    ensures forall i :: 0 <= i < |r| ==> r[i].fields == found[i] && r[i].queryIds == [queryId]
  {
    seq(|found|, i requires 0 <= i < |found| => Candidate(found[i], [queryId], 0))
  }

  /** Every query is one of the user's. */
  predicate QueriesKnown(db: Db, username: string, queries: seq<Queries.Query>) {
    forall i :: 0 <= i < |queries| ==> (username, queries[i].id) in db.queries
  }

  /** Every search result has the required keys. */
  predicate WellFormedSearch(queries: seq<Queries.Query>, search: string -> seq<map<string, string>>) {
    forall i :: 0 <= i < |queries| ==> forall k :: 0 <= k < |search(queries[i].query)| ==> HasRequired(search(queries[i].query)[k])
  }

  /** Each candidate was found by one of the queries and carries its id. */
  ghost predicate FoundBy(out: seq<Candidate>, queries: seq<Queries.Query>, search: string -> seq<map<string, string>>) {
    forall i :: 0 <= i < |out| ==>
      exists k :: 0 <= k < |queries| && out[i].queryIds == [queries[k].id] && out[i].fields in search(queries[k].query)
  }

  lemma SearchCons(queries: seq<Queries.Query>, db: Db, username: string, search: string -> seq<map<string, string>>,
                   more: seq<Candidate>, now: string, rows: seq<ResultRow>)
    requires queries != []
    requires WellFormedSearch(queries, search)
    requires Linked(more) && FoundBy(more, queries[1..], search)
    ensures QueriesKnown(db, username, queries) <==>
      (username, queries[0].id) in db.queries && QueriesKnown(db, username, queries[1..])
    ensures var tagged := Tag(search(queries[0].query), queries[0].id);
      Linked(tagged + more) && FoundBy(tagged + more, queries, search)
    ensures (rows + [ResultRow(username, queries[0].id, now, |search(queries[0].query)|)])
              + ResultRows(username, Counts(queries[1..], search), now)
         == rows + ResultRows(username, Counts(queries, search), now)
  {
    assert forall i :: 1 <= i < |queries| ==> queries[i] == queries[1..][i - 1];
    var found := search(queries[0].query);
    var tagged := Tag(found, queries[0].id);
    var all := tagged + more;
    forall i | 0 <= i < |all|
      ensures "link" in all[i].fields
      ensures exists k :: 0 <= k < |queries| && all[i].queryIds == [queries[k].id] && all[i].fields in search(queries[k].query)
    {
      if i < |tagged| {
        assert HasRequired(found[i]);
        assert all[i].fields == found[i];
      } else {
        assert all[i] == more[i - |tagged|];
        var k :| 0 <= k < |queries[1..]| && more[i - |tagged|].queryIds == [queries[1..][k].id]
          && more[i - |tagged|].fields in search(queries[1..][k].query);
        assert queries[1..][k] == queries[k + 1];
      }
    }
    LogCons(rows, username, Counts(queries, search), now);
    assert Counts(queries, search)[1..] == Counts(queries[1..], search);
  }

  /** `_search_for_jobs`: each query is searched, its number of results
      logged, and its results tagged with its id. */
  function SearchForJobs(queries: seq<Queries.Query>, qh: Queries.Handler, db: Db,
                         search: string -> seq<map<string, string>>, now: string): (r: (seq<Candidate>, Outcome<()>))
    requires WellFormedSearch(queries, search)
    ensures Linked(r.0)
    ensures FoundBy(r.0, queries, search)
    ensures r.1.result.Success? <==> QueriesKnown(db, qh.username, queries)
    ensures r.1.result.Success? ==> r.1.db == db.(queryResults := db.queryResults + ResultRows(qh.username, Counts(queries, search), now))
    ensures r.1.db.queries == db.queries && r.1.db.jobs == db.jobs
    decreases |queries|
  {
    if queries == [] then
      assert db.queryResults + ResultRows(qh.username, Counts(queries, search), now) == db.queryResults;
      ([], Outcome(db, Success(())))
    else
      var q := queries[0];
      var found := search(q.query);
      var o := Queries.WriteResult(qh, db, q.id, |found|, now).1;
      assert WellFormedSearch(queries[1..], search) by {
        assert forall i :: 1 <= i < |queries| ==> queries[i] == queries[1..][i - 1];
      }
      if o.result.Failure? then
        ([], o)
      else
        var (more, o2) := SearchForJobs(queries[1..], qh, o.db, search, now);
        SearchCons(queries, db, qh.username, search, more, now, db.queryResults);
        (Tag(found, q.id) + more, o2)
  }

  /** The `(query id, number found)` results `_search_for_jobs` logs. */
  function Counts(queries: seq<Queries.Query>, search: string -> seq<map<string, string>>): (r: seq<(int, int)>)
    ensures |r| == |queries|
    ensures forall i :: 0 <= i < |queries| ==> r[i] == (queries[i].id, |search(queries[i].query)|)
  {
    seq(|queries|, i requires 0 <= i < |queries| => (queries[i].id, |search(queries[i].query)|))
  }

  /* ---- storing the survivors ---- */

  /** `job_data.get(key, default)`. */
  function Field(fields: map<string, string>, key: string, default: string): (r: string)
    ensures key in fields ==> r == fields[key]
    ensures key !in fields ==> r == default
  {
    if key in fields then fields[key] else default
  }

  datatype Stored = Stored(cache: JobsDb.JobCache, db: Db, result: Result<(), DbError>)

  /** `JobsDB.add` as `search` calls it for one candidate. */
  function AddOne(c: JobsDb.JobCache, db: Db, fields: map<string, string>, id: string, now: string): (a: JobsDb.Added)
    ensures a.cache.username == c.username
    ensures forall key :: key in db.jobs ==> key in a.db.jobs && a.db.jobs[key] == db.jobs[key]
    ensures a.result.Success? ==> JobHasLink(a.db, c.username, Field(fields, "link", ""))
  {
    var a := JobsDb.Add(c, db, id, Some(Field(fields, "company", "Unknown")), Some(Field(fields, "title", "Unknown")),
                        Some(Field(fields, "link", "")), Some(Field(fields, "location", "")), Some(Field(fields, "description", "")),
                        Some(Field(fields, "full_description", "")), Lookup(fields, "addressee"), [], now);
    AddOneStores(c, db, fields, id, now);
    a
  }

  lemma AddOneStores(c: JobsDb.JobCache, db: Db, fields: map<string, string>, id: string, now: string)
    ensures var a := JobsDb.Add(c, db, id, Some(Field(fields, "company", "Unknown")), Some(Field(fields, "title", "Unknown")),
                        Some(Field(fields, "link", "")), Some(Field(fields, "location", "")), Some(Field(fields, "description", "")),
                        Some(Field(fields, "full_description", "")), Lookup(fields, "addressee"), [], now);
      && a.cache.username == c.username
      && (forall key :: key in db.jobs ==> key in a.db.jobs && a.db.jobs[key] == db.jobs[key])
      && (a.result.Success? ==> (c.username, id) in a.db.jobs && a.db.jobs[(c.username, id)].link == Field(fields, "link", ""))
  {
    var a := JobsDb.Add(c, db, id, Some(Field(fields, "company", "Unknown")), Some(Field(fields, "title", "Unknown")),
                        Some(Field(fields, "link", "")), Some(Field(fields, "location", "")), Some(Field(fields, "description", "")),
                        Some(Field(fields, "full_description", "")), Lookup(fields, "addressee"), [], now);
    if a.result.Success? {
      JobsDb.AddStoresRow(c, db, id, Field(fields, "company", "Unknown"), Field(fields, "title", "Unknown"), Field(fields, "link", ""),
                          Some(Field(fields, "location", "")), Some(Field(fields, "description", "")),
                          Some(Field(fields, "full_description", "")), Lookup(fields, "addressee"), [], now);
    }
  }

  /** The loop that hands each survivor to `JobsDB.add`, with the ids the
      uuid source gives from position `k` on. No query ids are passed. */
  function AddFound(c: JobsDb.JobCache, db: Db, jobs: seq<Candidate>, uuid: nat -> string, k: nat, now: string): (r: Stored)
    ensures r.cache.username == c.username
    ensures forall key :: key in db.jobs ==> key in r.db.jobs && r.db.jobs[key] == db.jobs[key]
    ensures r.result.Success? ==>
      forall i :: 0 <= i < |jobs| ==> JobHasLink(r.db, c.username, Field(jobs[i].fields, "link", ""))
    ensures jobs == [] ==> r == Stored(c, db, Success(()))
    decreases |jobs|
  {
    if jobs == [] then Stored(c, db, Success(()))
    else
      var a := AddOne(c, db, jobs[0].fields, uuid(k), now);
      if a.result.Failure? then Stored(a.cache, a.db, Failure(a.result.error))
      else
        var r := AddFound(a.cache, a.db, jobs[1..], uuid, k + 1, now);
        assert r.result.Success? ==>
          forall i :: 0 <= i < |jobs| ==> JobHasLink(r.db, c.username, Field(jobs[i].fields, "link", "")) by {
          if r.result.Success? {
            forall i | 0 <= i < |jobs|
              ensures JobHasLink(r.db, c.username, Field(jobs[i].fields, "link", ""))
            {
              if i == 0 {
                HasLinkKept(a.db, r.db, c.username, Field(jobs[0].fields, "link", ""));
              } else {
                assert jobs[i] == jobs[1..][i - 1];
              }
            }
          }
        }
        r
  }

  /** A store that keeps every job row keeps every link. */
  lemma HasLinkKept(db: Db, db2: Db, username: string, link: string)
    requires forall key :: key in db.jobs ==> key in db2.jobs && db2.jobs[key] == db.jobs[key]
    requires JobHasLink(db, username, link)
    ensures JobHasLink(db2, username, link)
  {
    var k :| k in db.jobs && k.0 == username && db.jobs[k].link == link;
    assert k in db2.jobs;
  }

  datatype SearchRun = SearchRun(cache: JobsDb.JobCache, db: Db, added: seq<Candidate>, result: Result<(), string>)

  /** `search`: choose the queries, run them after any recovered jobs, post-
      process everything and store the survivors. Nothing to do (no query
      left and nothing recovered) changes nothing. */
  method Search(
    c: JobsDb.JobCache, db: Db, qh: Queries.Handler, maxQueries: Option<int>,
    records: seq<Recovered>, clock: int, parse: string -> Option<Timestamps.Instant>,
    search: string -> seq<map<string, string>>, now: string,
    fetchDescriptions: bool, fetch: string -> string, background: string, good: Option<seq<int>>,
    uuid: nat -> string)
    returns (r: SearchRun)
    requires Linked(RecoveredJobs(records))
    requires WellFormedSearch(Queries.Active(qh), search)
    requires c.username == qh.username
    ensures r.result.Success? ==> Linked(r.added) && NoDup(Links(r.added))
    ensures r.result.Success? ==>
      forall i :: 0 <= i < |r.added| ==>
        && !JobHasLink(db, qh.username, r.added[i].fields["link"])
        && JobHasLink(r.db, qh.username, r.added[i].fields["link"])
    ensures forall key :: key in db.jobs ==> key in r.db.jobs && r.db.jobs[key] == db.jobs[key]
    ensures SelectQueries(Queries.Active(qh), maxQueries, records, clock, parse) == [] && RecoveredJobs(records) == [] ==>
      r.db == db && r.added == []
  {
    var queries := SelectQueries(Queries.Active(qh), maxQueries, records, clock, parse);
    var recovered := RecoveredJobs(records);
    if queries == [] && recovered == [] {
      return SearchRun(c, db, [], Success(()));
    }
    WellFormedSelected(Queries.Active(qh), queries, search);
    var found: seq<Candidate> := [];
    var d := db;
    if queries != [] {
      var (more, o) := SearchForJobs(queries, qh, db, search, now);
      if o.result.Failure? {
        return SearchRun(c, o.db, [], Failure("write_result"));
      }
      found, d := more, o.db;
    }
    var all := recovered + found;
    assert Linked(all);
    var p := PostProcess(all, d, qh, fetchDescriptions, fetch, background, good, now);
    if p.result.Failure? {
      return SearchRun(c, p.db, [], p.result);
    }
    var s := AddFound(c, p.db, p.jobs, uuid, 0, now);
    if s.result.Failure? {
      return SearchRun(s.cache, s.db, [], Failure("add"));
    }
    SearchEnd(p.jobs, d, db, s.db, qh.username, all);
    r := SearchRun(s.cache, s.db, p.jobs, Success(()));
  }

  /** The survivors were new before the search and are stored after it. */
  lemma SearchEnd(xs: seq<Candidate>, d: Db, db: Db, db2: Db, username: string, all: seq<Candidate>)
    requires Linked(all) && Clean(xs, d, username, all) && d.jobs == db.jobs
    requires forall i :: 0 <= i < |xs| ==> JobHasLink(db2, username, Field(xs[i].fields, "link", ""))
    ensures forall i :: 0 <= i < |xs| ==>
      && !JobHasLink(db, username, xs[i].fields["link"])
      && JobHasLink(db2, username, xs[i].fields["link"])
  {
  }

  /** The chosen queries are among the active ones, so their results are
      well formed too. */
  lemma WellFormedSelected(active: seq<Queries.Query>, chosen: seq<Queries.Query>, search: string -> seq<map<string, string>>)
    requires WellFormedSearch(active, search)
    requires forall i :: 0 <= i < |chosen| ==> chosen[i] in active
    ensures WellFormedSearch(chosen, search)
  {
  }
}
