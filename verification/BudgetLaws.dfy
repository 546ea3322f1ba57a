/** How a run spends its budget: greedily, in rank order, and never twice on one page. */
module BudgetLaws {
  import opened Basics
  import opened Sorting
  import opened ArchiveListing
  import opened ArchiveMerge
  import opened Hydration

  /** The members of `queue` still worth a request: everything not already read. */
  function ToRead(queue: seq<Url>, details: Details): seq<Url> {
    if queue == [] then []
    else (if IsHydrated(details, queue[0]) then [] else [queue[0]]) + ToRead(queue[1..], details)
  }

  /** The details once every page in `urls` has been asked for. */
  function ReadAll(details: Details, urls: seq<Url>, fetch: Fetcher): Details {
    details + map u | u in urls :: fetch(u)
  }

  // ------------------------------------------------------------------
  // The ranked queue.
  // ------------------------------------------------------------------

  lemma RankingIsTotal(entries: seq<Entry>, details: Details, priority: map<Url, int>)
    ensures TotalOrder(Ranking(entries, details, priority))
  {}

  lemma {:induction false} CandidatesAre(entries: seq<Entry>, priority: map<Url, int>)
    ensures forall u :: u in Candidates(entries, priority) <==> u in priority && u in UrlSet(entries)
    ensures DistinctUrls(entries) ==> Distinct(Candidates(entries, priority))
  {
    if entries != [] {
      var rest := entries[1..];
      CandidatesAre(rest, priority);
      assert entries == [entries[0]] + rest;
      UrlsOfConcat([entries[0]], rest);
      if DistinctUrls(entries) {
        assert DistinctUrls(rest) by {
          assert forall i :: 0 <= i < |rest| ==> rest[i] == entries[i + 1];
        }
        assert entries[0].url !in UrlSet(rest);
      }
    }
  }

  lemma {:induction false} OrderAt(entries: seq<Entry>, k: nat)
    requires DistinctUrls(entries) && k < |entries|
    ensures OrderOf(entries, entries[k].url) == entries[k].order
  {
    if k > 0 {
      var rest := entries[1..];
      assert DistinctUrls(rest) by {
        assert forall i :: 0 <= i < |rest| ==> rest[i] == entries[i + 1];
      }
      OrderAt(rest, k - 1);
    }
  }

  /** The queue holds exactly the indexed priority candidates, once each, in rank order. */
  lemma QueueIsRanked(entries: seq<Entry>, details: Details, priority: map<Url, int>)
    requires WellIndexed(entries)
    ensures var q := Queue(entries, details, priority);
            && Distinct(q)
            && Ordered(q, Ranking(entries, details, priority))
            && forall u :: u in q <==> u in priority && u in UrlSet(entries)
  {
    var c, le := Candidates(entries, priority), Ranking(entries, details, priority);
    CandidatesAre(entries, priority);
    RankingIsTotal(entries, details, priority);
    SortSorts(c, le);
    SortDistinct(c, le);
    forall u ensures u in Sort(c, le) <==> u in c { SameMembers(Sort(c, le), c, u); }
  }

  /** Whatever order the candidate dictionary is enumerated in, the queue is the same. */
  lemma QueueIgnoresEnumeration(entries: seq<Entry>, details: Details, priority: map<Url, int>, listed: seq<Url>)
    requires WellIndexed(entries) && multiset(listed) == multiset(Candidates(entries, priority))
    ensures Sort(listed, Ranking(entries, details, priority)) == Queue(entries, details, priority)
  {
    var c, le := Candidates(entries, priority), Ranking(entries, details, priority);
    CandidatesAre(entries, priority);
    RankingIsTotal(entries, details, priority);
    forall a, b | a in c && b in c && le(a, b) && le(b, a) ensures a == b {
      var i :| 0 <= i < |entries| && entries[i].url == a;
      var j :| 0 <= j < |entries| && entries[j].url == b;
      OrderAt(entries, i);
      OrderAt(entries, j);
    }
    SortIgnoresInputOrder(c, listed, le);
  }

  // ------------------------------------------------------------------
  // Pass one reads a prefix of what is worth reading.
  // ------------------------------------------------------------------

  lemma {:induction false} ToReadAre(queue: seq<Url>, details: Details)
    ensures forall u :: u in ToRead(queue, details) <==> u in queue && !IsHydrated(details, u)
    ensures Distinct(queue) ==> Distinct(ToRead(queue, details))
    ensures |ToRead(queue, details)| <= |queue|
  {
    if queue != [] {
      ToReadAre(queue[1..], details);
      assert forall u :: u in queue <==> u == queue[0] || u in queue[1..];
    }
  }

  lemma {:induction false} ToReadOrdered(queue: seq<Url>, details: Details, le: (Url, Url) -> bool)
    requires Ordered(queue, le)
    ensures Ordered(ToRead(queue, details), le)
  {
    if queue != [] {
      var rest := ToRead(queue[1..], details);
      ToReadOrdered(queue[1..], details, le);
      ToReadAre(queue[1..], details);
      forall j | 0 <= j < |rest| ensures le(queue[0], rest[j]) {
        assert rest[j] in rest;
        var k :| 0 <= k < |queue[1..]| && queue[1..][k] == rest[j];
        assert queue[1..][k] == queue[k + 1];
      }
    }
  }

  /** The first `n` members of the queue that are not already read. */
  function Batch(queue: seq<Url>, details: Details, n: nat): seq<Url> {
    FirstN(ToRead(queue, details), n)
  }

  lemma BatchUnfolds(queue: seq<Url>, details: Details, n: nat)
    requires queue != [] && n >= 1
    ensures Batch(queue, details, n) ==
            if IsHydrated(details, queue[0]) then Batch(queue[1..], details, n)
            else [queue[0]] + Batch(queue[1..], details, n - 1)
  {
    if IsHydrated(details, queue[0]) {
      assert ToRead(queue, details) == ToRead(queue[1..], details);
    } else {
      FirstOfCons(queue[0], ToRead(queue[1..], details), n);
    }
  }

  lemma {:induction false} BatchLocal(queue: seq<Url>, details: Details, url: Url, d: Detail)
    requires url !in queue
    ensures ToRead(queue, details[url := d]) == ToRead(queue, details)
  {
    if queue != [] {
      BatchLocal(queue[1..], details, url, d);
    }
  }

  lemma ReadInTurns(p: Progress, url: Url, rest: seq<Url>, fetch: Fetcher)
    ensures var next := Request(p, url, fetch);
            && ReadAll(next.details, rest, fetch) == ReadAll(p.details, [url] + rest, fetch)
            && next.log + rest == p.log + ([url] + rest)
  {
    ReadOneThenRest(p.details, url, rest, fetch);
    assert p.log + [url] + rest == p.log + ([url] + rest);
  }

  /** **Pass one is exactly "the first `budget` unread members of the queue".** */
  lemma {:induction false} PriorityPassReads(queue: seq<Url>, budget: nat, p: Progress, fetch: Fetcher)
    requires Distinct(queue) && |p.log| <= budget
    ensures var batch := Batch(queue, p.details, budget - |p.log|);
            PriorityPass(queue, budget, p, fetch) == Progress(ReadAll(p.details, batch, fetch), p.log + batch)
    decreases |queue|
  {
    if queue == [] || |p.log| >= budget {
      NothingRead(p, fetch);
    } else {
      BatchUnfolds(queue, p.details, budget - |p.log|);
      if IsHydrated(p.details, queue[0]) {
        PriorityPassReads(queue[1..], budget, p, fetch);
      } else {
        PriorityPassReads(queue[1..], budget, Request(p, queue[0], fetch), fetch);
        BatchLocal(queue[1..], p.details, queue[0], fetch(queue[0]));
        ReadInTurns(p, queue[0], Batch(queue[1..], p.details, budget - |p.log| - 1), fetch);
      }
    }
  }

  lemma FirstOfCons<T>(x: T, rest: seq<T>, n: nat)
    requires n >= 1
    ensures FirstN([x] + rest, n) == [x] + FirstN(rest, n - 1)
  {}

  lemma ReadOneThenRest(details: Details, url: Url, rest: seq<Url>, fetch: Fetcher)
    ensures ReadAll(details[url := fetch(url)], rest, fetch) == ReadAll(details, [url] + rest, fetch)
  {}

  // ------------------------------------------------------------------
  // Pass two reads only pages nobody has asked for.
  // ------------------------------------------------------------------

  /** `batch` was requested on top of `p`, each page once and none of them held before. */
  ghost predicate ReadsFresh(p: Progress, final: Progress, batch: seq<Url>, fetch: Fetcher) {
    && final == Progress(ReadAll(p.details, batch, fetch), p.log + batch)
    && Distinct(batch)
    && forall u :: u in batch ==> u !in p.details
  }

  lemma {:induction false} BackgroundReadsFresh(queue: seq<Entry>, w: Window, budget: nat, older: nat, p: Progress, fetch: Fetcher)
    returns (batch: seq<Url>)
    ensures ReadsFresh(p, BackgroundPass(queue, w, budget, older, p, fetch), batch, fetch)
    decreases |queue|
  {
    if queue == [] || |p.log| >= budget {
      batch := [];
      NothingRead(p, fetch);
      return;
    }
    var url, rest := queue[0].url, queue[1..];
    if IsFailed(p.details, url) {
      batch := BackgroundReadsFresh(rest, w, budget, older, p, fetch);
      return;
    }
    var next := Visit(p, url, fetch);
    var d := next.details[url];
    var later := [];
    if Closes(d, w, older) {
      NothingRead(next, fetch);
    } else {
      later := BackgroundReadsFresh(rest, w, budget, OlderRun(d, w, older), next, fetch);
    }
    batch := Joined(p, url, BackgroundPass(queue, w, budget, older, p, fetch), later, fetch);
  }

  lemma NothingRead(p: Progress, fetch: Fetcher)
    ensures ReadsFresh(p, p, [], fetch)
  {
    assert ReadAll(p.details, [], fetch) == p.details;
    assert p.log + [] == p.log;
  }

  lemma Joined(p: Progress, url: Url, final: Progress, later: seq<Url>, fetch: Fetcher) returns (batch: seq<Url>)
    requires ReadsFresh(Visit(p, url, fetch), final, later, fetch)
    ensures ReadsFresh(p, final, batch, fetch)
  {
    if url in p.details {
      batch := later;
    } else {
      batch := [url] + later;
      ReadOneThenRest(p.details, url, later, fetch);
      assert Visit(p, url, fetch).log + later == p.log + batch;
      assert url in Visit(p, url, fetch).details;
    }
  }

  lemma {:induction false} BackgroundStaysInside(queue: seq<Entry>, w: Window, budget: nat, older: nat, p: Progress, fetch: Fetcher)
    requires |p.log| <= budget
    ensures var final := BackgroundPass(queue, w, budget, older, p, fetch);
            |final.log| <= budget && forall u :: u in final.log ==> u in p.log || u in UrlSet(queue)
    decreases |queue|
  {
    if queue != [] && |p.log| < budget {
      var url, rest := queue[0].url, queue[1..];
      assert queue == [queue[0]] + rest;
      UrlsOfConcat([queue[0]], rest);
      var next := Visit(p, url, fetch);
      if IsFailed(p.details, url) {
        BackgroundStaysInside(rest, w, budget, older, p, fetch);
      } else if !Closes(next.details[url], w, older) {
        BackgroundStaysInside(rest, w, budget, OlderRun(next.details[url], w, older), next, fetch);
      }
    }
  }

  // ------------------------------------------------------------------
  // The whole run.
  // ------------------------------------------------------------------

  /** A live run's requests: a ranked prefix of the unread candidates, then fresh background pages. */
  ghost predicate Spends(entries: seq<Entry>, details: Details, priority: map<Url, int>, budget: nat, final: Progress,
                         first: seq<Url>, second: seq<Url>, fetch: Fetcher) {
    && first == FirstN(ToRead(Queue(entries, details, priority), details), budget)
    && final == Progress(ReadAll(details, first + second, fetch), first + second)
    && Distinct(first + second)
    && |first + second| <= budget
    && (forall u :: u in second ==> u in UrlSet(entries) && u !in details)
  }

  lemma SortedIndex(entries: seq<Entry>)
    requires WellIndexed(entries)
    ensures Sort(entries, ByOrder()) == entries
  {
    SortOfOrdered(entries, ByOrder());
  }

  lemma ReadInTurn(details: Details, first: seq<Url>, second: seq<Url>, fetch: Fetcher)
    ensures ReadAll(ReadAll(details, first, fetch), second, fetch) == ReadAll(details, first + second, fetch)
  {}

  lemma FirstNMembers<T(!new)>(s: seq<T>, n: nat)
    ensures |FirstN(s, n)| <= n && FirstN(s, n) <= s
    ensures forall x :: x in FirstN(s, n) ==> x in s
    ensures Distinct(s) ==> Distinct(FirstN(s, n))
  {}

  lemma FirstPass(entries: seq<Entry>, details: Details, priority: map<Url, int>, budget: nat, fetch: Fetcher)
    returns (first: seq<Url>, one: Progress)
    requires WellIndexed(entries)
    ensures one == PriorityPass(Queue(entries, details, priority), budget, Progress(details, []), fetch)
    ensures first == FirstN(ToRead(Queue(entries, details, priority), details), budget)
    ensures one == Progress(ReadAll(details, first, fetch), first)
    ensures Distinct(first) && |first| <= budget
  {
    var queue := Queue(entries, details, priority);
    QueueIsRanked(entries, details, priority);
    first, one := QueuePass(queue, details, budget, fetch);
  }

  lemma QueuePass(queue: seq<Url>, details: Details, budget: nat, fetch: Fetcher)
    returns (first: seq<Url>, one: Progress)
    requires Distinct(queue)
    ensures one == PriorityPass(queue, budget, Progress(details, []), fetch)
    ensures first == FirstN(ToRead(queue, details), budget)
    ensures one == Progress(ReadAll(details, first, fetch), first)
    ensures Distinct(first) && |first| <= budget
  {
    ToReadAre(queue, details);
    FirstNMembers(ToRead(queue, details), budget);
    PriorityPassReads(queue, budget, Progress(details, []), fetch);
    first := FirstN(ToRead(queue, details), budget);
    one := PriorityPass(queue, budget, Progress(details, []), fetch);
    assert [] + first == first;
  }

  lemma SpendsNothingMore(entries: seq<Entry>, details: Details, priority: map<Url, int>, budget: nat, first: seq<Url>, fetch: Fetcher)
    requires first == FirstN(ToRead(Queue(entries, details, priority), details), budget)
    requires Distinct(first) && |first| <= budget
    ensures Spends(entries, details, priority, budget, Progress(ReadAll(details, first, fetch), first), first, [], fetch)
  {
    assert first + [] == first;
  }

  lemma SpendsTheRest(entries: seq<Entry>, details: Details, priority: map<Url, int>, budget: nat,
                      first: seq<Url>, second: seq<Url>, final: Progress, fetch: Fetcher)
    requires first == FirstN(ToRead(Queue(entries, details, priority), details), budget) && Distinct(first)
    requires ReadsFresh(Progress(ReadAll(details, first, fetch), first), final, second, fetch)
    requires |final.log| <= budget && forall u :: u in final.log ==> u in first || u in UrlSet(entries)
    ensures Spends(entries, details, priority, budget, final, first, second, fetch)
  {
    ReadInTurn(details, first, second, fetch);
    forall u | u in second ensures u in UrlSet(entries) && u !in details && u !in first {
      assert u in final.log;
    }
    assert Distinct(first + second) by {
      assert forall i :: 0 <= i < |first| ==> first[i] in first;
      assert forall i :: 0 <= i < |second| ==> second[i] in second;
    }
  }

  /** **Requests never exceed the budget and no page is requested twice**; the first pass takes the
      top of the ranked unread queue, and the second only pages no earlier run had asked for. */
  lemma NoRequestRepeats(entries: seq<Entry>, details: Details, priority: map<Url, int>, w: Window, budget: nat, fetch: Fetcher)
    returns (first: seq<Url>, second: seq<Url>)
    requires WellIndexed(entries)
    ensures Spends(entries, details, priority, budget,
                   Hydrate(entries, details, priority, w, budget, false, fetch), first, second, fetch)
    ensures second != [] ==> |first| < budget
  {
    var one;
    first, one := FirstPass(entries, details, priority, budget, fetch);
    second := [];
    SpendsNothingMore(entries, details, priority, budget, first, fetch);
    if budget == 0 {
      assert ReadAll(details, first, fetch) == details;
    } else if |one.log| < budget {
      SortedIndex(entries);
      second := BackgroundReadsFresh(entries, w, budget, 0, one, fetch);
      BackgroundStaysInside(entries, w, budget, 0, one, fetch);
      SpendsTheRest(entries, details, priority, budget, first, second, BackgroundPass(entries, w, budget, 0, one, fetch), fetch);
    }
  }

  /** Taking the first `n` of an ordered queue leaves nothing better behind. */
  lemma TopDominates<T(!new)>(all: seq<T>, n: nat, le: (T, T) -> bool)
    requires Ordered(all, le)
    ensures Ordered(FirstN(all, n), le)
    ensures forall u, v :: u in all && u !in FirstN(all, n) && v in FirstN(all, n) ==> le(v, u)
    ensures |FirstN(all, n)| < n ==> FirstN(all, n) == all
    ensures forall x :: x in FirstN(all, n) ==> x in all
  {
    var first := FirstN(all, n);
    assert forall k :: 0 <= k < |first| ==> all[k] in first;
    forall u, v | u in all && u !in first && v in first ensures le(v, u) {
      var i :| 0 <= i < |first| && first[i] == v;
      var j :| 0 <= j < |all| && all[j] == u;
      assert le(all[i], all[j]);
    }
  }

  /** `u` is listed no later than `v`. */
  ghost predicate ListedFirst(entries: seq<Entry>, u: Url, v: Url) {
    forall p, q :: 0 <= p < |entries| && 0 <= q < |entries| && entries[p].url == u && entries[q].url == v ==> p <= q
  }

  lemma TiesByPosition(entries: seq<Entry>, details: Details, priority: map<Url, int>, u: Url, v: Url)
    requires WellIndexed(entries) && RankedBefore(entries, details, priority, u, v) && u in priority && v in priority
    requires (IsFailed(details, u) <==> IsFailed(details, v)) && priority[u] == priority[v]
    ensures ListedFirst(entries, u, v)
  {
    forall p, q | 0 <= p < |entries| && 0 <= q < |entries| && entries[p].url == u && entries[q].url == v ensures p <= q {
      OrderAt(entries, p);
      OrderAt(entries, q);
    }
  }

  /** **Greedy in rank.** Of two requested candidates the better ranked one is requested first; a
      candidate left unrequested while a worse one was read does not exist; and a background page is
      read only when every indexed candidate is read or was asked for in this run. */
  lemma SpendsGreedily(entries: seq<Entry>, details: Details, priority: map<Url, int>, w: Window, budget: nat, fetch: Fetcher)
    returns (first: seq<Url>, second: seq<Url>)
    requires WellIndexed(entries)
    ensures Hydrate(entries, details, priority, w, budget, false, fetch).log == first + second
    ensures forall i, j :: 0 <= i < j < |first| ==> RankedBefore(entries, details, priority, first[i], first[j])
    ensures forall u, v :: u in priority && u in UrlSet(entries) && !IsHydrated(details, u) && u !in first && v in first
              ==> RankedBefore(entries, details, priority, v, u)
    ensures forall u :: second != [] && u in priority && u in UrlSet(entries) ==> IsHydrated(details, u) || u in first
    ensures forall u :: u in first ==> u in priority && u in UrlSet(entries) && !IsHydrated(details, u)
    ensures forall i, j :: 0 <= i < j < |first| && IsFailed(details, first[i]) ==> IsFailed(details, first[j])
    ensures forall i, j :: 0 <= i < j < |first| && (IsFailed(details, first[i]) <==> IsFailed(details, first[j]))
              ==> priority[first[i]] >= priority[first[j]]
    ensures forall i, j :: (0 <= i < j < |first| && (IsFailed(details, first[i]) <==> IsFailed(details, first[j]))
                            && priority[first[i]] == priority[first[j]])
              ==> ListedFirst(entries, first[i], first[j])
  {
    first, second := NoRequestRepeats(entries, details, priority, w, budget, fetch);
    var queue, le := Queue(entries, details, priority), Ranking(entries, details, priority);
    QueueIsRanked(entries, details, priority);
    ToReadAre(queue, details);
    ToReadOrdered(queue, details, le);
    TopDominates(ToRead(queue, details), budget, le);
    forall i, j | 0 <= i < j < |first| ensures RankedBefore(entries, details, priority, first[i], first[j]) {
      assert le(first[i], first[j]);
    }
    forall i, j | 0 <= i < j < |first| && (IsFailed(details, first[i]) <==> IsFailed(details, first[j]))
        && priority[first[i]] == priority[first[j]]
      ensures ListedFirst(entries, first[i], first[j])
    {
      TiesByPosition(entries, details, priority, first[i], first[j]);
    }
  }
}
