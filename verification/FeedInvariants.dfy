/** What every run keeps, over every sequence of runs.

    Source: apps/legal_work/archived_topic_sync.py:191-225, 287-310, 371-416, 616-624. */
module FeedInvariants {
  import opened Basics
  import opened Sorting
  import opened ArchiveListing
  import opened ArchiveMerge
  import opened Hydration
  import opened BudgetLaws
  import opened WindowProgress
  import opened ArchiveCounts
  import opened ArchiveFeed
  import Lexicographic

  // ------------------------------------------------------------------
  // Any walk that is not refused yields a well-formed index.
  // ------------------------------------------------------------------

  ghost predicate Built(entries: seq<Entry>, seen: set<Url>) {
    WellIndexed(entries) && seen == UrlSet(entries)
  }

  lemma {:induction false} ReadCardsBuilds(cards: seq<Card>, page: nat, known: Known, s: Settings, r: Reading)
    requires Built(r.entries, r.seen)
    ensures var outcome := ReadCards(cards, page, known, s, r);
            outcome.Ok? ==> Built(outcome.value.entries, outcome.value.seen)
    decreases |cards|
  {
    if cards != [] && Refuses(cards[0], r.seen).None? {
      var next := Take(cards[0], page, known, s, r);
      var one := [EntryFor(cards[0], page, |r.entries|, s)];
      UrlsOfConcat(r.entries, one);
      UrlsOfConcat(one, []);
      ConcatDistinct(r.entries, one);
      ReadCardsBuilds(cards[1..], page, known, s, next);
    }
  }

  lemma {:induction false} WalkBuilds(site: Site, full: bool, known: Known, s: Settings, page: nat, st: WalkState)
    requires Built(st.entries, st.seen)
    ensures var outcome := Walk(site, full, known, s, page, st);
            outcome.Ok? ==> WellIndexed(outcome.value.entries) && outcome.value.entries != []
    decreases s.maxPages - page
  {
    if page < s.maxPages && site(page).Some? {
      var p := site(page).value;
      ReadCardsBuilds(p.cards, page, known, s, Reading(st.entries, st.seen, true));
      var read := ReadCards(p.cards, page, known, s, Reading(st.entries, st.seen, true));
      if read.Ok? {
        var r := read.value;
        WalkBuilds(site, full, known, s, page + 1,
                   WalkState(r.entries, r.seen, st.fingerprints + {Fingerprint(p.cards)},
                             Consecutive(full, st.consecutiveKnown, r.allKnown), PagerEnd(p, page, st.lastPage, s)));
      }
    }
  }

  // ------------------------------------------------------------------
  // Details: from rows to a dictionary and back.
  // ------------------------------------------------------------------

  /** Every detail the rows hold, by address. */
  function DetailsOf(items: seq<Item>): Details {
    Carried(EntriesOf(items), items)
  }

  lemma StoredIsIndexed(items: seq<Item>, url: Url)
    requires Stored(items, url).Some?
    ensures url in UrlSet(EntriesOf(items))
  {
    StoredSomewhere(items, url);
    var k :| 0 <= k < |items| && items[k].entry.url == url && items[k].detail == Stored(items, url);
    assert EntriesOf(items)[k].url == url;
  }

  /** Carrying forward into a larger index loses no detail. */
  lemma CarriedAll(entries: seq<Entry>, previous: seq<Item>)
    requires UrlSet(EntriesOf(previous)) <= UrlSet(entries)
    ensures Carried(entries, previous) == DetailsOf(previous)
  {
    forall u | Stored(previous, u).Some? ensures u in UrlSet(EntriesOf(previous)) { StoredIsIndexed(previous, u); }
  }

  lemma RowsRemember(entries: seq<Entry>, details: Details)
    requires DistinctUrls(entries) && details.Keys <= UrlSet(entries)
    ensures EntriesOf(RowsFor(entries, details)) == entries
    ensures DetailsOf(RowsFor(entries, details)) == details
  {
    var items := RowsFor(entries, details);
    assert EntriesOf(items) == entries;
    forall u | u in UrlSet(entries)
      ensures Stored(items, u) == if u in details then Some(details[u]) else None
    {
      var k :| 0 <= k < |entries| && entries[k].url == u;
      StoredAt(items, k);
    }
  }

  /** Nothing already read is lost or altered. */
  ghost predicate Grows(before: Details, after: Details) {
    before.Keys <= after.Keys && forall u :: u in before && before[u].Hydrated? ==> after[u] == before[u]
  }

  lemma CandidatesIndexed(entries: seq<Entry>, details: Details, priority: map<Url, int>, first: seq<Url>, budget: nat)
    requires WellIndexed(entries)
    requires first == FirstN(ToRead(Queue(entries, details, priority), details), budget)
    ensures forall u :: u in first ==> u in UrlSet(entries) && !IsHydrated(details, u)
  {
    QueueIsRanked(entries, details, priority);
    ToReadAre(Queue(entries, details, priority), details);
    FirstNMembers(ToRead(Queue(entries, details, priority), details), budget);
  }

  lemma HydrateGrows(entries: seq<Entry>, details: Details, priority: map<Url, int>, w: Window, budget: nat, dryRun: bool, fetch: Fetcher)
    requires WellIndexed(entries) && details.Keys <= UrlSet(entries)
    ensures var after := Hydrate(entries, details, priority, w, budget, dryRun, fetch).details;
            Grows(details, after) && after.Keys <= UrlSet(entries)
  {
    if !dryRun {
      var first, second := NoRequestRepeats(entries, details, priority, w, budget, fetch);
      CandidatesIndexed(entries, details, priority, first, budget);
    }
  }

  // ------------------------------------------------------------------
  // One run.
  // ------------------------------------------------------------------

  ghost predicate SnapshotOk(snapshot: Snapshot) {
    && WellIndexed(EntriesOf(snapshot.items))
    && snapshot.itemCount == |snapshot.items|
    && VerifyWritten(snapshot, |snapshot.items|)
    && Storable(snapshot.items)
  }

  ghost predicate FeedOk(feed: Feed) {
    feed.current.Some? ==> SnapshotOk(feed.current.value)
  }

  /** What an incremental run computes, given a well-formed feed: the index grows, its details grow,
      and the rows it would write say exactly that. */
  lemma WorkIsSound(feed: Feed, inputs: Inputs, s: Settings, index: Index)
    requires FeedOk(feed) && Walked(feed, inputs, s) == Ok(index)
    ensures var work := WorkOn(feed, inputs, index);
            && WellIndexed(work.entries)
            && EntriesOf(work.snapshot.items) == work.entries
            && DetailsOf(work.snapshot.items) == work.progress.details
            && VerifyWritten(work.snapshot, |work.entries|)
            && (!inputs.full ==>
                  && UrlSet(work.entries) == UrlSet(index.entries) + UrlSet(EntriesOf(Rows(feed)))
                  && Carried(work.entries, Rows(feed)) == DetailsOf(Rows(feed))
                  && Grows(DetailsOf(Rows(feed)), work.progress.details))
  {
    var previous := Rows(feed);
    WalkBuilds(inputs.site, inputs.full || feed.current.None?, KnownFrom(previous), s, 0, START);
    MergeKeepsIndex(index.entries, previous);
    var entries := Merge(index.entries, previous, inputs.full);
    if !inputs.full { CarriedAll(entries, previous); }
    var carried := Carried(entries, previous);
    HydrateGrows(entries, carried, inputs.shortlist(entries), inputs.reading, inputs.budget, inputs.dryRun, inputs.fetch);
    RowsRemember(entries, WorkOn(feed, inputs, index).progress.details);
  }

  /** No address lost, no read page demoted or altered, index completeness kept. */
  ghost predicate Keeps(before: Feed, after: Feed) {
    before.current.Some? ==>
      && after.current.Some?
      && UrlSet(EntriesOf(Rows(before))) <= UrlSet(EntriesOf(Rows(after)))
      && Grows(DetailsOf(Rows(before)), DetailsOf(Rows(after)))
      && (before.current.value.indexComplete ==> after.current.value.indexComplete)
  }

  /** **Every run keeps the feed well formed, and every incremental run loses nothing.** The
      publication check never refuses: a walk that succeeds fails only on the table's constraints or
      on bytes the registry has already published. */
  lemma RunKeeps(feed: Feed, inputs: Inputs, s: Settings)
    requires FeedOk(feed)
    ensures FeedOk(Run(feed, inputs, s).0)
    ensures !inputs.full ==> Keeps(feed, Run(feed, inputs, s).0)
    ensures feed.published <= Run(feed, inputs, s).0.published
    ensures inputs.dryRun ==> Run(feed, inputs, s).0 == feed
    ensures Walked(feed, inputs, s).Ok? ==>
              var work := WorkOn(feed, inputs, Walked(feed, inputs, s).value);
              (Run(feed, inputs, s).1.outcome == Failure <==>
                 && !inputs.dryRun
                 && !(PayloadOf(work.snapshot.items) in feed.published && work.snapshot.backfillComplete)
                 && (!Storable(work.snapshot.items) || PayloadOf(work.snapshot.items) in feed.published))
  {
    if Walked(feed, inputs, s).Ok? {
      WorkIsSound(feed, inputs, s, Walked(feed, inputs, s).value);
    }
  }

  /** **A run that stops with requests left is as complete as its index**: `backfill_complete` then
      equals `index_complete`, even if midnight passed between reading and counting. */
  lemma LeftoverBudgetCompletes(feed: Feed, inputs: Inputs, s: Settings, index: Index)
    requires FeedOk(feed) && Walked(feed, inputs, s) == Ok(index) && !inputs.dryRun
    requires var work := WorkOn(feed, inputs, index);
             Shortlist(work.entries, work.priority) && |work.progress.log| < inputs.budget
    requires inputs.reading.cutoff <= inputs.counting.cutoff && inputs.reading.stopAfter == inputs.counting.stopAfter
    ensures var snapshot := WorkOn(feed, inputs, index).snapshot;
            snapshot.backfillComplete <==> snapshot.indexComplete
  {
    var work := WorkOn(feed, inputs, index);
    WorkIsSound(feed, inputs, s, index);
    LeftoverBudgetMeansDone(work.entries, Carried(work.entries, Rows(feed)), work.priority, inputs.reading, inputs.counting,
                            inputs.budget, inputs.fetch);
    CountsPartition(work.entries, work.progress.details, work.priority, inputs.counting);
  }

  // ------------------------------------------------------------------
  // Any sequence of runs.
  // ------------------------------------------------------------------

  function RunAll(feed: Feed, runs: seq<Inputs>, s: Settings): Feed
    decreases |runs|
  {
    if runs == [] then feed else RunAll(Run(feed, runs[0], s).0, runs[1..], s)
  }

  lemma KeepsTransitive(a: Feed, b: Feed, c: Feed)
    requires Keeps(a, b) && Keeps(b, c)
    ensures Keeps(a, c)
  {}

  /** **Across any sequence of incremental runs** no indexed address is lost, no read page is demoted,
      `source_order` stays 0..n-1 over distinct addresses, and index completeness never reverts. */
  lemma {:induction false} RunsKeep(feed: Feed, runs: seq<Inputs>, s: Settings)
    requires FeedOk(feed) && forall i :: 0 <= i < |runs| ==> !runs[i].full
    ensures FeedOk(RunAll(feed, runs, s)) && Keeps(feed, RunAll(feed, runs, s))
    decreases |runs|
  {
    if runs != [] {
      var next := Run(feed, runs[0], s).0;
      RunKeeps(feed, runs[0], s);
      RunsKeep(next, runs[1..], s);
      KeepsTransitive(feed, next, RunAll(next, runs[1..], s));
    }
  }

  // ------------------------------------------------------------------
  // The current snapshot dominates everything ever published.
  // ------------------------------------------------------------------

  /** The rows index the line's address, have asked for its page if the line has, and show the same page if it was read. */
  ghost predicate LineDominated(line: Line, items: seq<Item>) {
    && line.url in UrlSet(EntriesOf(items))
    && (line.shown != ShownPending ==> line.url in DetailsOf(items))
    && (line.shown.ShownPage? ==> ShownOf(Some(DetailsOf(items)[line.url])) == line.shown)
  }

  ghost predicate Dominated(payload: Payload, items: seq<Item>) {
    forall line :: line in payload ==> LineDominated(line, items)
  }

  /** Every payload the registry holds knows no address and no read page the current snapshot does not show alike. */
  ghost predicate PublishedDominated(feed: Feed) {
    forall payload :: payload in feed.published ==> feed.current.Some? && Dominated(payload, Rows(feed))
  }

  lemma KeyOrder()
    ensures TotalOrder(ByKey())
  {
    Lexicographic.LeIsAnOrder();
  }

  lemma PayloadLines(items: seq<Item>, line: Line)
    ensures line in PayloadOf(items) <==> exists i :: 0 <= i < |items| && LineOf(items[i]) == line
  {
    KeyOrder();
    SortSorts(Lines(items), ByKey());
    SameMembers(PayloadOf(items), Lines(items), line);
    assert forall i :: 0 <= i < |items| ==> Lines(items)[i] == LineOf(items[i]);
  }

  lemma OwnPayloadDominated(items: seq<Item>)
    requires DistinctUrls(EntriesOf(items))
    ensures Dominated(PayloadOf(items), items)
  {
    forall line | line in PayloadOf(items) ensures LineDominated(line, items) {
      PayloadLines(items, line);
      var i :| 0 <= i < |items| && LineOf(items[i]) == line;
      assert EntriesOf(items)[i].url == line.url;
      StoredAt(items, i);
    }
  }

  /** A payload the registry holds can only repeat the current addresses and read pages. */
  lemma RepeatAddsNothing(feed: Feed, items: seq<Item>)
    requires PublishedDominated(feed) && PayloadOf(items) in feed.published && DistinctUrls(EntriesOf(items))
    ensures UrlSet(EntriesOf(items)) <= UrlSet(EntriesOf(Rows(feed)))
    ensures DetailsOf(items).Keys <= DetailsOf(Rows(feed)).Keys
    ensures forall u :: IsHydrated(DetailsOf(items), u) ==>
              ShownOf(Some(DetailsOf(Rows(feed))[u])) == ShownOf(Some(DetailsOf(items)[u]))
  {
    forall i | 0 <= i < |items| ensures LineDominated(LineOf(items[i]), Rows(feed)) {
      PayloadLines(items, LineOf(items[i]));
      assert LineOf(items[i]) in PayloadOf(items);
    }
    forall u | u in DetailsOf(items)
      ensures u in DetailsOf(Rows(feed))
      ensures IsHydrated(DetailsOf(items), u) ==> ShownOf(Some(DetailsOf(Rows(feed))[u])) == ShownOf(Some(DetailsOf(items)[u]))
    {
      StoredSomewhere(items, u);
      var k :| 0 <= k < |items| && items[k].entry.url == u && items[k].detail == Stored(items, u);
      assert LineDominated(LineOf(items[k]), Rows(feed));
    }
  }

  /** Every row the details come from fits, so no detail is blank and no address too long. */
  lemma FittingDetails(items: seq<Item>)
    requires forall i :: 0 <= i < |items| ==> Fits(items[i])
    ensures forall u :: u in DetailsOf(items) ==> !IsBlank(DetailsOf(items)[u])
    ensures forall u :: u in UrlSet(EntriesOf(items)) ==> |u| <= MAX_URL_LENGTH
  {
    forall u | u in DetailsOf(items) ensures !IsBlank(DetailsOf(items)[u]) {
      StoredSomewhere(items, u);
      var k :| 0 <= k < |items| && items[k].entry.url == u && items[k].detail == Stored(items, u);
      assert Fits(items[k]);
    }
    forall u | u in UrlSet(EntriesOf(items)) ensures |u| <= MAX_URL_LENGTH {
      var k :| 0 <= k < |EntriesOf(items)| && EntriesOf(items)[k].url == u;
      assert Fits(items[k]);
    }
  }

  /** Rows whose bytes are registered fit the table: so rows that do not fit are never mistaken for a repeat. */
  lemma RegisteredRowsFit(feed: Feed, items: seq<Item>)
    requires FeedOk(feed) && PublishedDominated(feed)
    requires PayloadOf(items) in feed.published && DistinctUrls(EntriesOf(items))
    ensures forall i :: 0 <= i < |items| ==> Fits(items[i])
  {
    RepeatAddsNothing(feed, items);
    FittingDetails(Rows(feed));
    forall i | 0 <= i < |items| ensures Fits(items[i]) {
      var u := EntriesOf(items)[i].url;
      assert u in UrlSet(EntriesOf(items));
      StoredAt(items, i);
      if IsHydrated(DetailsOf(items), u) {
        assert ShownOf(Some(DetailsOf(Rows(feed))[u])) == ShownOf(items[i].detail);
        assert !IsBlank(DetailsOf(Rows(feed))[u]);
      }
    }
  }

  lemma DominatedLater(payload: Payload, before: seq<Item>, after: seq<Item>)
    requires Dominated(payload, before)
    requires UrlSet(EntriesOf(before)) <= UrlSet(EntriesOf(after)) && Grows(DetailsOf(before), DetailsOf(after))
    ensures Dominated(payload, after)
  {
    forall line | line in payload ensures LineDominated(line, after) {
      assert LineDominated(line, before);
    }
  }

  lemma DominanceKept(feed: Feed, inputs: Inputs, s: Settings)
    requires FeedOk(feed) && PublishedDominated(feed) && !inputs.full
    ensures PublishedDominated(Run(feed, inputs, s).0)
  {
    RunKeeps(feed, inputs, s);
    var after := Run(feed, inputs, s).0;
    if after != feed {
      OwnPayloadDominated(Rows(after));
      forall payload | payload in after.published ensures Dominated(payload, Rows(after)) {
        if payload in feed.published { DominatedLater(payload, Rows(feed), Rows(after)); }
      }
    }
  }
}
