/** Where the feed's guarantee ends: a page that is read without text blocks publication for ever.

    Source: apps/legal_work/archived_topics.py:354-370, apps/legal_work/archive_models.py:210-216. A page passes
    the collector if its markup is not empty, and may have no text once the markup is stripped; the table then
    refuses every row of the run, the page stays unread, and the next run asks for it again. */
module FeedLimits {
  import opened Basics
  import opened ArchiveListing
  import opened ListingWalk
  import opened ArchiveMerge
  import opened Hydration
  import opened BudgetLaws
  import opened WindowProgress
  import opened BackfillProgress
  import opened ArchiveFeed
  import opened FeedInvariants
  import opened FeedTracking

  /** A run is bound to ask for an unread page: the condition of `AlwaysShrinksIff`. */
  ghost predicate BoundToRead(entries: seq<Entry>, details: Details, priority: map<Url, int>, w: Window) {
    PriorityUnread(priority, details) != {} || RecentPending(entries, Pessimistic(details, priority, w), w) > 0
  }

  /** Then it does, whatever the pages answer. */
  lemma AsksUnread(entries: seq<Entry>, details: Details, priority: map<Url, int>, w: Window, budget: nat, fetch: Fetcher)
    returns (u: Url)
    requires WellIndexed(entries) && Shortlist(entries, priority) && budget > |priority| && BoundToRead(entries, details, priority, w)
    ensures u in Unread(entries, details) && u in Hydrate(entries, details, priority, w, budget, false, fetch).log
  {
    if PriorityUnread(priority, details) != {} {
      UnreadCandidateFirst(entries, details, priority, w, budget, fetch);
      u := Hydrate(entries, details, priority, w, budget, false, fetch).log[0];
    } else {
      PessimisticStillReads(entries, details, priority, w, budget, fetch);
      u := RequestedOne(entries, details, priority, w, budget, fetch);
    }
  }

  lemma RequestedOne(entries: seq<Entry>, details: Details, priority: map<Url, int>, w: Window, budget: nat, fetch: Fetcher)
    returns (u: Url)
    requires WellIndexed(entries)
    requires |Unread(entries, Hydrate(entries, details, priority, w, budget, false, fetch).details)| < |Unread(entries, details)|
    ensures u in Unread(entries, details) && u in Hydrate(entries, details, priority, w, budget, false, fetch).log
  {
    UnreadAfter(entries, details, priority, w, budget, fetch);
    var before := Unread(entries, details);
    var after := Unread(entries, Hydrate(entries, details, priority, w, budget, false, fetch).details);
    assert after != before;
    u :| u in before && u !in after;
  }

  /** What is pending depends on the addresses alone. */
  lemma {:induction false} SamePending(a: seq<Entry>, b: seq<Entry>, w: Window, older: nat, details: Details)
    requires |a| == |b| && forall i :: 0 <= i < |a| ==> a[i].url == b[i].url
    ensures Pending(a, w, older, details) == Pending(b, w, older, details)
  {
    if a != [] {
      var url := a[0].url;
      if url in details && details[url].Hydrated? {
        SamePending(a[1..], b[1..], w, OlderRun(details[url], w, older), details);
      } else {
        SamePending(a[1..], b[1..], w, older, details);
      }
    }
  }

  lemma SameBound(a: seq<Entry>, b: seq<Entry>, details: Details, priority: map<Url, int>, w: Window, cards: seq<Card>, s: Settings)
    requires WellIndexed(a) && WellIndexed(b) && Lists(a, cards, s) && Lists(b, cards, s)
    ensures BoundToRead(a, details, priority, w) <==> BoundToRead(b, details, priority, w)
  {
    SortedIndex(a);
    SortedIndex(b);
    ListedUrl(a, cards, s);
    ListedUrl(b, cards, s);
    SamePending(a, b, w, 0, Pessimistic(details, priority, w));
  }

  /** Every page the feed has not read comes back blank. */
  ghost predicate UnreadAreBlank(feed: Feed, fetch: Fetcher) {
    forall u :: u in UnreadIn(feed) ==> IsBlank(fetch(u))
  }

  ghost predicate FeedBoundToRead(feed: Feed, priority: map<Url, int>, w: Window) {
    BoundToRead(EntriesOf(Rows(feed)), DetailsOf(Rows(feed)), priority, w)
  }

  lemma BlankIsAsked(feed: Feed, inputs: Inputs, size: nat, cards: seq<Card>, priority: map<Url, int>, w: Window, s: Settings)
    requires Going(feed, cards, s) && Steady(inputs, size, cards, priority, w, s) && Walked(feed, inputs, s).Ok?
    requires FeedBoundToRead(feed, priority, w) && UnreadAreBlank(feed, inputs.fetch)
    ensures AsksBlank(feed, inputs, s)
  {
    var index := Walked(feed, inputs, s).value;
    var work := WorkOn(feed, inputs, index);
    assert [] + cards == cards;
    WorkListsTheDay(feed, inputs, size, [], cards, s, index);
    SteadyWork(feed, inputs, size, cards, priority, w, s, index);
    SameBound(EntriesOf(Rows(feed)), work.entries, DetailsOf(Rows(feed)), priority, w, cards, s);
    var u := AsksUnread(work.entries, DetailsOf(Rows(feed)), priority, w, inputs.budget, inputs.fetch);
    assert u in UnreadIn(feed);
  }

  lemma BlankRun(feed: Feed, inputs: Inputs, size: nat, cards: seq<Card>, priority: map<Url, int>, w: Window, s: Settings)
    requires Going(feed, cards, s) && Steady(inputs, size, cards, priority, w, s)
    requires FeedBoundToRead(feed, priority, w) && UnreadAreBlank(feed, inputs.fetch)
    ensures Run(feed, inputs, s) == (feed, FAILED)
  {
    if Walked(feed, inputs, s).Ok? {
      BlankIsAsked(feed, inputs, size, cards, priority, w, s);
      BlankFails(feed, inputs, size, cards, s);
    }
  }

  ghost predicate BlankAt(feed: Feed, runs: nat -> Inputs, i: nat) {
    UnreadAreBlank(feed, runs(i).fetch)
  }

  ghost predicate FailsAt(feed: Feed, runs: nat -> Inputs, s: Settings, i: nat) {
    Run(feed, runs(i), s) == (feed, FAILED)
  }

  lemma {:induction false} Frozen(feed: Feed, runs: nat -> Inputs, s: Settings, n: nat)
    requires forall i :: FailsAt(feed, runs, s, i)
    ensures FeedAt(feed, runs, s, n) == feed
  {
    if n > 0 {
      Frozen(feed, runs, s, n - 1);
      assert FailsAt(feed, runs, s, n - 1);
    }
  }

  lemma FailsEveryTime(feed: Feed, runs: nat -> Inputs, size: nat, cards: seq<Card>, priority: map<Url, int>, w: Window, s: Settings, i: nat)
    requires Going(feed, cards, s) && FeedBoundToRead(feed, priority, w)
    requires SteadyAt(runs, i, size, cards, priority, w, s) && BlankAt(feed, runs, i)
    ensures FailsAt(feed, runs, s, i)
  {
    BlankRun(feed, runs(i), size, cards, priority, w, s);
  }

  /** **Blank pages block the feed for ever.** On an archive that stands still, with pages still to read that
      all come back blank and a run bound to ask for one, every run fails and the snapshot never changes. */
  lemma BlankPagesBlock(feed: Feed, runs: nat -> Inputs, size: nat, cards: seq<Card>, priority: map<Url, int>, w: Window, s: Settings, n: nat)
    requires Going(feed, cards, s) && FeedBoundToRead(feed, priority, w)
    requires forall i :: SteadyAt(runs, i, size, cards, priority, w, s)
    requires forall i :: BlankAt(feed, runs, i)
    ensures FeedAt(feed, runs, s, n) == feed && FailsAt(feed, runs, s, n)
  {
    forall i: nat ensures FailsAt(feed, runs, s, i) { FailsEveryTime(feed, runs, size, cards, priority, w, s, i); }
    Frozen(feed, runs, s, n);
  }

  /** **One blank page is enough**: an archive of a single unread consultation, no shortlist, any window, and
      the feed never gets past the snapshot it has. */
  lemma OneBlankPageBlocks(feed: Feed, runs: nat -> Inputs, size: nat, card: Card, w: Window, s: Settings, n: nat)
    requires Going(feed, [card], s) && UnreadIn(feed) == {card.url}
    requires forall i :: SteadyAt(runs, i, size, [card], map[], w, s)
    requires forall i :: BlankAt(feed, runs, i)
    ensures FeedAt(feed, runs, s, n) == feed && FailsAt(feed, runs, s, n)
  {
    SinglePending(feed, card, w, s);
    BlankPagesBlock(feed, runs, size, [card], map[], w, s, n);
  }

  lemma SinglePending(feed: Feed, card: Card, w: Window, s: Settings)
    requires Going(feed, [card], s) && UnreadIn(feed) == {card.url}
    ensures FeedBoundToRead(feed, map[], w)
  {
    var entries, details := EntriesOf(Rows(feed)), DetailsOf(Rows(feed));
    SortedIndex(entries);
    ListedUrl(entries, [card], s);
    assert entries[0].url == card.url && card.url in UnreadIn(feed);
    assert Pending(entries, w, 0, Pessimistic(details, map[], w)) >= 1;
  }

  // ------------------------------------------------------------------
  // From nothing.
  // ------------------------------------------------------------------

  const NOTHING := Feed(None, {})

  lemma NothingReadIsPending(entries: seq<Entry>, cards: seq<Card>, w: Window, s: Settings)
    requires WellIndexed(entries) && Lists(entries, cards, s) && cards != []
    ensures BoundToRead(entries, map[], map[], w)
  {
    SortedIndex(entries);
    assert Pending(entries, w, 0, Pessimistic(map[], map[], w)) >= 1;
  }

  lemma ColdRunFails(inputs: Inputs, size: nat, cards: seq<Card>, w: Window, s: Settings)
    requires Steady(inputs, size, cards, map[], w, s) && forall u :: IsBlank(inputs.fetch(u))
    ensures Run(NOTHING, inputs, s) == (NOTHING, FAILED)
  {
    if Walked(NOTHING, inputs, s).Ok? {
      var index := Walked(NOTHING, inputs, s).value;
      var work := WorkOn(NOTHING, inputs, index);
      assert cards + [] == cards;
      WorkListsTheDay(NOTHING, inputs, size, cards, [], s, index);
      WorkIsSound(NOTHING, inputs, s, index);
      assert Carried(work.entries, []) == map[];
      NothingReadIsPending(work.entries, cards, w, s);
      var u := AsksUnread(work.entries, map[], map[], w, inputs.budget, inputs.fetch);
      NotLandingFails(NOTHING, inputs, size, cards, [], s);
    }
  }

  ghost predicate ColdBlankAt(runs: nat -> Inputs, size: nat, cards: seq<Card>, w: Window, s: Settings, i: nat) {
    Steady(runs(i), size, cards, map[], w, s) && forall u :: IsBlank(runs(i).fetch(u))
  }

  /** **A feed that starts on blank pages never starts**: no run ever publishes a first snapshot. */
  lemma ColdStartBlocks(runs: nat -> Inputs, size: nat, cards: seq<Card>, w: Window, s: Settings, n: nat)
    requires forall i :: ColdBlankAt(runs, size, cards, w, s, i)
    ensures FeedAt(NOTHING, runs, s, n) == NOTHING && FailsAt(NOTHING, runs, s, n)
  {
    forall i: nat ensures FailsAt(NOTHING, runs, s, i) {
      assert ColdBlankAt(runs, size, cards, w, s, i);
      ColdRunFails(runs(i), size, cards, w, s);
    }
    Frozen(NOTHING, runs, s, n);
  }
}
