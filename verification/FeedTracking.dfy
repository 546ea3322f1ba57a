/** Whole histories of a growing archive: the published index is the listing, and the backfill ends.

    Source: apps/legal_work/archived_topic_sync.py:149-365, apps/legal_work/archived_topics.py:197-324. */
module FeedTracking {
  import opened Basics
  import opened ArchiveListing
  import opened ListingWalk
  import opened ArchiveMerge
  import opened Hydration
  import opened BudgetLaws
  import opened WindowProgress
  import opened BackfillProgress
  import opened ArchiveCounts
  import opened ArchiveFeed
  import opened FeedInvariants

  /** The current snapshot indexes exactly `cards`, in order, and says so. */
  ghost predicate Tracks(feed: Feed, cards: seq<Card>, s: Settings) {
    feed.current.Some? && feed.current.value.indexComplete && Lists(EntriesOf(Rows(feed)), cards, s)
  }

  /** An incremental run against a site whose pages, when they answer, consistently list `cards`. Nothing is
      asked of what the detail pages answer. */
  ghost predicate Ordinary(inputs: Inputs, size: nat, cards: seq<Card>, s: Settings) {
    && !inputs.full
    && Serves(inputs.site, cards, size) && Readable(cards, s) && WithinCap(cards, size, s)
    && s.knownPagesBeforeStop >= 1 && s.titleLimit >= 1
  }

  /** The table has room for every address of the listing. */
  ghost predicate AddressesFit(cards: seq<Card>) {
    forall i :: 0 <= i < |cards| ==> |cards[i].url| <= MAX_URL_LENGTH
  }

  /** One of the pages asked for comes back as read but without text. */
  ghost predicate BlankRead(log: seq<Url>, fetch: Fetcher) {
    exists u :: u in log && IsBlank(fetch(u))
  }

  ghost predicate Sound(feed: Feed) {
    FeedOk(feed) && PublishedDominated(feed)
  }

  /** What the run starts from: nothing yet, or a snapshot of the older part of the listing. */
  ghost predicate StartsFrom(feed: Feed, earlier: seq<Card>, s: Settings) {
    if feed.current.None? then earlier == [] else Tracks(feed, earlier, s)
  }

  lemma MergeWithNothing(walked: seq<Entry>)
    ensures Merge(walked, [], false) == walked
  {
    assert walked + [] == walked;
  }

  /** The walk is refused only when a page of the listing does not answer. */
  lemma AnsweredIsWalked(feed: Feed, inputs: Inputs, size: nat, cards: seq<Card>, s: Settings)
    requires Ordinary(inputs, size, cards, s) && !Unanswered(inputs.site, cards, size)
    ensures Walked(feed, inputs, s).Ok?
  {
    CollectsListing(inputs.site, cards, size, inputs.full || feed.current.None?, KnownFrom(Rows(feed)), s);
  }

  /** The index of a run whose walk was not refused is the listing of the day. */
  lemma WorkListsTheDay(feed: Feed, inputs: Inputs, size: nat, added: seq<Card>, earlier: seq<Card>, s: Settings, index: Index)
    requires Sound(feed) && StartsFrom(feed, earlier, s) && Ordinary(inputs, size, added + earlier, s)
    requires Walked(feed, inputs, s) == Ok(index)
    ensures Lists(WorkOn(feed, inputs, index).entries, added + earlier, s)
    ensures IndexComplete(feed, index)
  {
    var cards := added + earlier;
    if feed.current.None? {
      CollectsListing(inputs.site, cards, size, true, KnownFrom(Rows(feed)), s);
      assert cards[..|cards|] == cards;
      MergeWithNothing(index.entries);
    } else {
      MergeListsTheDay(inputs.site, size, added, earlier, Rows(feed), s);
    }
  }

  /** Every detail a run ends with is an answer of this run or was carried forward. */
  lemma DetailsAfter(entries: seq<Entry>, details: Details, priority: map<Url, int>, w: Window, budget: nat, dryRun: bool, fetch: Fetcher)
    requires WellIndexed(entries) && details.Keys <= UrlSet(entries)
    ensures var final := Hydrate(entries, details, priority, w, budget, dryRun, fetch);
            && (forall u :: u in final.log ==> u in UrlSet(entries) && u in final.details && final.details[u] == fetch(u))
            && (forall u :: u in final.details && u !in final.log ==> u in details && final.details[u] == details[u])
  {
    if !dryRun {
      var first, second := NoRequestRepeats(entries, details, priority, w, budget, fetch);
      HydrateGrows(entries, details, priority, w, budget, dryRun, fetch);
    }
  }

  /** The rows fit the table iff the addresses do and no page asked for is blank. */
  lemma RowsFitIff(entries: seq<Entry>, carried: Details, final: Progress, fetch: Fetcher, cards: seq<Card>, s: Settings)
    requires Lists(entries, cards, s)
    requires forall u :: u in carried ==> !IsBlank(carried[u])
    requires forall u :: u in final.log ==> u in UrlSet(entries) && u in final.details && final.details[u] == fetch(u)
    requires forall u :: u in final.details && u !in final.log ==> u in carried && final.details[u] == carried[u]
    ensures var items := RowsFor(entries, final.details);
            (forall i :: 0 <= i < |items| ==> Fits(items[i])) <==> AddressesFit(cards) && !BlankRead(final.log, fetch)
  {
    var items := RowsFor(entries, final.details);
    ListedUrl(entries, cards, s);
    if forall i :: 0 <= i < |items| ==> Fits(items[i]) {
      forall i | 0 <= i < |cards| ensures |cards[i].url| <= MAX_URL_LENGTH { assert Fits(items[i]); }
      forall u | u in final.log ensures !IsBlank(fetch(u)) {
        var k :| 0 <= k < |entries| && entries[k].url == u;
        assert Fits(items[k]);
      }
    }
    if AddressesFit(cards) && !BlankRead(final.log, fetch) {
      forall i | 0 <= i < |items| ensures Fits(items[i]) { assert entries[i].url == cards[i].url; }
    }
  }

  /** A consistent listing gives the table nothing to refuse but rows that do not fit. */
  lemma StorableIffFits(entries: seq<Entry>, details: Details, cards: seq<Card>, s: Settings)
    requires Readable(cards, s) && Lists(entries, cards, s) && s.titleLimit >= 1
    ensures var items := RowsFor(entries, details);
            Storable(items) <==> forall i :: 0 <= i < |items| ==> Fits(items[i])
  {
    forall i | 0 <= i < |entries|
      ensures entries[i].key == cards[i].key && entries[i].url == cards[i].url && entries[i].title != ""
    {
      assert Listed(entries[i], cards[i], i, s);
    }
  }

  lemma WorkStorableIff(feed: Feed, inputs: Inputs, s: Settings, index: Index, cards: seq<Card>)
    requires FeedOk(feed) && Walked(feed, inputs, s) == Ok(index) && !inputs.full
    requires Readable(cards, s) && Lists(WorkOn(feed, inputs, index).entries, cards, s) && s.titleLimit >= 1
    ensures var work := WorkOn(feed, inputs, index);
            && (Storable(work.snapshot.items) <==> AddressesFit(cards) && !BlankRead(work.progress.log, inputs.fetch))
            && (Storable(work.snapshot.items) <==> forall i :: 0 <= i < |work.snapshot.items| ==> Fits(work.snapshot.items[i]))
  {
    var work := WorkOn(feed, inputs, index);
    WorkIsSound(feed, inputs, s, index);
    var carried := Carried(work.entries, Rows(feed));
    FittingDetails(Rows(feed));
    DetailsAfter(work.entries, carried, work.priority, inputs.reading, inputs.budget, inputs.dryRun, inputs.fetch);
    RowsFitIff(work.entries, carried, work.progress, inputs.fetch, cards, s);
    StorableIffFits(work.entries, work.progress.details, cards, s);
  }

  lemma ListedAddresses(entries: seq<Entry>, cards: seq<Card>, s: Settings)
    requires Lists(entries, cards, s)
    ensures forall u :: u in UrlSet(entries) <==> exists i :: 0 <= i < |cards| && cards[i].url == u
  {
    forall i | 0 <= i < |cards| ensures entries[i].url == cards[i].url {
      assert Listed(entries[i], cards[i], i, s);
    }
    forall u | exists i :: 0 <= i < |cards| && cards[i].url == u ensures u in UrlSet(entries) {
      var i :| 0 <= i < |cards| && cards[i].url == u;
      assert entries[i].url == u;
    }
  }

  /** If the registry already holds the run's bytes, the archive had not grown. */
  lemma RepeatMeansNoGrowth(feed: Feed, inputs: Inputs, s: Settings, index: Index, added: seq<Card>, earlier: seq<Card>)
    requires Sound(feed) && StartsFrom(feed, earlier, s) && Walked(feed, inputs, s) == Ok(index)
    requires Readable(added + earlier, s) && Lists(WorkOn(feed, inputs, index).entries, added + earlier, s)
    requires PayloadOf(WorkOn(feed, inputs, index).snapshot.items) in feed.published
    ensures added == [] && feed.current.Some?
  {
    var work := WorkOn(feed, inputs, index);
    WorkIsSound(feed, inputs, s, index);
    RepeatAddsNothing(feed, work.snapshot.items);
    NoNewAddresses(work.entries, EntriesOf(Rows(feed)), added, earlier, s);
  }

  lemma NoNewAddresses(entries: seq<Entry>, before: seq<Entry>, added: seq<Card>, earlier: seq<Card>, s: Settings)
    requires Readable(added + earlier, s) && Lists(entries, added + earlier, s) && Lists(before, earlier, s)
    requires UrlSet(entries) <= UrlSet(before)
    ensures added == []
  {
    var cards := added + earlier;
    ListedAddresses(entries, cards, s);
    ListedAddresses(before, earlier, s);
    assert forall j :: 0 <= j < |earlier| ==> cards[|added| + j] == earlier[j];
    assert |cards| > 0 ==> cards[0].url in UrlSet(entries);
  }

  /** The run is live and its walk was not refused. */
  ghost predicate Reaches(feed: Feed, inputs: Inputs, s: Settings) {
    !inputs.dryRun && Walked(feed, inputs, s).Ok?
  }

  /** It also finds room in the table for every address, and asks for no page that comes back blank. */
  ghost predicate Lands(feed: Feed, inputs: Inputs, cards: seq<Card>, s: Settings) {
    && Reaches(feed, inputs, s) && AddressesFit(cards)
    && !BlankRead(WorkOn(feed, inputs, Walked(feed, inputs, s).value).progress.log, inputs.fetch)
  }

  /** Rows that do not fit fail the run: it publishes nothing and reports nothing. */
  lemma UnfitFails(feed: Feed, inputs: Inputs, s: Settings, index: Index)
    requires Sound(feed) && Walked(feed, inputs, s) == Ok(index) && !inputs.dryRun
    requires var items := WorkOn(feed, inputs, index).snapshot.items;
             !(forall i :: 0 <= i < |items| ==> Fits(items[i]))
    ensures Run(feed, inputs, s) == (feed, FAILED)
  {
    var items := WorkOn(feed, inputs, index).snapshot.items;
    WorkIsSound(feed, inputs, s, index);
    if PayloadOf(items) in feed.published { RegisteredRowsFit(feed, items); }
  }

  /** A listing tracked already is not also the listing with cards in front. */
  lemma TracksOne(feed: Feed, added: seq<Card>, earlier: seq<Card>, s: Settings)
    requires StartsFrom(feed, earlier, s)
    ensures Tracks(feed, added + earlier, s) <==> added == [] && feed.current.Some?
  {
    if added == [] { assert added + earlier == earlier; }
  }

  lemma LandingTracks(feed: Feed, inputs: Inputs, size: nat, added: seq<Card>, earlier: seq<Card>, s: Settings)
    requires Sound(feed) && StartsFrom(feed, earlier, s)
    requires Ordinary(inputs, size, added + earlier, s) && Lands(feed, inputs, added + earlier, s)
    ensures Tracks(Run(feed, inputs, s).0, added + earlier, s)
  {
    var cards := added + earlier;
    var index := Walked(feed, inputs, s).value;
    WorkListsTheDay(feed, inputs, size, added, earlier, s, index);
    WorkIsSound(feed, inputs, s, index);
    WorkStorableIff(feed, inputs, s, index, cards);
    if PayloadOf(WorkOn(feed, inputs, index).snapshot.items) in feed.published {
      RepeatMeansNoGrowth(feed, inputs, s, index, added, earlier);
      assert cards == earlier;
    }
  }

  lemma NotLandingFails(feed: Feed, inputs: Inputs, size: nat, added: seq<Card>, earlier: seq<Card>, s: Settings)
    requires Sound(feed) && StartsFrom(feed, earlier, s)
    requires Ordinary(inputs, size, added + earlier, s) && Reaches(feed, inputs, s) && !Lands(feed, inputs, added + earlier, s)
    ensures Run(feed, inputs, s) == (feed, FAILED)
  {
    var index := Walked(feed, inputs, s).value;
    WorkListsTheDay(feed, inputs, size, added, earlier, s, index);
    WorkStorableIff(feed, inputs, s, index, added + earlier);
    UnfitFails(feed, inputs, s, index);
  }

  /** **One day.** After a live incremental run that walks a front-grown archive the current snapshot indexes
      exactly the archive iff the run lands, or nothing was added and there is a snapshot already; whatever
      the budget, the shortlist and the dates. A run that does not land fails and changes nothing. */
  lemma RunTracks(feed: Feed, inputs: Inputs, size: nat, added: seq<Card>, earlier: seq<Card>, s: Settings)
    requires Sound(feed) && StartsFrom(feed, earlier, s)
    requires Ordinary(inputs, size, added + earlier, s) && Reaches(feed, inputs, s)
    ensures Tracks(Run(feed, inputs, s).0, added + earlier, s) <==>
            Lands(feed, inputs, added + earlier, s) || (added == [] && feed.current.Some?)
    ensures !Lands(feed, inputs, added + earlier, s) ==> Run(feed, inputs, s) == (feed, FAILED)
  {
    if Lands(feed, inputs, added + earlier, s) {
      LandingTracks(feed, inputs, size, added, earlier, s);
    } else {
      NotLandingFails(feed, inputs, size, added, earlier, s);
      TracksOne(feed, added, earlier, s);
    }
  }

  // ------------------------------------------------------------------
  // Many days.
  // ------------------------------------------------------------------

  /** `added` joins the front of the archive, then the scheduled run happens. */
  datatype Day = Day(added: seq<Card>, size: nat, inputs: Inputs)

  /** A history: what happened on day 0, day 1, and so on. */
  type History = nat -> Day

  /** The archive after the first `n` days, from an empty one. */
  function ListingAfter(days: History, n: nat): seq<Card> {
    if n == 0 then [] else days(n - 1).added + ListingAfter(days, n - 1)
  }

  /** The feed after the runs of the first `n` days, from an empty one. */
  function FeedAfter(days: History, n: nat, s: Settings): Feed {
    if n == 0 then Feed(None, {}) else Run(FeedAfter(days, n - 1, s), days(n - 1).inputs, s).0
  }

  ghost predicate Outage(inputs: Inputs) {
    !inputs.full && inputs.site(0).None?
  }

  /** On day `i` the run is incremental against the archive of that day, any pages of which may fail to
      answer; or the site does not answer at all. */
  ghost predicate Plausible(days: History, i: nat, s: Settings) {
    Ordinary(days(i).inputs, days(i).size, ListingAfter(days, i + 1), s) || Outage(days(i).inputs)
  }

  /** The run of day `i` is live and walks the archive. */
  ghost predicate ReachesOn(days: History, i: nat, s: Settings) {
    Reaches(FeedAfter(days, i, s), days(i).inputs, s)
  }

  /** The run of day `i` is live, walks the archive and lands. */
  ghost predicate LandsOn(days: History, i: nat, s: Settings) {
    Lands(FeedAfter(days, i, s), days(i).inputs, ListingAfter(days, i + 1), s)
  }

  /** On day `i` the run is live and every page of the listing answers. */
  ghost predicate AnsweredOn(days: History, i: nat, s: Settings) {
    && Ordinary(days(i).inputs, days(i).size, ListingAfter(days, i + 1), s) && !days(i).inputs.dryRun
    && !Unanswered(days(i).inputs.site, ListingAfter(days, i + 1), days(i).size)
  }

  /** The cards added since the last run that landed. */
  ghost function Missed(days: History, n: nat, s: Settings): seq<Card> {
    if n == 0 || LandsOn(days, n - 1, s) then [] else days(n - 1).added + Missed(days, n - 1, s)
  }

  /** The archive as that run saw it. */
  ghost function Seen(days: History, n: nat, s: Settings): seq<Card> {
    if n == 0 then [] else if LandsOn(days, n - 1, s) then ListingAfter(days, n) else Seen(days, n - 1, s)
  }

  lemma RunSound(feed: Feed, inputs: Inputs, s: Settings)
    requires Sound(feed) && !inputs.full
    ensures Sound(Run(feed, inputs, s).0)
    ensures !Reaches(feed, inputs, s) ==> Run(feed, inputs, s).0 == feed
  {
    RunKeeps(feed, inputs, s);
    DominanceKept(feed, inputs, s);
  }

  /** The snapshot is of `seen`, and `listing` is that with `missed` in front. */
  ghost predicate LagsBehind(feed: Feed, listing: seq<Card>, missed: seq<Card>, seen: seq<Card>, s: Settings) {
    Sound(feed) && listing == missed + seen && StartsFrom(feed, seen, s)
  }

  lemma MissedDay(feed: Feed, inputs: Inputs, added: seq<Card>, listing: seq<Card>, missed: seq<Card>, seen: seq<Card>, s: Settings)
    requires LagsBehind(feed, listing, missed, seen, s) && Run(feed, inputs, s).0 == feed
    ensures LagsBehind(Run(feed, inputs, s).0, added + listing, added + missed, seen, s)
  {
    assert added + (missed + seen) == (added + missed) + seen;
  }

  lemma LandedDay(feed: Feed, inputs: Inputs, size: nat, added: seq<Card>, listing: seq<Card>, missed: seq<Card>, seen: seq<Card>, s: Settings)
    requires LagsBehind(feed, listing, missed, seen, s) && Lands(feed, inputs, added + listing, s)
    requires Ordinary(inputs, size, added + listing, s)
    ensures LagsBehind(Run(feed, inputs, s).0, added + listing, [], added + listing, s)
    ensures Tracks(Run(feed, inputs, s).0, added + listing, s)
  {
    assert added + (missed + seen) == (added + missed) + seen;
    assert [] + (added + listing) == added + listing;
    RunSound(feed, inputs, s);
    LandingTracks(feed, inputs, size, added + missed, seen, s);
  }

  /** A day whose run does not land changes nothing. */
  lemma IdleDay(feed: Feed, inputs: Inputs, size: nat, added: seq<Card>, listing: seq<Card>, missed: seq<Card>, seen: seq<Card>, s: Settings)
    requires LagsBehind(feed, listing, missed, seen, s) && !Lands(feed, inputs, added + listing, s)
    requires Ordinary(inputs, size, added + listing, s) || Outage(inputs)
    ensures Run(feed, inputs, s).0 == feed
  {
    RunSound(feed, inputs, s);
    if Reaches(feed, inputs, s) {
      assert added + (missed + seen) == (added + missed) + seen;
      NotLandingFails(feed, inputs, size, added + missed, seen, s);
    }
  }

  /** The snapshot is of the archive as last seen, and the archive is that and what was missed since. */
  ghost predicate Lags(days: History, n: nat, s: Settings) {
    LagsBehind(FeedAfter(days, n, s), ListingAfter(days, n), Missed(days, n, s), Seen(days, n, s), s)
  }

  lemma LagsNext(days: History, i: nat, s: Settings)
    requires Lags(days, i, s) && Plausible(days, i, s)
    ensures Lags(days, i + 1, s)
    ensures LandsOn(days, i, s) ==> Tracks(FeedAfter(days, i + 1, s), ListingAfter(days, i + 1), s)
  {
    var feed, day, listing := FeedAfter(days, i, s), days(i), ListingAfter(days, i);
    if LandsOn(days, i, s) {
      LandedDay(feed, day.inputs, day.size, day.added, listing, Missed(days, i, s), Seen(days, i, s), s);
    } else {
      IdleDay(feed, day.inputs, day.size, day.added, listing, Missed(days, i, s), Seen(days, i, s), s);
      MissedDay(feed, day.inputs, day.added, listing, Missed(days, i, s), Seen(days, i, s), s);
    }
  }

  /** A live run walks the archive whenever every page of the listing answers. */
  lemma AnsweredReaches(days: History, i: nat, s: Settings)
    requires AnsweredOn(days, i, s)
    ensures ReachesOn(days, i, s)
  {
    AnsweredIsWalked(FeedAfter(days, i, s), days(i).inputs, days(i).size, ListingAfter(days, i + 1), s);
  }

  lemma StartsLevel(days: History, s: Settings)
    ensures Lags(days, 0, s)
  {}

  ghost predicate Carries(ok: nat -> bool, i: nat) {
    ok(i) ==> ok(i + 1)
  }

  lemma {:induction false} Always(ok: nat -> bool, n: nat)
    requires ok(0) && forall i :: 0 <= i < n ==> Carries(ok, i)
    ensures ok(n)
  {
    if n > 0 {
      Always(ok, n - 1);
      assert Carries(ok, n - 1);
    }
  }

  ghost function LagsAt(days: History, s: Settings): nat -> bool {
    (n: nat) => Lags(days, n, s)
  }

  lemma LagsCarries(days: History, i: nat, s: Settings)
    requires Plausible(days, i, s)
    ensures Carries(LagsAt(days, s), i)
  {
    if Lags(days, i, s) { LagsNext(days, i, s); }
  }

  lemma AlwaysLags(days: History, n: nat, s: Settings)
    requires forall i :: 0 <= i < n ==> Plausible(days, i, s)
    ensures LagsAt(days, s)(n)
  {
    StartsLevel(days, s);
    forall i | 0 <= i < n ensures Carries(LagsAt(days, s), i) { LagsCarries(days, i, s); }
    Always(LagsAt(days, s), n);
  }

  /** **The index tracks the archive over every history.** Starting from nothing, after any number of
      days of front growth, with any budgets, shortlists, dates, fetch outcomes, dry runs and listing
      pages that fail to answer, the snapshot holds the archive minus exactly the cards added since the
      last run that landed; after such a run it holds all of it, in order. */
  lemma HistoryTracks(days: History, n: nat, s: Settings)
    requires forall i :: 0 <= i <= n ==> Plausible(days, i, s)
    ensures Lags(days, n, s)
    ensures LandsOn(days, n, s) ==> Tracks(FeedAfter(days, n + 1, s), ListingAfter(days, n + 1), s)
  {
    AlwaysLags(days, n, s);
    LagsNext(days, n, s);
  }

  // ------------------------------------------------------------------
  // The backfill ends.
  // ------------------------------------------------------------------

  function UnreadIn(feed: Feed): set<Url> {
    Unread(EntriesOf(Rows(feed)), DetailsOf(Rows(feed)))
  }

  /** An incremental live run on an unchanged archive with a fixed shortlist, a fixed cutoff and a budget
      larger than the shortlist. */
  ghost predicate Steady(inputs: Inputs, size: nat, cards: seq<Card>, priority: map<Url, int>, w: Window, s: Settings) {
    && Ordinary(inputs, size, cards, s) && !inputs.dryRun
    && inputs.budget > |priority|
    && inputs.reading == w && inputs.counting == w
    && (forall u :: u in priority ==> exists i :: 0 <= i < |cards| && cards[i].url == u)
    && (forall entries :: inputs.shortlist(entries) == priority)
  }

  lemma DoneIsReported(feed: Feed, inputs: Inputs, s: Settings, index: Index)
    requires Walked(feed, inputs, s) == Ok(index) && IndexComplete(feed, index) && !inputs.dryRun
    requires var work := WorkOn(feed, inputs, index);
             && WellIndexed(work.entries) && Shortlist(work.entries, work.priority)
             && NothingPending(work.entries, work.progress.details, work.priority, inputs.counting)
             && Storable(work.snapshot.items) && VerifyWritten(work.snapshot, |work.entries|)
    ensures Run(feed, inputs, s).1.backfillComplete
  {
    var work := WorkOn(feed, inputs, index);
    CountsPartition(work.entries, work.progress.details, work.priority, inputs.counting);
  }

  lemma ShrinkIsNew(feed: Feed, work: Work)
    requires Sound(feed) && DistinctUrls(work.entries)
    requires EntriesOf(work.snapshot.items) == work.entries && DetailsOf(work.snapshot.items) == work.progress.details
    requires UrlSet(work.entries) == UrlSet(EntriesOf(Rows(feed)))
    requires |Unread(work.entries, work.progress.details)| < |UnreadIn(feed)|
    ensures PayloadOf(work.snapshot.items) !in feed.published
  {
    if PayloadOf(work.snapshot.items) in feed.published {
      RepeatAddsNothing(feed, work.snapshot.items);
      SubsetSize(UnreadIn(feed), Unread(work.entries, work.progress.details));
      assert false;
    }
  }

  /** What a steady run works on: the same addresses, the details grown, and rows the table accepts unless a
      page asked for is blank. */
  lemma SteadyWork(feed: Feed, inputs: Inputs, size: nat, cards: seq<Card>, priority: map<Url, int>, w: Window, s: Settings, index: Index)
    requires Sound(feed) && Tracks(feed, cards, s) && Steady(inputs, size, cards, priority, w, s)
    requires Walked(feed, inputs, s) == Ok(index)
    ensures var work := WorkOn(feed, inputs, index);
            && WellIndexed(work.entries) && Shortlist(work.entries, priority) && work.priority == priority
            && EntriesOf(work.snapshot.items) == work.entries && DetailsOf(work.snapshot.items) == work.progress.details
            && UrlSet(work.entries) == UrlSet(EntriesOf(Rows(feed)))
            && work.progress == Hydrate(work.entries, DetailsOf(Rows(feed)), priority, w, inputs.budget, false, inputs.fetch)
            && (Storable(work.snapshot.items) <==> !BlankRead(work.progress.log, inputs.fetch))
            && VerifyWritten(work.snapshot, |work.entries|) && IndexComplete(feed, index)
  {
    assert [] + cards == cards;
    WorkListsTheDay(feed, inputs, size, [], cards, s, index);
    var work := WorkOn(feed, inputs, index);
    WorkIsSound(feed, inputs, s, index);
    WorkStorableIff(feed, inputs, s, index, cards);
    TrackedFit(feed, cards, s);
    SameAddresses(work.entries, EntriesOf(Rows(feed)), priority, cards, s);
  }

  /** What the table holds has addresses it has room for. */
  lemma TrackedFit(feed: Feed, cards: seq<Card>, s: Settings)
    requires Sound(feed) && Tracks(feed, cards, s)
    ensures AddressesFit(cards)
  {
    ListedUrl(EntriesOf(Rows(feed)), cards, s);
    forall i | 0 <= i < |cards| ensures |cards[i].url| <= MAX_URL_LENGTH { assert Fits(Rows(feed)[i]); }
  }

  lemma SameAddresses(a: seq<Entry>, b: seq<Entry>, priority: map<Url, int>, cards: seq<Card>, s: Settings)
    requires Lists(a, cards, s) && Lists(b, cards, s)
    requires forall u :: u in priority ==> exists i :: 0 <= i < |cards| && cards[i].url == u
    ensures UrlSet(a) == UrlSet(b) && Shortlist(a, priority)
  {
    ListedAddresses(a, cards, s);
    ListedAddresses(b, cards, s);
  }

  /** The unread pages after the run: those before, or those the run's work leaves. */
  lemma UnreadAfterRun(feed: Feed, inputs: Inputs, s: Settings, index: Index)
    requires Walked(feed, inputs, s) == Ok(index)
    requires var work := WorkOn(feed, inputs, index);
             EntriesOf(work.snapshot.items) == work.entries && DetailsOf(work.snapshot.items) == work.progress.details
    ensures var after, work := Run(feed, inputs, s).0, WorkOn(feed, inputs, index);
            after == feed || UnreadIn(after) == Unread(work.entries, work.progress.details)
  {}

  lemma SteadyProgress(entries: seq<Entry>, details: Details, priority: map<Url, int>, w: Window, budget: nat, fetch: Fetcher)
    requires WellIndexed(entries) && Shortlist(entries, priority) && budget > |priority|
    ensures var after := Hydrate(entries, details, priority, w, budget, false, fetch).details;
            && |Unread(entries, after)| <= |Unread(entries, details)|
            && (NothingPending(entries, after, priority, w) || 0 < |Unread(entries, after)| < |Unread(entries, details)|)
  {
    RunEndsPending(entries, details, priority, w, budget, fetch);
  }

  /** The run asks for a page that comes back blank. */
  ghost predicate AsksBlank(feed: Feed, inputs: Inputs, s: Settings) {
    && Walked(feed, inputs, s).Ok?
    && BlankRead(WorkOn(feed, inputs, Walked(feed, inputs, s).value).progress.log, inputs.fetch)
  }

  /** A steady run that asks for a blank page fails and changes nothing. */
  lemma BlankFails(feed: Feed, inputs: Inputs, size: nat, cards: seq<Card>, s: Settings)
    requires Going(feed, cards, s) && Ordinary(inputs, size, cards, s) && !inputs.dryRun && AsksBlank(feed, inputs, s)
    ensures Run(feed, inputs, s) == (feed, FAILED)
  {
    assert [] + cards == cards;
    NotLandingFails(feed, inputs, size, [], cards, s);
  }

  /** A steady run that walks the archive and asks for no blank page reports the backfill complete, or
      publishes a snapshot with fewer unread pages; no run adds unread pages. */
  lemma SteadyRun(feed: Feed, inputs: Inputs, size: nat, cards: seq<Card>, priority: map<Url, int>, w: Window, s: Settings)
    requires Sound(feed) && Tracks(feed, cards, s) && Steady(inputs, size, cards, priority, w, s)
    requires Walked(feed, inputs, s).Ok? && !AsksBlank(feed, inputs, s)
    ensures var (after, report) := Run(feed, inputs, s);
            && |UnreadIn(after)| <= |UnreadIn(feed)|
            && (report.backfillComplete || 0 < |UnreadIn(after)| < |UnreadIn(feed)|)
  {
    var index := Walked(feed, inputs, s).value;
    var work := WorkOn(feed, inputs, index);
    SteadyWork(feed, inputs, size, cards, priority, w, s, index);
    UnreadAfterRun(feed, inputs, s, index);
    SteadyProgress(work.entries, DetailsOf(Rows(feed)), priority, w, inputs.budget, inputs.fetch);
    assert UnreadIn(feed) == Unread(work.entries, DetailsOf(Rows(feed)));
    if NothingPending(work.entries, work.progress.details, priority, w) {
      DoneIsReported(feed, inputs, s, index);
    } else {
      ShrinkIsPublished(feed, inputs, s, index);
    }
  }

  lemma ShrinkIsPublished(feed: Feed, inputs: Inputs, s: Settings, index: Index)
    requires Sound(feed) && Walked(feed, inputs, s) == Ok(index) && !inputs.dryRun
    requires var work := WorkOn(feed, inputs, index);
             && DistinctUrls(work.entries) && UrlSet(work.entries) == UrlSet(EntriesOf(Rows(feed)))
             && EntriesOf(work.snapshot.items) == work.entries && DetailsOf(work.snapshot.items) == work.progress.details
             && |Unread(work.entries, work.progress.details)| < |UnreadIn(feed)|
             && Storable(work.snapshot.items) && VerifyWritten(work.snapshot, |work.entries|)
    ensures UnreadIn(Run(feed, inputs, s).0)
         == Unread(WorkOn(feed, inputs, index).entries, WorkOn(feed, inputs, index).progress.details)
  {
    ShrinkIsNew(feed, WorkOn(feed, inputs, index));
  }

  function FeedAt(feed: Feed, runs: nat -> Inputs, s: Settings, n: nat): Feed {
    if n == 0 then feed else Run(FeedAt(feed, runs, s, n - 1), runs(n - 1), s).0
  }

  ghost predicate SteadyAt(runs: nat -> Inputs, i: nat, size: nat, cards: seq<Card>, priority: map<Url, int>, w: Window, s: Settings) {
    Steady(runs(i), size, cards, priority, w, s)
  }

  /** Run number `k` walks the archive and yet does not report the backfill complete. */
  predicate LeavesWork(feed: Feed, runs: nat -> Inputs, s: Settings, k: nat) {
    && Walked(FeedAt(feed, runs, s, k), runs(k), s).Ok?
    && !Run(FeedAt(feed, runs, s, k), runs(k), s).1.backfillComplete
  }

  ghost predicate Going(feed: Feed, cards: seq<Card>, s: Settings) {
    Sound(feed) && Tracks(feed, cards, s)
  }

  lemma KeepsGoing(feed: Feed, inputs: Inputs, size: nat, cards: seq<Card>, s: Settings)
    requires Going(feed, cards, s) && Ordinary(inputs, size, cards, s)
    ensures Going(Run(feed, inputs, s).0, cards, s)
  {
    RunSound(feed, inputs, s);
    assert [] + cards == cards;
    if Reaches(feed, inputs, s) { RunTracks(feed, inputs, size, [], cards, s); }
  }

  lemma AlwaysGoing(feed: Feed, runs: nat -> Inputs, size: nat, cards: seq<Card>, priority: map<Url, int>, w: Window, s: Settings, n: nat)
    requires Going(feed, cards, s) && forall i :: SteadyAt(runs, i, size, cards, priority, w, s)
    ensures Going(FeedAt(feed, runs, s, n), cards, s)
  {
    var going := (i: nat) => Going(FeedAt(feed, runs, s, i), cards, s);
    forall i: nat ensures Carries(going, i) {
      assert SteadyAt(runs, i, size, cards, priority, w, s);
      if going(i) { KeepsGoing(FeedAt(feed, runs, s, i), runs(i), size, cards, s); }
    }
    Always(going, n);
  }

  lemma RunSinks(feed: Feed, inputs: Inputs, size: nat, cards: seq<Card>, priority: map<Url, int>, w: Window, s: Settings)
    requires Going(feed, cards, s) && Steady(inputs, size, cards, priority, w, s)
    ensures var (after, report) := Run(feed, inputs, s);
            && |UnreadIn(after)| <= |UnreadIn(feed)|
            && (Walked(feed, inputs, s).Ok? && !report.backfillComplete && !AsksBlank(feed, inputs, s) ==>
                  0 < |UnreadIn(after)| < |UnreadIn(feed)|)
  {
    if Walked(feed, inputs, s).Err? {
      RunSound(feed, inputs, s);
    } else if AsksBlank(feed, inputs, s) {
      BlankFails(feed, inputs, size, cards, s);
    } else {
      SteadyRun(feed, inputs, size, cards, priority, w, s);
    }
  }

  function UnreadAt(feed: Feed, runs: nat -> Inputs, s: Settings): nat -> nat {
    (i: nat) => |UnreadIn(FeedAt(feed, runs, s, i))|
  }

  /** The runs that walk the archive and leave work. */
  function WorkLeft(feed: Feed, runs: nat -> Inputs, s: Settings): nat -> bool {
    (i: nat) => LeavesWork(feed, runs, s, i)
  }

  /** The runs that ask for a blank page. */
  ghost function Blanks(feed: Feed, runs: nat -> Inputs, s: Settings): nat -> bool {
    (i: nat) => AsksBlank(FeedAt(feed, runs, s, i), runs(i), s)
  }

  /** The runs that leave work although no page they ask for is blank. */
  ghost function WorkLeftOver(feed: Feed, runs: nat -> Inputs, s: Settings): nat -> bool {
    (i: nat) => LeavesWork(feed, runs, s, i) && !AsksBlank(FeedAt(feed, runs, s, i), runs(i), s)
  }

  lemma SinksAt(feed: Feed, runs: nat -> Inputs, size: nat, cards: seq<Card>, priority: map<Url, int>, w: Window, s: Settings, i: nat)
    requires Going(feed, cards, s) && forall i :: SteadyAt(runs, i, size, cards, priority, w, s)
    ensures Sinks(UnreadAt(feed, runs, s), WorkLeftOver(feed, runs, s), i)
  {
    AlwaysGoing(feed, runs, size, cards, priority, w, s, i);
    assert SteadyAt(runs, i, size, cards, priority, w, s);
    RunSinks(FeedAt(feed, runs, s, i), runs(i), size, cards, priority, w, s);
  }

  ghost predicate OneOf(a: nat -> bool, b: nat -> bool, c: nat -> bool, i: nat) {
    a(i) ==> b(i) || c(i)
  }

  lemma {:induction false} TimesEither(a: nat -> bool, b: nat -> bool, c: nat -> bool, n: nat)
    requires forall i :: OneOf(a, b, c, i)
    ensures Times(a, n) <= Times(b, n) + Times(c, n)
  {
    if n > 0 {
      TimesEither(a, b, c, n - 1);
      assert OneOf(a, b, c, n - 1);
    }
  }

  /** **The backfill ends at the feed, unless pages come back blank.** On an archive that stands still, of any
      number of live runs that walk the archive without reporting `backfill_complete`, all but fewer than
      |unread| (none, if nothing is unread) ask for a page that is read without text; whatever else the
      fetches return and whichever walks fail. */
  lemma FeedFinishes(feed: Feed, runs: nat -> Inputs, size: nat, cards: seq<Card>, priority: map<Url, int>, w: Window, s: Settings, n: nat)
    requires Sound(feed) && Tracks(feed, cards, s)
    requires forall i :: SteadyAt(runs, i, size, cards, priority, w, s)
    ensures Times(WorkLeft(feed, runs, s), n) <= LessOne(|UnreadIn(feed)|) + Times(Blanks(feed, runs, s), n)
  {
    forall i: nat ensures Sinks(UnreadAt(feed, runs, s), WorkLeftOver(feed, runs, s), i) {
      SinksAt(feed, runs, size, cards, priority, w, s, i);
    }
    SinksCount(UnreadAt(feed, runs, s), WorkLeftOver(feed, runs, s), n);
    EitherWay(feed, runs, s, n);
  }

  lemma EitherWay(feed: Feed, runs: nat -> Inputs, s: Settings, n: nat)
    ensures Times(WorkLeft(feed, runs, s), n) <= Times(WorkLeftOver(feed, runs, s), n) + Times(Blanks(feed, runs, s), n)
  {
    var left, over, blank := WorkLeft(feed, runs, s), WorkLeftOver(feed, runs, s), Blanks(feed, runs, s);
    forall i: nat ensures OneOf(left, over, blank, i) {}
    TimesEither(left, over, blank, n);
  }
}
