/** One synchronisation run end to end, and the feed it publishes to.

    Source: apps/legal_work/archived_topic_sync.py, `synchronize_archived_topics`, `_row` and
    `_verify_written`; apps/core/feed_sync.py, `find_published_artifact`. The import registry is
    the set of payloads ever published by a live run: it refuses to register one of them again
    (apps/sources/models.py:308-314). */
module ArchiveFeed {
  import opened Basics
  import opened Sorting
  import opened ArchiveListing
  import opened ArchiveMerge
  import opened Hydration
  import opened ArchiveCounts
  import Lexicographic

  // ------------------------------------------------------------------
  // The published document: two runs published the same bytes iff their documents are equal.
  // ------------------------------------------------------------------

  /** What the document keeps of a detail page: not its hash and not a failure's code. */
  datatype Shown = ShownPage(title: string, body: string, published: Option<int>, deadline: Option<int>, organization: string)
                 | ShownFailed
                 | ShownPending

  datatype Line = Line(key: string, url: Url, title: string, summary: string, shown: Shown)

  type Payload = seq<Line>

  function ShownOf(detail: Option<Detail>): Shown {
    match detail
    case None => ShownPending
    case Some(Failed(_)) => ShownFailed
    case Some(Hydrated(p)) => ShownPage(p.title, p.body, p.published, p.deadline, p.organization)
  }

  function LineOf(item: Item): Line {
    Line(item.entry.key, item.entry.url, item.entry.title, item.entry.summary, ShownOf(item.detail))
  }

  function ByKey(): (Line, Line) -> bool {
    (a: Line, b: Line) => Lexicographic.Le(a.key, b.key)
  }

  function Lines(items: seq<Item>): seq<Line> {
    seq(|items|, i requires 0 <= i < |items| => LineOf(items[i]))
  }

  /** Ordered by content key, so that re-pagination alone does not change the document. */
  function PayloadOf(items: seq<Item>): Payload {
    Sort(Lines(items), ByKey())
  }

  // ------------------------------------------------------------------
  // Snapshots and the feed.
  // ------------------------------------------------------------------

  datatype Snapshot = Snapshot(
    items: seq<Item>,
    itemCount: nat,
    counts: Counts,
    priorityCandidates: nat,
    pagesFetched: nat,
    indexComplete: bool,
    backfillComplete: bool)

  datatype Feed = Feed(current: Option<Snapshot>, published: set<Payload>)

  datatype Inputs = Inputs(
    site: Site,
    full: bool,
    dryRun: bool,
    budget: nat,
    shortlist: seq<Entry> -> map<Url, int>,
    reading: Window,
    counting: Window,
    fetch: Fetcher)

  datatype Outcome = Imported | Same | Failure

  datatype Report = Report(outcome: Outcome, counts: Option<Counts>, requested: nat, indexComplete: bool, backfillComplete: bool)

  const FAILED := Report(Failure, None, 0, false, false)

  function Rows(feed: Feed): seq<Item> {
    if feed.current.Some? then feed.current.value.items else []
  }

  /** `_row`: an entry with no detail is stored as pending. */
  function RowOf(entry: Entry, details: Details): Item {
    Item(entry, if entry.url in details then Some(details[entry.url]) else None)
  }

  function RowsFor(entries: seq<Entry>, details: Details): (items: seq<Item>)
    ensures |items| == |entries| && forall i :: 0 <= i < |items| ==> items[i] == RowOf(entries[i], details)
  {
    seq(|entries|, i requires 0 <= i < |entries| => RowOf(entries[i], details))
  }

  const MAX_URL_LENGTH := 500

  /** What the table asks of one row beyond its keys: an address it has room for, and a text if it claims to be read. */
  predicate Fits(item: Item) {
    |item.entry.url| <= MAX_URL_LENGTH && (item.detail.Some? ==> !IsBlank(item.detail.value))
  }

  /** The table's constraints: titles and addresses present, content keys and addresses unique, every row fits. */
  predicate Storable(items: seq<Item>) {
    && (forall i :: 0 <= i < |items| ==> items[i].entry.title != "" && items[i].entry.url != "")
    && (forall i :: 0 <= i < |items| ==> Fits(items[i]))
    && (forall i, j :: 0 <= i < j < |items| ==>
          items[i].entry.key != items[j].entry.key && items[i].entry.url != items[j].entry.url)
  }

  /** `_verify_written`: the rows written, and the declared counts summing to them. */
  predicate VerifyWritten(snapshot: Snapshot, expected: nat) {
    && |snapshot.items| == expected
    && snapshot.counts.hydrated + snapshot.counts.pending + snapshot.counts.failed == snapshot.itemCount
  }

  function IndexComplete(feed: Feed, index: Index): bool {
    index.reachedEnd || (feed.current.Some? && feed.current.value.indexComplete)
  }

  /** Everything a run computes before it decides what to do with it. */
  datatype Work = Work(entries: seq<Entry>, priority: map<Url, int>, progress: Progress, snapshot: Snapshot)

  function WorkOn(feed: Feed, inputs: Inputs, index: Index): Work {
    var entries := Merge(index.entries, Rows(feed), inputs.full);
    var priority := inputs.shortlist(entries);
    var progress := Hydrate(entries, Carried(entries, Rows(feed)), priority, inputs.reading, inputs.budget, inputs.dryRun, inputs.fetch);
    var counts := Tally(entries, progress.details, priority, inputs.counting);
    var indexComplete := IndexComplete(feed, index);
    Work(entries, priority, progress,
         Snapshot(RowsFor(entries, progress.details), |entries|, counts, |priority|, index.pagesFetched, indexComplete,
                  indexComplete && counts.priorityPending == 0 && counts.recentPending == 0))
  }

  function ReportOn(outcome: Outcome, work: Work): Report {
    Report(outcome, Some(work.snapshot.counts), |work.progress.log|, work.snapshot.indexComplete, work.snapshot.backfillComplete)
  }

  function Publish(feed: Feed, inputs: Inputs, work: Work): (Feed, Report) {
    var payload := PayloadOf(work.snapshot.items);
    if payload in feed.published && work.snapshot.backfillComplete then (feed, ReportOn(Same, work))
    else if inputs.dryRun then (feed, ReportOn(Imported, work))
    else if !Storable(work.snapshot.items) || !VerifyWritten(work.snapshot, |work.entries|) || payload in feed.published
    then (feed, FAILED)
    else (Feed(Some(work.snapshot), feed.published + {payload}), ReportOn(Imported, work))
  }

  function Walked(feed: Feed, inputs: Inputs, s: Settings): Result<Index, Refusal> {
    Walk(inputs.site, inputs.full || feed.current.None?, KnownFrom(Rows(feed)), s, 0, START)
  }

  function Run(feed: Feed, inputs: Inputs, s: Settings): (Feed, Report) {
    match Walked(feed, inputs, s)
    case Err(_) => (feed, FAILED)
    case Ok(index) => Publish(feed, inputs, WorkOn(feed, inputs, index))
  }

  /** The stored feed, changed in place by each run. */
  class ArchivedTopicFeed {
    var current: Option<Snapshot>
    var published: set<Payload>

    ghost function State(): Feed
      reads this
    {
      Feed(current, published)
    }

    constructor ()
      ensures State() == Feed(None, {})
    {
      current, published := None, {};
    }

    /** Everything up to the decision to publish; nothing stored is touched. */
    method Prepare(inputs: Inputs, index: Index) returns (snapshot: Snapshot, requested: nat)
      ensures snapshot == WorkOn(State(), inputs, index).snapshot
      ensures requested == |WorkOn(State(), inputs, index).progress.log|
    {
      var previous := if current.Some? then current.value.items else [];
      var entries := MergeWithPrevious(index.entries, previous, inputs.full);
      var details := CarryForwardDetails(entries, previous);
      var priority := inputs.shortlist(entries);
      var run := new HydrationRun(details);
      run.HydrateWithinBudget(entries, priority, inputs.reading, inputs.budget, inputs.dryRun, inputs.fetch);
      var counts := CountProgress(entries, run.details, priority, inputs.counting);
      var indexComplete := index.reachedEnd || (current.Some? && current.value.indexComplete);
      var complete := indexComplete && counts.priorityPending == 0 && counts.recentPending == 0;
      snapshot := Snapshot(RowsFor(entries, run.details), |entries|, counts, |priority|, index.pagesFetched,
                           indexComplete, complete);
      requested := run.requested;
    }

    method Synchronize(inputs: Inputs, s: Settings) returns (report: Report)
      modifies this
      ensures (State(), report) == Run(old(State()), inputs, s)
    {
      var previous := if current.Some? then current.value.items else [];
      var collected := CollectArchiveIndex(inputs.site, inputs.full || current.None?, KnownFrom(previous), s);
      if collected.Err? { return FAILED; }
      var snapshot, requested := Prepare(inputs, collected.value);
      var payload := PayloadOf(snapshot.items);
      if payload in published && snapshot.backfillComplete {
        return Report(Same, Some(snapshot.counts), requested, snapshot.indexComplete, snapshot.backfillComplete);
      }
      if inputs.dryRun {
        return Report(Imported, Some(snapshot.counts), requested, snapshot.indexComplete, snapshot.backfillComplete);
      }
      if !Storable(snapshot.items) || !VerifyWritten(snapshot, snapshot.itemCount) || payload in published {
        return FAILED;
      }
      current, published := Some(snapshot), published + {payload};
      return Report(Imported, Some(snapshot.counts), requested, snapshot.indexComplete, snapshot.backfillComplete);
    }
  }
}
