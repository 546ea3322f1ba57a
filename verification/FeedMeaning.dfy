/** What a run stores and reports, read off the pages and not off its own figures.

    Source: apps/legal_work/archived_topic_sync.py:196-365, apps/legal_work/archived_topics.py:400-434. */
module FeedMeaning {
  import opened Basics
  import opened Sorting
  import opened ArchiveListing
  import opened ArchiveMerge
  import opened Hydration
  import opened WindowProgress
  import opened RecentWindow
  import opened ArchiveCounts
  import opened ArchiveFeed
  import opened FeedInvariants
  import Lexicographic

  /** **When the backfill is complete**: the index is complete, every shortlisted page has been asked for, and no position of
      the recent window is open. The index is complete if this walk reached the end or the previous index was. */
  lemma CompleteIff(feed: Feed, inputs: Inputs, s: Settings, index: Index)
    requires FeedOk(feed) && Walked(feed, inputs, s) == Ok(index)
    requires var work := WorkOn(feed, inputs, index); Shortlist(work.entries, work.priority)
    ensures var work := WorkOn(feed, inputs, index);
            && (work.snapshot.indexComplete <==> index.reachedEnd || (feed.current.Some? && feed.current.value.indexComplete))
            && (work.snapshot.backfillComplete <==>
                  && work.snapshot.indexComplete
                  && (forall u :: u in work.priority ==> u in work.progress.details)
                  && Open(work.entries, work.progress.details, inputs.counting) == {})
  {
    var work := WorkOn(feed, inputs, index);
    WorkIsSound(feed, inputs, s, index);
    CountsMean(work.entries, work.progress.details, work.priority, inputs.counting);
    AllAsked(work.priority, work.progress.details);
  }

  lemma AllAsked(priority: map<Url, int>, details: Details)
    ensures |priority.Keys - details.Keys| == 0 <==> forall u :: u in priority ==> u in details
  {
    if |priority.Keys - details.Keys| == 0 {
      forall u | u in priority ensures u in details { assert u !in priority.Keys - details.Keys; }
    }
    if forall u :: u in priority ==> u in details { assert priority.Keys - details.Keys == {}; }
  }

  /** The check before publication: as many rows as entries, and the three declared figures adding up to them. */
  lemma WrittenCheck(snapshot: Snapshot, expected: nat)
    ensures VerifyWritten(snapshot, expected) <==>
            && |snapshot.items| == expected
            && snapshot.itemCount == snapshot.counts.hydrated + snapshot.counts.failed + snapshot.counts.pending
  {}

  /** What a snapshot declares about itself, and its rows one by one. */
  lemma SnapshotMeans(feed: Feed, inputs: Inputs, s: Settings, index: Index)
    requires FeedOk(feed) && Walked(feed, inputs, s) == Ok(index)
    ensures var work := WorkOn(feed, inputs, index);
            var items := work.snapshot.items;
            && work.snapshot.itemCount == |items| == |work.entries| && work.snapshot.pagesFetched == index.pagesFetched
            && work.snapshot.priorityCandidates == |work.priority|
            && work.snapshot.counts == Tally(work.entries, work.progress.details, work.priority, inputs.counting)
            && forall i :: 0 <= i < |items| ==>
                 && items[i].entry == work.entries[i]
                 && (items[i].detail.None? <==> work.entries[i].url !in work.progress.details)
                 && (items[i].detail.Some? ==> items[i].detail.value == work.progress.details[work.entries[i].url])
  {}

  /** **What a run answers.** A refused walk fails; registered bytes with nothing left to do are unchanged, a dry run changes
      nothing; and every report that is not a failure states the requests made and what the snapshot says of itself. */
  lemma ReportMeans(feed: Feed, inputs: Inputs, s: Settings)
    ensures var (after, report) := Run(feed, inputs, s);
            && (Walked(feed, inputs, s).Err? ==> report.outcome == Failure && after == feed)
            && (Walked(feed, inputs, s).Ok? ==>
                  var work := WorkOn(feed, inputs, Walked(feed, inputs, s).value);
                  var repeated := PayloadOf(work.snapshot.items) in feed.published;
                  && (report.outcome == Same <==> repeated && work.snapshot.backfillComplete)
                  && (after != feed ==> after == Feed(Some(work.snapshot), feed.published + {PayloadOf(work.snapshot.items)})
                                        && report.outcome == Imported && !inputs.dryRun && !repeated)
                  && (report.outcome != Failure ==>
                        && report.requested == |work.progress.log| && report.counts == Some(work.snapshot.counts)
                        && report.indexComplete == work.snapshot.indexComplete
                        && report.backfillComplete == work.snapshot.backfillComplete))
            && (report.outcome == Failure ==> report == FAILED && after == feed)
  {}

  // ------------------------------------------------------------------
  // What the published bytes say.
  // ------------------------------------------------------------------

  /** Two rows that say the same: key, address, title and summary, and of the detail page its status and, if it was read,
      its title, text, dates and body named. Not where the row is listed, nor why a page failed. */
  predicate SaysSame(a: Item, b: Item) {
    && a.entry.key == b.entry.key && a.entry.url == b.entry.url
    && a.entry.title == b.entry.title && a.entry.summary == b.entry.summary
    && (a.detail.None? <==> b.detail.None?)
    && (a.detail.Some? && b.detail.Some? ==>
          && (a.detail.value.Failed? <==> b.detail.value.Failed?)
          && (a.detail.value.Hydrated? && b.detail.value.Hydrated? ==>
                var p, q := a.detail.value.page, b.detail.value.page;
                p.title == q.title && p.body == q.body && p.published == q.published && p.deadline == q.deadline
                && p.organization == q.organization))
  }

  ghost predicate Matches(a: seq<Item>, b: seq<Item>) {
    forall i :: 0 <= i < |a| ==> exists j :: 0 <= j < |b| && SaysSame(a[i], b[j])
  }

  lemma LinesAgree(a: Item, b: Item)
    ensures LineOf(a) == LineOf(b) <==> SaysSame(a, b)
  {}

  /** **Two sets of rows have the same bytes iff they say the same**, in whatever order and on whatever pages they were listed. */
  lemma PayloadIff(a: seq<Item>, b: seq<Item>)
    requires Storable(a) && Storable(b)
    ensures PayloadOf(a) == PayloadOf(b) <==> Matches(a, b) && Matches(b, a)
  {
    if PayloadOf(a) == PayloadOf(b) {
      EachMatched(a, b);
      EachMatched(b, a);
    }
    if Matches(a, b) && Matches(b, a) { SameBytes(a, b); }
  }

  lemma EachMatched(a: seq<Item>, b: seq<Item>)
    requires PayloadOf(a) == PayloadOf(b)
    ensures Matches(a, b)
  {
    forall i | 0 <= i < |a| ensures exists j :: 0 <= j < |b| && SaysSame(a[i], b[j]) {
      PayloadLines(a, LineOf(a[i]));
      PayloadLines(b, LineOf(a[i]));
      var j :| 0 <= j < |b| && LineOf(b[j]) == LineOf(a[i]);
      LinesAgree(a[i], b[j]);
    }
  }

  lemma LinesContained(a: seq<Item>, b: seq<Item>)
    requires Matches(a, b)
    ensures forall line :: line in Lines(a) ==> line in Lines(b)
  {
    forall line | line in Lines(a) ensures line in Lines(b) {
      var i :| 0 <= i < |a| && Lines(a)[i] == line;
      var j :| 0 <= j < |b| && SaysSame(a[i], b[j]);
      LinesAgree(a[i], b[j]);
      assert Lines(b)[j] == line;
    }
  }

  lemma LinesDistinct(a: seq<Item>)
    requires Storable(a)
    ensures Distinct(Lines(a)) && Separates(Lines(a), ByKey())
  {
    var lines := Lines(a);
    forall i, j | 0 <= i < j < |lines| ensures lines[i].key != lines[j].key {}
    forall x, y | x in lines && y in lines && ByKey()(x, y) && ByKey()(y, x) ensures x == y {
      Lexicographic.LeAntisymmetric(x.key, y.key);
      var i :| 0 <= i < |lines| && lines[i] == x;
      var j :| 0 <= j < |lines| && lines[j] == y;
    }
  }

  lemma SameBytes(a: seq<Item>, b: seq<Item>)
    requires Storable(a) && Storable(b) && Matches(a, b) && Matches(b, a)
    ensures PayloadOf(a) == PayloadOf(b)
  {
    LinesContained(a, b);
    LinesContained(b, a);
    LinesDistinct(a);
    LinesDistinct(b);
    SameMultiset(Lines(a), Lines(b));
    KeyOrder();
    SortIgnoresInputOrder(Lines(a), Lines(b), ByKey());
  }

  lemma SameMultiset<T(!new)>(a: seq<T>, b: seq<T>)
    requires Distinct(a) && Distinct(b) && forall x :: x in a <==> x in b
    ensures multiset(a) == multiset(b)
  {
    DistinctByCount(a);
    DistinctByCount(b);
    forall x ensures multiset(a)[x] == multiset(b)[x] {
      assert x in multiset(a) <==> x in a;
      assert x in multiset(b) <==> x in b;
    }
  }
}
