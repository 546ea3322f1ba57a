/** Where the progress guarantee ends: two inputs that show its hypotheses are needed. */
module BackfillLimits {
  import opened Basics
  import opened ArchiveListing
  import opened ArchiveMerge
  import opened Hydration
  import opened BudgetLaws
  import opened WindowProgress
  import opened BackfillProgress
  import opened ArchiveFeed

  /** Addresses the table accepts: the first `n` and one more are different, present, and not too long. */
  ghost predicate Addresses(at: nat -> Url, n: nat) {
    && (forall i, j :: 0 <= i < j <= n ==> Differ(at, i, j))
    && (forall i :: 0 <= i <= n ==> at(i) != "" && |at(i)| <= MAX_URL_LENGTH)
  }

  predicate Differ(at: nat -> Url, i: nat, j: nat) { at(i) != at(j) }

  function Archive(n: nat, at: nat -> Url): (entries: seq<Entry>)
    ensures |entries| == n
    ensures forall i :: 0 <= i < n ==> entries[i] == Entry(at(i), at(i), "Consultation", "", 0, i)
  {
    seq(n, i requires 0 <= i < n => Entry(at(i), at(i), "Consultation", "", 0, i))
  }

  /** Details whose pages, where read, have a title and a text. */
  ghost predicate LegibleDetails(details: Details) {
    forall u :: IsHydrated(details, u) ==> details[u].page.title != "" && details[u].page.body != ""
  }

  /** The witness archives are ones the table accepts. */
  lemma ArchiveIsStorable(n: nat, at: nat -> Url, details: Details)
    requires Addresses(at, n) && LegibleDetails(details)
    ensures Storable(RowsFor(Archive(n, at), details))
  {
    forall i, j | 0 <= i < j < n ensures at(i) != at(j) { assert Differ(at, i, j); }
  }

  lemma ArchiveIsWellIndexed(n: nat, at: nat -> Url)
    requires Addresses(at, n)
    ensures WellIndexed(Archive(n, at))
  {
    forall i, j | 0 <= i < j < n ensures at(i) != at(j) { assert Differ(at, i, j); }
  }

  lemma {:induction false} RunOfOlder(queue: seq<Entry>, k: nat, w: Window, older: nat, details: Details)
    requires k <= |queue| && forall i :: 0 <= i < k ==> queue[i].url in details && Older(details[queue[i].url], w)
    ensures older + k < w.stopAfter ==> Pending(queue, w, older, details) == Pending(queue[k..], w, older + k, details)
    ensures k > 0 && older + k >= w.stopAfter ==> Pending(queue, w, older, details) == 0
  {
    if k == 0 {
      assert queue[0..] == queue;
    } else if !Closes(details[queue[0].url], w, older) {
      RunOfOlder(queue[1..], k - 1, w, older + 1, details);
      assert queue[1..][k - 1..] == queue[k..];
    }
  }

  /** All but the last two pages are read and old; the one before last failed and is the only candidate. */
  function Stuck(w: Window, at: nat -> Url): Details
    requires w.stopAfter >= 1
  {
    map u | u in UrlSet(Archive(w.stopAfter, at)) :: if u == at(w.stopAfter - 1) then Failed("unavailable") else OldPage(w)
  }

  /** **Pending work does not always mean a new page is read.** For every window length and any
      addresses there is an archive whose recent window is still open, and answers that close it by retrying a failed
      candidate: the run reads no new page. (It does end with nothing pending.) */
  lemma RetryCanCloseWindow(w: Window, at: nat -> Url)
    requires w.stopAfter >= 1 && Addresses(at, w.stopAfter + 1)
    ensures ClosesByRetry(Archive(w.stopAfter + 1, at), Stuck(w, at), map[at(w.stopAfter - 1) := 1], w)
  {
    StuckIsOpen(w, at);
    StuckIsRetried(w, at);
    NothingNew(Archive(w.stopAfter + 1, at), Stuck(w, at), at(w.stopAfter - 1), w);
  }

  lemma StuckIsRetried(w: Window, at: nat -> Url)
    requires w.stopAfter >= 1 && Addresses(at, w.stopAfter + 1)
    ensures OnlyRetried(Archive(w.stopAfter + 1, at), Stuck(w, at), at(w.stopAfter - 1), w)
  {
    StuckCandidate(w, at);
    ClosedAtWorst(w, at);
  }

  /** The one candidate has been asked for, and reading it as old closes the window. */
  ghost predicate OnlyRetried(entries: seq<Entry>, details: Details, u: Url, w: Window) {
    && Shortlist(entries, map[u := 1]) && PriorityUnread(map[u := 1], details) == {}
    && RecentPending(entries, Pessimistic(details, map[u := 1], w), w) == 0
  }

  lemma StuckIsOpen(w: Window, at: nat -> Url)
    requires w.stopAfter >= 1 && Addresses(at, w.stopAfter + 1)
    ensures OpenArchive(Archive(w.stopAfter + 1, at), Stuck(w, at), w)
  {
    StuckIsReal(w, at);
    StillOpen(w, at);
  }

  /** Rows the table accepts, with one recent page pending. */
  ghost predicate OpenArchive(entries: seq<Entry>, details: Details, w: Window) {
    WellIndexed(entries) && Storable(RowsFor(entries, details)) && RecentPending(entries, details, w) == 1
  }

  /** A recent page pending, a budget above the shortlist, answers a page can give: and the run reads no new page. */
  ghost predicate ClosesByRetry(entries: seq<Entry>, details: Details, priority: map<Url, int>, w: Window) {
    && OpenArchive(entries, details, w)
    && Shortlist(entries, priority) && 2 > |priority|
    && Legible(OldAnswers(w))
    && Unread(entries, Hydrate(entries, details, priority, w, 2, false, OldAnswers(w)).details) == Unread(entries, details)
  }

  lemma NothingNew(entries: seq<Entry>, details: Details, u: Url, w: Window)
    requires OpenArchive(entries, details, w) && OnlyRetried(entries, details, u, w)
    ensures ClosesByRetry(entries, details, map[u := 1], w)
  {
    WorstCaseReadsNothing(entries, details, map[u := 1], w, 2);
  }

  /** The witness is well indexed and storable. */
  lemma StuckIsReal(w: Window, at: nat -> Url)
    requires w.stopAfter >= 1 && Addresses(at, w.stopAfter + 1)
    ensures WellIndexed(Archive(w.stopAfter + 1, at)) && Storable(RowsFor(Archive(w.stopAfter + 1, at), Stuck(w, at)))
  {
    ArchiveIsWellIndexed(w.stopAfter + 1, at);
    StuckIsLegible(w, at);
    ArchiveIsStorable(w.stopAfter + 1, at, Stuck(w, at));
  }

  /** Its one candidate is indexed and has been asked for before. */
  lemma StuckCandidate(w: Window, at: nat -> Url)
    requires w.stopAfter >= 1 && Addresses(at, w.stopAfter + 1)
    ensures var priority := map[at(w.stopAfter - 1) := 1];
            Shortlist(Archive(w.stopAfter + 1, at), priority) && PriorityUnread(priority, Stuck(w, at)) == {}
  {
    StuckHolds(w, at);
    InArchive(w.stopAfter + 1, w.stopAfter - 1, at);
  }

  lemma InArchive(n: nat, i: nat, at: nat -> Url)
    requires i < n
    ensures at(i) in UrlSet(Archive(n, at))
  {
    assert Archive(n, at)[i].url == at(i);
  }

  lemma StuckIsLegible(w: Window, at: nat -> Url)
    requires w.stopAfter >= 1 && Addresses(at, w.stopAfter + 1)
    ensures LegibleDetails(Stuck(w, at))
  {}

  lemma StuckHolds(w: Window, at: nat -> Url)
    requires w.stopAfter >= 1 && Addresses(at, w.stopAfter + 1)
    ensures forall i :: 0 <= i < w.stopAfter - 1 ==> at(i) in Stuck(w, at) && Older(Stuck(w, at)[at(i)], w)
    ensures IsFailed(Stuck(w, at), at(w.stopAfter - 1)) && at(w.stopAfter) !in Stuck(w, at)
  {
    AddressesHeld(w.stopAfter, at);
    forall i | 0 <= i < w.stopAfter - 1 ensures at(i) != at(w.stopAfter - 1) { assert Differ(at, i, w.stopAfter - 1); }
  }

  lemma OneShortOfClosing(queue: seq<Entry>, w: Window, details: Details)
    requires 1 <= w.stopAfter == |queue| - 1
    requires forall i :: 0 <= i < w.stopAfter - 1 ==> queue[i].url in details && Older(details[queue[i].url], w)
    requires IsFailed(details, queue[w.stopAfter - 1].url) && queue[w.stopAfter].url !in details
    ensures Pending(queue, w, 0, details) == 1
  {
    var n := w.stopAfter;
    RunOfOlder(queue, n - 1, w, 0, details);
    LastTwo(queue[n - 1], queue[n], w, n - 1, details);
    assert queue[n - 1..] == [queue[n - 1], queue[n]];
  }

  lemma StillOpen(w: Window, at: nat -> Url)
    requires w.stopAfter >= 1 && Addresses(at, w.stopAfter + 1)
    ensures RecentPending(Archive(w.stopAfter + 1, at), Stuck(w, at), w) == 1
  {
    var entries := Archive(w.stopAfter + 1, at);
    ArchiveIsWellIndexed(w.stopAfter + 1, at);
    SortedIndex(entries);
    StuckHolds(w, at);
    assert forall i :: 0 <= i <= w.stopAfter ==> entries[i].url == at(i);
    OneShortOfClosing(entries, w, Stuck(w, at));
  }

  /** The same pages once the candidate has been read and found old. */
  function Worst(w: Window, at: nat -> Url): Details
    requires w.stopAfter >= 1
  {
    Pessimistic(Stuck(w, at), map[at(w.stopAfter - 1) := 1], w)
  }

  lemma WorstHolds(w: Window, at: nat -> Url)
    requires w.stopAfter >= 1 && Addresses(at, w.stopAfter + 1)
    ensures forall i :: 0 <= i < w.stopAfter ==> at(i) in Worst(w, at) && Older(Worst(w, at)[at(i)], w)
  {
    StuckHolds(w, at);
  }

  lemma ClosedAtWorst(w: Window, at: nat -> Url)
    requires w.stopAfter >= 1 && Addresses(at, w.stopAfter + 1)
    ensures RecentPending(Archive(w.stopAfter + 1, at), Worst(w, at), w) == 0
  {
    ArchiveIsWellIndexed(w.stopAfter + 1, at);
    WorstHolds(w, at);
    ClosesAfter(Archive(w.stopAfter + 1, at), w, at, Worst(w, at));
  }

  lemma ClosesAfter(entries: seq<Entry>, w: Window, at: nat -> Url, details: Details)
    requires WellIndexed(entries) && 1 <= w.stopAfter <= |entries|
    requires forall i :: 0 <= i < |entries| ==> entries[i].url == at(i)
    requires forall i :: 0 <= i < w.stopAfter ==> at(i) in details && Older(details[at(i)], w)
    ensures RecentPending(entries, details, w) == 0
  {
    SortedIndex(entries);
    RunOfOlder(entries, w.stopAfter, w, 0, details);
  }

  lemma LastTwo(failed: Entry, unread: Entry, w: Window, older: nat, details: Details)
    requires IsFailed(details, failed.url) && unread.url !in details
    ensures Pending([failed, unread], w, older, details) == 1
  {
    assert [failed, unread][1..] == [unread];
    assert Pending([unread], w, older, details) == 1 + Pending([unread][1..], w, older, details);
  }

  lemma AddressesHeld(n: nat, at: nat -> Url)
    requires Addresses(at, n)
    ensures forall i :: 0 <= i < n ==> at(i) in UrlSet(Archive(n, at))
    ensures at(n) !in UrlSet(Archive(n, at)) && forall i :: 0 <= i < n ==> at(i) != at(n)
  {
    forall i | 0 <= i < n ensures at(i) in UrlSet(Archive(n, at)) && at(i) != at(n) {
      InArchive(n, i, at);
      assert Differ(at, i, n);
    }
  }

  function AlwaysRefused(): nat -> Fetcher {
    (n: nat) => ((u: Url) => Failed("unavailable"))
  }

  function OneRefused(at: nat -> Url): Details {
    map[at(0) := Failed("unavailable")]
  }

  /** **The budget must exceed the shortlist.** With a budget of one and one candidate that always
      fails, the unread recent page is never reached: it is still pending after any number of runs. */
  lemma EqualBudgetStarves(w: Window, at: nat -> Url, n: nat)
    requires Addresses(at, 2)
    ensures var entries, priority := Archive(2, at), map[at(0) := 1];
            var details := OneRefused(at);
            && WellIndexed(entries) && Shortlist(entries, priority) && 1 == |priority|
            && Storable(RowsFor(entries, details))
            && AfterRuns(entries, details, priority, w, 1, AlwaysRefused(), n) == details
            && RecentPending(entries, details, w) == 1
  {
    TwoPages(w, at);
    ArchiveIsStorable(2, at, OneRefused(at));
    NeverAnotherPage(Archive(2, at), OneRefused(at), map[at(0) := 1], w, AlwaysRefused(), at(0), n);
  }

  lemma {:induction false} NeverAnotherPage(entries: seq<Entry>, details: Details, priority: map<Url, int>, w: Window,
                                            fetches: nat -> Fetcher, u: Url, n: nat)
    requires WellIndexed(entries) && Shortlist(entries, priority) && priority.Keys == {u}
    requires IsFailed(details, u) && forall k :: fetches(k)(u) == details[u]
    ensures AfterRuns(entries, details, priority, w, 1, fetches, n) == details
  {
    if n > 0 {
      NeverAnotherPage(entries, details, priority, w, fetches, u, n - 1);
      OneRetryOnly(entries, details, priority, w, fetches(n - 1), u);
    }
  }

  lemma TwoPages(w: Window, at: nat -> Url)
    requires Addresses(at, 2)
    ensures WellIndexed(Archive(2, at)) && at(0) in UrlSet(Archive(2, at))
    ensures RecentPending(Archive(2, at), OneRefused(at), w) == 1
  {
    var entries := Archive(2, at);
    ArchiveIsWellIndexed(2, at);
    SortedIndex(entries);
    AddressesHeld(2, at);
    assert entries == [entries[0], entries[1]];
    LastTwo(entries[0], entries[1], w, 0, OneRefused(at));
  }

  lemma OneRetryOnly(entries: seq<Entry>, details: Details, priority: map<Url, int>, w: Window, fetch: Fetcher, u: Url)
    requires WellIndexed(entries) && Shortlist(entries, priority) && priority.Keys == {u}
    requires IsFailed(details, u) && fetch(u) == details[u]
    ensures Hydrate(entries, details, priority, w, 1, false, fetch).details == details
  {
    var first := FirstN(ToRead(Queue(entries, details, priority), details), 1);
    QueueHolds(entries, details, priority, u);
    FirstPassFits(entries, details, priority, first, 1);
    assert first[0] in first;
    assert first == [u];
    BudgetSpentOnCandidates(entries, details, priority, w, 1, fetch);
    assert ReadAll(details, [u], fetch) == details;
  }

  lemma BudgetSpentOnCandidates(entries: seq<Entry>, details: Details, priority: map<Url, int>, w: Window, budget: nat, fetch: Fetcher)
    requires WellIndexed(entries) && budget > 0
    requires |FirstN(ToRead(Queue(entries, details, priority), details), budget)| >= budget
    ensures Hydrate(entries, details, priority, w, budget, false, fetch).details
         == ReadAll(details, FirstN(ToRead(Queue(entries, details, priority), details), budget), fetch)
  {
    var first, one := FirstPass(entries, details, priority, budget, fetch);
  }

  lemma QueueHolds(entries: seq<Entry>, details: Details, priority: map<Url, int>, u: Url)
    requires WellIndexed(entries) && u in priority && u in UrlSet(entries) && !IsHydrated(details, u)
    ensures ToRead(Queue(entries, details, priority), details) != []
  {
    QueueIsRanked(entries, details, priority);
    ToReadAre(Queue(entries, details, priority), details);
    assert u in ToRead(Queue(entries, details, priority), details);
  }

  // ------------------------------------------------------------------
  // Addresses the walk admits.
  // ------------------------------------------------------------------

  /** An index never holds more entries than this (`KODA_ARCHIVE_MAX_ITEMS`). */
  const MAX_ITEMS := 5000

  /** Where archived consultations live. */
  const PREFIX := "https://www.koda.ee/et/meie-moju/hetkel-kasil/"

  function Letter(k: nat): char { (k % 26 + 97) as char }

  function Name(i: nat): string { [Letter(i / 676), Letter(i / 26), Letter(i)] }

  function Consultation(i: nat): Url { PREFIX + Name(i) }

  lemma Digits(i: nat)
    requires i < 17576
    ensures i == 676 * (i / 676 % 26) + 26 * (i / 26 % 26) + i % 26
  {}

  lemma NamesDiffer(i: nat, j: nat)
    requires i < j < 17576
    ensures Name(i) != Name(j)
  {
    Digits(i);
    Digits(j);
    assert Name(i)[0] != Name(j)[0] || Name(i)[1] != Name(j)[1] || Name(i)[2] != Name(j)[2];
  }

  lemma AfterPrefix(name: string)
    ensures (PREFIX + name)[|PREFIX|..] == name
  {}

  /** Addresses under the archive's own path, enough of them for any index. */
  lemma ConsultationsAreAddresses(n: nat)
    requires n <= MAX_ITEMS
    ensures Addresses(Consultation, n)
  {
    forall i, j | 0 <= i < j <= n ensures Differ(Consultation, i, j) {
      NamesDiffer(i, j);
      AfterPrefix(Name(i));
      AfterPrefix(Name(j));
    }
    assert |PREFIX| < 100;
  }
}
