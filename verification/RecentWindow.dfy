/** What the recent window is, as positions in the index and dates of pages.

    Source: apps/legal_work/archived_topic_sync.py:503-558. The two walks over the window are loops with a
    counter; here the window is described without them. Position `i` lies behind the window when, somewhere
    before it, enough pages in a row were read and found older than the cutoff. Pages never read and pages that
    failed in an earlier run do not interrupt such a row; a page that was read and is not older does, and for
    the walk that reads, so does a page that fails while it is reading. */
module RecentWindow {
  import opened Basics
  import opened Sorting
  import opened ArchiveListing
  import opened ArchiveMerge
  import opened Hydration
  import opened BudgetLaws
  import opened WindowProgress

  /** The page at position `k` has been read. */
  predicate WasRead(entries: seq<Entry>, details: Details, k: nat)
    requires k < |entries|
  {
    entries[k].url in details && details[entries[k].url].Hydrated?
  }

  /** It was published on a day before `cutoff`. */
  predicate IsOld(entries: seq<Entry>, details: Details, cutoff: int, k: nat)
    requires k < |entries| && WasRead(entries, details, k)
  {
    match details[entries[k].url].page.published
    case None => false
    case Some(day) => day < cutoff
  }

  /** From `a` up to `b` every page read is old, and no page is among `breaks`. */
  ghost predicate OldRow(entries: seq<Entry>, details: Details, cutoff: int, breaks: set<Url>, a: nat, b: nat)
    requires a <= b <= |entries|
  {
    forall k :: a <= k < b ==>
      && (WasRead(entries, details, k) ==> IsOld(entries, details, cutoff, k))
      && entries[k].url !in breaks
  }

  /** How many pages from `a` up to `b` have been read. */
  function ReadBetween(entries: seq<Entry>, details: Details, a: nat, b: nat): nat
    requires a <= b <= |entries|
  {
    if a == b then 0 else ReadBetween(entries, details, a, b - 1) + if WasRead(entries, details, b - 1) then 1 else 0
  }

  function AtLeastOne(n: nat): nat { if n == 0 then 1 else n }

  /** Position `i` lies behind the window: before it there is a row of at least `stopAfter` read pages, all old. */
  ghost predicate Behind(entries: seq<Entry>, details: Details, w: Window, breaks: set<Url>, i: nat)
    requires i <= |entries|
  {
    exists a: nat, b: nat :: Shuts(entries, details, w, breaks, a, b, i)
  }

  ghost predicate Shuts(entries: seq<Entry>, details: Details, w: Window, breaks: set<Url>, a: nat, b: nat, i: nat)
    requires i <= |entries|
  {
    && a <= b <= i
    && OldRow(entries, details, w.cutoff, breaks, a, b)
    && ReadBetween(entries, details, a, b) >= AtLeastOne(w.stopAfter)
  }

  /** The positions still to be read: never asked for, and not behind the window. */
  ghost function Open(entries: seq<Entry>, details: Details, w: Window): set<nat> {
    set i: nat | i < |entries| && entries[i].url !in details && !Behind(entries, details, w, {}, i)
  }

  // ------------------------------------------------------------------
  // The counter of a walk is the length of the row it is in.
  // ------------------------------------------------------------------

  /** The number of old pages read in the row that ends at `i`. */
  function Row(entries: seq<Entry>, details: Details, cutoff: int, breaks: set<Url>, i: nat): nat
    requires i <= |entries|
  {
    if i == 0 then 0
    else if WasRead(entries, details, i - 1) then
      if IsOld(entries, details, cutoff, i - 1) && entries[i - 1].url !in breaks
      then Row(entries, details, cutoff, breaks, i - 1) + 1 else 0
    else if entries[i - 1].url in breaks then 0
    else Row(entries, details, cutoff, breaks, i - 1)
  }

  lemma {:induction false} RowReached(entries: seq<Entry>, details: Details, cutoff: int, breaks: set<Url>, i: nat) returns (a: nat)
    requires i <= |entries|
    ensures a <= i && OldRow(entries, details, cutoff, breaks, a, i)
    ensures ReadBetween(entries, details, a, i) == Row(entries, details, cutoff, breaks, i)
  {
    if i == 0 || entries[i - 1].url in breaks || (WasRead(entries, details, i - 1) && !IsOld(entries, details, cutoff, i - 1)) {
      a := i;
    } else {
      a := RowReached(entries, details, cutoff, breaks, i - 1);
    }
  }

  lemma {:induction false} RowIsLongest(entries: seq<Entry>, details: Details, cutoff: int, breaks: set<Url>, a: nat, i: nat)
    requires a <= i <= |entries| && OldRow(entries, details, cutoff, breaks, a, i)
    ensures ReadBetween(entries, details, a, i) <= Row(entries, details, cutoff, breaks, i)
  {
    if a < i {
      assert entries[i - 1].url !in breaks;
      RowIsLongest(entries, details, cutoff, breaks, a, i - 1);
    }
  }

  /** Going one position further puts it behind the window exactly when the page just passed completes a row. */
  lemma BehindNext(entries: seq<Entry>, details: Details, w: Window, breaks: set<Url>, i: nat)
    requires i < |entries| && !Behind(entries, details, w, breaks, i)
    ensures Behind(entries, details, w, breaks, i + 1) <==>
            && WasRead(entries, details, i) && IsOld(entries, details, w.cutoff, i) && entries[i].url !in breaks
            && Row(entries, details, w.cutoff, breaks, i) + 1 >= AtLeastOne(w.stopAfter)
  {
    if Behind(entries, details, w, breaks, i + 1) {
      var a: nat, b: nat :| Shuts(entries, details, w, breaks, a, b, i + 1);
      assert !Shuts(entries, details, w, breaks, a, b, i);
      assert b == i + 1;
      if !WasRead(entries, details, i) { assert Shuts(entries, details, w, breaks, a, i, i); }
      RowIsLongest(entries, details, w.cutoff, breaks, a, i + 1);
      assert a <= i && entries[i].url !in breaks;
    }
    if WasRead(entries, details, i) && IsOld(entries, details, w.cutoff, i) && entries[i].url !in breaks
       && Row(entries, details, w.cutoff, breaks, i) + 1 >= AtLeastOne(w.stopAfter)
    {
      var a := RowReached(entries, details, w.cutoff, breaks, i + 1);
      assert Shuts(entries, details, w, breaks, a, i + 1, i + 1);
    }
  }

  lemma BehindStays(entries: seq<Entry>, details: Details, w: Window, breaks: set<Url>, i: nat, j: nat)
    requires i <= j <= |entries| && Behind(entries, details, w, breaks, i)
    ensures Behind(entries, details, w, breaks, j)
  {
    var a: nat, b: nat :| Shuts(entries, details, w, breaks, a, b, i);
    assert Shuts(entries, details, w, breaks, a, b, j);
  }

  lemma NothingBehindStart(entries: seq<Entry>, details: Details, w: Window, breaks: set<Url>)
    ensures !Behind(entries, details, w, breaks, 0)
  {}

  // ------------------------------------------------------------------
  // The counting walk.
  // ------------------------------------------------------------------

  ghost function OpenFrom(entries: seq<Entry>, details: Details, w: Window, i: nat): set<nat> {
    set k: nat | i <= k < |entries| && entries[k].url !in details && !Behind(entries, details, w, {}, k)
  }

  lemma ShutFrom(entries: seq<Entry>, details: Details, w: Window, i: nat)
    requires i <= |entries| && Behind(entries, details, w, {}, i)
    ensures OpenFrom(entries, details, w, i) == {}
  {
    forall k: nat | i <= k < |entries| ensures Behind(entries, details, w, {}, k) { BehindStays(entries, details, w, {}, i, k); }
  }

  lemma OpenSplits(entries: seq<Entry>, details: Details, w: Window, i: nat)
    requires i < |entries| && !Behind(entries, details, w, {}, i)
    ensures |OpenFrom(entries, details, w, i)|
         == |OpenFrom(entries, details, w, i + 1)| + if entries[i].url !in details then 1 else 0
  {
    var here, on := OpenFrom(entries, details, w, i), OpenFrom(entries, details, w, i + 1);
    if entries[i].url !in details {
      assert here == {i} + on;
    } else {
      assert here == on;
    }
  }

  lemma {:induction false} PendingFrom(entries: seq<Entry>, details: Details, w: Window, i: nat)
    requires i <= |entries| && !Behind(entries, details, w, {}, i)
    ensures Pending(entries[i..], w, Row(entries, details, w.cutoff, {}, i), details) == |OpenFrom(entries, details, w, i)|
    decreases |entries| - i
  {
    if i == |entries| {
      assert OpenFrom(entries, details, w, i) == {};
    } else {
      assert entries[i..][0] == entries[i] && entries[i..][1..] == entries[i + 1..];
      BehindNext(entries, details, w, {}, i);
      OpenSplits(entries, details, w, i);
      if Behind(entries, details, w, {}, i + 1) {
        ShutFrom(entries, details, w, i + 1);
      } else {
        PendingFrom(entries, details, w, i + 1);
      }
    }
  }

  /** **The recent pages pending are the open positions**: the unread pages not preceded by `stop_after` pages
      that were read, are older than the cutoff, and have no other read page between them. */
  lemma PendingIsOpen(entries: seq<Entry>, details: Details, w: Window)
    requires WellIndexed(entries)
    ensures RecentPending(entries, details, w) == |Open(entries, details, w)|
  {
    SortedIndex(entries);
    NothingBehindStart(entries, details, w, {});
    PendingFrom(entries, details, w, 0);
    assert entries[0..] == entries;
    assert OpenFrom(entries, details, w, 0) == Open(entries, details, w);
  }

  /** **A live run that stops with budget left leaves no open position and no candidate unread.** */
  lemma LeftoverLeavesNoneOpen(entries: seq<Entry>, details: Details, priority: map<Url, int>, w: Window, later: Window,
                               budget: nat, fetch: Fetcher)
    requires WellIndexed(entries) && Shortlist(entries, priority)
    requires w.cutoff <= later.cutoff && w.stopAfter == later.stopAfter
    requires |Hydrate(entries, details, priority, w, budget, false, fetch).log| < budget
    ensures var after := Hydrate(entries, details, priority, w, budget, false, fetch).details;
            && (forall u :: u in priority ==> u in after)
            && (forall i :: 0 <= i < |entries| ==> entries[i].url in after || Behind(entries, after, later, {}, i))
  {
    var after := Hydrate(entries, details, priority, w, budget, false, fetch).details;
    LeftoverBudgetMeansDone(entries, details, priority, w, later, budget, fetch);
    PendingIsOpen(entries, after, later);
    forall i: nat | i < |entries| && entries[i].url !in after ensures Behind(entries, after, later, {}, i) {
      assert i !in Open(entries, after, later);
    }
    forall u | u in priority ensures u in after { assert u !in PriorityUnread(priority, after); }
  }

  // ------------------------------------------------------------------
  // The reading walk.
  // ------------------------------------------------------------------

  /** The pages that failed during this pass, which started from `start`. */
  ghost function FreshFailures(start: Details, final: Details): set<Url> {
    set u | u in final && u !in start && final[u].Failed?
  }

  /** What a pass that starts from `start` asks for, read off where it ends. */
  ghost predicate ReadsOpen(entries: seq<Entry>, start: Details, final: Progress, w: Window, budget: nat, i: nat) {
    var breaks := FreshFailures(start, final.details);
    forall k: nat :: i <= k < |entries| ==>
      && (entries[k].url in final.details && entries[k].url !in start ==> !Behind(entries, final.details, w, breaks, k))
      && (entries[k].url !in final.details && !Behind(entries, final.details, w, breaks, k) ==>
            |final.log| >= budget && forall j :: k <= j < |entries| && entries[j].url in final.details ==> entries[j].url in start)
  }

  /** How the pass stands at position `i`. */
  ghost predicate PassAt(entries: seq<Entry>, start: Details, p: Progress, i: nat) {
    && i <= |entries| && DistinctUrls(entries)
    && (forall u :: u in start ==> u in p.details && p.details[u] == start[u])
    && (forall k :: i <= k < |entries| ==> (entries[k].url in p.details <==> entries[k].url in start))
  }

  lemma ShutPassDone(entries: seq<Entry>, start: Details, final: Progress, w: Window, budget: nat, i: nat)
    requires PassAt(entries, start, final, i) && Behind(entries, final.details, w, FreshFailures(start, final.details), i)
    ensures ReadsOpen(entries, start, final, w, budget, i)
  {
    var breaks := FreshFailures(start, final.details);
    forall k: nat | i <= k < |entries| ensures Behind(entries, final.details, w, breaks, k) {
      BehindStays(entries, final.details, w, breaks, i, k);
    }
  }

  lemma {:induction false} PassReadsOpen(entries: seq<Entry>, start: Details, w: Window, budget: nat, i: nat, older: nat, p: Progress,
                                         fetch: Fetcher, final: Progress)
    requires PassAt(entries, start, p, i)
    requires final == BackgroundPass(entries[i..], w, budget, older, p, fetch)
    requires older == Row(entries, final.details, w.cutoff, FreshFailures(start, final.details), i)
    requires !Behind(entries, final.details, w, FreshFailures(start, final.details), i)
    ensures ReadsOpen(entries, start, final, w, budget, i)
    decreases |entries| - i
  {
    LogOnlyGrows(entries[i..], w, budget, older, p, fetch);
    if i < |entries| && |p.log| < budget {
      var url, rest := entries[i].url, entries[i + 1..];
      assert entries[i..][0] == entries[i] && entries[i..][1..] == rest;
      var breaks := FreshFailures(start, final.details);
      BehindNext(entries, final.details, w, breaks, i);
      if IsFailed(p.details, url) {
        PassReadsOpen(entries, start, w, budget, i + 1, older, p, fetch, final);
      } else {
        var next := Visit(p, url, fetch);
        var d := next.details[url];
        if Closes(d, w, older) {
          ShutPassDone(entries, start, final, w, budget, i + 1);
        } else {
          LogOnlyGrows(rest, w, budget, OlderRun(d, w, older), next, fetch);
          PassReadsOpen(entries, start, w, budget, i + 1, OlderRun(d, w, older), next, fetch, final);
        }
      }
    }
  }

  /** **The background pass reads exactly the window.** Started on any details with requests left, it asks for
      a page iff the page has never been asked for and is not behind the window, in index order for as long as
      the budget lasts: a page of the window is left only by an exhausted budget, and then with every later one. */
  lemma BackgroundReadsWindow(entries: seq<Entry>, w: Window, budget: nat, p: Progress, fetch: Fetcher)
    requires WellIndexed(entries)
    ensures ReadsOpen(entries, p.details, BackgroundPass(Sort(entries, ByOrder()), w, budget, 0, p, fetch), w, budget, 0)
  {
    SortedIndex(entries);
    var final := BackgroundPass(entries, w, budget, 0, p, fetch);
    assert entries[0..] == entries;
    NothingBehindStart(entries, final.details, w, FreshFailures(p.details, final.details));
    PassReadsOpen(entries, p.details, w, budget, 0, 0, p, fetch, final);
  }

  /** A dry run and a run without budget ask for nothing. */
  lemma NothingAsked(entries: seq<Entry>, details: Details, priority: map<Url, int>, w: Window, budget: nat, dryRun: bool, fetch: Fetcher)
    requires dryRun || budget == 0
    ensures Hydrate(entries, details, priority, w, budget, dryRun, fetch) == Progress(details, [])
  {}

  /** The same for a run: after the shortlist, what is left of the budget goes to the window. */
  lemma RunReadsWindow(entries: seq<Entry>, details: Details, priority: map<Url, int>, w: Window, budget: nat, fetch: Fetcher)
    returns (first: seq<Url>)
    requires WellIndexed(entries)
    ensures first <= Hydrate(entries, details, priority, w, budget, false, fetch).log
    ensures forall u :: u in first ==> u in priority && u in UrlSet(entries) && !IsHydrated(details, u)
    ensures |first| < budget ==> forall u :: u in priority && u in UrlSet(entries) && !IsHydrated(details, u) ==> u in first
    ensures |first| >= budget ==> Hydrate(entries, details, priority, w, budget, false, fetch).log == first
    ensures |first| < budget ==>
              ReadsOpen(entries, ReadAll(details, first, fetch), Hydrate(entries, details, priority, w, budget, false, fetch), w, budget, 0)
  {
    var one, queue;
    first, one := FirstPass(entries, details, priority, budget, fetch);
    queue := Queue(entries, details, priority);
    QueueIsRanked(entries, details, priority);
    ToReadAre(queue, details);
    FirstNMembers(ToRead(queue, details), budget);
    if |first| < budget {
      LogOnlyGrows(Sort(entries, ByOrder()), w, budget, 0, one, fetch);
      BackgroundReadsWindow(entries, w, budget, one, fetch);
    }
  }
}
