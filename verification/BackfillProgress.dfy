/** Repeated runs finish the backfill whatever the pages answer; and exactly when one run is
    bound to read something new.

    Source: apps/legal_work/archived_topic_sync.py:455-590. */
module BackfillProgress {
  import opened Basics
  import opened ArchiveListing
  import opened ArchiveMerge
  import opened Hydration
  import opened BudgetLaws
  import opened WindowProgress

  lemma {:induction false} DistinctFits<T>(s: seq<T>, all: set<T>)
    requires Distinct(s) && forall x :: x in s ==> x in all
    ensures |s| <= |all|
  {
    if s != [] {
      var last := s[|s| - 1];
      DistinctFits(s[..|s| - 1], all - {last});
    }
  }

  lemma Shrinks(entries: seq<Entry>, details: Details, priority: map<Url, int>, w: Window, budget: nat, fetch: Fetcher, u: Url)
    requires WellIndexed(entries)
    requires u in Unread(entries, details)
    requires u in Hydrate(entries, details, priority, w, budget, false, fetch).log
    ensures |Unread(entries, Hydrate(entries, details, priority, w, budget, false, fetch).details)| < |Unread(entries, details)|
  {
    UnreadAfter(entries, details, priority, w, budget, fetch);
    var before := Unread(entries, details);
    var after := Unread(entries, Hydrate(entries, details, priority, w, budget, false, fetch).details);
    SmallerSet(after, before, u);
  }

  lemma SmallerSet<T>(a: set<T>, b: set<T>, x: T)
    requires a <= b && x in b && x !in a
    ensures |a| < |b|
  {
    SubsetSize(a, b - {x});
  }

  lemma FirstPassFits(entries: seq<Entry>, details: Details, priority: map<Url, int>, first: seq<Url>, budget: nat)
    requires WellIndexed(entries)
    requires first == FirstN(ToRead(Queue(entries, details, priority), details), budget)
    ensures |first| <= |priority|
    ensures forall u :: u in first ==> u in priority && !IsHydrated(details, u)
  {
    QueueIsRanked(entries, details, priority);
    ToReadAre(Queue(entries, details, priority), details);
    FirstNMembers(ToRead(Queue(entries, details, priority), details), budget);
    DistinctFits(first, priority.Keys);
    assert |priority.Keys| == |priority|;
  }

  /** **Every live run makes progress or finishes.** With a budget larger than the shortlist, a run
      either reads a page no run had read or ends with nothing pending, whatever the fetches return. */
  lemma ProgressOrDone(entries: seq<Entry>, details: Details, priority: map<Url, int>, w: Window, budget: nat, fetch: Fetcher)
    requires WellIndexed(entries) && Shortlist(entries, priority) && budget > |priority|
    ensures var after := Hydrate(entries, details, priority, w, budget, false, fetch).details;
            || |Unread(entries, after)| < |Unread(entries, details)|
            || NothingPending(entries, after, priority, w)
  {
    var final := Hydrate(entries, details, priority, w, budget, false, fetch);
    if |final.log| < budget {
      LeftoverBudgetMeansDone(entries, details, priority, w, w, budget, fetch);
    } else {
      var first, second := NoRequestRepeats(entries, details, priority, w, budget, fetch);
      FirstPassFits(entries, details, priority, first, budget);
      assert second[0] in second && (first + second)[|first|] == second[0];
      Shrinks(entries, details, priority, w, budget, fetch, second[0]);
    }
  }

  /** The details after `n` live runs, each with its own answers. */
  function AfterRuns(entries: seq<Entry>, details: Details, priority: map<Url, int>, w: Window, budget: nat,
                     fetches: nat -> Fetcher, n: nat): Details {
    if n == 0 then details
    else Hydrate(entries, AfterRuns(entries, details, priority, w, budget, fetches, n - 1), priority, w, budget, false,
                 fetches(n - 1)).details
  }

  lemma {:induction false} AllReadCountsZero(queue: seq<Entry>, w: Window, older: nat, details: Details)
    requires forall i :: 0 <= i < |queue| ==> queue[i].url in details
    ensures Pending(queue, w, older, details) == 0
  {
    if queue != [] {
      var d := details[queue[0].url];
      if d.Failed? {
        AllReadCountsZero(queue[1..], w, older, details);
      } else if !Closes(d, w, older) {
        AllReadCountsZero(queue[1..], w, OlderRun(d, w, older), details);
      }
    }
  }

  lemma AllReadMeansDone(entries: seq<Entry>, details: Details, priority: map<Url, int>, w: Window)
    requires WellIndexed(entries) && Shortlist(entries, priority) && Unread(entries, details) == {}
    ensures NothingPending(entries, details, priority, w)
  {
    SortedIndex(entries);
    forall u | u in UrlSet(entries) ensures u in details {
      assert u !in Unread(entries, details);
    }
    assert forall i :: 0 <= i < |entries| ==> entries[i].url in UrlSet(entries);
    AllReadCountsZero(entries, w, 0, details);
  }

  function LessOne(n: nat): nat { if n == 0 then 0 else n - 1 }

  /** How many of the first `n` steps are busy. */
  function Times(busy: nat -> bool, n: nat): nat {
    if n == 0 then 0 else Times(busy, n - 1) + if busy(n - 1) then 1 else 0
  }

  /** What is left never grows, and a busy step lowers it without exhausting it. */
  ghost predicate Sinks(left: nat -> nat, busy: nat -> bool, i: nat) {
    left(i + 1) <= left(i) && (busy(i) ==> 0 < left(i + 1) < left(i))
  }

  lemma {:induction false} SinksCount(left: nat -> nat, busy: nat -> bool, n: nat)
    requires forall i :: Sinks(left, busy, i)
    ensures Times(busy, n) + LessOne(left(n)) <= LessOne(left(0))
  {
    if n > 0 {
      SinksCount(left, busy, n - 1);
      assert Sinks(left, busy, n - 1);
    }
  }

  /** If fewer than `n` of `n` steps are busy, one is not. */
  lemma {:induction false} SomeIdle(busy: nat -> bool, n: nat) returns (k: nat)
    requires Times(busy, n) < n
    ensures k < n && !busy(k)
  {
    if busy(n - 1) { k := SomeIdle(busy, n - 1); } else { k := n - 1; }
  }

  /** A run never adds unread pages, and one that ends with work pending has read some and left some. */
  lemma RunEndsPending(entries: seq<Entry>, details: Details, priority: map<Url, int>, w: Window, budget: nat, fetch: Fetcher)
    requires WellIndexed(entries) && Shortlist(entries, priority) && budget > |priority|
    ensures var after := Hydrate(entries, details, priority, w, budget, false, fetch).details;
            && |Unread(entries, after)| <= |Unread(entries, details)|
            && (!NothingPending(entries, after, priority, w) ==> 0 < |Unread(entries, after)| < |Unread(entries, details)|)
  {
    var after := Hydrate(entries, details, priority, w, budget, false, fetch).details;
    ProgressOrDone(entries, details, priority, w, budget, fetch);
    UnreadAfter(entries, details, priority, w, budget, fetch);
    SubsetSize(Unread(entries, after), Unread(entries, details));
    if Unread(entries, after) == {} { AllReadMeansDone(entries, after, priority, w); }
  }

  /** Run number `k`, counted from zero, ends with work pending. */
  ghost predicate EndsPending(entries: seq<Entry>, details: Details, priority: map<Url, int>, w: Window, budget: nat,
                              fetches: nat -> Fetcher, k: nat) {
    !NothingPending(entries, AfterRuns(entries, details, priority, w, budget, fetches, k + 1), priority, w)
  }

  ghost function PendingRuns(entries: seq<Entry>, details: Details, priority: map<Url, int>, w: Window, budget: nat,
                             fetches: nat -> Fetcher): nat -> bool {
    (i: nat) => EndsPending(entries, details, priority, w, budget, fetches, i)
  }

  ghost function UnreadRuns(entries: seq<Entry>, details: Details, priority: map<Url, int>, w: Window, budget: nat,
                            fetches: nat -> Fetcher): nat -> nat {
    (i: nat) => |Unread(entries, AfterRuns(entries, details, priority, w, budget, fetches, i))|
  }

  lemma RunSinks(entries: seq<Entry>, details: Details, priority: map<Url, int>, w: Window, budget: nat, fetches: nat -> Fetcher, i: nat)
    requires WellIndexed(entries) && Shortlist(entries, priority) && budget > |priority|
    ensures Sinks(UnreadRuns(entries, details, priority, w, budget, fetches),
                  PendingRuns(entries, details, priority, w, budget, fetches), i)
  {
    RunAt(entries, details, priority, w, budget, fetches, i);
  }

  lemma RunAt(entries: seq<Entry>, details: Details, priority: map<Url, int>, w: Window, budget: nat, fetches: nat -> Fetcher, i: nat)
    requires WellIndexed(entries) && Shortlist(entries, priority) && budget > |priority|
    ensures var before := AfterRuns(entries, details, priority, w, budget, fetches, i);
            var after := AfterRuns(entries, details, priority, w, budget, fetches, i + 1);
            && |Unread(entries, after)| <= |Unread(entries, before)|
            && (!NothingPending(entries, after, priority, w) ==> 0 < |Unread(entries, after)| < |Unread(entries, before)|)
  {
    var before := AfterRuns(entries, details, priority, w, budget, fetches, i);
    var after := AfterRuns(entries, details, priority, w, budget, fetches, i + 1);
    assert after == Hydrate(entries, before, priority, w, budget, false, fetches(i)).details;
    RunEndsPending(entries, before, priority, w, budget, fetches(i));
  }

  /** **The backfill finishes.** With index, shortlist and cutoff fixed, fewer than |unread| of any number
      of runs end with work pending, for every sequence of fetch outcomes: a retried candidate may reopen
      the window after a finished run, but not for ever. */
  lemma BackfillFinishes(entries: seq<Entry>, details: Details, priority: map<Url, int>, w: Window, budget: nat, fetches: nat -> Fetcher, n: nat)
    requires WellIndexed(entries) && Shortlist(entries, priority) && budget > |priority|
    ensures Times(PendingRuns(entries, details, priority, w, budget, fetches), n) <= LessOne(|Unread(entries, details)|)
  {
    var left := UnreadRuns(entries, details, priority, w, budget, fetches);
    var busy := PendingRuns(entries, details, priority, w, budget, fetches);
    forall i: nat ensures Sinks(left, busy, i) { RunSinks(entries, details, priority, w, budget, fetches, i); }
    SinksCount(left, busy, n);
    assert left(0) == |Unread(entries, details)|;
  }

  /** So one of the first |unread| runs (the first, if nothing is unread) ends with nothing pending. */
  lemma FinishedRun(entries: seq<Entry>, details: Details, priority: map<Url, int>, w: Window, budget: nat, fetches: nat -> Fetcher)
    returns (k: nat)
    requires WellIndexed(entries) && Shortlist(entries, priority) && budget > |priority|
    ensures k == 0 || k < |Unread(entries, details)|
    ensures !EndsPending(entries, details, priority, w, budget, fetches, k)
  {
    var n := LessOne(|Unread(entries, details)|) + 1;
    BackfillFinishes(entries, details, priority, w, budget, fetches, n);
    k := SomeIdle(PendingRuns(entries, details, priority, w, budget, fetches), n);
  }

  // ------------------------------------------------------------------
  // When a run is bound to read something new.
  // ------------------------------------------------------------------

  function OldPage(w: Window): Detail {
    Hydrated(ArchiveMerge.Page("Consultation", "Closed.", Some(w.cutoff - 1), None, "", "c105ed"))
  }

  function OldAnswers(w: Window): Fetcher { (u: Url) => OldPage(w) }

  /** The least favourable way the retried candidates can turn out: each is read, and older than the cutoff. */
  function Pessimistic(details: Details, priority: map<Url, int>, w: Window): Details {
    map u | u in details :: if u in priority && details[u].Failed? then OldPage(w) else details[u]
  }

  lemma {:induction false} OlderPagesCountLess(queue: seq<Entry>, w: Window, older: nat, worse: nat, details: Details, worst: Details)
    requires older <= worse && worst.Keys == details.Keys
    requires forall u :: u in details ==> worst[u] == details[u] || Older(worst[u], w)
    ensures Pending(queue, w, worse, worst) <= Pending(queue, w, older, details)
  {
    if queue != [] {
      var url, rest := queue[0].url, queue[1..];
      if url !in details {
        OlderPagesCountLess(rest, w, older, worse, details, worst);
      } else if worst[url].Failed? {
        OlderPagesCountLess(rest, w, older, worse, details, worst);
      } else if !Closes(worst[url], w, worse) {
        var onward := if details[url].Failed? then older else OlderRun(details[url], w, older);
        OlderPagesCountLess(rest, w, onward, OlderRun(worst[url], w, worse), details, worst);
      }
    }
  }

  /** Pass one with no unread candidate only replaces failed candidates. */
  lemma OnlyRetries(entries: seq<Entry>, details: Details, priority: map<Url, int>, budget: nat, fetch: Fetcher)
    returns (first: seq<Url>, one: Progress)
    requires WellIndexed(entries) && Shortlist(entries, priority) && budget > |priority|
    requires PriorityUnread(priority, details) == {}
    ensures one == PriorityPass(Queue(entries, details, priority), budget, Progress(details, []), fetch)
    ensures one.log == first && |first| < budget
    ensures one.details.Keys == details.Keys
    ensures forall u :: u in first <==> u in priority && IsFailed(details, u)
    ensures forall u :: u in details ==>
              one.details[u] == if u in priority && details[u].Failed? then fetch(u) else details[u]
  {
    first, one := FirstPass(entries, details, priority, budget, fetch);
    RetriesAre(entries, details, priority, budget, first, fetch);
    RetriedDetails(details, priority, first, fetch);
  }

  lemma RetriedDetails(details: Details, priority: map<Url, int>, first: seq<Url>, fetch: Fetcher)
    requires forall u :: u in first <==> u in priority && IsFailed(details, u)
    ensures var after := ReadAll(details, first, fetch);
            && after.Keys == details.Keys
            && forall u :: u in details ==> after[u] == if u in priority && details[u].Failed? then fetch(u) else details[u]
  {}

  lemma RetriesAre(entries: seq<Entry>, details: Details, priority: map<Url, int>, budget: nat, first: seq<Url>, fetch: Fetcher)
    requires WellIndexed(entries) && Shortlist(entries, priority) && budget > |priority|
    requires PriorityUnread(priority, details) == {}
    requires first == FirstN(ToRead(Queue(entries, details, priority), details), budget)
    ensures |first| < budget
    ensures forall u :: u in first <==> u in priority && IsFailed(details, u)
  {
    FirstPassFits(entries, details, priority, first, budget);
    CandidatesSettled(entries, details, priority, budget, first, fetch);
    forall u | u in priority ensures u in details {
      assert u !in PriorityUnread(priority, details);
    }
  }

  lemma RetriesThenBackground(entries: seq<Entry>, details: Details, priority: map<Url, int>, w: Window, budget: nat,
                              fetch: Fetcher, one: Progress)
    requires WellIndexed(entries) && budget > 0
    requires one == PriorityPass(Queue(entries, details, priority), budget, Progress(details, []), fetch)
    requires |one.log| < budget
    ensures Hydrate(entries, details, priority, w, budget, false, fetch) == BackgroundPass(entries, w, budget, 0, one, fetch)
  {
    SortedIndex(entries);
  }

  lemma PessimisticStillReads(entries: seq<Entry>, details: Details, priority: map<Url, int>, w: Window, budget: nat, fetch: Fetcher)
    requires WellIndexed(entries) && Shortlist(entries, priority) && budget > |priority|
    requires PriorityUnread(priority, details) == {}
    requires RecentPending(entries, Pessimistic(details, priority, w), w) > 0
    ensures |Unread(entries, Hydrate(entries, details, priority, w, budget, false, fetch).details)| < |Unread(entries, details)|
  {
    SortedIndex(entries);
    var first, one := OnlyRetries(entries, details, priority, budget, fetch);
    OlderPagesCountLess(entries, w, 0, 0, one.details, Pessimistic(details, priority, w));
    IdleIffNothingPending(entries, w, 0, budget, one, fetch);
    RetriesThenBackground(entries, details, priority, w, budget, fetch, one);
    var batch := BackgroundReadsFresh(entries, w, budget, 0, one, fetch);
    BackgroundStaysInside(entries, w, budget, 0, one, fetch);
    assert batch[0] in batch;
    assert (one.log + batch)[|one.log|] == batch[0];
    assert forall u :: u in one.log ==> u in one.details.Keys;
    Shrinks(entries, details, priority, w, budget, fetch, batch[0]);
  }

  lemma WorstCaseReadsNothing(entries: seq<Entry>, details: Details, priority: map<Url, int>, w: Window, budget: nat)
    requires WellIndexed(entries) && Shortlist(entries, priority) && budget > |priority|
    requires PriorityUnread(priority, details) == {}
    requires RecentPending(entries, Pessimistic(details, priority, w), w) == 0
    ensures Unread(entries, Hydrate(entries, details, priority, w, budget, false, OldAnswers(w)).details)
         == Unread(entries, details)
  {
    var fetch := OldAnswers(w);
    SortedIndex(entries);
    var first, one := OnlyRetries(entries, details, priority, budget, fetch);
    assert one.details == Pessimistic(details, priority, w);
    IdleIffNothingPending(entries, w, 0, budget, one, fetch);
    RetriesThenBackground(entries, details, priority, w, budget, fetch, one);
  }

  /** **Exactly when a run is bound to shrink the unread pages**, decidable before the run starts: an
      unread candidate exists, or the recent window would still be open even if every failed candidate
      were retried, read, and found older than the cutoff. Answers with a title and a text suffice to decide it. */
  lemma AlwaysShrinksIff(entries: seq<Entry>, details: Details, priority: map<Url, int>, w: Window, budget: nat)
    requires WellIndexed(entries) && Shortlist(entries, priority) && budget > |priority|
    ensures (forall fetch: Fetcher :: Legible(fetch) ==>
               |Unread(entries, Hydrate(entries, details, priority, w, budget, false, fetch).details)| < |Unread(entries, details)|)
       <==> (PriorityUnread(priority, details) != {} || RecentPending(entries, Pessimistic(details, priority, w), w) > 0)
  {
    if PriorityUnread(priority, details) != {} {
      forall fetch: Fetcher | Legible(fetch)
        ensures |Unread(entries, Hydrate(entries, details, priority, w, budget, false, fetch).details)| < |Unread(entries, details)|
      {
        UnreadCandidateFirst(entries, details, priority, w, budget, fetch);
        var log := Hydrate(entries, details, priority, w, budget, false, fetch).log;
        assert log[0] in log;
        Shrinks(entries, details, priority, w, budget, fetch, log[0]);
      }
    } else if RecentPending(entries, Pessimistic(details, priority, w), w) > 0 {
      forall fetch: Fetcher | Legible(fetch)
        ensures |Unread(entries, Hydrate(entries, details, priority, w, budget, false, fetch).details)| < |Unread(entries, details)|
      {
        PessimisticStillReads(entries, details, priority, w, budget, fetch);
      }
    } else {
      WorstCaseReadsNothing(entries, details, priority, w, budget);
      assert Legible(OldAnswers(w));
    }
  }
}
