/** The two walks over the recent window agree, and repeated runs finish the work.

    Source: apps/legal_work/archived_topic_sync.py:455-558. */
module WindowProgress {
  import opened Basics
  import opened ArchiveListing
  import opened ArchiveMerge
  import opened Hydration
  import opened BudgetLaws

  // ------------------------------------------------------------------
  // Counting walk and reading walk.
  // ------------------------------------------------------------------

  /** **The counting walk reports zero exactly when the reading walk would issue no request**,
      whatever positive budget it is given and whatever the pages would have answered. */
  lemma {:induction false} IdleIffNothingPending(queue: seq<Entry>, w: Window, older: nat, budget: nat, p: Progress, fetch: Fetcher)
    requires |p.log| < budget
    ensures Pending(queue, w, older, p.details) == 0 <==> BackgroundPass(queue, w, budget, older, p, fetch) == p
    ensures Pending(queue, w, older, p.details) != 0 ==>
              |BackgroundPass(queue, w, budget, older, p, fetch).log| > |p.log|
    decreases |queue|
  {
    if queue != [] {
      var url, rest := queue[0].url, queue[1..];
      if IsFailed(p.details, url) {
        IdleIffNothingPending(rest, w, older, budget, p, fetch);
      } else if url in p.details {
        var d := p.details[url];
        if !Closes(d, w, older) { IdleIffNothingPending(rest, w, OlderRun(d, w, older), budget, p, fetch); }
      } else {
        var next := Visit(p, url, fetch);
        if !Closes(next.details[url], w, older) {
          LogOnlyGrows(rest, w, budget, OlderRun(next.details[url], w, older), next, fetch);
        }
      }
    }
  }

  lemma LogOnlyGrows(queue: seq<Entry>, w: Window, budget: nat, older: nat, p: Progress, fetch: Fetcher)
    ensures p.log <= BackgroundPass(queue, w, budget, older, p, fetch).log
    ensures var after := BackgroundPass(queue, w, budget, older, p, fetch).details;
            forall u :: u in p.details ==> u in after && after[u] == p.details[u]
  {
    var batch := BackgroundReadsFresh(queue, w, budget, older, p, fetch);
  }

  /** **A background pass that stops with budget left leaves nothing pending**, although a fresh failure
      resets the reading walk's run of older pages and not the counting walk's, and although the count
      may use a later cutoff (`hydration_cutoff` is evaluated again, possibly past midnight). */
  lemma {:induction false} PassLeavesNothingPending(queue: seq<Entry>, w: Window, later: Window, older: nat, counted: nat,
                                                    budget: nat, p: Progress, fetch: Fetcher)
    requires older <= counted && w.cutoff <= later.cutoff && w.stopAfter == later.stopAfter
    requires |BackgroundPass(queue, w, budget, older, p, fetch).log| < budget
    ensures Pending(queue, later, counted, BackgroundPass(queue, w, budget, older, p, fetch).details) == 0
    decreases |queue|
  {
    LogOnlyGrows(queue, w, budget, older, p, fetch);
    if queue != [] {
      var url, rest := queue[0].url, queue[1..];
      if IsFailed(p.details, url) {
        PassLeavesNothingPending(rest, w, later, older, counted, budget, p, fetch);
      } else {
        var next := Visit(p, url, fetch);
        var d := next.details[url];
        if !Closes(d, w, older) {
          var onward := OlderRun(d, w, older);
          LogOnlyGrows(rest, w, budget, onward, next, fetch);
          var counting := if d.Failed? then counted else OlderRun(d, later, counted);
          PassLeavesNothingPending(rest, w, later, onward, counting, budget, next, fetch);
        }
      }
    }
  }

  // ------------------------------------------------------------------
  // One run.
  // ------------------------------------------------------------------

  function Unread(entries: seq<Entry>, details: Details): set<Url> {
    set u | u in UrlSet(entries) && u !in details
  }

  function PriorityUnread(priority: map<Url, int>, details: Details): set<Url> {
    set u | u in priority.Keys && u !in details
  }

  ghost predicate NothingPending(entries: seq<Entry>, details: Details, priority: map<Url, int>, w: Window) {
    PriorityUnread(priority, details) == {} && RecentPending(entries, details, w) == 0
  }

  /** The shortlist names only indexed addresses. */
  ghost predicate Shortlist(entries: seq<Entry>, priority: map<Url, int>) {
    priority.Keys <= UrlSet(entries)
  }

  /** **A live run that stops with requests left has no work left**, in either priority. */
  lemma LeftoverBudgetMeansDone(entries: seq<Entry>, details: Details, priority: map<Url, int>, w: Window, later: Window,
                                budget: nat, fetch: Fetcher)
    requires WellIndexed(entries) && Shortlist(entries, priority)
    requires w.cutoff <= later.cutoff && w.stopAfter == later.stopAfter
    requires |Hydrate(entries, details, priority, w, budget, false, fetch).log| < budget
    ensures NothingPending(entries, Hydrate(entries, details, priority, w, budget, false, fetch).details, priority, later)
  {
    var first, one := FirstPass(entries, details, priority, budget, fetch);
    if |one.log| < budget {
      SortedIndex(entries);
      LogOnlyGrows(entries, w, budget, 0, one, fetch);
      PassLeavesNothingPending(entries, w, later, 0, 0, budget, one, fetch);
      CandidatesSettled(entries, details, priority, budget, first, fetch);
    }
  }

  /** With budget to spare after pass one, every candidate is read or was asked for. */
  lemma CandidatesSettled(entries: seq<Entry>, details: Details, priority: map<Url, int>, budget: nat, first: seq<Url>, fetch: Fetcher)
    requires WellIndexed(entries) && Shortlist(entries, priority)
    requires first == FirstN(ToRead(Queue(entries, details, priority), details), budget) && |first| < budget
    ensures PriorityUnread(priority, ReadAll(details, first, fetch)) == {}
    ensures forall u :: u in priority && !IsHydrated(details, u) ==> u in first
  {
    var queue := Queue(entries, details, priority);
    QueueIsRanked(entries, details, priority);
    ToReadAre(queue, details);
  }

  // ------------------------------------------------------------------
  // Runs shrink the unread set or finish.
  // ------------------------------------------------------------------

  /** Reading never unreads: a run's unread pages are the earlier ones minus those it asked for. */
  lemma UnreadAfter(entries: seq<Entry>, details: Details, priority: map<Url, int>, w: Window, budget: nat, fetch: Fetcher)
    requires WellIndexed(entries)
    ensures var final := Hydrate(entries, details, priority, w, budget, false, fetch);
            Unread(entries, final.details) == Unread(entries, details) - set u | u in final.log
  {
    var first, second := NoRequestRepeats(entries, details, priority, w, budget, fetch);
  }

  /** An unread candidate outranks every failed one, so it heads the queue. */
  lemma UnreadHeadsQueue(entries: seq<Entry>, details: Details, priority: map<Url, int>, u: Url)
    requires WellIndexed(entries) && Shortlist(entries, priority)
    requires u in PriorityUnread(priority, details)
    ensures var all := ToRead(Queue(entries, details, priority), details);
            all != [] && all[0] in Unread(entries, details)
  {
    var queue, le := Queue(entries, details, priority), Ranking(entries, details, priority);
    QueueIsRanked(entries, details, priority);
    ToReadAre(queue, details);
    ToReadOrdered(queue, details, le);
    var all := ToRead(queue, details);
    assert u in all;
    var j :| 0 <= j < |all| && all[j] == u;
    assert all[0] in all;
    if j > 0 { assert le(all[0], all[j]); }
  }

  lemma UnreadCandidateFirst(entries: seq<Entry>, details: Details, priority: map<Url, int>, w: Window, budget: nat, fetch: Fetcher)
    requires WellIndexed(entries) && Shortlist(entries, priority) && budget > 0
    requires PriorityUnread(priority, details) != {}
    ensures var final := Hydrate(entries, details, priority, w, budget, false, fetch);
            final.log != [] && final.log[0] in Unread(entries, details)
  {
    var first, second := NoRequestRepeats(entries, details, priority, w, budget, fetch);
    var u :| u in PriorityUnread(priority, details);
    UnreadHeadsQueue(entries, details, priority, u);
    assert (first + second)[0] == ToRead(Queue(entries, details, priority), details)[0];
  }
}
