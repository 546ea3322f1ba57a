/** Two passes share a budget of detail requests: the ranked shortlist, then the newest pages in order.

    Source: apps/legal_work/archived_topic_sync.py, `_hydrate_within_budget` and
    `_recent_window_pending`. A fetch is an oracle (`Fetcher`); `NoRequestRepeats` shows that
    a run asks each address at most once, so one answer per address and run loses nothing. */
module Hydration {
  import opened Sorting
  import opened ArchiveListing
  import opened ArchiveMerge

  type Fetcher = Url -> Detail

  /** Reported as read, but with no text left once its markup is stripped. */
  predicate IsBlank(d: Detail) {
    d.Hydrated? && d.page.body == ""
  }

  /** A page that is read has a title and a text. */
  ghost predicate Legible(fetch: Fetcher) {
    forall u :: fetch(u).Hydrated? ==> fetch(u).page.title != "" && fetch(u).page.body != ""
  }

  /** Where the recent window ends, and how many consecutive older pages close it. */
  datatype Window = Window(cutoff: int, stopAfter: nat)

  /** Details so far, and every request issued so far in order. */
  datatype Progress = Progress(details: Details, log: seq<Url>)

  predicate IsHydrated(details: Details, url: Url) {
    url in details && details[url].Hydrated?
  }

  predicate IsFailed(details: Details, url: Url) {
    url in details && details[url].Failed?
  }

  predicate Older(d: Detail, w: Window) {
    d.Hydrated? && d.page.published.Some? && d.page.published.value < w.cutoff
  }

  function Request(p: Progress, url: Url, fetch: Fetcher): Progress {
    Progress(p.details[url := fetch(url)], p.log + [url])
  }

  // ------------------------------------------------------------------
  // Pass one: the ranked queue.
  // ------------------------------------------------------------------

  function OrderOf(entries: seq<Entry>, url: Url): nat {
    if entries == [] then 0
    else if entries[0].url == url then entries[0].order
    else OrderOf(entries[1..], url)
  }

  /** Never-read and read before failed; then the stronger overlap; then archive order. */
  predicate RankedBefore(entries: seq<Entry>, details: Details, priority: map<Url, int>, a: Url, b: Url) {
    var failedA, failedB := IsFailed(details, a), IsFailed(details, b);
    var strengthA := if a in priority then priority[a] else 0;
    var strengthB := if b in priority then priority[b] else 0;
    if failedA != failedB then failedB
    else if strengthA != strengthB then strengthA > strengthB
    else OrderOf(entries, a) <= OrderOf(entries, b)
  }

  function Ranking(entries: seq<Entry>, details: Details, priority: map<Url, int>): (Url, Url) -> bool {
    (a, b) => RankedBefore(entries, details, priority, a, b)
  }

  function Candidates(entries: seq<Entry>, priority: map<Url, int>): seq<Url> {
    if entries == [] then []
    else (if entries[0].url in priority then [entries[0].url] else []) + Candidates(entries[1..], priority)
  }

  function Queue(entries: seq<Entry>, details: Details, priority: map<Url, int>): seq<Url> {
    Sort(Candidates(entries, priority), Ranking(entries, details, priority))
  }

  function PriorityPass(queue: seq<Url>, budget: nat, p: Progress, fetch: Fetcher): Progress {
    if queue == [] || |p.log| >= budget then p
    else if IsHydrated(p.details, queue[0]) then PriorityPass(queue[1..], budget, p, fetch)
    else PriorityPass(queue[1..], budget, Request(p, queue[0], fetch), fetch)
  }

  // ------------------------------------------------------------------
  // Pass two: the recent window, newest first.
  // ------------------------------------------------------------------

  function ByOrder(): (Entry, Entry) -> bool {
    (a: Entry, b: Entry) => a.order <= b.order
  }

  /** This page is the one that closes the window. */
  predicate Closes(d: Detail, w: Window, older: nat) {
    Older(d, w) && older + 1 >= w.stopAfter
  }

  function OlderRun(d: Detail, w: Window, older: nat): nat {
    if Older(d, w) then older + 1 else 0
  }

  function Visit(p: Progress, url: Url, fetch: Fetcher): Progress {
    if url in p.details then p else Request(p, url, fetch)
  }

  function BackgroundPass(queue: seq<Entry>, w: Window, budget: nat, older: nat, p: Progress, fetch: Fetcher): Progress {
    if queue == [] || |p.log| >= budget then p
    else
      var url, rest := queue[0].url, queue[1..];
      if IsFailed(p.details, url) then BackgroundPass(rest, w, budget, older, p, fetch)
      else
        var next := Visit(p, url, fetch);
        var d := next.details[url];
        if Closes(d, w, older) then next
        else BackgroundPass(rest, w, budget, OlderRun(d, w, older), next, fetch)
  }

  function Hydrate(entries: seq<Entry>, details: Details, priority: map<Url, int>, w: Window, budget: nat,
                   dryRun: bool, fetch: Fetcher): Progress {
    if dryRun || budget == 0 then Progress(details, [])
    else
      var one := PriorityPass(Queue(entries, details, priority), budget, Progress(details, []), fetch);
      if |one.log| >= budget then one
      else BackgroundPass(Sort(entries, ByOrder()), w, budget, 0, one, fetch)
  }

  // ------------------------------------------------------------------
  // The walk that counts what is left.
  // ------------------------------------------------------------------

  function Pending(queue: seq<Entry>, w: Window, older: nat, details: Details): nat {
    if queue == [] then 0
    else
      var url, rest := queue[0].url, queue[1..];
      if url !in details then 1 + Pending(rest, w, older, details)
      else if details[url].Failed? then Pending(rest, w, older, details)
      else if Closes(details[url], w, older) then 0
      else Pending(rest, w, OlderRun(details[url], w, older), details)
  }

  function RecentPending(entries: seq<Entry>, details: Details, w: Window): nat {
    Pending(Sort(entries, ByOrder()), w, 0, details)
  }

  // ------------------------------------------------------------------
  // The loops as the source runs them.
  // ------------------------------------------------------------------

  /** The run's `details` dictionary, changed in place, and its request counter. */
  class HydrationRun {
    var details: Details
    var requested: nat
    ghost var log: seq<Url>

    ghost function State(): Progress
      reads this
    {
      Progress(details, log)
    }

    constructor (carried: Details)
      ensures details == carried && requested == 0 && log == []
    {
      details, requested, log := carried, 0, [];
    }

    method HydrateDetail(url: Url, fetch: Fetcher)
      requires requested == |log|
      modifies this
      ensures State() == Request(old(State()), url, fetch)
      ensures requested == |log|
    {
      details := details[url := fetch(url)];
      requested := requested + 1;
      log := log + [url];
    }

    method PriorityReads(queue: seq<Url>, budget: nat, fetch: Fetcher)
      requires requested == |log|
      modifies this
      ensures State() == PriorityPass(queue, budget, old(State()), fetch)
      ensures requested == |log|
    {
      var i := 0;
      while i < |queue|
        invariant 0 <= i <= |queue|
        invariant requested == |log|
        invariant PriorityPass(queue[i..], budget, State(), fetch) == PriorityPass(queue, budget, old(State()), fetch)
      {
        assert queue[i..][0] == queue[i] && queue[i..][1..] == queue[i + 1..];
        if requested >= budget { break; }
        var url := queue[i];
        i := i + 1;
        if url in details && details[url].Hydrated? { continue; }
        HydrateDetail(url, fetch);
      }
    }

    method BackgroundReads(queue: seq<Entry>, w: Window, budget: nat, fetch: Fetcher)
      requires requested == |log|
      modifies this
      ensures State() == BackgroundPass(queue, w, budget, 0, old(State()), fetch)
      ensures requested == |log|
    {
      var i, older := 0, 0;
      while i < |queue|
        invariant 0 <= i <= |queue|
        invariant requested == |log|
        invariant BackgroundPass(queue[i..], w, budget, older, State(), fetch)
               == BackgroundPass(queue, w, budget, 0, old(State()), fetch)
      {
        assert queue[i..][0] == queue[i] && queue[i..][1..] == queue[i + 1..];
        if requested >= budget { break; }
        var url := queue[i].url;
        i := i + 1;
        if url in details && details[url].Hydrated? {
          if Older(details[url], w) {
            older := older + 1;
            if older >= w.stopAfter { break; }
          } else {
            older := 0;
          }
          continue;
        }
        if url in details && details[url].Failed? { continue; }
        HydrateDetail(url, fetch);
        if Older(details[url], w) {
          older := older + 1;
          if older >= w.stopAfter { break; }
        } else {
          older := 0;
        }
      }
    }

    method HydrateWithinBudget(entries: seq<Entry>, priority: map<Url, int>, w: Window, budget: nat,
                               dryRun: bool, fetch: Fetcher)
      requires requested == 0 && log == []
      modifies this
      ensures State() == Hydrate(entries, old(details), priority, w, budget, dryRun, fetch)
      ensures requested == |log|
    {
      if dryRun || budget <= 0 { return; }
      PriorityReads(Queue(entries, details, priority), budget, fetch);
      if requested >= budget { return; }
      BackgroundReads(Sort(entries, ByOrder()), w, budget, fetch);
    }
  }

  method RecentWindowPending(entries: seq<Entry>, details: Details, w: Window) returns (pending: nat)
    ensures pending == RecentPending(entries, details, w)
  {
    var queue := Sort(entries, ByOrder());
    var older, i := 0, 0;
    pending := 0;
    while i < |queue|
      invariant 0 <= i <= |queue|
      invariant pending + Pending(queue[i..], w, older, details) == RecentPending(entries, details, w)
    {
      assert queue[i..][0] == queue[i] && queue[i..][1..] == queue[i + 1..];
      var url := queue[i].url;
      i := i + 1;
      if url !in details {
        pending := pending + 1;
        continue;
      }
      if details[url].Failed? { continue; }
      if Older(details[url], w) {
        older := older + 1;
        if older >= w.stopAfter { break; }
      } else {
        older := 0;
      }
    }
  }
}
