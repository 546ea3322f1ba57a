/** Hydration progress as the run declares it.

    Source: apps/legal_work/archived_topic_sync.py, `_counts`. */
module ArchiveCounts {
  import opened ArchiveListing
  import opened ArchiveMerge
  import opened Hydration
  import opened WindowProgress
  import opened RecentWindow

  datatype Counts = Counts(
    hydrated: int,
    failed: int,
    pending: int,
    priorityHydrated: int,
    priorityFailed: int,
    priorityPending: int,
    recentHydrated: int,
    recentPending: int)

  function Among(details: Details, hydrated: bool): set<Url> {
    set u | u in details && details[u].Hydrated? == hydrated
  }

  /** How many entries have their address in `urls`. */
  function CountIn(entries: seq<Entry>, urls: set<Url>): nat {
    if entries == [] then 0 else (if entries[0].url in urls then 1 else 0) + CountIn(entries[1..], urls)
  }

  function AtLeastZero(n: int): int { if n < 0 then 0 else n }

  function Tally(entries: seq<Entry>, details: Details, priority: map<Url, int>, w: Window): Counts {
    var hydrated := CountIn(entries, Among(details, true));
    var failed := CountIn(entries, Among(details, false));
    var priorityHydrated := CountIn(entries, Among(details, true) * priority.Keys);
    var priorityFailed := CountIn(entries, Among(details, false) * priority.Keys);
    Counts(hydrated, failed, |entries| - hydrated - failed,
           priorityHydrated, priorityFailed, AtLeastZero(|priority| - priorityHydrated - priorityFailed),
           hydrated - priorityHydrated, RecentPending(entries, details, w))
  }

  method CountProgress(entries: seq<Entry>, details: Details, priority: map<Url, int>, w: Window) returns (c: Counts)
    ensures c == Tally(entries, details, priority, w)
  {
    var hydrated, failed, priorityHydrated, priorityFailed := 0, 0, 0, 0;
    ghost var readSet, failedSet := Among(details, true), Among(details, false);
    for i := 0 to |entries|
      invariant hydrated + CountIn(entries[i..], readSet) == CountIn(entries, readSet)
      invariant failed + CountIn(entries[i..], failedSet) == CountIn(entries, failedSet)
      invariant priorityHydrated + CountIn(entries[i..], readSet * priority.Keys) == CountIn(entries, readSet * priority.Keys)
      invariant priorityFailed + CountIn(entries[i..], failedSet * priority.Keys) == CountIn(entries, failedSet * priority.Keys)
    {
      assert entries[i..][0] == entries[i] && entries[i..][1..] == entries[i + 1..];
      var url := entries[i].url;
      if url !in details { continue; }
      var isPriority := if url in priority then 1 else 0;
      if details[url].Hydrated? {
        hydrated := hydrated + 1;
        priorityHydrated := priorityHydrated + isPriority;
      } else {
        failed := failed + 1;
        priorityFailed := priorityFailed + isPriority;
      }
    }
    assert entries[|entries|..] == [];
    var priorityPending := |priority| - priorityHydrated - priorityFailed;
    var recent := RecentWindowPending(entries, details, w);
    c := Counts(hydrated, failed, |entries| - hydrated - failed, priorityHydrated, priorityFailed,
                if priorityPending < 0 then 0 else priorityPending, hydrated - priorityHydrated, recent);
  }

  // ------------------------------------------------------------------
  // What the counts mean.
  // ------------------------------------------------------------------

  lemma {:induction false} CountsAddresses(entries: seq<Entry>, urls: set<Url>)
    requires DistinctUrls(entries)
    ensures CountIn(entries, urls) == |UrlSet(entries) * urls|
  {
    if entries == [] {
      assert UrlSet(entries) * urls == {};
    } else {
      var url, rest := entries[0].url, entries[1..];
      assert forall i :: 0 <= i < |rest| ==> rest[i] == entries[i + 1];
      CountsAddresses(rest, urls);
      assert entries == [entries[0]] + rest;
      UrlsOfConcat([entries[0]], rest);
      assert url !in UrlSet(rest);
      AddOne(url, UrlSet(rest), urls);
    }
  }

  lemma AddOne(url: Url, rest: set<Url>, urls: set<Url>)
    requires url !in rest
    ensures |({url} + rest) * urls| == (if url in urls then 1 else 0) + |rest * urls|
  {
    if url in urls {
      assert ({url} + rest) * urls == {url} + rest * urls;
    } else {
      assert ({url} + rest) * urls == rest * urls;
    }
  }

  lemma {:induction false} CountsAll(entries: seq<Entry>)
    requires DistinctUrls(entries)
    ensures |UrlSet(entries)| == |entries|
  {
    if entries == [] {
      assert UrlSet(entries) == {};
    } else {
      var rest := entries[1..];
      assert forall i :: 0 <= i < |rest| ==> rest[i] == entries[i + 1];
      CountsAll(rest);
      assert entries == [entries[0]] + rest;
      UrlsOfConcat([entries[0]], rest);
      assert entries[0].url !in UrlSet(rest);
    }
  }

  lemma ThreeWays(all: set<Url>, details: Details)
    ensures |all * Among(details, true)| + |all * Among(details, false)| + |all - details.Keys| == |all|
  {
    var a, b, c := all * Among(details, true), all * Among(details, false), all - details.Keys;
    assert all == a + b + c;
    assert a !! b && (a + b) !! c;
  }

  /** **The declared counts partition the index and the shortlist.** `pending` is the number of unread
      pages and `priorityPending` the number of unread candidates. */
  lemma CountsPartition(entries: seq<Entry>, details: Details, priority: map<Url, int>, w: Window)
    requires DistinctUrls(entries) && Shortlist(entries, priority)
    ensures var c := Tally(entries, details, priority, w);
            && c.hydrated + c.pending + c.failed == |entries|
            && c.pending == |Unread(entries, details)|
            && c.priorityHydrated + c.priorityPending + c.priorityFailed == |priority|
            && c.priorityPending == |PriorityUnread(priority, details)|
            && c.recentHydrated >= 0
  {
    IndexPartition(entries, details);
    ShortlistPartition(entries, details, priority);
    CountSubset(entries, Among(details, true) * priority.Keys, Among(details, true));
  }

  /** The indexed pages that have been read. */
  ghost function PagesRead(entries: seq<Entry>, details: Details): set<Url> {
    set u | u in UrlSet(entries) && u in details && details[u].Hydrated?
  }

  /** The indexed pages that were asked for and failed. */
  ghost function PagesFailed(entries: seq<Entry>, details: Details): set<Url> {
    set u | u in UrlSet(entries) && u in details && details[u].Failed?
  }

  /** **What each figure counts**, read off the details: pages read, failed and never asked for; the same over the
      shortlist; the pages read off it; and the open positions of the recent window. */
  lemma CountsMean(entries: seq<Entry>, details: Details, priority: map<Url, int>, w: Window)
    requires WellIndexed(entries) && Shortlist(entries, priority)
    ensures var c := Tally(entries, details, priority, w);
            && c.hydrated == |PagesRead(entries, details)| && c.failed == |PagesFailed(entries, details)|
            && c.pending == |UrlSet(entries) - details.Keys|
            && c.priorityHydrated == |PagesRead(entries, details) * priority.Keys|
            && c.priorityFailed == |PagesFailed(entries, details) * priority.Keys|
            && c.priorityPending == |priority.Keys - details.Keys|
            && c.recentHydrated == |PagesRead(entries, details) - priority.Keys|
            && c.recentPending == |Open(entries, details, w)|
  {
    CountsPartition(entries, details, priority, w);
    UnreadKeys(priority, details);
    UnreadIs(entries, details);
    ReadAndFailed(entries, details, priority.Keys);
    PendingIsOpen(entries, details, w);
    SizeApart(PagesRead(entries, details), priority.Keys);
  }

  lemma UnreadIs(entries: seq<Entry>, details: Details)
    ensures Unread(entries, details) == UrlSet(entries) - details.Keys
  {}

  lemma SizeApart(all: set<Url>, keys: set<Url>)
    ensures |all - keys| == |all| - |all * keys|
  {
    assert all == (all * keys) + (all - keys);
  }

  lemma ReadAndFailed(entries: seq<Entry>, details: Details, keys: set<Url>)
    requires DistinctUrls(entries)
    ensures CountIn(entries, Among(details, true)) == |PagesRead(entries, details)|
    ensures CountIn(entries, Among(details, false)) == |PagesFailed(entries, details)|
    ensures CountIn(entries, Among(details, true) * keys) == |PagesRead(entries, details) * keys|
    ensures CountIn(entries, Among(details, false) * keys) == |PagesFailed(entries, details) * keys|
  {
    CountsAddresses(entries, Among(details, true));
    CountsAddresses(entries, Among(details, false));
    CountsAddresses(entries, Among(details, true) * keys);
    CountsAddresses(entries, Among(details, false) * keys);
    var read, failed := UrlSet(entries) * Among(details, true), UrlSet(entries) * Among(details, false);
    assert read == PagesRead(entries, details) && failed == PagesFailed(entries, details);
    assert UrlSet(entries) * (Among(details, true) * keys) == read * keys;
    assert UrlSet(entries) * (Among(details, false) * keys) == failed * keys;
  }

  lemma {:induction false} CountSubset(entries: seq<Entry>, a: set<Url>, b: set<Url>)
    requires a <= b
    ensures CountIn(entries, a) <= CountIn(entries, b)
  {
    if entries != [] { CountSubset(entries[1..], a, b); }
  }

  lemma IndexPartition(entries: seq<Entry>, details: Details)
    requires DistinctUrls(entries)
    ensures CountIn(entries, Among(details, true)) + CountIn(entries, Among(details, false)) + |Unread(entries, details)| == |entries|
  {
    CountsAll(entries);
    CountsAddresses(entries, Among(details, true));
    CountsAddresses(entries, Among(details, false));
    ThreeWays(UrlSet(entries), details);
    assert Unread(entries, details) == UrlSet(entries) - details.Keys;
  }

  lemma ShortlistPartition(entries: seq<Entry>, details: Details, priority: map<Url, int>)
    requires DistinctUrls(entries) && Shortlist(entries, priority)
    ensures CountIn(entries, Among(details, true) * priority.Keys)
          + CountIn(entries, Among(details, false) * priority.Keys)
          + |PriorityUnread(priority, details)| == |priority|
  {
    UnreadKeys(priority, details);
    AddressesPartition(entries, details, priority.Keys);
  }

  lemma UnreadKeys(priority: map<Url, int>, details: Details)
    ensures PriorityUnread(priority, details) == priority.Keys - details.Keys && |priority.Keys| == |priority|
  {}

  lemma AddressesPartition(entries: seq<Entry>, details: Details, keys: set<Url>)
    requires DistinctUrls(entries) && keys <= UrlSet(entries)
    ensures CountIn(entries, Among(details, true) * keys) + CountIn(entries, Among(details, false) * keys)
          + |keys - details.Keys| == |keys|
  {
    CountsWithin(entries, Among(details, true), keys);
    CountsWithin(entries, Among(details, false), keys);
    ThreeWays(keys, details);
  }

  lemma CountsWithin(entries: seq<Entry>, some: set<Url>, keys: set<Url>)
    requires DistinctUrls(entries) && keys <= UrlSet(entries)
    ensures CountIn(entries, some * keys) == |keys * some|
  {
    CountsAddresses(entries, some * keys);
    assert UrlSet(entries) * (some * keys) == keys * some;
  }
}
