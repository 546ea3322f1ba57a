/** Combining one walk with the previous snapshot: entries and details carried forward.

    Source: apps/legal_work/archived_topic_sync.py, `_merge_with_previous` and
    `_carry_forward_details`. */
module ArchiveMerge {
  import opened Basics
  import opened ArchiveListing
  import opened ListingWalk

  datatype Page = Page(
    title: string,
    body: string,
    published: Option<int>,
    deadline: Option<int>,
    organization: string,
    hash: string)

  /** A detail page once somebody has asked for it. "Pending" is the absence of one. */
  datatype Detail = Hydrated(page: Page) | Failed(code: string)

  type Details = map<Url, Detail>

  /** One stored row; `detail` is `None` while the row is pending. */
  datatype Item = Item(entry: Entry, detail: Option<Detail>)

  ghost predicate DistinctUrls(entries: seq<Entry>) {
    forall i, j :: 0 <= i < j < |entries| ==> entries[i].url != entries[j].url
  }

  /** `source_order` counts 0..n-1 along the index and no address repeats. */
  ghost predicate WellIndexed(entries: seq<Entry>) {
    && (forall i :: 0 <= i < |entries| ==> entries[i].order == i)
    && DistinctUrls(entries)
  }

  function UrlSet(entries: seq<Entry>): set<Url> {
    set i | 0 <= i < |entries| :: entries[i].url
  }

  function EntriesOf(items: seq<Item>): (entries: seq<Entry>)
    ensures |entries| == |items|
    ensures forall i :: 0 <= i < |items| ==> entries[i] == items[i].entry
  {
    seq(|items|, i requires 0 <= i < |items| => items[i].entry)
  }

  // ------------------------------------------------------------------
  // Merging the index.
  // ------------------------------------------------------------------

  function Unvisited(items: seq<Item>, seen: set<Url>, order: nat): seq<Entry> {
    if items == [] then []
    else if items[0].entry.url in seen then Unvisited(items[1..], seen, order)
    else [items[0].entry.(order := order)] + Unvisited(items[1..], seen, order + 1)
  }

  function Merge(walked: seq<Entry>, previous: seq<Item>, full: bool): seq<Entry> {
    if full then walked else walked + Unvisited(previous, UrlSet(walked), |walked|)
  }

  method MergeWithPrevious(walked: seq<Entry>, previous: seq<Item>, full: bool) returns (merged: seq<Entry>)
    ensures merged == Merge(walked, previous, full)
  {
    var seen := UrlSet(walked);
    merged := walked;
    if full { return; }
    var order := |merged|;
    for i := 0 to |previous|
      invariant order == |merged|
      invariant merged + Unvisited(previous[i..], seen, order) == Merge(walked, previous, false)
    {
      assert previous[i..][0] == previous[i] && previous[i..][1..] == previous[i + 1..];
      var item := previous[i];
      if item.entry.url in seen { continue; }
      merged := merged + [item.entry.(order := order)];
      order := order + 1;
    }
    assert previous[|previous|..] == [];
  }

  // ------------------------------------------------------------------
  // Carrying details forward.
  // ------------------------------------------------------------------

  function Stored(previous: seq<Item>, url: Url): Option<Detail> {
    if previous == [] then None
    else if previous[0].entry.url == url then previous[0].detail
    else Stored(previous[1..], url)
  }

  function Carried(entries: seq<Entry>, previous: seq<Item>): Details {
    map u | u in UrlSet(entries) && Stored(previous, u).Some? :: Stored(previous, u).value
  }

  method CarryForwardDetails(entries: seq<Entry>, previous: seq<Item>) returns (details: Details)
    ensures details == Carried(entries, previous)
  {
    details := map[];
    for i := 0 to |entries|
      invariant details == Carried(entries[..i], previous)
    {
      assert UrlSet(entries[..i + 1]) == UrlSet(entries[..i]) + {entries[i].url} by {
        assert entries[..i + 1][i] == entries[i];
        assert forall j :: 0 <= j < i ==> entries[..i + 1][j] == entries[..i][j];
      }
      var stored := Stored(previous, entries[i].url);
      if stored.Some? {
        details := details[entries[i].url := stored.value];
      }
    }
    assert entries[..|entries|] == entries;
  }

  lemma {:induction false} StoredAt(previous: seq<Item>, k: nat)
    requires k < |previous| && DistinctUrls(EntriesOf(previous))
    ensures Stored(previous, previous[k].entry.url) == previous[k].detail
  {
    if k > 0 {
      var rest := previous[1..];
      assert DistinctUrls(EntriesOf(rest)) by {
        assert forall i :: 0 <= i < |rest| ==> EntriesOf(rest)[i] == EntriesOf(previous)[i + 1];
      }
      assert EntriesOf(previous)[0].url != EntriesOf(previous)[k].url;
      StoredAt(rest, k - 1);
    }
  }

  lemma {:induction false} StoredSomewhere(previous: seq<Item>, url: Url)
    ensures Stored(previous, url).Some? ==>
              exists k :: 0 <= k < |previous| && previous[k].entry.url == url && previous[k].detail == Stored(previous, url)
  {
    if previous != [] && previous[0].entry.url != url {
      StoredSomewhere(previous[1..], url);
      if Stored(previous, url).Some? {
        var k :| 0 <= k < |previous[1..]|
                 && previous[1..][k].entry.url == url && previous[1..][k].detail == Stored(previous[1..], url);
        assert previous[k + 1] == previous[1..][k];
      }
    }
  }

  // ------------------------------------------------------------------
  // What merging keeps.
  // ------------------------------------------------------------------

  lemma {:induction false} UnvisitedShape(items: seq<Item>, seen: set<Url>, order: nat)
    requires DistinctUrls(EntriesOf(items))
    ensures var u := Unvisited(items, seen, order);
            && (forall i :: 0 <= i < |u| ==> u[i].order == order + i)
            && DistinctUrls(u)
            && UrlSet(u) == UrlSet(EntriesOf(items)) - seen
  {
    if items != [] {
      var rest := items[1..];
      var url := items[0].entry.url;
      assert forall i :: 0 <= i < |rest| ==> EntriesOf(rest)[i] == EntriesOf(items)[i + 1];
      assert UrlSet(EntriesOf(items)) == {url} + UrlSet(EntriesOf(rest)) by {
        assert EntriesOf(items) == [items[0].entry] + EntriesOf(rest);
        UrlsOfConcat([items[0].entry], EntriesOf(rest));
      }
      assert url !in UrlSet(EntriesOf(rest));
      if url in seen {
        UnvisitedShape(rest, seen, order);
      } else {
        UnvisitedShape(rest, seen, order + 1);
        var head := [items[0].entry.(order := order)];
        UrlsOfConcat(head, Unvisited(rest, seen, order + 1));
        ConcatDistinct(head, Unvisited(rest, seen, order + 1));
      }
    }
  }

  lemma UrlsOfConcat(a: seq<Entry>, b: seq<Entry>)
    ensures UrlSet(a + b) == UrlSet(a) + UrlSet(b)
    ensures |a| == 1 ==> UrlSet(a) == {a[0].url}
  {
    forall i | 0 <= i < |b| ensures b[i].url in UrlSet(a + b) { assert (a + b)[|a| + i] == b[i]; }
    forall i | 0 <= i < |a| ensures a[i].url in UrlSet(a + b) { assert (a + b)[i] == a[i]; }
  }

  lemma ConcatDistinct(a: seq<Entry>, b: seq<Entry>)
    requires DistinctUrls(a) && DistinctUrls(b) && UrlSet(a) !! UrlSet(b)
    ensures DistinctUrls(a + b)
  {
    forall i, j | 0 <= i < |a| && 0 <= j < |b| ensures a[i].url != b[j].url {
      assert a[i].url in UrlSet(a) && b[j].url in UrlSet(b);
    }
  }

  /** An incremental merge loses no indexed address, invents none, repeats none, and leaves
      `source_order` counting 0..n-1. */
  lemma MergeKeepsIndex(walked: seq<Entry>, previous: seq<Item>)
    requires WellIndexed(walked) && WellIndexed(EntriesOf(previous))
    ensures WellIndexed(Merge(walked, previous, false))
    ensures UrlSet(Merge(walked, previous, false)) == UrlSet(walked) + UrlSet(EntriesOf(previous))
  {
    var tail := Unvisited(previous, UrlSet(walked), |walked|);
    UnvisitedShape(previous, UrlSet(walked), |walked|);
    UrlsOfConcat(walked, tail);
    ConcatDistinct(walked, tail);
  }

  // ------------------------------------------------------------------
  // The incremental index is the full one.
  // ------------------------------------------------------------------

  function KnownFrom(previous: seq<Item>): Known {
    Known(set i | 0 <= i < |previous| :: previous[i].entry.key,
          map i | 0 <= i < |previous| && LastWithKey(previous, i)
              :: previous[i].entry.key := Signature(previous[i].entry.title, previous[i].entry.summary))
  }

  /** A later row with the same key overwrites an earlier one in the signature table. */
  predicate LastWithKey(previous: seq<Item>, i: nat)
    requires i < |previous|
  {
    forall j :: i < j < |previous| ==> previous[j].entry.key != previous[i].entry.key
  }

  /** The same entries in the same places; only the recorded page may differ. */
  ghost predicate SameIndex(a: seq<Entry>, b: seq<Entry>) {
    |a| == |b| && forall i :: 0 <= i < |a| ==> a[i] == b[i].(page := a[i].page)
  }

  lemma {:induction false} UnvisitedSuffix(items: seq<Item>, k: nat, seen: set<Url>, order: nat)
    requires k <= |items| && DistinctUrls(EntriesOf(items))
    requires forall i :: 0 <= i < |items| ==> (items[i].entry.url in seen <==> i < k)
    ensures var u := Unvisited(items, seen, order);
            |u| == |items| - k && forall i :: 0 <= i < |u| ==> u[i] == items[k + i].entry.(order := order + i)
  {
    if items != [] {
      var rest := items[1..];
      assert DistinctUrls(EntriesOf(rest)) by {
        assert forall i :: 0 <= i < |rest| ==> EntriesOf(rest)[i] == EntriesOf(items)[i + 1];
      }
      if k > 0 { UnvisitedSuffix(rest, k - 1, seen, order); } else { UnvisitedSuffix(rest, 0, seen, order + 1); }
    }
  }

  lemma ListedUrl(entries: seq<Entry>, cards: seq<Card>, s: Settings)
    requires Lists(entries, cards, s)
    ensures forall i :: 0 <= i < |cards| ==> entries[i].url == cards[i].url
  {
    assert forall i :: 0 <= i < |cards| ==> Listed(entries[i], cards[i], i, s);
  }

  /** The walk visited exactly the first rows of the previous index. */
  lemma VisitedRows(walked: seq<Entry>, rows: seq<Entry>, added: seq<Card>, earlier: seq<Card>, s: Settings)
    requires Readable(added + earlier, s) && Lists(rows, earlier, s)
    requires |added| <= |walked| <= |added + earlier| && Lists(walked, (added + earlier)[..|walked|], s)
    ensures DistinctUrls(rows)
    ensures forall i :: 0 <= i < |rows| ==> (rows[i].url in UrlSet(walked) <==> i < |walked| - |added|)
  {
    var cards := added + earlier;
    ListedUrl(rows, earlier, s);
    ListedUrl(walked, cards[..|walked|], s);
    assert forall i :: 0 <= i < |earlier| ==> cards[|added| + i] == earlier[i];
    forall i | 0 <= i < |rows| ensures rows[i].url in UrlSet(walked) <==> i < |walked| - |added| {
      assert rows[i].url == cards[|added| + i].url;
      if i < |walked| - |added| { assert walked[|added| + i].url == rows[i].url; }
    }
  }

  /** Once the walk has passed every new card, the unvisited rows complete the listing. */
  lemma MergeCompletes(walked: seq<Entry>, previous: seq<Item>, added: seq<Card>, earlier: seq<Card>, s: Settings)
    requires Readable(added + earlier, s)
    requires Lists(EntriesOf(previous), earlier, s)
    requires |added| <= |walked| <= |added + earlier| && Lists(walked, (added + earlier)[..|walked|], s)
    ensures Lists(Merge(walked, previous, false), added + earlier, s)
  {
    VisitedRows(walked, EntriesOf(previous), added, earlier, s);
    VisitedMerge(walked, previous, added, earlier, s);
  }

  lemma VisitedMerge(walked: seq<Entry>, previous: seq<Item>, added: seq<Card>, earlier: seq<Card>, s: Settings)
    requires Lists(EntriesOf(previous), earlier, s) && DistinctUrls(EntriesOf(previous))
    requires |added| <= |walked| <= |added + earlier| && Lists(walked, (added + earlier)[..|walked|], s)
    requires forall i :: 0 <= i < |previous| ==> (EntriesOf(previous)[i].url in UrlSet(walked) <==> i < |walked| - |added|)
    ensures Lists(Merge(walked, previous, false), added + earlier, s)
  {
    MergeIs(walked, previous, |walked| - |added|);
    MergedLists(Merge(walked, previous, false), walked, EntriesOf(previous), added, earlier, s);
  }

  /** If the walk visited exactly the first `k` rows, the merge is the walk and then the other rows. */
  lemma MergeIs(walked: seq<Entry>, previous: seq<Item>, k: nat)
    requires k <= |previous| && DistinctUrls(EntriesOf(previous))
    requires forall i :: 0 <= i < |previous| ==> (EntriesOf(previous)[i].url in UrlSet(walked) <==> i < k)
    ensures var merged := Merge(walked, previous, false);
            && |merged| == |walked| + |previous| - k && merged[..|walked|] == walked
            && forall i :: |walked| <= i < |merged| ==> merged[i] == EntriesOf(previous)[i - |walked| + k].(order := i)
  {
    UnvisitedSuffix(previous, k, UrlSet(walked), |walked|);
  }

  lemma MergedLists(merged: seq<Entry>, walked: seq<Entry>, rows: seq<Entry>, added: seq<Card>, earlier: seq<Card>, s: Settings)
    requires Lists(rows, earlier, s)
    requires |added| <= |walked| <= |added + earlier| && Lists(walked, (added + earlier)[..|walked|], s)
    requires |merged| == |added + earlier| && merged[..|walked|] == walked
    requires forall i :: |walked| <= i < |merged| ==> merged[i] == rows[i - |added|].(order := i)
    ensures Lists(merged, added + earlier, s)
  {
    var cards := added + earlier;
    forall i | 0 <= i < |merged| ensures Listed(merged[i], cards[i], i, s) {
      if i >= |walked| {
        assert Listed(rows[i - |added|], earlier[i - |added|], i - |added|, s);
      } else {
        assert merged[i] == merged[..|walked|][i];
        assert Listed(walked[i], cards[..|walked|][i], i, s);
      }
    }
  }

  /** A card added at the front has a key no earlier row has, so it is not known. */
  lemma NewCardUnknown(j: nat, previous: seq<Item>, added: seq<Card>, earlier: seq<Card>, s: Settings)
    requires Readable(added + earlier, s) && j < |added|
    requires Lists(EntriesOf(previous), earlier, s)
    ensures !Unchanged((added + earlier)[j], KnownFrom(previous))
  {
    var cards := added + earlier;
    forall i | 0 <= i < |previous| ensures previous[i].entry.key != cards[j].key {
      assert Listed(EntriesOf(previous)[i], earlier[i], i, s);
      assert cards[|added| + i] == earlier[i];
    }
  }

  /** A walk that stops on known pages has already passed every card added at the front. */
  lemma StopsPastFresh(collected: nat, previous: seq<Item>, added: seq<Card>, earlier: seq<Card>, size: nat, s: Settings)
    requires Readable(added + earlier, s) && size >= 1
    requires Lists(EntriesOf(previous), earlier, s)
    requires EndsKnown(collected, added + earlier, size, KnownFrom(previous))
    ensures |added| <= collected
  {
    if collected - size < |added| { NewCardUnknown(collected - size, previous, added, earlier, s); }
  }

  /** A walk that was not refused, merged with the index of the earlier listing, indexes today's listing. */
  lemma MergeListsTheDay(site: Site, size: nat, added: seq<Card>, earlier: seq<Card>, previous: seq<Item>, s: Settings)
    requires Serves(site, added + earlier, size) && Readable(added + earlier, s) && WithinCap(added + earlier, size, s)
    requires s.knownPagesBeforeStop >= 1
    requires Lists(EntriesOf(previous), earlier, s)
    ensures var inc := Walk(site, false, KnownFrom(previous), s, 0, START);
            inc.Ok? ==> Lists(Merge(inc.value.entries, previous, false), added + earlier, s)
  {
    var cards := added + earlier;
    CollectsListing(site, cards, size, false, KnownFrom(previous), s);
    var outcome := Walk(site, false, KnownFrom(previous), s, 0, START);
    if outcome.Ok? {
      var inc := outcome.value.entries;
      if |inc| < |cards| { StopsPastFresh(|inc|, previous, added, earlier, size, s); }
      MergeCompletes(inc, previous, added, earlier, s);
    }
  }

  lemma SameListing(a: seq<Entry>, b: seq<Entry>, cards: seq<Card>, s: Settings)
    requires Lists(a, cards, s) && Lists(b, cards, s)
    ensures SameIndex(a, b)
  {
    forall i | 0 <= i < |a| ensures a[i] == b[i].(page := a[i].page) {
      assert Listed(a[i], cards[i], i, s) && Listed(b[i], cards[i], i, s);
    }
  }

  /** **The incremental index equals the full one.** If the archive only grew at the front since the
      previous index was complete, the early-stopping walk merged with that index is the index a full
      walk would have produced, for every page size and every stop count of at least one. Neither walk
      is refused while every page answers. */
  lemma IncrementalEqualsFull(site: Site, size: nat, added: seq<Card>, earlier: seq<Card>, previous: seq<Item>, s: Settings)
    requires Serves(site, added + earlier, size) && Readable(added + earlier, s) && WithinCap(added + earlier, size, s)
    requires s.knownPagesBeforeStop >= 1
    requires Lists(EntriesOf(previous), earlier, s)
    ensures var inc := Walk(site, false, KnownFrom(previous), s, 0, START);
            var full := Walk(site, true, KnownFrom(previous), s, 0, START);
            && (inc.Ok? ==> Lists(Merge(inc.value.entries, previous, false), added + earlier, s))
            && (inc.Ok? && full.Ok? ==>
                  && full.value.reachedEnd
                  && SameIndex(Merge(inc.value.entries, previous, false), Merge(full.value.entries, previous, true)))
            && (!Unanswered(site, added + earlier, size) ==> inc.Ok? && full.Ok?)
  {
    var cards, known := added + earlier, KnownFrom(previous);
    MergeListsTheDay(site, size, added, earlier, previous, s);
    CollectsListing(site, cards, size, false, known, s);
    CollectsListing(site, cards, size, true, known, s);
    var inc, full := Walk(site, false, known, s, 0, START), Walk(site, true, known, s, 0, START);
    if inc.Ok? && full.Ok? {
      assert cards[..|cards|] == cards;
      SameListing(Merge(inc.value.entries, previous, false), full.value.entries, cards, s);
    }
  }
}
