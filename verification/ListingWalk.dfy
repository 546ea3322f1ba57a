/** What the walk collects from a site that paginates one listing consistently:
    a prefix of that listing, and all of it unless it stopped early on a page it
    already knew. */
module ListingWalk {
  import opened Basics
  import opened ArchiveListing

  /** `e` is how position `order` of the listing is indexed: key, address and summary of the card, and its title
      or as much of it as there is room for. Only the page number is left open. */
  ghost predicate Listed(e: Entry, card: Card, order: nat, s: Settings) {
    && e.key == card.key && e.url == card.url && e.summary == card.summary && e.order == order
    && e.title <= card.title && |e.title| == Min(|card.title|, s.titleLimit)
  }

  ghost predicate Lists(entries: seq<Entry>, cards: seq<Card>, s: Settings) {
    && |entries| == |cards|
    && forall i :: 0 <= i < |entries| ==> Listed(entries[i], cards[i], i, s)
  }

  /** Every entry records the listing page it was printed on. */
  ghost predicate OnItsPage(entries: seq<Entry>, size: nat) {
    forall i :: 0 <= i < |entries| ==> entries[i].page * size <= i < entries[i].page * size + size
  }

  ghost predicate Urls(seen: set<Url>, cards: seq<Card>) {
    forall u :: u in seen <==> exists i :: 0 <= i < |cards| && cards[i].url == u
  }

  /** A listing the walk has no reason to refuse. Printed links determine addresses. */
  ghost predicate Readable(cards: seq<Card>, s: Settings) {
    && 0 < |cards| <= s.maxItems
    && (forall i :: 0 <= i < |cards| ==> cards[i].allowed && cards[i].title != "" && cards[i].url != "")
    && (forall i, j :: 0 <= i < j < |cards| ==>
          cards[i].url != cards[j].url && cards[i].href != cards[j].href && cards[i].key != cards[j].key)
  }

  function Min(a: nat, b: nat): nat { if a <= b then a else b }

  function Slice(cards: seq<Card>, at: nat, size: nat): seq<Card> {
    if at >= |cards| then [] else cards[at..Min(at + size, |cards|)]
  }

  /** `p` is page `k` of the listing, `size` cards a page; the pager may or may not name the last page. */
  ghost predicate IsPage(p: Option<ListingPage>, cards: seq<Card>, size: nat, k: nat) {
    && p.Some?
    && p.value.cards == Slice(cards, k * size, size)
    && (p.value.nextLinked <==> k * size + size < |cards|)
    && (p.value.lastPage.Some? ==> IsLastPage(p.value.lastPage.value, cards, size))
  }

  ghost predicate IsLastPage(last: nat, cards: seq<Card>, size: nat) {
    last * size < |cards| <= last * size + size
  }

  /** Every page of the listing is what the site answers, when it answers at all. */
  ghost predicate Serves(site: Site, cards: seq<Card>, size: nat) {
    size >= 1 && forall k: nat :: site(k).None? || IsPage(site(k), cards, size, k)
  }

  /** Some page that holds a part of the listing does not answer. */
  ghost predicate Unanswered(site: Site, cards: seq<Card>, size: nat) {
    exists k: nat :: k * size < |cards| && site(k).None?
  }

  ghost predicate WithinCap(cards: seq<Card>, size: nat, s: Settings) {
    |cards| <= s.maxPages * size
  }

  // ------------------------------------------------------------------

  lemma {:induction false} ReadsOnePage(cards: seq<Card>, at: nat, to: nat, page: nat, known: Known, s: Settings, r: Reading)
    requires Readable(cards, s) && at <= to <= |cards|
    requires Lists(r.entries, cards[..at], s) && Urls(r.seen, cards[..at])
    ensures var outcome := ReadCards(cards[at..to], page, known, s, r);
            && outcome.Ok?
            && Lists(outcome.value.entries, cards[..to], s)
            && Urls(outcome.value.seen, cards[..to])
    decreases |cards| - at
  {
    if at < to {
      var card := cards[at];
      assert cards[at..to][0] == card && cards[at..to][1..] == cards[at + 1..to];
      assert cards[..at + 1] == cards[..at] + [card];
      assert card.url !in r.seen;
      ReadsOnePage(cards, at + 1, to, page, known, s, Take(card, page, known, s, r));
    }
  }

  /** Reading appends; every appended entry records the page being read; and the page counts as known
      exactly when each of its cards is. */
  lemma {:induction false} ReadAppends(cards: seq<Card>, page: nat, known: Known, s: Settings, r: Reading)
    ensures var outcome := ReadCards(cards, page, known, s, r);
            outcome.Ok? ==>
              && r.entries <= outcome.value.entries
              && (forall j :: |r.entries| <= j < |outcome.value.entries| ==> outcome.value.entries[j].page == page)
              && (outcome.value.allKnown <==> r.allKnown && forall j :: 0 <= j < |cards| ==> Unchanged(cards[j], known))
    decreases |cards|
  {
    if cards != [] && Refuses(cards[0], r.seen).None? {
      var next := Take(cards[0], page, known, s, r);
      ReadAppends(cards[1..], page, known, s, next);
      assert next.entries[|r.entries|].page == page;
    }
  }

  ghost predicate FingerprintsBefore(fingerprints: set<seq<string>>, cards: seq<Card>, at: nat) {
    forall f :: f in fingerprints ==> |f| > 0 && exists i :: 0 <= i < at && i < |cards| && cards[i].href == f[0]
  }

  ghost predicate WalkedTo(st: WalkState, cards: seq<Card>, size: nat, page: nat, at: nat, s: Settings) {
    && at == page * size < |cards|
    && Lists(st.entries, cards[..at], s)
    && OnItsPage(st.entries, size)
    && Urls(st.seen, cards[..at])
    && FingerprintsBefore(st.fingerprints, cards, at)
    && (page > 0 && st.lastPage.Some? ==> IsLastPage(st.lastPage.value, cards, size))
  }

  /** The last `size` entries collected were all known and unchanged. */
  ghost predicate EndsKnown(collected: nat, cards: seq<Card>, size: nat, known: Known) {
    size <= collected <= |cards| && forall j :: collected - size <= j < collected ==> Unchanged(cards[j], known)
  }

  ghost predicate Collects(outcome: Result<Index, Refusal>, cards: seq<Card>, size: nat, full: bool, known: Known, s: Settings) {
    && outcome.Ok?
    && var entries := outcome.value.entries;
    && 0 < |entries| <= |cards|
    && Lists(entries, cards[..|entries|], s)
    && OnItsPage(entries, size)
    && (full ==> outcome.value.reachedEnd)
    && (outcome.value.reachedEnd ==> |entries| == |cards|)
    && (|entries| < |cards| ==> EndsKnown(|entries|, cards, size, known))
  }

  lemma Scales(a: nat, b: nat, n: nat)
    ensures a <= b ==> a * n <= b * n
    ensures (a + 1) * n == a * n + n
  {
    if a <= b { assert b * n == a * n + (b - a) * n; }
  }

  lemma LastPageBound(last: nat, page: nat, cards: seq<Card>, size: nat)
    requires size >= 1 && IsLastPage(last, cards, size) && page * size < |cards|
    ensures page >= last <==> page * size + size >= |cards|
  {
    Scales(page + 1, last, size);
    Scales(page, last, size);
    Scales(last, page, size);
  }

  lemma UnderCap(page: nat, cards: seq<Card>, size: nat, s: Settings)
    requires size >= 1 && WithinCap(cards, size, s) && page * size < |cards|
    ensures page < s.maxPages
  {
    Scales(s.maxPages, page, size);
  }

  lemma FreshFingerprint(st: WalkState, cards: seq<Card>, at: nat, to: nat, s: Settings)
    requires Readable(cards, s) && at < to <= |cards| && FingerprintsBefore(st.fingerprints, cards, at)
    ensures Fingerprint(cards[at..to]) !in st.fingerprints
    ensures FingerprintsBefore(st.fingerprints + {Fingerprint(cards[at..to])}, cards, to)
  {
    var f := Fingerprint(cards[at..to]);
    assert f[0] == cards[at].href;
  }

  /** Where a page that starts inside the listing ends. */
  lemma SliceIs(cards: seq<Card>, at: nat, size: nat)
    requires size >= 1 && at < |cards|
    ensures var to := Min(at + size, |cards|);
            at < to <= |cards| && to <= at + size && Slice(cards, at, size) == cards[at..to]
  {}

  /** Reading one page of the listing: what the walk holds afterwards. */
  lemma SliceOnPage(cards: seq<Card>, size: nat, page: nat, at: nat, to: nat, known: Known, s: Settings, start: Reading)
    returns (r: Reading)
    requires Readable(cards, s) && at == page * size && at <= to <= at + size && to <= |cards|
    requires Lists(start.entries, cards[..at], s) && Urls(start.seen, cards[..at]) && OnItsPage(start.entries, size) && start.allKnown
    ensures ReadCards(cards[at..to], page, known, s, start) == Ok(r)
    ensures Lists(r.entries, cards[..to], s) && Urls(r.seen, cards[..to]) && OnItsPage(r.entries, size)
    ensures r.allKnown <==> forall j :: at <= j < to ==> Unchanged(cards[j], known)
  {
    r := SliceRead(cards, at, to, page, known, s, start);
    PagesAppended(start.entries, r.entries, size, page, at);
  }

  lemma SliceRead(cards: seq<Card>, at: nat, to: nat, page: nat, known: Known, s: Settings, start: Reading) returns (r: Reading)
    requires Readable(cards, s) && at <= to <= |cards|
    requires Lists(start.entries, cards[..at], s) && Urls(start.seen, cards[..at]) && start.allKnown
    ensures ReadCards(cards[at..to], page, known, s, start) == Ok(r)
    ensures Lists(r.entries, cards[..to], s) && Urls(r.seen, cards[..to])
    ensures start.entries <= r.entries && forall j :: at <= j < |r.entries| ==> r.entries[j].page == page
    ensures r.allKnown <==> forall j :: at <= j < to ==> Unchanged(cards[j], known)
  {
    ReadsOnePage(cards, at, to, page, known, s, start);
    ReadAppends(cards[at..to], page, known, s, start);
    r := ReadCards(cards[at..to], page, known, s, start).value;
    SliceKnown(cards, at, to, known);
  }

  lemma SliceKnown(cards: seq<Card>, at: nat, to: nat, known: Known)
    requires at <= to <= |cards|
    ensures (forall j :: 0 <= j < to - at ==> Unchanged(cards[at..to][j], known))
       <==> (forall j :: at <= j < to ==> Unchanged(cards[j], known))
  {
    var slice := cards[at..to];
    if forall j :: 0 <= j < to - at ==> Unchanged(slice[j], known) {
      forall j | at <= j < to ensures Unchanged(cards[j], known) { assert slice[j - at] == cards[j]; }
    }
    if forall j :: at <= j < to ==> Unchanged(cards[j], known) {
      forall j | 0 <= j < to - at ensures Unchanged(slice[j], known) { assert slice[j] == cards[at + j]; }
    }
  }

  lemma PagesAppended(before: seq<Entry>, after: seq<Entry>, size: nat, page: nat, at: nat)
    requires OnItsPage(before, size) && before <= after && |before| == at == page * size && |after| <= at + size
    requires forall j :: at <= j < |after| ==> after[j].page == page
    ensures OnItsPage(after, size)
  {
    forall i | 0 <= i < |after| ensures after[i].page * size <= i < after[i].page * size + size {
      if i < at { assert after[i] == before[i]; }
    }
  }

  lemma NextPage(cards: seq<Card>, size: nat, page: nat, at: nat, to: nat, s: Settings, next: WalkState)
    requires at == page * size && to == at + size < |cards|
    requires Lists(next.entries, cards[..to], s) && OnItsPage(next.entries, size) && Urls(next.seen, cards[..to])
    requires FingerprintsBefore(next.fingerprints, cards, to)
    requires next.lastPage.Some? ==> IsLastPage(next.lastPage.value, cards, size)
    ensures WalkedTo(next, cards, size, page + 1, to, s)
  {
    Scales(page, page, size);
  }

  /** Stopping on this page is sound: at the end of the listing, or on a page that was all known. */
  lemma PageSettles(cards: seq<Card>, size: nat, at: nat, to: nat, full: bool, known: Known, s: Settings, r: Reading, pages: nat)
    requires at < to == Min(at + size, |cards|)
    requires Lists(r.entries, cards[..to], s) && OnItsPage(r.entries, size)
    requires r.allKnown <==> forall j :: at <= j < to ==> Unchanged(cards[j], known)
    ensures to == |cards| ==> Collects(Finish(r.entries, pages, true, false), cards, size, full, known, s)
    ensures !full && r.allKnown ==>
              Collects(Finish(r.entries, pages, false, true), cards, size, full, known, s)
  {}

  /** One turn of the page loop on a page it has no reason to refuse. */
  lemma WalkTurn(site: Site, full: bool, known: Known, s: Settings, page: nat, st: WalkState, p: ListingPage, r: Reading)
    returns (last: Option<nat>, next: WalkState)
    requires page < s.maxPages && site(page) == Some(p) && p.cards != []
    requires Fingerprint(p.cards) !in st.fingerprints
    requires ReadCards(p.cards, page, known, s, Reading(st.entries, st.seen, true)) == Ok(r)
    requires |r.entries| <= s.maxItems
    ensures last == PagerEnd(p, page, st.lastPage, s)
    ensures next == WalkState(r.entries, r.seen, st.fingerprints + {Fingerprint(p.cards)},
                              Consecutive(full, st.consecutiveKnown, r.allKnown), last)
    ensures Walk(site, full, known, s, page, st) ==
            if last.Some? && page >= last.value then Finish(r.entries, page + 1, true, false)
            else if !full && next.consecutiveKnown >= s.knownPagesBeforeStop then Finish(r.entries, page + 1, false, true)
            else if !p.nextLinked then Finish(r.entries, page + 1, true, false)
            else Walk(site, full, known, s, page + 1, next)
  {
    last := PagerEnd(p, page, st.lastPage, s);
    next := WalkState(r.entries, r.seen, st.fingerprints + {Fingerprint(p.cards)},
                      Consecutive(full, st.consecutiveKnown, r.allKnown), last);
  }

  /** Collected, or refused because a page of the listing did not answer. */
  ghost predicate CollectsOrFails(outcome: Result<Index, Refusal>, site: Site, cards: seq<Card>, size: nat, full: bool, known: Known, s: Settings) {
    || Collects(outcome, cards, size, full, known, s)
    || (outcome == Err(FetchFailed) && Unanswered(site, cards, size))
  }

  lemma {:induction false} WalkCollects(site: Site, cards: seq<Card>, size: nat, full: bool, known: Known, s: Settings,
                                        page: nat, at: nat, st: WalkState)
    requires Serves(site, cards, size) && Readable(cards, s) && WithinCap(cards, size, s)
    requires s.knownPagesBeforeStop >= 1
    requires WalkedTo(st, cards, size, page, at, s)
    ensures CollectsOrFails(Walk(site, full, known, s, page, st), site, cards, size, full, known, s)
    decreases |cards| - at
  {
    UnderCap(page, cards, size, s);
    if site(page).Some? {
      assert IsPage(site(page), cards, size, page);
      var to := Min(at + size, |cards|);
      SliceIs(cards, at, size);
      var r := SliceOnPage(cards, size, page, at, to, known, s, Reading(st.entries, st.seen, true));
      FreshFingerprint(st, cards, at, to, s);
      var last, next := WalkTurn(site, full, known, s, page, st, site(page).value, r);
      if last.Some? { LastPageBound(last.value, page, cards, size); }
      if to < |cards| {
        NextPage(cards, size, page, at, to, s, next);
        WalkCollects(site, cards, size, full, known, s, page + 1, to, next);
      }
      PageSettles(cards, size, at, to, full, known, s, r, page + 1);
    }
  }

  /** From the first page: a consistent listing is refused only when one of its pages does not answer; a
      full walk indexes all of it, and an incremental walk a prefix that ends either at the end or on
      known pages. */
  lemma CollectsListing(site: Site, cards: seq<Card>, size: nat, full: bool, known: Known, s: Settings)
    requires Serves(site, cards, size) && Readable(cards, s) && WithinCap(cards, size, s)
    requires s.knownPagesBeforeStop >= 1
    ensures CollectsOrFails(Walk(site, full, known, s, 0, START), site, cards, size, full, known, s)
  {
    assert 0 * size == 0;
    WalkCollects(site, cards, size, full, known, s, 0, 0, START);
  }
}
