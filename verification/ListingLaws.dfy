/** What a listing walk refuses, where it stops, and which edits it notices.

    Source: apps/legal_work/archived_topics.py:223-329, apps/legal_work/archived_topic_sync.py:175-185. */
module ListingLaws {
  import opened Basics
  import opened ArchiveListing
  import opened ListingWalk
  import opened ArchiveMerge

  // ------------------------------------------------------------------
  // Which cards are accepted.
  // ------------------------------------------------------------------

  /** The card at `k` is admissible after `seen` and the cards before it. */
  ghost predicate Admissible(cards: seq<Card>, seen: set<Url>, k: nat)
    requires k < |cards|
  {
    && cards[k].allowed && cards[k].title != "" && cards[k].url !in seen
    && forall j :: 0 <= j < k ==> cards[j].url != cards[k].url
  }

  /** **A page is accepted iff every card is allowed, titled and new**; otherwise the refusal names what is wrong
      with the first card that is not: its link before its repetition before its title. */
  lemma {:induction false} AcceptedIff(cards: seq<Card>, page: nat, known: Known, s: Settings, r: Reading) returns (k: nat)
    ensures var outcome := ReadCards(cards, page, known, s, r);
            && (outcome.Ok? <==> forall i :: 0 <= i < |cards| ==> Admissible(cards, r.seen, i))
            && (outcome.Err? ==>
                  && k < |cards| && !Admissible(cards, r.seen, k)
                  && (forall i :: 0 <= i < k ==> Admissible(cards, r.seen, i))
                  && (outcome.error == ForbiddenLink <==> !cards[k].allowed)
                  && (outcome.error == MissingTitle ==> cards[k].title == "" && cards[k].allowed)
                  && (outcome.error == RepeatedLink <==>
                        cards[k].allowed && (cards[k].url in r.seen || exists j :: 0 <= j < k && cards[j].url == cards[k].url))
                  && outcome.error in {ForbiddenLink, RepeatedLink, MissingTitle})
    decreases |cards|
  {
    k := 0;
    if cards != [] {
      if Refuses(cards[0], r.seen).None? {
        var next := Take(cards[0], page, known, s, r);
        var i := AcceptedIff(cards[1..], page, known, s, next);
        k := i + 1;
        AdmissibleCons(cards, r.seen);
        if ReadCards(cards, page, known, s, r).Err? {
          assert cards[1..][i] == cards[k];
          assert forall j :: 0 <= j < i ==> cards[1..][j] == cards[j + 1];
          forall m | 0 <= m < k ensures Admissible(cards, r.seen, m) {
            if m > 0 { assert Admissible(cards[1..], r.seen + {cards[0].url}, m - 1); }
          }
        }
      } else {
        assert !Admissible(cards, r.seen, 0);
      }
    }
  }

  lemma AdmissibleCons(cards: seq<Card>, seen: set<Url>)
    requires cards != [] && Admissible(cards, seen, 0)
    ensures forall i :: 0 <= i < |cards| - 1 ==> (Admissible(cards[1..], seen + {cards[0].url}, i) <==> Admissible(cards, seen, i + 1))
    ensures (forall i :: 0 <= i < |cards[1..]| ==> Admissible(cards[1..], seen + {cards[0].url}, i))
       <==> (forall i :: 0 <= i < |cards| ==> Admissible(cards, seen, i))
  {
    var rest, more := cards[1..], seen + {cards[0].url};
    assert forall j :: 0 <= j < |rest| ==> rest[j] == cards[j + 1];
    forall i | 0 <= i < |rest| ensures Admissible(rest, more, i) <==> Admissible(cards, seen, i + 1) {
      if Admissible(rest, more, i) {
        forall j | 0 <= j < i + 1 ensures cards[j].url != cards[i + 1].url {
          if j > 0 { assert rest[j - 1].url != rest[i].url; }
        }
      }
      if Admissible(cards, seen, i + 1) {
        assert cards[0].url != cards[i + 1].url;
        forall j | 0 <= j < i ensures rest[j].url != rest[i].url { assert cards[j + 1].url != cards[i + 1].url; }
      }
    }
    if forall i :: 0 <= i < |rest| ==> Admissible(rest, more, i) {
      forall i | 0 <= i < |cards| ensures Admissible(cards, seen, i) { if i > 0 { assert Admissible(rest, more, i - 1); } }
    }
    if forall i :: 0 <= i < |cards| ==> Admissible(cards, seen, i) {
      forall i | 0 <= i < |rest| ensures Admissible(rest, more, i) { assert Admissible(cards, seen, i + 1); }
    }
  }

  /** **An accepted walk stays within its limits**: not empty, not above the item cap, not past the page cap; a full
      walk never stops early, and stopping early is not reaching the end. */
  lemma {:induction false} WalkWithinLimits(site: Site, full: bool, known: Known, s: Settings, page: nat, st: WalkState)
    requires |st.entries| <= s.maxItems && page <= s.maxPages
    ensures var outcome := Walk(site, full, known, s, page, st);
            outcome.Ok? ==>
              && 0 < |outcome.value.entries| <= s.maxItems
              && page <= outcome.value.pagesFetched <= s.maxPages
              && (full ==> !outcome.value.stoppedEarly) && !(outcome.value.stoppedEarly && outcome.value.reachedEnd)
    decreases s.maxPages - page
  {
    if page < s.maxPages && site(page).Some? {
      var p := site(page).value;
      var read := ReadCards(p.cards, page, known, s, Reading(st.entries, st.seen, true));
      if read.Ok? && |read.value.entries| <= s.maxItems {
        var r := read.value;
        WalkWithinLimits(site, full, known, s, page + 1,
                         WalkState(r.entries, r.seen, st.fingerprints + {Fingerprint(p.cards)},
                                   Consecutive(full, st.consecutiveKnown, r.allKnown), PagerEnd(p, page, st.lastPage, s)));
      }
    }
  }

  /** A site that answers every request with one and the same page is refused as repeating it. */
  lemma RepeatedPageRefused(p: ListingPage, full: bool, s: Settings)
    requires p.cards != [] && p.nextLinked && p.lastPage.None? && |p.cards| <= s.maxItems && s.maxPages >= 2
    requires full || s.knownPagesBeforeStop >= 1
    requires forall i :: 0 <= i < |p.cards| ==> Admissible(p.cards, {}, i)
    ensures Walk(_ => Some(p), full, Known({}, map[]), s, 0, START) == Err(RepeatedPage)
  {
    var site: Site := _ => Some(p);
    var known := Known({}, map[]);
    var k := AcceptedIff(p.cards, 0, known, s, Reading([], {}, true));
    EntriesGrow(p.cards, 0, known, s, Reading([], {}, true));
    ReadAppends(p.cards, 0, known, s, Reading([], {}, true));
    var r := ReadCards(p.cards, 0, known, s, Reading([], {}, true)).value;
    assert !Unchanged(p.cards[0], known);
    var last, next := WalkTurn(site, full, known, s, 0, START, p, r);
  }

  /** Pages that go on: cards, a next link and no usable word from the pager. */
  ghost predicate GoesOn(p: Option<ListingPage>, s: Settings) {
    p.Some? ==> p.value.cards != [] && p.value.nextLinked && (p.value.lastPage.Some? ==> p.value.lastPage.value >= s.maxPages)
  }

  /** **A walk cut off by the page cap does not claim to have reached the end**; a full one then fetched every page it may. */
  lemma {:induction false} CappedWalk(site: Site, full: bool, known: Known, s: Settings, page: nat, st: WalkState)
    requires page <= s.maxPages && st.lastPage.None? && forall k: nat :: GoesOn(site(k), s)
    ensures var outcome := Walk(site, full, known, s, page, st);
            outcome.Ok? ==> !outcome.value.reachedEnd && (full ==> outcome.value.pagesFetched == s.maxPages)
    decreases s.maxPages - page
  {
    if page < s.maxPages && site(page).Some? {
      var p := site(page).value;
      assert GoesOn(site(page), s);
      var read := ReadCards(p.cards, page, known, s, Reading(st.entries, st.seen, true));
      if read.Ok? {
        var r := read.value;
        CappedWalk(site, full, known, s, page + 1,
                   WalkState(r.entries, r.seen, st.fingerprints + {Fingerprint(p.cards)},
                             Consecutive(full, st.consecutiveKnown, r.allKnown), PagerEnd(p, page, st.lastPage, s)));
      }
    }
  }

  /** **An empty page is the end**: pages that go on up to page `k`, which has no cards. */
  lemma {:induction false} EmptyPageEnds(site: Site, known: Known, s: Settings, page: nat, st: WalkState, k: nat)
    requires page <= k < s.maxPages && st.lastPage.None? && (forall j: nat :: j < k ==> GoesOn(site(j), s))
    requires site(k).Some? && site(k).value.cards == []
    ensures var outcome := Walk(site, true, known, s, page, st);
            outcome.Ok? ==> outcome.value.reachedEnd && outcome.value.pagesFetched == k + 1
    decreases k - page
  {
    if page < k && site(page).Some? {
      var p := site(page).value;
      assert GoesOn(site(page), s);
      var read := ReadCards(p.cards, page, known, s, Reading(st.entries, st.seen, true));
      if read.Ok? {
        var r := read.value;
        EmptyPageEnds(site, known, s, page + 1,
                      WalkState(r.entries, r.seen, st.fingerprints + {Fingerprint(p.cards)},
                                Consecutive(true, st.consecutiveKnown, r.allKnown), PagerEnd(p, page, st.lastPage, s)), k);
      }
    }
  }

  lemma {:induction false} EntriesGrow(cards: seq<Card>, page: nat, known: Known, s: Settings, r: Reading)
    ensures var outcome := ReadCards(cards, page, known, s, r);
            outcome.Ok? ==> |outcome.value.entries| == |r.entries| + |cards|
    decreases |cards|
  {
    if cards != [] && Refuses(cards[0], r.seen).None? { EntriesGrow(cards[1..], page, known, s, Take(cards[0], page, known, s, r)); }
  }

  // ------------------------------------------------------------------
  // Known pages.
  // ------------------------------------------------------------------

  /** The separator of the two signed texts does not occur in the first. */
  predicate Separable(title: string) { '\U{1f}' !in title }

  lemma {:induction false} SplitOnce(a: string, b: string, c: string, d: string)
    requires Separable(a) && Separable(c) && a + "\U{1f}" + b == c + "\U{1f}" + d
    ensures a == c && b == d
  {
    var x := a + "\U{1f}" + b;
    assert x[|a|] == '\U{1f}' && x[|c|] == '\U{1f}';
    forall i | 0 <= i < |a| ensures x[i] != '\U{1f}' { assert x[i] == a[i] && a[i] in a; }
    forall i | 0 <= i < |c| ensures x[i] != '\U{1f}' { assert x[i] == c[i] && c[i] in c; }
    assert a == x[..|a|] && c == x[..|c|] && b == x[|a| + 1..] && d == x[|c| + 1..];
  }

  /** **A signature tells two listings apart iff the title or the summary differs**, for titles without the separator. */
  lemma SignatureIff(title: string, summary: string, otherTitle: string, otherSummary: string)
    requires Separable(title) && Separable(otherTitle)
    ensures Signature(title, summary) == Signature(otherTitle, otherSummary) <==> title == otherTitle && summary == otherSummary
  {
    if Signature(title, summary) == Signature(otherTitle, otherSummary) { SplitOnce(title, summary, otherTitle, otherSummary); }
  }

  /** The separator inside a title hides an edit: the words only moved across it. */
  lemma SeparatorHidesEdit()
    ensures Signature("a\U{1f}b", "c") == Signature("a", "b\U{1f}c")
  {}

  /** The row that holds a card's key is the one its signature is compared with. */
  lemma SignatureOfRow(previous: seq<Item>, i: nat)
    requires i < |previous| && forall j, k :: 0 <= j < k < |previous| ==> previous[j].entry.key != previous[k].entry.key
    ensures var known, e := KnownFrom(previous), previous[i].entry;
            e.key in known.keys && e.key in known.signatures && known.signatures[e.key] == Signature(e.title, e.summary)
  {
    assert LastWithKey(previous, i);
  }

  /** **An edited card is noticed, an unedited one is known.** Against the rows of an earlier snapshot, a card that
      has a row counts as known iff its title and summary are the stored ones. */
  lemma KnownIffUnedited(previous: seq<Item>, i: nat, card: Card)
    requires i < |previous| && forall j, k :: 0 <= j < k < |previous| ==> previous[j].entry.key != previous[k].entry.key
    requires card.key == previous[i].entry.key && Separable(card.title) && Separable(previous[i].entry.title)
    ensures Unchanged(card, KnownFrom(previous)) <==>
            card.title == previous[i].entry.title && card.summary == previous[i].entry.summary
  {
    SignatureOfRow(previous, i);
    SignatureIff(previous[i].entry.title, previous[i].entry.summary, card.title, card.summary);
  }

  /** A page with an edited card does not count as known, and breaks a run of known pages. */
  lemma EditedPageNotKnown(cards: seq<Card>, k: nat, page: nat, previous: seq<Item>, i: nat, s: Settings, r: Reading, full: bool, before: nat)
    requires k < |cards| && i < |previous| && cards[k].key == previous[i].entry.key
    requires forall j, l :: 0 <= j < l < |previous| ==> previous[j].entry.key != previous[l].entry.key
    requires Separable(cards[k].title) && Separable(previous[i].entry.title)
    requires cards[k].title != previous[i].entry.title || cards[k].summary != previous[i].entry.summary
    ensures var outcome := ReadCards(cards, page, KnownFrom(previous), s, r);
            outcome.Ok? ==> !outcome.value.allKnown && (!full ==> Consecutive(full, before, outcome.value.allKnown) == 0)
  {
    KnownIffUnedited(previous, i, cards[k]);
    ReadAppends(cards, page, KnownFrom(previous), s, r);
  }

  // ------------------------------------------------------------------
  // Where an incremental walk of a standing archive stops.
  // ------------------------------------------------------------------

  /** No title had to be cut. */
  ghost predicate Uncut(cards: seq<Card>, s: Settings) {
    forall i :: 0 <= i < |cards| ==> |cards[i].title| <= s.titleLimit
  }

  lemma StandingIsKnown(cards: seq<Card>, previous: seq<Item>, s: Settings)
    requires Readable(cards, s) && Uncut(cards, s) && Lists(EntriesOf(previous), cards, s)
    ensures forall i :: 0 <= i < |cards| ==> Unchanged(cards[i], KnownFrom(previous))
  {
    forall i | 0 <= i < |previous| ensures previous[i].entry.key == cards[i].key { assert Listed(EntriesOf(previous)[i], cards[i], i, s); }
    forall i | 0 <= i < |cards| ensures Unchanged(cards[i], KnownFrom(previous)) {
      assert Listed(EntriesOf(previous)[i], cards[i], i, s);
      SignatureOfRow(previous, i);
    }
  }

  /** The walk read `n` pages: as many as it may, or all there are; and indexed what they list. */
  ghost predicate StopsAfter(outcome: Result<Index, Refusal>, cards: seq<Card>, size: nat, s: Settings) {
    && outcome.Ok?
    && var n := outcome.value.pagesFetched;
    && 1 <= n <= s.knownPagesBeforeStop && n * size < |cards| + size
    && (n == s.knownPagesBeforeStop || n * size >= |cards|)
    && Lists(outcome.value.entries, cards[..Min(n * size, |cards|)], s)
  }

  lemma {:induction false} KnownWalk(site: Site, cards: seq<Card>, size: nat, known: Known, s: Settings, page: nat, at: nat, st: WalkState)
    requires Serves(site, cards, size) && Readable(cards, s) && WithinCap(cards, size, s)
    requires forall k: nat :: k < s.knownPagesBeforeStop && k * size < |cards| ==> site(k).Some?
    requires forall i :: 0 <= i < |cards| ==> Unchanged(cards[i], known)
    requires WalkedTo(st, cards, size, page, at, s) && st.consecutiveKnown == page < s.knownPagesBeforeStop
    ensures StopsAfter(Walk(site, false, known, s, page, st), cards, size, s)
    decreases |cards| - at
  {
    UnderCap(page, cards, size, s);
    assert IsPage(site(page), cards, size, page);
    var to := Min(at + size, |cards|);
    SliceIs(cards, at, size);
    var r := SliceOnPage(cards, size, page, at, to, known, s, Reading(st.entries, st.seen, true));
    FreshFingerprint(st, cards, at, to, s);
    var last, next := WalkTurn(site, false, known, s, page, st, site(page).value, r);
    if last.Some? { LastPageBound(last.value, page, cards, size); }
    Scales(page, page, size);
    if to < |cards| && next.consecutiveKnown < s.knownPagesBeforeStop {
      NextPage(cards, size, page, at, to, s, next);
      KnownWalk(site, cards, size, known, s, page + 1, to, next);
    }
  }

  /** **On an archive that stands still the incremental walk costs exactly `known_pages_before_stop` requests**, or as
      many as there are pages if that is fewer: no title being cut. */
  lemma StandingWalkStops(site: Site, cards: seq<Card>, size: nat, previous: seq<Item>, s: Settings)
    requires Serves(site, cards, size) && Readable(cards, s) && WithinCap(cards, size, s)
    requires forall k: nat :: k < s.knownPagesBeforeStop && k * size < |cards| ==> site(k).Some?
    requires s.knownPagesBeforeStop >= 1 && Uncut(cards, s) && Lists(EntriesOf(previous), cards, s)
    ensures StopsAfter(Walk(site, false, KnownFrom(previous), s, 0, START), cards, size, s)
  {
    StandingIsKnown(cards, previous, s);
    assert 0 * size == 0;
    KnownWalk(site, cards, size, KnownFrom(previous), s, 0, 0, START);
  }
}
