/** The newest-first archive listing and the walk that indexes it.

    Source: apps/legal_work/archived_topics.py. Transport and HTML parsing are an
    oracle (`Site`): asked for a page number it answers with that page's cards and
    pager, or with nothing when the request failed. */
module ArchiveListing {
  import opened Basics

  type Url = string

  datatype Settings = Settings(
    maxPages: nat,
    maxItems: nat,
    titleLimit: nat,
    knownPagesBeforeStop: nat)

  /** One listing card. `href` is the link as printed; `url` its canonical absolute
      form, `key` the content key derived from it and `allowed` the verdict of the
      link rules. */
  datatype Card = Card(href: string, url: Url, key: string, allowed: bool, title: string, summary: string)

  datatype ListingPage = ListingPage(cards: seq<Card>, lastPage: Option<nat>, nextLinked: bool)

  type Site = nat -> Option<ListingPage>

  datatype Entry = Entry(key: string, url: Url, title: string, summary: string, page: nat, order: nat)

  datatype Index = Index(entries: seq<Entry>, pagesFetched: nat, reachedEnd: bool, stoppedEarly: bool)

  datatype Refusal =
    | FetchFailed
    | RepeatedPage
    | ForbiddenLink
    | RepeatedLink
    | MissingTitle
    | TooManyItems
    | NoEntries

  /** What earlier runs stored: content keys, and the signature held for each. */
  datatype Known = Known(keys: set<string>, signatures: map<string, string>)

  /** The digest is modelled by the text it is taken over. */
  function Signature(title: string, summary: string): string {
    title + "\U{1f}" + summary
  }

  predicate Unchanged(card: Card, known: Known) {
    && card.key in known.keys
    && (card.key in known.signatures ==> known.signatures[card.key] == Signature(card.title, card.summary))
  }

  // ------------------------------------------------------------------
  // The walk, as a function of the site.
  // ------------------------------------------------------------------

  datatype Reading = Reading(entries: seq<Entry>, seen: set<Url>, allKnown: bool)

  function EntryFor(card: Card, page: nat, order: nat, s: Settings): Entry {
    Entry(card.key, card.url, FirstN(card.title, s.titleLimit), card.summary, page, order)
  }

  function Refuses(card: Card, seen: set<Url>): Option<Refusal> {
    if !card.allowed then Some(ForbiddenLink)
    else if card.url in seen then Some(RepeatedLink)
    else if card.title == "" then Some(MissingTitle)
    else None
  }

  function Take(card: Card, page: nat, known: Known, s: Settings, r: Reading): Reading {
    Reading(r.entries + [EntryFor(card, page, |r.entries|, s)],
            r.seen + {card.url},
            r.allKnown && Unchanged(card, known))
  }

  function ReadCards(cards: seq<Card>, page: nat, known: Known, s: Settings, r: Reading): Result<Reading, Refusal> {
    if cards == [] then Ok(r)
    else
      match Refuses(cards[0], r.seen)
      case Some(why) => Err(why)
      case None => ReadCards(cards[1..], page, known, s, Take(cards[0], page, known, s, r))
  }

  datatype WalkState = WalkState(
    entries: seq<Entry>,
    seen: set<Url>,
    fingerprints: set<seq<string>>,
    consecutiveKnown: nat,
    lastPage: Option<nat>)

  const START := WalkState([], {}, {}, 0, None)

  function Fingerprint(cards: seq<Card>): seq<string> {
    seq(|cards|, i requires 0 <= i < |cards| => cards[i].href)
  }

  function Finish(entries: seq<Entry>, pages: nat, reachedEnd: bool, stoppedEarly: bool): Result<Index, Refusal> {
    if entries == [] then Err(NoEntries) else Ok(Index(entries, pages, reachedEnd, stoppedEarly))
  }

  /** The pager's own answer, believed only when it lies under the page cap. */
  function PagerEnd(p: ListingPage, page: nat, before: Option<nat>, s: Settings): Option<nat> {
    if page != 0 then before
    else if p.lastPage.Some? && p.lastPage.value < s.maxPages then p.lastPage
    else None
  }

  function Consecutive(full: bool, before: nat, allKnown: bool): nat {
    if full then before else if allKnown then before + 1 else 0
  }

  function Walk(site: Site, full: bool, known: Known, s: Settings, page: nat, st: WalkState): Result<Index, Refusal>
    decreases s.maxPages - page
  {
    if page >= s.maxPages then Finish(st.entries, page, false, false)
    else if site(page).None? then Err(FetchFailed)
    else
      var p := site(page).value;
      var last := PagerEnd(p, page, st.lastPage, s);
      if p.cards == [] then Finish(st.entries, page + 1, true, false)
      else if Fingerprint(p.cards) in st.fingerprints then Err(RepeatedPage)
      else
        match ReadCards(p.cards, page, known, s, Reading(st.entries, st.seen, true))
        case Err(why) => Err(why)
        case Ok(r) =>
          var consecutive := Consecutive(full, st.consecutiveKnown, r.allKnown);
          if |r.entries| > s.maxItems then Err(TooManyItems)
          else if last.Some? && page >= last.value then Finish(r.entries, page + 1, true, false)
          else if !full && consecutive >= s.knownPagesBeforeStop then Finish(r.entries, page + 1, false, true)
          else if !p.nextLinked then Finish(r.entries, page + 1, true, false)
          else Walk(site, full, known, s, page + 1,
                    WalkState(r.entries, r.seen, st.fingerprints + {Fingerprint(p.cards)}, consecutive, last))
  }

  // ------------------------------------------------------------------
  // The walk, as the source runs it.
  // ------------------------------------------------------------------

  method ReadPage(cards: seq<Card>, page: nat, known: Known, s: Settings, entries: seq<Entry>, seen: set<Url>)
    returns (outcome: Result<Reading, Refusal>)
    ensures outcome == ReadCards(cards, page, known, s, Reading(entries, seen, true))
  {
    var collected, urls, allKnown := entries, seen, true;
    for i := 0 to |cards|
      invariant ReadCards(cards[i..], page, known, s, Reading(collected, urls, allKnown))
             == ReadCards(cards, page, known, s, Reading(entries, seen, true))
    {
      var card := cards[i];
      assert cards[i..][0] == card && cards[i..][1..] == cards[i + 1..];
      if !card.allowed { return Err(ForbiddenLink); }
      if card.url in urls { return Err(RepeatedLink); }
      if card.title == "" { return Err(MissingTitle); }
      if !Unchanged(card, known) { allKnown := false; }
      urls := urls + {card.url};
      collected := collected + [EntryFor(card, page, |collected|, s)];
    }
    return Ok(Reading(collected, urls, allKnown));
  }

  method CollectArchiveIndex(site: Site, full: bool, known: Known, s: Settings)
    returns (outcome: Result<Index, Refusal>)
    ensures outcome == Walk(site, full, known, s, 0, START)
  {
    var entries: seq<Entry>, seen: set<Url>, fingerprints: set<seq<string>> := [], {}, {};
    var pagesFetched, consecutiveKnown, reachedEnd, stoppedEarly := 0, 0, false, false;
    var lastPage: Option<nat> := None;
    var page := 0;
    while page < s.maxPages
      invariant pagesFetched == page
      invariant !reachedEnd && !stoppedEarly
      invariant Walk(site, full, known, s, page, WalkState(entries, seen, fingerprints, consecutiveKnown, lastPage))
             == Walk(site, full, known, s, 0, START)
    {
      var html := site(page);
      if html.None? { return Err(FetchFailed); }
      pagesFetched := pagesFetched + 1;
      if page == 0 {
        lastPage := if html.value.lastPage.Some? && html.value.lastPage.value < s.maxPages
                    then html.value.lastPage else None;
      }
      var cards := html.value.cards;
      if cards == [] { reachedEnd := true; break; }
      if Fingerprint(cards) in fingerprints { return Err(RepeatedPage); }
      fingerprints := fingerprints + {Fingerprint(cards)};
      var read := ReadPage(cards, page, known, s, entries, seen);
      if read.Err? { return Err(read.error); }
      entries, seen := read.value.entries, read.value.seen;
      if |entries| > s.maxItems { return Err(TooManyItems); }
      if lastPage.Some? && page >= lastPage.value { reachedEnd := true; break; }
      if !full {
        consecutiveKnown := if read.value.allKnown then consecutiveKnown + 1 else 0;
        if consecutiveKnown >= s.knownPagesBeforeStop { stoppedEarly := true; break; }
      }
      if !html.value.nextLinked { reachedEnd := true; break; }
      page := page + 1;
    }
    if entries == [] { return Err(NoEntries); }
    return Ok(Index(entries, pagesFetched, reachedEnd, stoppedEarly));
  }
}
