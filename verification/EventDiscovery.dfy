/** Discovering public event pages: a dry run predicts the live one, and nothing is ever removed.

    Source: apps/events/public_discovery.py:236-412, apps/events/public_models.py:60-110. A fetch is an oracle per address; the content checksum is modelled
    by the content it digests. */
module EventDiscovery {
  import opened Basics
  import opened Sorting
  import opened EventSitemap
  import opened EventKeys

  datatype Facts = Facts(title: string, startsOn: int, endsOn: Option<int>, location: string)

  /** What asking for a page gives: it does not load, it cannot be used, it is not an event page, or its facts. */
  datatype Answer = Unreadable | Unusable | NotAnEvent | EventPage(facts: Facts)

  type Site = Url -> Answer

  datatype Resource = Resource(
    url: Url, stableKey: string, facts: Facts, checksum: Facts, firstSeen: int, lastSeen: int, lastChanged: int)

  type Catalogue = map<Url, Resource>

  // ------------------------------------------------------------------
  // One page.
  // ------------------------------------------------------------------

  datatype Verdict = Created | Updated | Untouched

  /** What observing a page with a name would mean for the catalogue. */
  function Classify(catalogue: Catalogue, url: Url, facts: Facts): Verdict {
    if url !in catalogue then Created
    else if catalogue[url].checksum == facts then Untouched
    else Updated
  }

  predicate IsEvent(a: Answer) { a.EventPage? && a.facts.title != "" }

  function Note(t: Tally, v: Verdict): Tally {
    match v
    case Created => t.(created := t.created + 1)
    case Updated => t.(updated := t.updated + 1)
    case Untouched => t.(same := t.same + 1)
  }

  /** The tally after one answer, given how an event page would be classified. */
  function Count(t: Tally, a: Answer, v: Verdict): Tally {
    if a.Unreadable? then Warn(t.(errors := t.errors + 1, isComplete := false), DetailFailed)
    else
      var read := t.(pagesFetched := t.pagesFetched + 1);
      if a.Unusable? then Warn(read.(errors := read.errors + 1), DetailFailed)
      else if IsEvent(a) then Note(read, v)
      else read
  }

  /** Storing an observation. The address, the key and the first sighting of a known page never change. */
  function Write(catalogue: Catalogue, url: Url, facts: Facts, key: string, now: int): Catalogue {
    match Classify(catalogue, url, facts)
    case Created => catalogue[url := Resource(url, key, facts, facts, now, now, now)]
    case Untouched => catalogue[url := catalogue[url].(lastSeen := now)]
    case Updated => catalogue[url := catalogue[url].(facts := facts, checksum := facts, lastSeen := now, lastChanged := now)]
  }

  /** Facts the table has no room for: an over-long place, or an end before the start. */
  predicate Unstorable(facts: Facts) {
    |facts.location| > 200 || (facts.endsOn.Some? && facts.endsOn.value < facts.startsOn)
  }

  /** The table refuses an over-long address, a second page under one stable key, and facts it cannot hold. */
  predicate Refused(catalogue: Catalogue, url: Url, facts: Facts, key: string) {
    || (url !in catalogue && (|url| > 500 || exists u :: u in catalogue && catalogue[u].stableKey == key))
    || (Classify(catalogue, url, facts) != Untouched && Unstorable(facts))
  }

  // ------------------------------------------------------------------
  // A run over the selected addresses.
  // ------------------------------------------------------------------

  datatype State = State(catalogue: Catalogue, tally: Tally, crashed: bool)

  function Observe(st: State, url: Url, site: Site, keyOf: Url -> string, now: int, dryRun: bool): State {
    var a := site(url);
    if st.crashed then st
    else if !IsEvent(a) then State(st.catalogue, Count(st.tally, a, Untouched), false)
    else
      var counted := Count(st.tally, a, Classify(st.catalogue, url, a.facts));
      if dryRun then State(st.catalogue, counted, false)
      else if Refused(st.catalogue, url, a.facts, keyOf(url)) then State(st.catalogue, st.tally, true)
      else State(Write(st.catalogue, url, a.facts, keyOf(url), now), counted, false)
  }

  function Discover(st: State, urls: seq<Url>, site: Site, keyOf: Url -> string, now: int, dryRun: bool): State
    decreases |urls|
  {
    if urls == [] then st
    else Observe(Discover(st, urls[..|urls| - 1], site, keyOf, now, dryRun), urls[|urls| - 1], site, keyOf, now, dryRun)
  }

  datatype Mode = Full | Incremental

  function ParseMode(mode: string): Option<Mode> {
    if mode == "full" then Some(Full) else if mode == "incremental" then Some(Incremental) else None
  }

  /** The page cap asked for, or the configured one; asking for none is not asking. */
  function CapOf(asked: Option<nat>, configured: nat): nat {
    if asked.Some? && asked.value != 0 then asked.value else configured
  }

  /** In full mode every address is due; otherwise the unknown ones and those last seen `recheck` or longer ago. */
  function Select(catalogue: Catalogue, urls: seq<Url>, mode: Mode, now: int, recheck: int): seq<Url> {
    if mode == Full then urls
    else Filter(urls, (u: Url) => u !in catalogue || catalogue[u].lastSeen <= now - recheck)
  }

  /** The addresses one run asks for. */
  function Wanted(catalogue: Catalogue, urls: seq<Url>, mode: Mode, now: int, recheck: int, cap: nat): seq<Url> {
    FirstN(Select(catalogue, urls, mode, now, recheck), cap)
  }

  /** Where the addresses come from: the caller's list, or the sitemap. */
  function Offered(urls: Option<seq<Url>>, m: Sitemap): Result<(seq<Url>, Tally), Refusal> {
    if urls.Some? then Ok((urls.value, NONE.(urlsSeen := |urls.value|))) else SitemapUrls(m)
  }

  /** The report of a run, which is incomplete if the cap cut it short. */
  function Closed(t: Tally, capped: bool): Tally {
    if capped then Warn(t.(isComplete := false), DetailCap) else t
  }

  datatype Outcome = Finished | TableRefused | NoAddresses(why: Refusal) | UnknownMode

  /** The stored pages and the tally a run builds up. */
  class PublicEventCatalogue {
    var resources: Catalogue
    var tally: Tally

    constructor ()
      ensures resources == map[] && tally == NONE
    {
      resources, tally := map[], NONE;
    }

    ghost function Held(crashed: bool): State
      reads this
    {
      State(resources, tally, crashed)
    }

    method ObservePage(url: Url, site: Site, keyOf: Url -> string, now: int, dryRun: bool) returns (crashed: bool)
      modifies this
      ensures Held(crashed) == Observe(old(Held(false)), url, site, keyOf, now, dryRun)
    {
      crashed := false;
      var answer := site(url);
      if answer.Unreadable? {
        tally := Warn(tally.(errors := tally.errors + 1, isComplete := false), DetailFailed);
        return;
      }
      if answer.Unusable? {
        tally := Warn(tally.(pagesFetched := tally.pagesFetched + 1, errors := tally.errors + 1), DetailFailed);
        return;
      }
      if answer.NotAnEvent? || answer.facts.title == "" {
        tally := tally.(pagesFetched := tally.pagesFetched + 1);
        return;
      }
      var facts := answer.facts;
      if !dryRun && Refused(resources, url, facts, keyOf(url)) {
        return true;
      }
      tally := tally.(pagesFetched := tally.pagesFetched + 1);
      if url !in resources {
        tally := tally.(created := tally.created + 1);
        if !dryRun { resources := resources[url := Resource(url, keyOf(url), facts, facts, now, now, now)]; }
      } else if resources[url].checksum == facts {
        tally := tally.(same := tally.same + 1);
        if !dryRun { resources := resources[url := resources[url].(lastSeen := now)]; }
      } else {
        tally := tally.(updated := tally.updated + 1);
        if !dryRun {
          resources := resources[url := resources[url].(facts := facts, checksum := facts, lastSeen := now, lastChanged := now)];
        }
      }
    }

    /** One run. Without a list of its own it asks the sitemap; an unknown mode and an unreadable or over-long
        sitemap refuse the run. */
    method DiscoverPublicEvents(urls: Option<seq<Url>>, m: Sitemap, mode: string, recheck: int, maxDetailPages: Option<nat>,
                                configuredCap: nat, site: Site, keyOf: Url -> string, now: int, dryRun: bool)
      returns (outcome: Outcome)
      modifies this
      ensures ParseMode(mode).None? ==> outcome == UnknownMode && resources == old(resources)
      ensures ParseMode(mode).Some? && Offered(urls, m).Err? ==>
                outcome == NoAddresses(Offered(urls, m).error) && resources == old(resources)
      ensures ParseMode(mode).Some? && Offered(urls, m).Ok? ==>
                var (candidates, t) := Offered(urls, m).value;
                var cap := CapOf(maxDetailPages, configuredCap);
                var wanted := Wanted(old(resources), candidates, ParseMode(mode).value, now, recheck, cap);
                var after := Discover(State(old(resources), t, false), wanted, site, keyOf, now, dryRun);
                && resources == after.catalogue && (outcome == TableRefused <==> after.crashed)
                && (outcome == Finished || outcome == TableRefused)
                && (outcome == Finished ==>
                      tally == Closed(after.tally, |Select(old(resources), candidates, ParseMode(mode).value, now, recheck)| > cap))
    {
      if mode != "full" && mode != "incremental" { return UnknownMode; }
      var cap := if maxDetailPages.Some? && maxDetailPages.value != 0 then maxDetailPages.value else configuredCap;
      var candidates;
      if urls.Some? {
        candidates, tally := urls.value, NONE.(urlsSeen := |urls.value|);
      } else {
        var listed := SitemapEventUrls(m);
        if listed.Err? { return NoAddresses(listed.error); }
        candidates, tally := listed.value.0, listed.value.1;
      }
      var selected := Select(resources, candidates, if mode == "full" then Full else Incremental, now, recheck);
      var crashed := ObserveAll(FirstN(selected, cap), site, keyOf, now, dryRun);
      if crashed { return TableRefused; }
      if |selected| > cap { tally := Warn(tally.(isComplete := false), DetailCap); }
      return Finished;
    }

    method ObserveAll(wanted: seq<Url>, site: Site, keyOf: Url -> string, now: int, dryRun: bool) returns (crashed: bool)
      modifies this
      ensures Held(crashed) == Discover(old(Held(false)), wanted, site, keyOf, now, dryRun)
    {
      crashed := false;
      ghost var start := Held(false);
      for i := 0 to |wanted|
        invariant !crashed
        invariant Held(false) == Discover(start, wanted[..i], site, keyOf, now, dryRun)
      {
        assert wanted[..i + 1][..i] == wanted[..i] && wanted[..i + 1][i] == wanted[i];
        crashed := ObservePage(wanted[i], site, keyOf, now, dryRun);
        assert Held(crashed) == Discover(start, wanted[..i + 1], site, keyOf, now, dryRun);
        if crashed {
          CrashStays(start, wanted, i + 1, site, keyOf, now, dryRun);
          return;
        }
      }
      assert wanted[..|wanted|] == wanted;
    }
  }

  lemma {:induction false} CrashStays(st: State, urls: seq<Url>, i: nat, site: Site, keyOf: Url -> string, now: int, dryRun: bool)
    requires i <= |urls| && Discover(st, urls[..i], site, keyOf, now, dryRun).crashed
    ensures var cut := Discover(st, urls[..i], site, keyOf, now, dryRun);
            Discover(st, urls, site, keyOf, now, dryRun) == cut
    decreases |urls|
  {
    if i < |urls| {
      assert urls[..|urls| - 1][..i] == urls[..i];
      CrashStays(st, urls[..|urls| - 1], i, site, keyOf, now, dryRun);
    } else {
      assert urls[..i] == urls;
    }
  }

  // ------------------------------------------------------------------
  // Nothing is ever removed.
  // ------------------------------------------------------------------

  /** Every known page is still there under the same address, key and first sighting. */
  ghost predicate Preserves(before: Catalogue, after: Catalogue) {
    forall u :: u in before ==>
      && u in after && after[u].url == before[u].url && after[u].stableKey == before[u].stableKey
      && after[u].firstSeen == before[u].firstSeen
  }

  /** **No run removes a page or changes its identity**, whatever the site answers, dry or live, even
      when the table refuses a write half way; and a dry run writes nothing. */
  lemma {:induction false} RunPreserves(st: State, urls: seq<Url>, site: Site, keyOf: Url -> string, now: int, dryRun: bool)
    ensures Preserves(st.catalogue, Discover(st, urls, site, keyOf, now, dryRun).catalogue)
    ensures dryRun ==> Discover(st, urls, site, keyOf, now, dryRun).catalogue == st.catalogue
    decreases |urls|
  {
    if urls != [] { RunPreserves(st, urls[..|urls| - 1], site, keyOf, now, dryRun); }
  }

  // ------------------------------------------------------------------
  // The dry run predicts the live run, exactly when no page it would write is asked for twice.
  // ------------------------------------------------------------------

  /** Observing `url` would create or update it. */
  predicate Writes(catalogue: Catalogue, url: Url, site: Site) {
    IsEvent(site(url)) && Classify(catalogue, url, site(url).facts) != Untouched
  }

  /** `url` occurs among `urls`, and observing it writes. */
  predicate Rewrites(catalogue: Catalogue, urls: seq<Url>, url: Url, site: Site) {
    url in urls && Writes(catalogue, url, site)
  }

  /** How many observations repeat a page the run has already written. */
  function Repeats(catalogue: Catalogue, urls: seq<Url>, site: Site): nat {
    if urls == [] then 0
    else
      var before, url := urls[..|urls| - 1], urls[|urls| - 1];
      Repeats(catalogue, before, site) + if Rewrites(catalogue, before, url, site) then 1 else 0
  }

  /** The row of a page last seen `now` with `facts`: a new page is filed under its address and key; a known one keeps its
      address, key and first sighting, and its facts and their date of change unless the content differs. */
  ghost predicate RowAfter(before: Catalogue, u: Url, facts: Facts, key: string, now: int, row: Resource) {
    && row.checksum == facts && row.lastSeen == now
    && if u !in before then row == Resource(u, key, facts, facts, now, now, now)
       else
         && row.url == before[u].url && row.stableKey == before[u].stableKey && row.firstSeen == before[u].firstSeen
         && (if before[u].checksum == facts then row.facts == before[u].facts && row.lastChanged == before[u].lastChanged
             else row.facts == facts && row.lastChanged == now)
  }

  /** However often a live run observed an event page, its row is as after one observation; every other row is as it was. */
  ghost predicate Recorded(before: Catalogue, after: Catalogue, urls: seq<Url>, site: Site, keyOf: Url -> string, now: int) {
    && (forall u :: u in urls && IsEvent(site(u)) ==>
          u in after && RowAfter(before, u, site(u).facts, keyOf(u), now, after[u]))
    && (forall u :: !(u in urls && IsEvent(site(u))) ==>
          (u in after <==> u in before) && (u in before ==> after[u] == before[u]))
  }

  /** Every row's checksum is the checksum of its facts. */
  ghost predicate Consistent(catalogue: Catalogue) {
    forall u :: u in catalogue ==> catalogue[u].facts == catalogue[u].checksum
  }

  /** Observing a page again changes nothing but what the first observation already set. */
  lemma WriteAgain(catalogue: Catalogue, reached: Catalogue, url: Url, facts: Facts, key: string, now: int)
    requires if url in reached
             then (url in catalogue && reached[url] == catalogue[url]) || RowAfter(catalogue, url, facts, key, now, reached[url])
             else url !in catalogue
    ensures RowAfter(catalogue, url, facts, key, now, Write(reached, url, facts, key, now)[url])
  {}

  /** Recording one more page sets its own row and leaves the others. */
  lemma WriteOnly(reached: Catalogue, url: Url, facts: Facts, key: string, now: int)
    ensures var after := Write(reached, url, facts, key, now);
            after.Keys == reached.Keys + {url} && forall u :: u in reached && u != url ==> after[u] == reached[u]
  {}

  lemma RecordsOneMore(catalogue: Catalogue, reached: Catalogue, after: Catalogue, before: seq<Url>, url: Url, site: Site,
                       keyOf: Url -> string, now: int)
    requires Recorded(catalogue, reached, before, site, keyOf, now)
    requires after == if IsEvent(site(url)) then Write(reached, url, site(url).facts, keyOf(url), now) else reached
    ensures Recorded(catalogue, after, before + [url], site, keyOf, now)
  {
    if IsEvent(site(url)) {
      var facts, key := site(url).facts, keyOf(url);
      WriteAgain(catalogue, reached, url, facts, key, now);
      WriteOnly(reached, url, facts, key, now);
    }
    RecordedElsewhere(catalogue, reached, after, before, url, site, keyOf, now);
  }

  lemma RecordedElsewhere(catalogue: Catalogue, reached: Catalogue, after: Catalogue, before: seq<Url>, url: Url, site: Site,
                          keyOf: Url -> string, now: int)
    requires Recorded(catalogue, reached, before, site, keyOf, now)
    requires forall u :: u != url || !IsEvent(site(url)) ==> (u in after <==> u in reached) && (u in reached ==> after[u] == reached[u])
    requires IsEvent(site(url)) ==> url in after && RowAfter(catalogue, url, site(url).facts, keyOf(url), now, after[url])
    ensures Recorded(catalogue, after, before + [url], site, keyOf, now)
  {
    assert forall u :: u in before + [url] <==> u in before || u == url;
  }

  /** **After a live run** that is not refused, the rows are what the site said, once per page. */
  lemma {:induction false} LiveRecords(st: State, urls: seq<Url>, site: Site, keyOf: Url -> string, now: int)
    requires !Discover(st, urls, site, keyOf, now, false).crashed
    ensures Recorded(st.catalogue, Discover(st, urls, site, keyOf, now, false).catalogue, urls, site, keyOf, now)
    decreases |urls|
  {
    if urls != [] {
      var before, url := urls[..|urls| - 1], urls[|urls| - 1];
      LiveRecords(st, before, site, keyOf, now);
      assert urls == before + [url];
      RecordsOneMore(st.catalogue, Discover(st, before, site, keyOf, now, false).catalogue,
                     Discover(st, urls, site, keyOf, now, false).catalogue, before, url, site, keyOf, now);
    }
  }

  /** The facts shown are the site's, and the checksum stays theirs. */
  lemma LiveShowsFacts(st: State, urls: seq<Url>, site: Site, keyOf: Url -> string, now: int)
    requires !Discover(st, urls, site, keyOf, now, false).crashed && Consistent(st.catalogue)
    ensures var after := Discover(st, urls, site, keyOf, now, false).catalogue;
            && Consistent(after)
            && forall u :: u in urls && IsEvent(site(u)) ==> u in after && after[u].facts == after[u].checksum == site(u).facts
  {
    LiveRecords(st, urls, site, keyOf, now);
  }

  /** The two runs' tallies: equal except that every repeated write is counted as unchanged by the live run. */
  ghost predicate Differ(dry: Tally, live: Tally, repeats: nat) {
    && live.pagesFetched == dry.pagesFetched && live.errors == dry.errors && live.isComplete == dry.isComplete
    && live.urlsSeen == dry.urlsSeen && live.warnings == dry.warnings
    && live.same == dry.same + repeats
    && live.created + live.updated + repeats == dry.created + dry.updated
    && (repeats == 0 ==> live == dry)
  }

  /** After observing `before` live, the next page is classified as the dry run would, unless it repeats a write. */
  lemma NextVerdict(catalogue: Catalogue, reached: Catalogue, before: seq<Url>, url: Url, site: Site, keyOf: Url -> string, now: int)
    requires Recorded(catalogue, reached, before, site, keyOf, now) && IsEvent(site(url))
    ensures Classify(reached, url, site(url).facts) ==
            if Rewrites(catalogue, before, url, site) then Untouched else Classify(catalogue, url, site(url).facts)
  {}

  lemma NoteBoth(dry: Tally, live: Tally, repeats: nat, v: Verdict, again: bool)
    requires Differ(dry, live, repeats) && (again ==> v != Untouched)
    ensures Differ(Note(dry, v), Note(live, if again then Untouched else v), repeats + if again then 1 else 0)
  {}

  /** What an observation that is not refused adds to the tally. */
  lemma ObserveCounts(st: State, url: Url, site: Site, keyOf: Url -> string, now: int, dryRun: bool)
    requires !st.crashed && !Observe(st, url, site, keyOf, now, dryRun).crashed
    ensures Observe(st, url, site, keyOf, now, dryRun).tally
         == Count(st.tally, site(url), if IsEvent(site(url)) then Classify(st.catalogue, url, site(url).facts) else Untouched)
  {}

  lemma ObserveBoth(dry: State, live: State, catalogue: Catalogue, before: seq<Url>, url: Url, site: Site, keyOf: Url -> string,
                    now: int, repeats: nat)
    requires !dry.crashed && dry.catalogue == catalogue && Recorded(catalogue, live.catalogue, before, site, keyOf, now)
    requires !live.crashed && !Observe(live, url, site, keyOf, now, false).crashed
    requires Differ(dry.tally, live.tally, repeats)
    ensures !Observe(dry, url, site, keyOf, now, true).crashed
    ensures Differ(Observe(dry, url, site, keyOf, now, true).tally, Observe(live, url, site, keyOf, now, false).tally,
                   repeats + if Rewrites(catalogue, before, url, site) then 1 else 0)
  {
    ObserveCounts(dry, url, site, keyOf, now, true);
    ObserveCounts(live, url, site, keyOf, now, false);
    if IsEvent(site(url)) {
      NextVerdict(catalogue, live.catalogue, before, url, site, keyOf, now);
      var d, l := dry.tally, live.tally;
      NoteBoth(d.(pagesFetched := d.pagesFetched + 1), l.(pagesFetched := l.pagesFetched + 1), repeats,
               Classify(catalogue, url, site(url).facts), Rewrites(catalogue, before, url, site));
    }
  }

  lemma {:induction false} TalliesDiffer(catalogue: Catalogue, t: Tally, urls: seq<Url>, site: Site, keyOf: Url -> string, now: int)
    requires !Discover(State(catalogue, t, false), urls, site, keyOf, now, false).crashed
    ensures Differ(Discover(State(catalogue, t, false), urls, site, keyOf, now, true).tally,
                   Discover(State(catalogue, t, false), urls, site, keyOf, now, false).tally,
                   Repeats(catalogue, urls, site))
    ensures !Discover(State(catalogue, t, false), urls, site, keyOf, now, true).crashed
    decreases |urls|
  {
    var st := State(catalogue, t, false);
    if urls != [] {
      var before, url := urls[..|urls| - 1], urls[|urls| - 1];
      TalliesDiffer(catalogue, t, before, site, keyOf, now);
      RunPreserves(st, before, site, keyOf, now, true);
      LiveRecords(st, before, site, keyOf, now);
      ObserveBoth(Discover(st, before, site, keyOf, now, true), Discover(st, before, site, keyOf, now, false),
                  catalogue, before, url, site, keyOf, now, Repeats(catalogue, before, site));
    }
  }

  // ------------------------------------------------------------------
  // Exactly when the table refuses a live run.
  // ------------------------------------------------------------------

  /** The key a page is or would be stored under. */
  function KeyUnder(catalogue: Catalogue, keyOf: Url -> string, url: Url): string {
    if url in catalogue then catalogue[url].stableKey else keyOf(url)
  }

  /** Another page, stored or observed as an event in the same run, has the key of `url`. */
  predicate Clashes(catalogue: Catalogue, urls: seq<Url>, site: Site, keyOf: Url -> string, url: Url) {
    || (exists v :: v in catalogue && v != url && KeyUnder(catalogue, keyOf, v) == keyOf(url))
    || (exists v :: v in urls && v != url && IsEvent(site(v)) && KeyUnder(catalogue, keyOf, v) == keyOf(url))
  }

  /** An event page the table has no room for: a new page whose key is taken or whose address is too long,
      or a write of facts it cannot hold. */
  predicate Blocked(catalogue: Catalogue, urls: seq<Url>, site: Site, keyOf: Url -> string, url: Url) {
    && IsEvent(site(url))
    && (|| (url !in catalogue && (|url| > 500 || Clashes(catalogue, urls, site, keyOf, url)))
        || (Writes(catalogue, url, site)
            && (|site(url).facts.location| > 200
                || (site(url).facts.endsOn.Some? && site(url).facts.endsOn.value < site(url).facts.startsOn))))
  }

  ghost predicate SomeBlocked(catalogue: Catalogue, urls: seq<Url>, site: Site, keyOf: Url -> string) {
    exists u :: u in urls && Blocked(catalogue, urls, site, keyOf, u)
  }

  /** A key is taken in the catalogue reached so far iff a stored or an observed event page has it. */
  lemma TakenIff(catalogue: Catalogue, reached: Catalogue, before: seq<Url>, url: Url, site: Site, keyOf: Url -> string, now: int)
    requires Recorded(catalogue, reached, before, site, keyOf, now) && url !in reached
    ensures (exists u :: u in reached && reached[u].stableKey == keyOf(url)) <==> Clashes(catalogue, before, site, keyOf, url)
  {
    assert forall u :: u in reached ==> reached[u].stableKey == KeyUnder(catalogue, keyOf, u);
    assert forall u :: u in reached <==> u in catalogue || (u in before && IsEvent(site(u)));
  }

  /** With nothing blocked before, the next write is refused iff its page is blocked. */
  lemma RefusedIffBlocked(catalogue: Catalogue, reached: Catalogue, before: seq<Url>, url: Url, site: Site, keyOf: Url -> string, now: int)
    requires Recorded(catalogue, reached, before, site, keyOf, now) && IsEvent(site(url))
    requires !SomeBlocked(catalogue, before, site, keyOf)
    ensures Refused(reached, url, site(url).facts, keyOf(url)) <==> Blocked(catalogue, before, site, keyOf, url)
  {
    NextVerdict(catalogue, reached, before, url, site, keyOf, now);
    if url !in reached { TakenIff(catalogue, reached, before, url, site, keyOf, now); }
  }

  /** Adding a page blocks something new iff it is itself blocked: a clash is mutual. */
  lemma BlockedByOneMore(catalogue: Catalogue, before: seq<Url>, url: Url, site: Site, keyOf: Url -> string)
    requires !SomeBlocked(catalogue, before, site, keyOf)
    ensures SomeBlocked(catalogue, before + [url], site, keyOf) <==> Blocked(catalogue, before, site, keyOf, url)
  {
    var urls := before + [url];
    assert forall u :: u in urls <==> u in before || u == url;
    assert Clashes(catalogue, urls, site, keyOf, url) <==> Clashes(catalogue, before, site, keyOf, url);
    if SomeBlocked(catalogue, urls, site, keyOf) {
      var u :| u in urls && Blocked(catalogue, urls, site, keyOf, u);
      if u != url {
        assert !Blocked(catalogue, before, site, keyOf, u);
        assert keyOf(u) == KeyUnder(catalogue, keyOf, url) && IsEvent(site(url)) && u in before;
        assert url !in catalogue;
      }
    }
    if Blocked(catalogue, before, site, keyOf, url) { assert url in urls && Blocked(catalogue, urls, site, keyOf, url); }
  }

  /** **A live run is refused iff some event page among its addresses is blocked**: its key is shared with
      another stored or observed event page, its address is too long, or its facts cannot be held. */
  lemma {:induction false} LiveRefusedIff(catalogue: Catalogue, t: Tally, urls: seq<Url>, site: Site, keyOf: Url -> string, now: int)
    ensures Discover(State(catalogue, t, false), urls, site, keyOf, now, false).crashed
       <==> SomeBlocked(catalogue, urls, site, keyOf)
    decreases |urls|
  {
    var st := State(catalogue, t, false);
    if urls != [] {
      var before, url := urls[..|urls| - 1], urls[|urls| - 1];
      assert urls == before + [url];
      LiveRefusedIff(catalogue, t, before, site, keyOf, now);
      if SomeBlocked(catalogue, before, site, keyOf) {
        StaysBlocked(catalogue, before, url, site, keyOf);
      } else {
        LiveRecords(st, before, site, keyOf, now);
        BlockedByOneMore(catalogue, before, url, site, keyOf);
        if IsEvent(site(url)) {
          RefusedIffBlocked(catalogue, Discover(st, before, site, keyOf, now, false).catalogue, before, url, site, keyOf, now);
        }
      }
    }
  }

  lemma StaysBlocked(catalogue: Catalogue, before: seq<Url>, url: Url, site: Site, keyOf: Url -> string)
    requires SomeBlocked(catalogue, before, site, keyOf)
    ensures SomeBlocked(catalogue, before + [url], site, keyOf)
  {
    var u :| u in before && Blocked(catalogue, before, site, keyOf, u);
    assert forall v :: v in before ==> v in before + [url];
    assert Blocked(catalogue, before + [url], site, keyOf, u);
  }

  /** **The dry run reports exactly what the live run will do iff** no event page is blocked and no page
      that would be written is asked for twice. The dry run itself is never refused. */
  lemma DryPredictsLiveIff(catalogue: Catalogue, t: Tally, urls: seq<Url>, site: Site, keyOf: Url -> string, now: int)
    ensures var dry := Discover(State(catalogue, t, false), urls, site, keyOf, now, true);
            var live := Discover(State(catalogue, t, false), urls, site, keyOf, now, false);
            && !dry.crashed
            && ((!live.crashed && live.tally == dry.tally) <==>
                  && !SomeBlocked(catalogue, urls, site, keyOf)
                  && forall i, j :: 0 <= i < j < |urls| && urls[i] == urls[j] ==> !Writes(catalogue, urls[i], site))
  {
    DryNeverRefused(State(catalogue, t, false), urls, site, keyOf, now);
    LiveRefusedIff(catalogue, t, urls, site, keyOf, now);
    if !SomeBlocked(catalogue, urls, site, keyOf) {
      TalliesDiffer(catalogue, t, urls, site, keyOf, now);
      NoRepeatsIff(catalogue, urls, site);
    }
  }

  lemma {:induction false} DryNeverRefused(st: State, urls: seq<Url>, site: Site, keyOf: Url -> string, now: int)
    requires !st.crashed
    ensures !Discover(st, urls, site, keyOf, now, true).crashed
    decreases |urls|
  {
    if urls != [] { DryNeverRefused(st, urls[..|urls| - 1], site, keyOf, now); }
  }

  lemma {:induction false} NoRepeatsIff(catalogue: Catalogue, urls: seq<Url>, site: Site)
    ensures Repeats(catalogue, urls, site) == 0 <==>
            forall i, j :: 0 <= i < j < |urls| && urls[i] == urls[j] ==> !Writes(catalogue, urls[i], site)
    decreases |urls|
  {
    if urls != [] {
      var n := |urls| - 1;
      var before := urls[..n];
      NoRepeatsIff(catalogue, before, site);
      if Rewrites(catalogue, before, urls[n], site) {
        var i :| 0 <= i < n && before[i] == urls[n];
        assert urls[i] == urls[n];
      }
      assert forall i :: 0 <= i < n ==> before[i] == urls[i];
    }
  }

  /** Stored under the keys their addresses give. */
  ghost predicate KeysAgree(catalogue: Catalogue, keyOf: Url -> string) {
    forall u :: u in catalogue ==> catalogue[u].stableKey == keyOf(u)
  }

  /** **Distinct addresses and distinct keys are enough.** Over the pages stored and asked for, no two share a
      key, and the table has room for the facts of those asked for: then the dry run predicts the live one. */
  lemma DistinctKeysPredict(catalogue: Catalogue, t: Tally, urls: seq<Url>, site: Site, keyOf: Url -> string, now: int)
    requires KeysAgree(catalogue, keyOf) && Distinct(urls)
    requires forall u, v :: (u in urls || u in catalogue) && (v in urls || v in catalogue) && keyOf(u) == keyOf(v) ==> u == v
    requires forall u :: u in urls && IsEvent(site(u)) ==> |u| <= 500 && !Unstorable(site(u).facts)
    ensures var dry := Discover(State(catalogue, t, false), urls, site, keyOf, now, true);
            var live := Discover(State(catalogue, t, false), urls, site, keyOf, now, false);
            !live.crashed && live.tally == dry.tally
  {
    DryPredictsLiveIff(catalogue, t, urls, site, keyOf, now);
  }

  /** What a run selects from a list without repeats has none. */
  lemma WantedDistinct(catalogue: Catalogue, urls: seq<Url>, mode: Mode, now: int, recheck: int, cap: nat)
    requires Distinct(urls)
    ensures Distinct(Wanted(catalogue, urls, mode, now, recheck, cap))
  {
    if mode != Full {
      FilterKeeps(urls, (u: Url) => u !in catalogue || catalogue[u].lastSeen <= now - recheck, (a: Url, b: Url) => true);
    }
  }

  /** **After a sitemap walk only the table can make the dry run wrong**: the list has no repeats, so the dry
      run reports what the live run will do iff no event page it asks for is blocked. */
  lemma SitemapRunPredicts(catalogue: Catalogue, m: Sitemap, mode: Mode, recheck: int, cap: nat, site: Site, keyOf: Url -> string, now: int)
    requires SitemapUrls(m).Ok?
    ensures var (urls, t) := SitemapUrls(m).value;
            var wanted := Wanted(catalogue, urls, mode, now, recheck, cap);
            var dry := Discover(State(catalogue, t, false), wanted, site, keyOf, now, true);
            var live := Discover(State(catalogue, t, false), wanted, site, keyOf, now, false);
            (!live.crashed && live.tally == dry.tally) <==> !SomeBlocked(catalogue, wanted, site, keyOf)
  {
    var (urls, t) := SitemapUrls(m).value;
    SitemapNames(m);
    WantedDistinct(catalogue, urls, mode, now, recheck, cap);
    DryPredictsLiveIff(catalogue, t, Wanted(catalogue, urls, mode, now, recheck, cap), site, keyOf, now);
  }

  // ------------------------------------------------------------------
  // Which pages are asked for, and what the counts count.
  // ------------------------------------------------------------------

  /** **A run asks for every page that is due and for no other**: in full mode all, otherwise those never stored and those
      last seen `recheck` or longer ago; in the order of the list, up to the cap. */
  lemma SelectedIff(catalogue: Catalogue, urls: seq<Url>, mode: Mode, now: int, recheck: int, cap: nat)
    ensures var selected := Select(catalogue, urls, mode, now, recheck);
            var wanted := Wanted(catalogue, urls, mode, now, recheck, cap);
            && (forall u :: u in selected <==>
                  u in urls && (mode == Full || u !in catalogue || catalogue[u].lastSeen + recheck <= now))
            && (Distinct(urls) ==> Distinct(selected)) && (mode == Full ==> selected == urls)
            && wanted <= selected && |wanted| == if |selected| <= cap then |selected| else cap
  {
    FilterKeeps(urls, (u: Url) => u !in catalogue || catalogue[u].lastSeen <= now - recheck, (a: Url, b: Url) => true);
  }

  /** The cap asked for counts unless it is nought; a run cut short by it says so; a list given by the caller is all a
      run has seen. */
  lemma CapAndList(asked: Option<nat>, configured: nat, t: Tally, urls: seq<Url>, m: Sitemap)
    ensures CapOf(None, configured) == configured && CapOf(Some(0), configured) == configured
    ensures asked.Some? && asked.value > 0 ==> CapOf(asked, configured) == asked.value
    ensures Closed(t, false) == t
    ensures !Closed(t, true).isComplete && DetailCap in Closed(t, true).warnings
    ensures Closed(t, true) == t.(isComplete := false, warnings := Closed(t, true).warnings)
    ensures Offered(Some(urls), m) == Ok((urls, NONE.(urlsSeen := |urls|)))
  {}

  function HowMany(urls: seq<Url>, p: Url -> bool): nat {
    if urls == [] then 0 else HowMany(urls[..|urls| - 1], p) + if p(urls[|urls| - 1]) then 1 else 0
  }

  /** A page with facts and a name. */
  predicate GivesEvent(site: Site, u: Url) { site(u).EventPage? && site(u).facts.title != "" }

  /** **What a dry run counts**: the event pages it would create, update and leave, the answers it could not use, the
      pages it read; and it is complete unless a page could not be read. */
  lemma {:induction false} DryCounts(catalogue: Catalogue, t: Tally, urls: seq<Url>, site: Site, keyOf: Url -> string, now: int)
    ensures var after := Discover(State(catalogue, t, false), urls, site, keyOf, now, true).tally;
            && after.created == t.created + HowMany(urls, (u: Url) => GivesEvent(site, u) && u !in catalogue)
            && after.updated == t.updated
               + HowMany(urls, (u: Url) => GivesEvent(site, u) && u in catalogue && catalogue[u].checksum != site(u).facts)
            && after.same == t.same
               + HowMany(urls, (u: Url) => GivesEvent(site, u) && u in catalogue && catalogue[u].checksum == site(u).facts)
            && after.errors == t.errors + HowMany(urls, (u: Url) => site(u).Unreadable? || site(u).Unusable?)
            && after.pagesFetched == t.pagesFetched + HowMany(urls, (u: Url) => !site(u).Unreadable?)
            && after.urlsSeen == t.urlsSeen
    decreases |urls|
  {
    if urls != [] {
      DryCounts(catalogue, t, urls[..|urls| - 1], site, keyOf, now);
      DryNeverRefused(State(catalogue, t, false), urls[..|urls| - 1], site, keyOf, now);
      RunPreserves(State(catalogue, t, false), urls[..|urls| - 1], site, keyOf, now, true);
    }
  }

  lemma {:induction false} DryFlags(catalogue: Catalogue, t: Tally, urls: seq<Url>, site: Site, keyOf: Url -> string, now: int)
    ensures var after := Discover(State(catalogue, t, false), urls, site, keyOf, now, true).tally;
            && (after.isComplete <==> t.isComplete && forall u :: u in urls ==> !site(u).Unreadable?)
            && (DetailFailed in after.warnings <==>
                  DetailFailed in t.warnings || exists u :: u in urls && (site(u).Unreadable? || site(u).Unusable?))
            && (forall w :: w != DetailFailed ==> (w in after.warnings <==> w in t.warnings))
            && (Distinct(t.warnings) ==> Distinct(after.warnings))
    decreases |urls|
  {
    if urls != [] {
      var before, url := urls[..|urls| - 1], urls[|urls| - 1];
      DryFlags(catalogue, t, before, site, keyOf, now);
      DryNeverRefused(State(catalogue, t, false), before, site, keyOf, now);
      assert forall u :: u in urls <==> u in before || u == url;
    }
  }

  // ------------------------------------------------------------------
  // Inputs at which the prediction fails.
  // ------------------------------------------------------------------

  const CONCERT := EventPage(Facts("Concert", 1, None, "Tallinn"))

  function Concerts(): Site { _ => CONCERT }

  lemma TwoPages(st: State, u: Url, v: Url, site: Site, keyOf: Url -> string, now: int, dryRun: bool)
    ensures Discover(st, [u, v], site, keyOf, now, dryRun)
         == Observe(Observe(st, u, site, keyOf, now, dryRun), v, site, keyOf, now, dryRun)
  {
    assert [u, v][..1] == [u] && [u][..0] == [];
    assert Discover(st, [], site, keyOf, now, dryRun) == st;
    assert Discover(st, [u], site, keyOf, now, dryRun) == Observe(st, u, site, keyOf, now, dryRun);
  }

  /** A list that names a new page twice: the dry run promises two pages, the live run creates one. */
  lemma RepeatedPageMiscounted(u: Url, keyOf: Url -> string, now: int)
    requires |u| <= 500
    ensures var st := State(map[], NONE, false);
            var dry := Discover(st, [u, u], Concerts(), keyOf, now, true);
            var live := Discover(st, [u, u], Concerts(), keyOf, now, false);
            && !live.crashed && dry.tally == NONE.(pagesFetched := 2, created := 2)
            && live.tally == NONE.(pagesFetched := 2, created := 1, same := 1)
  {
    var st := State(map[], NONE, false);
    TwoPages(st, u, u, Concerts(), keyOf, now, true);
    TwoPages(st, u, u, Concerts(), keyOf, now, false);
    assert !Refused(map[], u, CONCERT.facts, keyOf(u));
  }

  /** Two new pages under one key: the dry run promises both, the live run is refused. */
  lemma SharedKeyRefused(u: Url, v: Url, keyOf: Url -> string, now: int)
    requires u != v && keyOf(u) == keyOf(v)
    ensures var st := State(map[], NONE, false);
            && Discover(st, [u, v], Concerts(), keyOf, now, true).tally == NONE.(pagesFetched := 2, created := 2)
            && Discover(st, [u, v], Concerts(), keyOf, now, false).crashed
  {
    var urls := [u, v];
    TwoPages(State(map[], NONE, false), u, v, Concerts(), keyOf, now, true);
    assert urls[0] == u && urls[1] == v;
    assert KeyUnder(map[], keyOf, v) == keyOf(u);
    assert Clashes(map[], urls, Concerts(), keyOf, u);
    assert Blocked(map[], urls, Concerts(), keyOf, u);
    LiveRefusedIff(map[], NONE, urls, Concerts(), keyOf, now);
  }

  /** **A page listed with and without a trailing slash**, such as `/et/sundmused/a` and `/et/sundmused/a/`, both
      of which the sitemap filter admits: the dry run promises two new pages, the live run is refused. */
  lemma TrailingSlashRefused(u: Url, v: Url, pathOf: Url -> string, prefix: string, name: string, now: int)
    requires IsFolder(prefix) && name != "" && forall i :: 0 <= i < |name| ==> name[i] != '/'
    requires pathOf(u) == prefix + name + Slashes(0) && pathOf(v) == prefix + name + Slashes(1)
    ensures IsEventPath(prefix, pathOf(u)) && IsEventPath(prefix, pathOf(v))
    ensures var st, keyOf := State(map[], NONE, false), (x: Url) => StableKey(pathOf(x));
            && Discover(st, [u, v], Concerts(), keyOf, now, true).tally == NONE.(pagesFetched := 2, created := 2)
            && Discover(st, [u, v], Concerts(), keyOf, now, false).crashed
  {
    SlashesPass(prefix, name, 0);
    SlashesPass(prefix, name, 1);
    SlashesShareKey(prefix, name, 1);
    assert |pathOf(u)| != |pathOf(v)|;
    SharedKeyRefused(u, v, (x: Url) => StableKey(pathOf(x)), now);
  }
}
