/** The addresses a discovery run may ask for: what the sitemap's readable children list, without repeats.

    Source: apps/events/public_discovery.py:72-105, 178-228. Fetching is an oracle: the index and each
    child give the locations they print, or nothing; the host and path rules are inputs. */
module EventSitemap {
  import opened Basics

  type Url = string

  datatype Warning = DetailCap | SitemapUnreadable | DetailFailed

  /** What a run reports. Each warning is given once. */
  datatype Tally = Tally(
    pagesFetched: nat, urlsSeen: nat, created: nat, updated: nat, same: nat, errors: nat, isComplete: bool, warnings: seq<Warning>)

  const NONE := Tally(0, 0, 0, 0, 0, 0, true, [])

  function Warn(t: Tally, w: Warning): Tally {
    if w in t.warnings then t else t.(warnings := t.warnings + [w])
  }

  datatype Sitemap = Sitemap(
    index: Option<seq<Url>>, child: Url -> Option<seq<Url>>, isKoda: Url -> bool, isEventPage: Url -> bool,
    maxSitemaps: nat, maxUrls: nat)

  datatype Refusal = IndexUnreadable | TooManySitemaps | TooManyUrls

  /** The event pages among `locations` that are new to `seen`, appended in order. */
  function AddPages(m: Sitemap, locations: seq<Url>, seen: seq<Url>): seq<Url> {
    if locations == [] then seen
    else AddPages(m, locations[1..], if m.isEventPage(locations[0]) && locations[0] !in seen then seen + [locations[0]] else seen)
  }

  function ReadChildren(m: Sitemap, children: seq<Url>, seen: seq<Url>, t: Tally): Result<(seq<Url>, Tally), Refusal> {
    if children == [] then Ok((seen, t.(urlsSeen := |seen|)))
    else
      match m.child(children[0])
      case None => ReadChildren(m, children[1..], seen, Warn(t.(errors := t.errors + 1, isComplete := false), SitemapUnreadable))
      case Some(locations) =>
        var more := AddPages(m, locations, seen);
        if |more| > m.maxUrls then Err(TooManyUrls)
        else ReadChildren(m, children[1..], more, t.(pagesFetched := t.pagesFetched + 1))
  }

  function Children(m: Sitemap, locations: seq<Url>): seq<Url> {
    if locations == [] then [] else (if m.isKoda(locations[0]) then [locations[0]] else []) + Children(m, locations[1..])
  }

  function SitemapUrls(m: Sitemap): Result<(seq<Url>, Tally), Refusal> {
    if m.index.None? then Err(IndexUnreadable)
    else
      var children := Children(m, m.index.value);
      if |children| > m.maxSitemaps then Err(TooManySitemaps)
      else ReadChildren(m, children, [], NONE.(pagesFetched := 1))
  }

  method ReadLocations(m: Sitemap, locations: seq<Url>, before: seq<Url>) returns (seen: seq<Url>)
    ensures seen == AddPages(m, locations, before)
  {
    seen := before;
    for i := 0 to |locations|
      invariant AddPages(m, locations[i..], seen) == AddPages(m, locations, before)
    {
      assert locations[i..][0] == locations[i] && locations[i..][1..] == locations[i + 1..];
      if m.isEventPage(locations[i]) && locations[i] !in seen { seen := seen + [locations[i]]; }
    }
  }

  method SitemapEventUrls(m: Sitemap) returns (outcome: Result<(seq<Url>, Tally), Refusal>)
    ensures outcome == SitemapUrls(m)
  {
    if m.index.None? { return Err(IndexUnreadable); }
    var tally := NONE.(pagesFetched := 1);
    var children := Children(m, m.index.value);
    if |children| > m.maxSitemaps { return Err(TooManySitemaps); }
    var seen: seq<Url> := [];
    for i := 0 to |children|
      invariant ReadChildren(m, children[i..], seen, tally) == ReadChildren(m, children, [], NONE.(pagesFetched := 1))
    {
      assert children[i..][0] == children[i] && children[i..][1..] == children[i + 1..];
      var body := m.child(children[i]);
      if body.None? {
        tally := Warn(tally.(errors := tally.errors + 1, isComplete := false), SitemapUnreadable);
        continue;
      }
      tally := tally.(pagesFetched := tally.pagesFetched + 1);
      seen := ReadLocations(m, body.value, seen);
      if |seen| > m.maxUrls { return Err(TooManyUrls); }
    }
    return Ok((seen, tally.(urlsSeen := |seen|)));
  }

  // ------------------------------------------------------------------
  // What the list holds.
  // ------------------------------------------------------------------

  lemma {:induction false} AddedPages(m: Sitemap, locations: seq<Url>, seen: seq<Url>)
    requires Distinct(seen)
    ensures var more := AddPages(m, locations, seen);
            Distinct(more) && forall u :: u in more <==> u in seen || (u in locations && m.isEventPage(u))
  {
    if locations != [] {
      var l := locations[0];
      AddedPages(m, locations[1..], if m.isEventPage(l) && l !in seen then seen + [l] else seen);
      assert forall u :: u in locations <==> u == l || u in locations[1..];
    }
  }

  /** A child among `children` that can be read names the event page `u`. */
  predicate NamedBy(m: Sitemap, children: seq<Url>, u: Url) {
    m.isEventPage(u) && exists c :: c in children && m.child(c).Some? && u in m.child(c).value
  }

  lemma NamedByOneMore(m: Sitemap, children: seq<Url>, u: Url)
    requires children != []
    ensures NamedBy(m, children, u) <==>
            NamedBy(m, children[1..], u) || (m.isEventPage(u) && m.child(children[0]).Some? && u in m.child(children[0]).value)
  {
    assert forall c :: c in children <==> c == children[0] || c in children[1..];
  }

  lemma {:induction false} ChildrenAre(m: Sitemap, locations: seq<Url>)
    ensures forall c :: c in Children(m, locations) <==> c in locations && m.isKoda(c)
  {
    if locations != [] {
      ChildrenAre(m, locations[1..]);
      assert forall c :: c in locations <==> c == locations[0] || c in locations[1..];
    }
  }

  /** A readable child sitemap on an allowed host, named by the index, lists the event page `u`. */
  ghost predicate ListedBySite(m: Sitemap, u: Url)
    requires m.index.Some?
  {
    m.isEventPage(u) && exists c :: c in m.index.value && m.isKoda(c) && m.child(c).Some? && u in m.child(c).value
  }

  /** **Exactly when the sitemap is refused**: the index cannot be read, it names too many children on allowed hosts, or
      its readable children name too many event pages. */
  lemma RefusedIff(m: Sitemap)
    ensures m.index.None? <==> SitemapUrls(m) == Err(IndexUnreadable)
    ensures SitemapUrls(m) == Err(TooManySitemaps) <==> m.index.Some? && |Children(m, m.index.value)| > m.maxSitemaps
    ensures SitemapUrls(m).Ok? ==> |SitemapUrls(m).value.0| <= m.maxUrls
    ensures SitemapUrls(m) == Err(TooManyUrls) ==>
              exists urls: seq<Url> :: Distinct(urls) && |urls| > m.maxUrls && forall u :: u in urls ==> ListedBySite(m, u)
  {
    if m.index.Some? && |Children(m, m.index.value)| <= m.maxSitemaps {
      var children := Children(m, m.index.value);
      UrlsCapped(m, children, [], NONE.(pagesFetched := 1));
      ChildrenAre(m, m.index.value);
      if SitemapUrls(m).Err? {
        var urls := TooManyNamed(m, children, [], NONE.(pagesFetched := 1));
        forall u | u in urls ensures ListedBySite(m, u) { assert NamedBy(m, children, u); }
      }
    }
  }

  lemma {:induction false} UrlsCapped(m: Sitemap, children: seq<Url>, seen: seq<Url>, t: Tally)
    requires |seen| <= m.maxUrls
    ensures var r := ReadChildren(m, children, seen, t);
            if r.Ok? then |r.value.0| <= m.maxUrls else r.error == TooManyUrls
  {
    if children != [] {
      if m.child(children[0]).None? {
        UrlsCapped(m, children[1..], seen, Warn(t.(errors := t.errors + 1, isComplete := false), SitemapUnreadable));
      } else if |AddPages(m, m.child(children[0]).value, seen)| <= m.maxUrls {
        UrlsCapped(m, children[1..], AddPages(m, m.child(children[0]).value, seen), t.(pagesFetched := t.pagesFetched + 1));
      }
    }
  }

  lemma {:induction false} TooManyNamed(m: Sitemap, children: seq<Url>, seen: seq<Url>, t: Tally) returns (urls: seq<Url>)
    requires Distinct(seen) && ReadChildren(m, children, seen, t).Err?
    ensures Distinct(urls) && |urls| > m.maxUrls && forall u :: u in urls ==> u in seen || NamedBy(m, children, u)
  {
    var c := children[0];
    if m.child(c).None? {
      urls := TooManyNamed(m, children[1..], seen, Warn(t.(errors := t.errors + 1, isComplete := false), SitemapUnreadable));
    } else {
      var more := AddPages(m, m.child(c).value, seen);
      AddedPages(m, m.child(c).value, seen);
      if |more| > m.maxUrls {
        urls := more;
      } else {
        urls := TooManyNamed(m, children[1..], more, t.(pagesFetched := t.pagesFetched + 1));
      }
    }
    forall u | u in urls ensures u in seen || NamedBy(m, children, u) { NamedByOneMore(m, children, u); }
  }

  /** A warning is given once, and others are left alone. */
  lemma WarnOnce(t: Tally, w: Warning)
    ensures w in Warn(t, w).warnings && forall x :: x != w ==> (x in Warn(t, w).warnings <==> x in t.warnings)
    ensures Distinct(t.warnings) ==> Distinct(Warn(t, w).warnings)
    ensures Warn(t, w) == t.(warnings := Warn(t, w).warnings)
  {}

  function Unreadables(m: Sitemap, children: seq<Url>): nat {
    if children == [] then 0 else (if m.child(children[0]).None? then 1 else 0) + Unreadables(m, children[1..])
  }

  lemma {:induction false} ChildrenNames(m: Sitemap, children: seq<Url>, seen: seq<Url>, t: Tally)
    requires Distinct(seen)
    ensures var r := ReadChildren(m, children, seen, t);
            r.Ok? ==> Distinct(r.value.0) && forall u :: u in r.value.0 <==> u in seen || NamedBy(m, children, u)
  {
    if children != [] {
      forall u ensures NamedBy(m, children, u) <==>
                       NamedBy(m, children[1..], u) || (m.isEventPage(u) && m.child(children[0]).Some? && u in m.child(children[0]).value)
      {
        NamedByOneMore(m, children, u);
      }
      if m.child(children[0]).None? {
        ChildrenNames(m, children[1..], seen, Warn(t.(errors := t.errors + 1, isComplete := false), SitemapUnreadable));
      } else {
        AddedPages(m, m.child(children[0]).value, seen);
        ChildrenNames(m, children[1..], AddPages(m, m.child(children[0]).value, seen), t.(pagesFetched := t.pagesFetched + 1));
      }
    }
  }

  lemma {:induction false} ChildrenCounted(m: Sitemap, children: seq<Url>, seen: seq<Url>, t: Tally)
    ensures var r := ReadChildren(m, children, seen, t);
            r.Ok? ==>
              var after, failed := r.value.1, Unreadables(m, children);
              && after.errors == t.errors + failed && after.pagesFetched == t.pagesFetched + |children| - failed
              && (after.isComplete <==> t.isComplete && failed == 0)
              && (SitemapUnreadable in after.warnings <==> SitemapUnreadable in t.warnings || failed > 0)
              && after.urlsSeen == |r.value.0|
              && after.created == t.created && after.updated == t.updated && after.same == t.same
  {
    if children != [] {
      if m.child(children[0]).None? {
        ChildrenCounted(m, children[1..], seen, Warn(t.(errors := t.errors + 1, isComplete := false), SitemapUnreadable));
      } else {
        ChildrenCounted(m, children[1..], AddPages(m, m.child(children[0]).value, seen), t.(pagesFetched := t.pagesFetched + 1));
      }
    }
  }

  /** **The list names every event page of every readable child, once**, and the tally says how many children
      could not be read: they cost their own pages and the run's completeness, and nothing else. */
  lemma SitemapNames(m: Sitemap)
    ensures SitemapUrls(m).Ok? ==>
              var (urls, t) := SitemapUrls(m).value;
              var children := Children(m, m.index.value);
              && Distinct(urls) && (forall u :: u in urls <==> ListedBySite(m, u))
              && t.urlsSeen == |urls| && t.errors == Unreadables(m, children)
              && t.pagesFetched == 1 + |children| - t.errors && (t.isComplete <==> t.errors == 0)
  {
    if SitemapUrls(m).Ok? {
      var children := Children(m, m.index.value);
      ChildrenNames(m, children, [], NONE.(pagesFetched := 1));
      ChildrenAre(m, m.index.value);
      ChildrenCounted(m, children, [], NONE.(pagesFetched := 1));
    }
  }
}
