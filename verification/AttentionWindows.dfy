/** Page-view windows: one bucketed pass over the rows answers every window exactly.

    Source: apps/event_programme/attention.py:166-302. The link from an event to its page is an input. */
module AttentionWindows {
  import opened Basics

  const PRE_EVENT_DAYS := 30
  const LATE_INTEREST_DAYS := 7
  const RECENT_DAYS := 30

  /** One page, one day; a missing view count reads as zero. */
  datatype Row = Row(path: string, day: int, views: Option<nat>)

  datatype Window = Window(path: string, start: int, end: int)

  function Views(r: Row): nat { if r.views.Some? then r.views.value else 0 }

  predicate Covers(w: Window, r: Row) {
    r.path == w.path && w.start <= r.day <= w.end
  }

  /** The plain reading of a window: every row of its page inside it, added up. */
  function NaiveSum(rows: seq<Row>, w: Window): nat {
    if rows == [] then 0 else NaiveSum(rows[..|rows| - 1], w) + if Covers(w, rows[|rows| - 1]) then Views(rows[|rows| - 1]) else 0
  }

  // ------------------------------------------------------------------
  // The bucketed form.
  // ------------------------------------------------------------------

  type Buckets = map<string, seq<(int, nat)>>

  function Bucket(buckets: Buckets, path: string): seq<(int, nat)> {
    if path in buckets then buckets[path] else []
  }

  function SumInside(days: seq<(int, nat)>, start: int, end: int): nat {
    if days == [] then 0
    else SumInside(days[..|days| - 1], start, end)
         + if start <= days[|days| - 1].0 <= end then days[|days| - 1].1 else 0
  }

  /** The query's condition: the row answers some window. */
  predicate Asked(windows: set<Window>, r: Row) {
    exists w :: w in windows && Covers(w, r)
  }

  ghost predicate Sums(buckets: Buckets, rows: seq<Row>, windows: set<Window>) {
    forall w :: w in windows ==> SumInside(Bucket(buckets, w.path), w.start, w.end) == NaiveSum(rows, w)
  }

  lemma BucketOneMore(buckets: Buckets, rows: seq<Row>, i: nat, windows: set<Window>)
    requires i < |rows| && Sums(buckets, rows[..i], windows)
    ensures var r := rows[i];
            Sums(if Asked(windows, r) then buckets[r.path := Bucket(buckets, r.path) + [(r.day, Views(r))]] else buckets,
                 rows[..i + 1], windows)
  {
    var r := rows[i];
    var next := if Asked(windows, r) then buckets[r.path := Bucket(buckets, r.path) + [(r.day, Views(r))]] else buckets;
    assert rows[..i + 1][..i] == rows[..i];
    forall w | w in windows ensures SumInside(Bucket(next, w.path), w.start, w.end) == NaiveSum(rows[..i + 1], w) {
      var days := Bucket(buckets, w.path);
      assert SumInside(days, w.start, w.end) == NaiveSum(rows[..i], w);
      assert (days + [(r.day, Views(r))])[..|days|] == days;
    }
  }

  /** **The single bucketed query answers every window exactly as a scan of all rows would**, for any
      set of overlapping windows. */
  method SumWindows(windows: seq<Window>, rows: seq<Row>) returns (totals: map<Window, nat>)
    ensures forall w :: w in totals <==> w in windows
    ensures forall w :: w in totals ==> totals[w] == NaiveSum(rows, w)
  {
    var distinct := set w | w in windows;
    var byPath: Buckets := map[];
    for i := 0 to |rows|
      invariant Sums(byPath, rows[..i], distinct)
    {
      BucketOneMore(byPath, rows, i, distinct);
      var r := rows[i];
      if Asked(distinct, r) {
        byPath := byPath[r.path := (if r.path in byPath then byPath[r.path] else []) + [(r.day, Views(r))]];
      }
    }
    assert rows[..|rows|] == rows;
    totals := map w | w in distinct :: SumInside(Bucket(byPath, w.path), w.start, w.end);
  }

  // ------------------------------------------------------------------
  // What an event's row shows.
  // ------------------------------------------------------------------

  function Total(rows: seq<Row>, path: string): nat {
    if rows == [] then 0 else Total(rows[..|rows| - 1], path) + if rows[|rows| - 1].path == path then Views(rows[|rows| - 1]) else 0
  }

  predicate Measured(rows: seq<Row>, path: string) {
    exists i :: 0 <= i < |rows| && rows[i].path == path
  }

  /** One programme event and the path of its public page; empty when it has none. */
  datatype Event = Event(id: string, start: Option<int>, path: string)

  /** The days the page table covers. */
  datatype Coverage = Empty | Covered(earliest: int, latest: int)

  datatype Attention = Attention(
    id: string, path: string, start: Option<int>,
    total: Option<nat>, preEvent: Option<nat>, late: Option<nat>, recent: Option<nat>, windowIsComplete: bool)

  function PreWindow(path: string, start: int): Window { Window(path, start - (PRE_EVENT_DAYS - 1), start) }
  function LateWindow(path: string, start: int): Window { Window(path, start - (LATE_INTEREST_DAYS - 1), start) }
  function RecentWindow(path: string, latest: int): Window { Window(path, latest - (RECENT_DAYS - 1), latest) }

  function Sum(totals: map<Window, nat>, w: Window): Option<nat> {
    if w in totals then Some(totals[w]) else None
  }

  predicate Complete(start: Option<int>, c: Coverage)
    requires c.Covered?
  {
    start.Some? && c.earliest <= start.value - (PRE_EVENT_DAYS - 1) && start.value <= c.latest
  }

  /** What an event on `path` should show, read off all the rows without any table in between. */
  function Figures(id: string, path: string, start: Option<int>, c: Coverage, rows: seq<Row>): Attention
    requires c.Covered?
  {
    var measured, complete := Measured(rows, path), Complete(start, c);
    Attention(
      id, path, start,
      if measured then Some(Total(rows, path)) else None,
      if complete && measured then Some(NaiveSum(rows, PreWindow(path, start.value))) else None,
      if complete && measured then Some(NaiveSum(rows, LateWindow(path, start.value))) else None,
      if measured then Some(NaiveSum(rows, RecentWindow(path, c.latest))) else None,
      complete)
  }

  /** **The windows in days**: the thirty up to and including the start, the last seven of them, and the thirty up to the
      newest day measured. They are shown only for a measured page, the first two only when the table covers all of the
      thirty days and the start is not after the newest day. */
  lemma FiguresMean(id: string, path: string, start: Option<int>, earliest: int, latest: int, rows: seq<Row>)
    ensures var f := Figures(id, path, start, Covered(earliest, latest), rows);
            var measured := exists i :: 0 <= i < |rows| && rows[i].path == path;
            && f.id == id && f.path == path && f.start == start
            && (f.total.Some? <==> measured) && (f.recent.Some? <==> measured)
            && (measured ==> f.total.value == Total(rows, path) && f.recent.value == NaiveSum(rows, Window(path, latest - 29, latest)))
            && (f.windowIsComplete <==> start.Some? && earliest <= start.value - 29 && start.value <= latest)
            && (f.preEvent.Some? <==> measured && f.windowIsComplete) && (f.late.Some? <==> measured && f.windowIsComplete)
            && (measured && f.windowIsComplete ==>
                  && f.preEvent.value == NaiveSum(rows, Window(path, start.value - 29, start.value))
                  && f.late.value == NaiveSum(rows, Window(path, start.value - 6, start.value)))
  {}

  /** A window sums the views of its page's rows inside it, both ends included; a missing count adds nothing. */
  lemma SumOfOne(r: Row, path: string, start: int, end: int)
    ensures NaiveSum([r], Window(path, start, end))
         == if r.path == path && start <= r.day && r.day <= end && r.views.Some? then r.views.value else 0
    ensures Total([r], path) == if r.path == path && r.views.Some? then r.views.value else 0
  {
    assert [r][..0] == [];
  }

  lemma {:induction false} SumsAdd(a: seq<Row>, b: seq<Row>, w: Window)
    ensures NaiveSum(a + b, w) == NaiveSum(a, w) + NaiveSum(b, w) && Total(a + b, w.path) == Total(a, w.path) + Total(b, w.path)
    decreases |b|
  {
    if b == [] {
      assert a + b == a;
    } else {
      assert (a + b)[..|a + b| - 1] == a + b[..|b| - 1];
      SumsAdd(a, b[..|b| - 1], w);
    }
  }

  /** The page an event id resolves to: the last one named for it, or the empty path. */
  function PathOf(items: seq<Event>, id: string): string {
    if items == [] then ""
    else
      var last := items[|items| - 1];
      if last.id == id && last.path != "" then last.path else PathOf(items[..|items| - 1], id)
  }

  /** The start date of the last event under an id. */
  function StartOf(items: seq<Event>, id: string): Option<int> {
    if items == [] then None
    else
      var last := items[|items| - 1];
      if last.id == id then last.start else StartOf(items[..|items| - 1], id)
  }

  method PathsFor(items: seq<Event>) returns (paths: map<string, string>)
    ensures forall id :: id in paths <==> PathOf(items, id) != ""
    ensures forall id :: id in paths ==> paths[id] == PathOf(items, id)
  {
    paths := map[];
    for n := 0 to |items|
      invariant forall id :: id in paths <==> PathOf(items[..n], id) != ""
      invariant forall id :: id in paths ==> paths[id] == PathOf(items[..n], id)
    {
      assert items[..n + 1][..n] == items[..n];
      if items[n].path != "" { paths := paths[items[n].id := items[n].path]; }
    }
    assert items[..|items|] == items;
  }

  method TotalsFor(paths: set<string>, rows: seq<Row>) returns (totals: map<string, nat>)
    ensures forall p :: p in totals <==> p in paths && Measured(rows, p)
    ensures forall p :: p in totals ==> totals[p] == Total(rows, p)
  {
    totals := map[];
    for n := 0 to |rows|
      invariant forall p :: p in totals <==> p in paths && Measured(rows[..n], p)
      invariant forall p :: p in paths ==> (if p in totals then totals[p] else 0) == Total(rows[..n], p)
    {
      var r := rows[n];
      assert rows[..n + 1][..n] == rows[..n];
      MeasuredOneMore(rows, n);
      if r.path in paths {
        totals := totals[r.path := (if r.path in totals then totals[r.path] else 0) + Views(r)];
      }
    }
    assert rows[..|rows|] == rows;
  }

  lemma MeasuredOneMore(rows: seq<Row>, n: nat)
    requires n < |rows|
    ensures forall p :: Measured(rows[..n + 1], p) <==> Measured(rows[..n], p) || p == rows[n].path
  {
    var longer := rows[..n + 1];
    assert forall i :: 0 <= i < n ==> longer[i] == rows[..n][i];
    assert longer[n] == rows[n];
  }

  /** The windows one pass over the events asks for, in three lists. */
  datatype Windows = Windows(pre: seq<Window>, late: seq<Window>, recent: seq<Window>)

  /** Every window the figures of `item` are read from has been asked for. */
  ghost predicate AskedFor(w: Windows, item: Event, path: string, c: Coverage)
    requires c.Covered?
  {
    && RecentWindow(path, c.latest) in w.recent
    && (item.start.Some? ==> PreWindow(path, item.start.value) in w.pre && LateWindow(path, item.start.value) in w.late)
  }

  method WindowsFor(items: seq<Event>, paths: map<string, string>, c: Coverage) returns (w: Windows)
    requires c.Covered?
    ensures forall i :: 0 <= i < |items| && items[i].id in paths ==> AskedFor(w, items[i], paths[items[i].id], c)
  {
    w := Windows([], [], []);
    for n := 0 to |items|
      invariant forall i :: 0 <= i < n && items[i].id in paths ==> AskedFor(w, items[i], paths[items[i].id], c)
    {
      var item := items[n];
      if item.id !in paths { continue; }
      var path := paths[item.id];
      w := w.(recent := w.recent + [RecentWindow(path, c.latest)]);
      if item.start.None? { continue; }
      w := w.(pre := w.pre + [PreWindow(path, item.start.value)], late := w.late + [LateWindow(path, item.start.value)]);
    }
  }

  /** The three window tables and the totals, as the four bulk questions answered them. */
  datatype Tables = Tables(pre: map<Window, nat>, late: map<Window, nat>, recent: map<Window, nat>, totals: map<string, nat>)

  ghost predicate Exact(t: Tables, rows: seq<Row>) {
    && (forall w :: w in t.pre ==> t.pre[w] == NaiveSum(rows, w))
    && (forall w :: w in t.late ==> t.late[w] == NaiveSum(rows, w))
    && (forall w :: w in t.recent ==> t.recent[w] == NaiveSum(rows, w))
    && (forall p :: p in t.totals ==> t.totals[p] == Total(rows, p))
  }

  /** One event's row, read back from the tables by the whole window. */
  function ReadBack(item: Event, path: string, c: Coverage, t: Tables): Attention
    requires c.Covered?
  {
    var measured, complete := path in t.totals, Complete(item.start, c);
    Attention(
      item.id, path, item.start,
      if measured then Some(t.totals[path]) else None,
      if complete && measured then Sum(t.pre, PreWindow(path, item.start.value)) else None,
      if complete && measured then Sum(t.late, LateWindow(path, item.start.value)) else None,
      if measured then Sum(t.recent, RecentWindow(path, c.latest)) else None,
      complete)
  }

  lemma ReadBackIsExact(item: Event, path: string, c: Coverage, t: Tables, rows: seq<Row>)
    requires c.Covered? && Exact(t, rows)
    requires path in t.totals <==> Measured(rows, path)
    requires RecentWindow(path, c.latest) in t.recent
    requires item.start.Some? ==> PreWindow(path, item.start.value) in t.pre && LateWindow(path, item.start.value) in t.late
    ensures ReadBack(item, path, c, t) == Figures(item.id, path, item.start, c, rows)
  {}

  predicate Named(items: seq<Event>, id: string) {
    exists i :: 0 <= i < |items| && items[i].id == id
  }

  lemma OneMoreEvent(items: seq<Event>, n: nat, id: string)
    requires n < |items|
    ensures Named(items[..n + 1], id) <==> Named(items[..n], id) || items[n].id == id
    ensures StartOf(items[..n + 1], id) == if items[n].id == id then items[n].start else StartOf(items[..n], id)
  {
    var before, now := items[..n], items[..n + 1];
    assert now[..n] == before && now[n] == items[n];
    if Named(before, id) {
      var i :| 0 <= i < |before| && before[i].id == id;
      assert now[i].id == id;
    }
  }

  /** The answer for the events `items`: one row for each id with a page, holding its exact figures. */
  ghost predicate Answers(result: map<string, Attention>, items: seq<Event>, paths: map<string, string>, c: Coverage, rows: seq<Row>)
    requires c.Covered?
  {
    && (forall id :: id in result <==> id in paths && Named(items, id))
    && (forall id :: id in result ==> id in paths && result[id] == Figures(id, paths[id], StartOf(items, id), c, rows))
  }

  lemma AnswersOneMore(result: map<string, Attention>, items: seq<Event>, n: nat, paths: map<string, string>, c: Coverage, rows: seq<Row>)
    requires c.Covered? && n < |items| && Answers(result, items[..n], paths, c, rows)
    ensures var item := items[n];
            Answers(if item.id in paths then result[item.id := Figures(item.id, paths[item.id], item.start, c, rows)] else result,
                    items[..n + 1], paths, c, rows)
  {
    var item := items[n];
    var next := if item.id in paths then result[item.id := Figures(item.id, paths[item.id], item.start, c, rows)] else result;
    forall id ensures id in next <==> id in paths && Named(items[..n + 1], id) {
      OneMoreEvent(items, n, id);
    }
    forall id | id in next ensures id in paths && next[id] == Figures(id, paths[id], StartOf(items[..n + 1], id), c, rows) {
      OneMoreEvent(items, n, id);
    }
  }

  /** `attach_attention`: all events at once, their windows answered in bulk and read back by whole window.
      **Every event id with a page gets exactly the figures a scan of all rows would give it**, two events on
      one page included; an id without a page is absent; and the figures of every row are coherent. */
  method AttachAttention(items: seq<Event>, c: Coverage, rows: seq<Row>) returns (result: map<string, Attention>)
    ensures c.Empty? ==> result == map[]
    ensures c.Covered? ==> forall id :: id in result <==> PathOf(items, id) != ""
    ensures c.Covered? ==> forall id :: id in result ==>
              result[id] == Figures(id, PathOf(items, id), StartOf(items, id), c, rows) && Coherent(result[id])
  {
    if items == [] || c.Empty? { return map[]; }
    var paths := PathsFor(items);
    forall id | id in paths ensures Named(items, id) { ResolvedOccurs(items, id); }
    if paths == map[] { return map[]; }
    var w := WindowsFor(items, paths, c);
    var pre := SumWindows(w.pre, rows);
    var late := SumWindows(w.late, rows);
    var recent := SumWindows(w.recent, rows);
    var totals := TotalsFor(paths.Values, rows);
    var t := Tables(pre, late, recent, totals);
    result := map[];
    for n := 0 to |items|
      invariant Answers(result, items[..n], paths, c, rows)
    {
      var item := items[n];
      AnswersOneMore(result, items, n, paths, c, rows);
      if item.id !in paths { continue; }
      assert AskedFor(w, item, paths[item.id], c);
      ReadBackIsExact(item, paths[item.id], c, t, rows);
      result := result[item.id := ReadBack(item, paths[item.id], c, t)];
    }
    assert items[..|items|] == items;
    forall id | id in result ensures Coherent(result[id]) {
      FiguresCohere(id, paths[id], StartOf(items, id), c, rows);
    }
  }

  lemma {:induction false} ResolvedOccurs(items: seq<Event>, id: string)
    requires PathOf(items, id) != ""
    ensures Named(items, id)
  {
    var n := |items| - 1;
    if items[n].id != id || items[n].path == "" {
      ResolvedOccurs(items[..n], id);
      var i :| 0 <= i < n && items[..n][i].id == id;
      assert items[i].id == id;
    }
  }

  /** With one event to an id, the row is that event's own: its page and its start date. */
  lemma {:induction false} OwnPageOwnDate(items: seq<Event>, k: nat)
    requires k < |items| && forall i, j :: 0 <= i < j < |items| ==> items[i].id != items[j].id
    ensures PathOf(items, items[k].id) == items[k].path && StartOf(items, items[k].id) == items[k].start
  {
    var n := |items| - 1;
    if k < n {
      OwnPageOwnDate(items[..n], k);
    } else if items[n].path == "" && PathOf(items[..n], items[n].id) != "" {
      ResolvedOccurs(items[..n], items[n].id);
      assert false;
    }
  }

  lemma FiguresCohere(id: string, path: string, start: Option<int>, c: Coverage, rows: seq<Row>)
    requires c.Covered?
    ensures Coherent(Figures(id, path, start, c, rows))
  {
    WindowWithinTotal(rows, RecentWindow(path, c.latest));
    if start.Some? {
      WindowWithinTotal(rows, PreWindow(path, start.value));
      SmallerWindow(rows, LateWindow(path, start.value), PreWindow(path, start.value));
    }
  }

  /** **late <= pre-event <= total and recent <= total**, wherever those figures are shown. */
  ghost predicate Coherent(a: Attention) {
    && (a.late.Some? <==> a.preEvent.Some?)
    && (a.preEvent.Some? ==> a.total.Some? && a.late.value <= a.preEvent.value <= a.total.value)
    && (a.recent.Some? ==> a.total.Some? && a.recent.value <= a.total.value)
  }

  lemma {:induction false} SmallerWindow(rows: seq<Row>, inner: Window, outer: Window)
    requires inner.path == outer.path && outer.start <= inner.start && inner.end <= outer.end
    ensures NaiveSum(rows, inner) <= NaiveSum(rows, outer)
  {
    if rows != [] { SmallerWindow(rows[..|rows| - 1], inner, outer); }
  }

  lemma {:induction false} WindowWithinTotal(rows: seq<Row>, w: Window)
    ensures NaiveSum(rows, w) <= Total(rows, w.path)
  {
    if rows != [] { WindowWithinTotal(rows[..|rows| - 1], w); }
  }
}
