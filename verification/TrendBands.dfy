/** The hover strips of the trend chart are a Voronoi tiling of its time axis.

    Source: apps/dashboard/sparkline.py:255-276, 301-341. Dates are day numbers; coordinates are reals. */
module TrendBands {
  import opened Basics
  import opened Sorting

  const VIEWBOX_WIDTH := 100.0

  datatype Reading = Reading(line: string, when: int, value: real)

  datatype Band = Band(x: real, width: real, pointX: real, when: int, readings: seq<Reading>)

  // ------------------------------------------------------------------
  // Dates.
  // ------------------------------------------------------------------

  function Ascending(): (int, int) -> bool { (a: int, b: int) => a <= b }

  ghost predicate Increasing(dates: seq<int>) {
    forall i, j :: 0 <= i < j < |dates| ==> dates[i] < dates[j]
  }

  /** The dates as `setdefault` first meets them: each once. */
  function DatesOf(readings: seq<Reading>): seq<int> {
    if readings == [] then []
    else
      var earlier := DatesOf(readings[..|readings| - 1]);
      var when := readings[|readings| - 1].when;
      if when in earlier then earlier else earlier + [when]
  }

  function SortedDates(readings: seq<Reading>): seq<int> {
    Sort(DatesOf(readings), Ascending())
  }

  function On(readings: seq<Reading>, when: int): seq<Reading> {
    Filter(readings, (r: Reading) => r.when == when)
  }

  lemma {:induction false} DatesAre(readings: seq<Reading>)
    ensures Distinct(DatesOf(readings))
    ensures forall d :: d in DatesOf(readings) <==> exists i :: 0 <= i < |readings| && readings[i].when == d
  {
    if readings != [] {
      var n := |readings| - 1;
      var earlier := readings[..n];
      DatesAre(earlier);
      forall d ensures d in DatesOf(readings) <==> exists i :: 0 <= i < |readings| && readings[i].when == d {
        if d in DatesOf(earlier) {
          var i :| 0 <= i < |earlier| && earlier[i].when == d;
          assert readings[i].when == d;
        }
        if exists i :: 0 <= i < |readings| && readings[i].when == d {
          var i :| 0 <= i < |readings| && readings[i].when == d;
          if i < n { assert earlier[i].when == d; }
        }
      }
    }
  }

  lemma SortedDatesAre(readings: seq<Reading>)
    ensures Increasing(SortedDates(readings))
    ensures forall d :: d in SortedDates(readings) <==> exists i :: 0 <= i < |readings| && readings[i].when == d
  {
    DatesAre(readings);
    SortSorts(DatesOf(readings), Ascending());
    SortDistinct(DatesOf(readings), Ascending());
    forall d ensures d in SortedDates(readings) <==> d in DatesOf(readings) {
      SameMembers(SortedDates(readings), DatesOf(readings), d);
    }
    forall i, j | 0 <= i < j < |SortedDates(readings)| ensures SortedDates(readings)[i] < SortedDates(readings)[j] {
      assert Ascending()(SortedDates(readings)[i], SortedDates(readings)[j]);
    }
  }

  // ------------------------------------------------------------------
  // Positions and edges.
  // ------------------------------------------------------------------

  function Position(when: int, start: int, span: int): real
    requires span > 0
  {
    ((when - start) as real / span as real) * VIEWBOX_WIDTH
  }

  function Positions(dates: seq<int>): (p: seq<real>)
    requires |dates| >= 2 && Increasing(dates)
    ensures |p| == |dates| && Spread(p)
  {
    var start, span := dates[0], dates[|dates| - 1] - dates[0];
    var p := seq(|dates|, i requires 0 <= i < |dates| => Position(dates[i], start, span));
    assert Spread(p) by {
      Ends(start, span);
      forall i, j | 0 <= i < j < |p| ensures p[i] < p[j] { LaterIsFurther(dates[i], dates[j], start, span); }
    }
    p
  }

  lemma Ends(start: int, span: int)
    requires span > 0
    ensures Position(start, start, span) == 0.0 && Position(start + span, start, span) == VIEWBOX_WIDTH
  {
    var s := span as real;
    assert s / s == 1.0;
  }

  lemma QuotientGrows(a: real, b: real, s: real)
    requires s > 0.0 && a < b
    ensures a / s < b / s
  {}

  lemma LaterIsFurther(a: int, b: int, start: int, span: int)
    requires span > 0 && a < b
    ensures Position(a, start, span) < Position(b, start, span)
  {
    QuotientGrows((a - start) as real, (b - start) as real, span as real);
  }

  /** Strictly increasing from the left edge of the box to its right edge. */
  ghost predicate Spread(p: seq<real>) {
    && |p| >= 2 && p[0] == 0.0 && p[|p| - 1] == VIEWBOX_WIDTH
    && forall i, j :: 0 <= i < j < |p| ==> p[i] < p[j]
  }

  function Edge(p: seq<real>, i: nat): real
    requires i <= |p|
  {
    if i == 0 then 0.0 else if i == |p| then VIEWBOX_WIDTH else (p[i - 1] + p[i]) / 2.0
  }

  function Distance(a: real, b: real): real { if a >= b then a - b else b - a }

  ghost predicate Nearest(p: seq<real>, i: int, q: real)
    requires 0 <= i < |p|
  {
    forall j :: 0 <= j < |p| ==> Distance(q, p[i]) <= Distance(q, p[j])
  }

  /** **A position lies in a band iff that band's observation is a nearest one**, and strictly inside
      iff it is the only nearest one. */
  lemma BandIffNearest(p: seq<real>, i: nat, q: real)
    requires Spread(p) && i < |p| && 0.0 <= q <= VIEWBOX_WIDTH
    ensures Edge(p, i) <= q <= Edge(p, i + 1) <==> Nearest(p, i, q)
    ensures (0 < i ==> Edge(p, i) < q) && (i + 1 < |p| ==> q < Edge(p, i + 1)) <==>
              forall j :: 0 <= j < |p| && j != i ==> Distance(q, p[i]) < Distance(q, p[j])
  {
    if i > 0 { assert Distance(q, p[i]) <= Distance(q, p[i - 1]) <==> Edge(p, i) <= q; }
    if i + 1 < |p| { assert Distance(q, p[i]) <= Distance(q, p[i + 1]) <==> q <= Edge(p, i + 1); }
    forall j | 0 <= j < |p| && j != i && Edge(p, i) <= q <= Edge(p, i + 1) ensures Distance(q, p[i]) <= Distance(q, p[j]) {
      if j < i { assert p[j] <= p[i - 1]; } else { assert p[i + 1] <= p[j]; }
    }
    forall j | 0 <= j < |p| && j != i && (0 < i ==> Edge(p, i) < q) && (i + 1 < |p| ==> q < Edge(p, i + 1))
      ensures Distance(q, p[i]) < Distance(q, p[j])
    {
      if j < i { assert p[j] <= p[i - 1]; } else { assert p[i + 1] <= p[j]; }
    }
  }

  /** The bands cover the box from edge to edge with no gap, no overlap and no empty strip, and each
      holds its own observation. */
  ghost predicate Tiles(bands: seq<Band>) {
    && bands != [] && bands[0].x == 0.0 && bands[|bands| - 1].x + bands[|bands| - 1].width == VIEWBOX_WIDTH
    && (forall i :: 0 <= i < |bands| ==> bands[i].width > 0.0 && bands[i].x <= bands[i].pointX <= bands[i].x + bands[i].width)
    && (forall i :: 0 <= i < |bands| - 1 ==> bands[i + 1].x == bands[i].x + bands[i].width)
  }

  ghost predicate Voronoi(bands: seq<Band>) {
    forall i, q :: 0 <= i < |bands| && 0.0 <= q <= VIEWBOX_WIDTH ==>
      (Holds(bands[i], q) <==> forall j :: 0 <= j < |bands| ==> Distance(q, bands[i].pointX) <= Distance(q, bands[j].pointX))
  }

  predicate Holds(b: Band, q: real) { b.x <= q <= b.x + b.width }

  /** One band per observation date, oldest first, carrying every reading of that date. */
  ghost predicate OnePerDate(bands: seq<Band>, readings: seq<Reading>) {
    && |bands| == |SortedDates(readings)|
    && forall i :: 0 <= i < |bands| ==>
         bands[i].when == SortedDates(readings)[i] && bands[i].readings == On(readings, bands[i].when)
  }

  /** Time is drawn to scale: the share of the box left of an observation is the share of the time span before it. */
  ghost predicate ToScale(bands: seq<Band>) {
    bands != [] &&
    var first, last := bands[0].when, bands[|bands| - 1].when;
    first < last && forall i :: 0 <= i < |bands| ==> bands[i].pointX * (last - first) as real == (bands[i].when - first) as real * 100.0
  }

  lemma PositionToScale(when: int, start: int, span: int)
    requires span > 0
    ensures Position(when, start, span) * span as real == (when - start) as real * 100.0
  {
    var share := (when - start) as real / span as real;
    assert share * span as real == (when - start) as real;
  }

  lemma PositionsToScale(dates: seq<int>)
    requires |dates| >= 2 && Increasing(dates)
    ensures Drawn(Positions(dates), dates)
  {
    forall i | 0 <= i < |dates|
      ensures Positions(dates)[i] * (dates[|dates| - 1] - dates[0]) as real == (dates[i] - dates[0]) as real * 100.0
    {
      PositionToScale(dates[i], dates[0], dates[|dates| - 1] - dates[0]);
    }
  }

  ghost predicate Drawn(p: seq<real>, dates: seq<int>) {
    && |p| == |dates| >= 2 && dates[0] < dates[|dates| - 1]
    && forall i :: 0 <= i < |p| ==> p[i] * (dates[|dates| - 1] - dates[0]) as real == (dates[i] - dates[0]) as real * 100.0
  }

  lemma StripsToScale(p: seq<real>, dates: seq<int>, strips: seq<Band>)
    requires Drawn(p, dates) && |strips| == |p| && forall k :: 0 <= k < |p| ==> strips[k].pointX == p[k] && strips[k].when == dates[k]
    ensures ToScale(strips)
  {}

  /** Every reading is in the band of its date, and in no other. */
  ghost predicate Placed(bands: seq<Band>, readings: seq<Reading>) {
    && (forall i, r :: 0 <= i < |bands| ==> (r in bands[i].readings <==> r in readings && r.when == bands[i].when))
    && (forall r :: r in readings ==> exists i :: 0 <= i < |bands| && bands[i].when == r.when)
  }

  lemma StripsAre(p: seq<real>, dates: seq<int>, readings: seq<Reading>, strips: seq<Band>)
    requires Spread(p) && |dates| == |p| == |strips| && dates == SortedDates(readings) && Drawn(p, dates)
    requires forall k :: 0 <= k < |p| ==> strips[k] == BandAt(p, k, dates[k], readings)
    ensures Tiles(strips) && Voronoi(strips) && OnePerDate(strips, readings) && ToScale(strips) && Placed(strips, readings)
  {
    StripsTile(p, dates, readings, strips);
    StripsToScale(p, dates, strips);
    ReadingsPlaced(dates, readings, strips);
  }

  lemma ReadingsPlaced(dates: seq<int>, readings: seq<Reading>, strips: seq<Band>)
    requires dates == SortedDates(readings) && |strips| == |dates|
    requires forall k :: 0 <= k < |dates| ==> strips[k].when == dates[k] && strips[k].readings == On(readings, dates[k])
    ensures Placed(strips, readings)
  {
    forall i | 0 <= i < |strips| ensures forall r :: r in strips[i].readings <==> r in readings && r.when == strips[i].when {
      FilterKeeps(readings, (r: Reading) => r.when == dates[i], (a: Reading, b: Reading) => true);
    }
    SortedDatesAre(readings);
    forall r | r in readings ensures exists i :: 0 <= i < |strips| && strips[i].when == r.when {
      var k :| 0 <= k < |readings| && readings[k] == r;
      assert r.when in dates;
      var i :| 0 <= i < |dates| && dates[i] == r.when;
      assert strips[i].when == r.when;
    }
  }

  /** Strips for the readings of the plotted lines; none when they span no time. */
  method BuildBands(readings: seq<Reading>) returns (bands: Option<seq<Band>>)
    ensures bands.None? <==> forall i, j :: 0 <= i < |readings| && 0 <= j < |readings| ==> readings[i].when == readings[j].when
    ensures bands.Some? ==>
              Tiles(bands.value) && Voronoi(bands.value) && ToScale(bands.value)
              && OnePerDate(bands.value, readings) && Placed(bands.value, readings)
  {
    var dates := SortedDates(readings);
    SortedDatesAre(readings);
    SpanIff(readings);
    if |dates| < 2 { return None; }
    var positions := Positions(dates);
    var strips := Strips(positions, dates, readings);
    PositionsToScale(dates);
    StripsAre(positions, dates, readings, strips);
    bands := Some(strips);
  }

  method Strips(positions: seq<real>, dates: seq<int>, readings: seq<Reading>) returns (strips: seq<Band>)
    requires |positions| == |dates| >= 2
    ensures |strips| == |positions| && forall k :: 0 <= k < |positions| ==> strips[k] == BandAt(positions, k, dates[k], readings)
  {
    var edges := [0.0];
    for i := 1 to |positions|
      invariant |edges| == i && forall k :: 0 <= k < i ==> edges[k] == Edge(positions, k)
    {
      edges := edges + [(positions[i - 1] + positions[i]) / 2.0];
    }
    edges := edges + [VIEWBOX_WIDTH];
    assert forall k :: 0 <= k <= |positions| ==> edges[k] == Edge(positions, k);
    strips := [];
    for i := 0 to |dates|
      invariant |strips| == i
      invariant forall k :: 0 <= k < i ==> strips[k] == BandAt(positions, k, dates[k], readings)
    {
      strips := strips + [Band(edges[i], edges[i + 1] - edges[i], positions[i], dates[i], On(readings, dates[i]))];
    }
  }

  function BandAt(p: seq<real>, i: nat, when: int, readings: seq<Reading>): Band
    requires i < |p|
  {
    Band(Edge(p, i), Edge(p, i + 1) - Edge(p, i), p[i], when, On(readings, when))
  }

  lemma StripsTile(p: seq<real>, dates: seq<int>, readings: seq<Reading>, strips: seq<Band>)
    requires Spread(p) && |dates| == |p| == |strips| && dates == SortedDates(readings)
    requires forall k :: 0 <= k < |p| ==> strips[k] == BandAt(p, k, dates[k], readings)
    ensures Tiles(strips) && Voronoi(strips) && OnePerDate(strips, readings)
  {
    forall i, q | 0 <= i < |strips| && 0.0 <= q <= VIEWBOX_WIDTH
      ensures Holds(strips[i], q) <==>
              forall j :: 0 <= j < |strips| ==> Distance(q, strips[i].pointX) <= Distance(q, strips[j].pointX)
    {
      BandIffNearest(p, i, q);
      SamePoints(p, strips, i, q);
    }
    EdgesIncrease(p);
  }

  lemma SamePoints(p: seq<real>, strips: seq<Band>, i: nat, q: real)
    requires i < |p| == |strips| && forall k :: 0 <= k < |p| ==> strips[k].pointX == p[k]
    ensures Nearest(p, i, q) <==> forall j :: 0 <= j < |strips| ==> Distance(q, strips[i].pointX) <= Distance(q, strips[j].pointX)
  {
    if Nearest(p, i, q) {
      forall j | 0 <= j < |strips| ensures Distance(q, strips[i].pointX) <= Distance(q, strips[j].pointX) {
        assert strips[j].pointX == p[j];
      }
    }
    if forall j :: 0 <= j < |strips| ==> Distance(q, strips[i].pointX) <= Distance(q, strips[j].pointX) {
      forall j | 0 <= j < |p| ensures Distance(q, p[i]) <= Distance(q, p[j]) {
        assert strips[j].pointX == p[j];
      }
    }
  }

  lemma EdgesIncrease(p: seq<real>)
    requires Spread(p)
    ensures forall i :: 0 <= i < |p| ==> Edge(p, i) <= p[i] <= Edge(p, i + 1) && Edge(p, i) < Edge(p, i + 1)
  {
    forall i | 0 <= i < |p| ensures Edge(p, i) <= p[i] <= Edge(p, i + 1) && Edge(p, i) < Edge(p, i + 1) {
      if i > 0 { assert p[i - 1] < p[i]; }
      if i + 1 < |p| { assert p[i] < p[i + 1]; }
    }
  }

  lemma SpanIff(readings: seq<Reading>)
    ensures |SortedDates(readings)| < 2 <==>
            forall i, j :: 0 <= i < |readings| && 0 <= j < |readings| ==> readings[i].when == readings[j].when
  {
    var dates := SortedDates(readings);
    SortedDatesAre(readings);
    forall i | 0 <= i < |readings| ensures readings[i].when in dates {}
    if |dates| >= 2 {
      assert dates[0] in dates && dates[1] in dates;
      var i :| 0 <= i < |readings| && readings[i].when == dates[0];
      var j :| 0 <= j < |readings| && readings[j].when == dates[1];
    }
  }
}
