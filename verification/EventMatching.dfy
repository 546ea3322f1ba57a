/** Linking programme events to public pages: a three-day window of candidates, ranked by title.

    Source: apps/event_programme/event_matching.py, apps/event_programme/event_match_sync.py:72-121.
    The text normaliser and the rounding of the arithmetic are inputs: every result holds for exact
    arithmetic and for binary floating point alike. */
module EventMatching {
  import opened Basics
  import opened Sorting
  import Lexicographic

  const DATE_TOLERANCE_DAYS := 1
  const ACCEPT_SCORE := 0.70
  const SCORE_MARGIN := 0.20
  const MINIMUM_TOKENS := 2

  datatype Page = Page(id: int, url: string, title: string, startsOn: int)

  /** How names are compared: their character n-grams, their content tokens, and the nearest number the
      arithmetic can hold. */
  datatype Measure = Measure(ngrams: string -> set<string>, tokens: string -> set<string>, float: real -> real)

  /** Rounding keeps order, settles at once, is exact at zero and does not lose the margin. */
  ghost predicate Rounds(n: Measure) {
    && (forall x, y :: KeepsOrder(n, x, y)) && (forall x :: Settles(n, x))
    && n.float(0.0) == 0.0 && n.float(SCORE_MARGIN) > 0.0
  }

  predicate KeepsOrder(n: Measure, x: real, y: real) { x <= y ==> n.float(x) <= n.float(y) }
  predicate Settles(n: Measure, x: real) { n.float(n.float(x)) == n.float(x) }

  predicate Acceptable(n: Measure, score: real) {
    score >= n.float(ACCEPT_SCORE)
  }

  /** `a` is ahead of `b` by the margin, as the subtraction sees it. */
  predicate Leads(n: Measure, a: real, b: real) {
    n.float(a - b) >= n.float(SCORE_MARGIN)
  }

  datatype Decision = Matched | Ambiguous | Unmatched

  datatype Evidence = NoDate | ThinName | NoCandidate | BelowThreshold | RunnerUpTooClose | ExactDate | NearDate

  datatype Match = Match(decision: Decision, resource: Option<int>, score: real, runnerUp: real, evidence: seq<Evidence>)

  // ------------------------------------------------------------------
  // Similarity.
  // ------------------------------------------------------------------

  function Containment(a: set<string>, b: set<string>): (r: real)
    ensures 0.0 <= r <= 1.0
  {
    if a == {} || b == {} then 0.0
    else
      SubsetSize(a * b, a);
      SubsetSize(a * b, b);
      Ratio(|a * b|, if |a| <= |b| then |a| else |b|)
  }

  function Jaccard(a: set<string>, b: set<string>): (r: real)
    ensures 0.0 <= r <= 1.0
  {
    if a == {} || b == {} then 0.0
    else
      SubsetSize(a * b, a + b);
      assert a + b != {} by { assert a <= a + b; }
      Ratio(|a * b|, |a + b|)
  }

  function Similarity(n: Measure, name: string, title: string): real {
    var c := n.float(Containment(n.ngrams(name), n.ngrams(title)));
    var j := n.float(Jaccard(n.tokens(name), n.tokens(title)));
    if c >= j then c else j
  }

  lemma SimilarityInRange(n: Measure, name: string, title: string)
    requires Rounds(n)
    ensures 0.0 <= Similarity(n, name, title) <= n.float(1.0)
    ensures n.float(Similarity(n, name, title)) == Similarity(n, name, title)
  {
    var c, j := Containment(n.ngrams(name), n.ngrams(title)), Jaccard(n.tokens(name), n.tokens(title));
    assert Settles(n, c) && Settles(n, j);
    assert KeepsOrder(n, 0.0, c) && KeepsOrder(n, c, 1.0) && KeepsOrder(n, 0.0, j) && KeepsOrder(n, j, 1.0);
  }

  /** **What the similarity measures**: the larger of two shares, the common n-grams out of the shorter set and the common
      tokens out of all tokens, each rounded. */
  lemma SimilarityIs(n: Measure, name: string, title: string)
    ensures var c := Containment(n.ngrams(name), n.ngrams(title));
            var j := Jaccard(n.tokens(name), n.tokens(title));
            var sim := Similarity(n, name, title);
            && sim >= n.float(c) && sim >= n.float(j) && (sim == n.float(c) || sim == n.float(j))
  {}

  lemma SharesAre(a: set<string>, b: set<string>)
    ensures a == {} || b == {} ==> Containment(a, b) == 0.0 && Jaccard(a, b) == 0.0
    ensures a != {} && b != {} ==>
              && Containment(a, b) * (if |a| <= |b| then |a| else |b|) as real == |a * b| as real
              && Jaccard(a, b) * |a + b| as real == |a * b| as real
  {
    if a != {} && b != {} {
      SubsetSize(a * b, a);
      SubsetSize(a * b, b);
      SubsetSize(a * b, a + b);
      assert a <= a + b;
      ShareTimes(|a * b|, if |a| <= |b| then |a| else |b|);
      ShareTimes(|a * b|, |a + b|);
    }
  }

  lemma ShareTimes(part: nat, whole: nat)
    requires part <= whole && whole > 0
    ensures Ratio(part, whole) * whole as real == part as real
  {}

  // ------------------------------------------------------------------
  // Pages by date.
  // ------------------------------------------------------------------

  type ByDate = map<int, seq<Page>>

  function OnDate(rows: seq<Page>, mark: int, date: int): seq<Page> {
    Filter(rows, (p: Page) => p.id <= mark && p.startsOn == date)
  }

  ghost predicate Groups(grouped: ByDate, rows: seq<Page>, mark: int) {
    forall d :: Get(grouped, d) == OnDate(rows, mark, d)
  }

  function Get(grouped: ByDate, date: int): seq<Page> {
    if date in grouped then grouped[date] else []
  }

  lemma {:induction false} FilterSnoc<T>(s: seq<T>, x: T, keep: T -> bool)
    ensures Filter(s + [x], keep) == Filter(s, keep) + if keep(x) then [x] else []
  {
    if s == [] {
      assert s + [x] == [x];
    } else {
      FilterSnoc(s[1..], x, keep);
      assert (s + [x])[1..] == s[1..] + [x];
    }
  }

  lemma GroupOneMore(grouped: ByDate, rows: seq<Page>, i: nat, mark: int)
    requires i < |rows| && Groups(grouped, rows[..i], mark)
    ensures var p := rows[i];
            Groups(if p.id <= mark then grouped[p.startsOn := Get(grouped, p.startsOn) + [p]] else grouped, rows[..i + 1], mark)
  {
    var p := rows[i];
    assert rows[..i + 1] == rows[..i] + [p];
    var next := if p.id <= mark then grouped[p.startsOn := Get(grouped, p.startsOn) + [p]] else grouped;
    forall d ensures Get(next, d) == OnDate(rows[..i + 1], mark, d) {
      FilterSnoc(rows[..i], p, (p: Page) => p.id <= mark && p.startsOn == d);
      assert Get(grouped, d) == OnDate(rows[..i], mark, d);
    }
  }

  /** The grouping loop, one dictionary entry per day; pages above the mark are left out. */
  method PagesByDate(rows: seq<Page>, mark: int) returns (grouped: ByDate)
    ensures Groups(grouped, rows, mark)
  {
    grouped := map[];
    for i := 0 to |rows|
      invariant Groups(grouped, rows[..i], mark)
    {
      GroupOneMore(grouped, rows, i, mark);
      var p := rows[i];
      if p.id <= mark {
        grouped := grouped[p.startsOn := (if p.startsOn in grouped then grouped[p.startsOn] else []) + [p]];
      }
    }
    assert rows[..|rows|] == rows;
  }

  function Around(grouped: ByDate, date: int): seq<Page> {
    Get(grouped, date - 1) + Get(grouped, date) + Get(grouped, date + 1)
  }

  method CandidatesFor(date: int, grouped: ByDate) returns (found: seq<Page>)
    ensures found == Around(grouped, date)
  {
    found := [];
    var offset := -DATE_TOLERANCE_DAYS;
    while offset <= DATE_TOLERANCE_DAYS
      invariant -1 <= offset <= 2
      invariant found == (if offset >= 0 then Get(grouped, date - 1) else [])
                         + (if offset >= 1 then Get(grouped, date) else [])
                         + (if offset >= 2 then Get(grouped, date + 1) else [])
    {
      found := found + (if date + offset in grouped then grouped[date + offset] else []);
      offset := offset + 1;
    }
  }

  // ------------------------------------------------------------------
  // The decision.
  // ------------------------------------------------------------------

  function ByRank(n: Measure, name: string): (Page, Page) -> bool {
    (a: Page, b: Page) =>
      var sa, sb := Similarity(n, name, a.title), Similarity(n, name, b.title);
      sa > sb || (sa == sb && Lexicographic.Le(a.url, b.url))
  }

  function Verdict(n: Measure, name: string, date: int, ranked: seq<Page>): Match
    requires ranked != []
  {
    var best := Similarity(n, name, ranked[0].title);
    var runnerUp := if |ranked| > 1 then Similarity(n, name, ranked[1].title) else 0.0;
    var dated := if ranked[0].startsOn == date then ExactDate else NearDate;
    if !Acceptable(n, best) then Match(Unmatched, None, best, runnerUp, [BelowThreshold])
    else if !Leads(n, best, runnerUp) then Match(Ambiguous, None, best, runnerUp, [RunnerUpTooClose, dated])
    else Match(Matched, Some(ranked[0].id), best, runnerUp, [dated])
  }

  function MatchEvent(n: Measure, name: string, startsOn: Option<int>, grouped: ByDate): Match {
    if startsOn.None? then Match(Unmatched, None, 0.0, 0.0, [NoDate])
    else if |n.tokens(name)| < MINIMUM_TOKENS then Match(Unmatched, None, 0.0, 0.0, [ThinName])
    else
      var considered := Around(grouped, startsOn.value);
      if considered == [] then Match(Unmatched, None, 0.0, 0.0, [NoCandidate])
      else Verdict(n, name, startsOn.value, Sort(considered, ByRank(n, name)))
  }

  // ------------------------------------------------------------------
  // The declarative reading.
  // ------------------------------------------------------------------

  ghost predicate DistinctUrls(rows: seq<Page>) {
    forall i, j :: 0 <= i < j < |rows| ==> rows[i].url != rows[j].url
  }

  predicate InWindow(p: Page, mark: int, date: int) {
    p.id <= mark && -DATE_TOLERANCE_DAYS <= p.startsOn - date <= DATE_TOLERANCE_DAYS
  }

  /** The pages a decision about an event on `date` may depend on. */
  function Considered(rows: seq<Page>, mark: int, date: int): seq<Page> {
    Filter(rows, (p: Page) => InWindow(p, mark, date))
  }

  /** `p` scores enough and leads every other page of the window by the margin. */
  ghost predicate ClearWinner(n: Measure, name: string, window: seq<Page>, p: Page) {
    && p in window && Acceptable(n, Similarity(n, name, p.title))
    && forall q :: q in window && q != p ==> Leads(n, Similarity(n, name, p.title), Similarity(n, name, q.title))
  }

  lemma {:induction false} WindowIsThreeDays(rows: seq<Page>, mark: int, date: int)
    ensures multiset(OnDate(rows, mark, date - 1) + OnDate(rows, mark, date) + OnDate(rows, mark, date + 1))
         == multiset(Considered(rows, mark, date))
  {
    if rows != [] { WindowIsThreeDays(rows[1..], mark, date); }
  }

  lemma RankIsTotal(n: Measure, name: string)
    ensures TotalOrder(ByRank(n, name))
  {
    Lexicographic.LeIsAnOrder();
  }

  lemma UrlsSeparate(n: Measure, name: string, pages: seq<Page>)
    requires DistinctUrls(pages)
    ensures Separates(pages, ByRank(n, name)) && Distinct(pages)
  {
    var le := ByRank(n, name);
    forall a, b | a in pages && b in pages && le(a, b) && le(b, a) ensures a == b {
      Lexicographic.LeAntisymmetric(a.url, b.url);
      var i :| 0 <= i < |pages| && pages[i] == a;
      var j :| 0 <= j < |pages| && pages[j] == b;
    }
  }

  lemma {:induction false} ConsideredUrls(rows: seq<Page>, mark: int, date: int)
    requires DistinctUrls(rows)
    ensures DistinctUrls(Considered(rows, mark, date))
    ensures forall p :: p in Considered(rows, mark, date) <==> p in rows && InWindow(p, mark, date)
  {
    if rows != [] {
      ConsideredUrls(rows[1..], mark, date);
      assert forall p :: p in rows <==> p == rows[0] || p in rows[1..];
      forall p | p in rows[1..] ensures p.url != rows[0].url {
        var i :| 0 <= i < |rows[1..]| && rows[1..][i] == p;
        assert rows[i + 1] == p;
      }
    }
  }

  /** The matcher's list of candidates is the window, in some order. */
  lemma SameRanking(n: Measure, name: string, grouped: ByDate, rows: seq<Page>, mark: int, date: int)
    requires Groups(grouped, rows, mark) && DistinctUrls(rows)
    ensures var window := Considered(rows, mark, date);
            && |Around(grouped, date)| == |window|
            && Sort(Around(grouped, date), ByRank(n, name)) == Sort(window, ByRank(n, name))
  {
    var window, around := Considered(rows, mark, date), Around(grouped, date);
    assert around == OnDate(rows, mark, date - 1) + OnDate(rows, mark, date) + OnDate(rows, mark, date + 1);
    WindowIsThreeDays(rows, mark, date);
    ConsideredUrls(rows, mark, date);
    UrlsSeparate(n, name, window);
    RankIsTotal(n, name);
    SortIgnoresInputOrder(window, around, ByRank(n, name));
    assert |multiset(window)| == |window| && |multiset(around)| == |around|;
  }

  lemma LeadsMore(n: Measure, a: real, b: real, c: real)
    requires Rounds(n) && c <= b
    ensures Leads(n, a, b) ==> Leads(n, a, c)
  {
    assert KeepsOrder(n, a - b, a - c);
  }

  /** Nothing leads what it does not exceed, and an acceptable score leads nothing at all. */
  lemma LeadsNeedsMore(n: Measure, a: real, b: real)
    requires Rounds(n)
    ensures a <= b ==> !Leads(n, a, b)
    ensures Acceptable(n, a) && n.float(a) == a ==> Leads(n, a, 0.0)
  {
    assert KeepsOrder(n, a - b, 0.0) && KeepsOrder(n, SCORE_MARGIN, ACCEPT_SCORE);
    assert a - 0.0 == a;
  }

  /** What sorting gives: the first page is no worse than the second, and that no worse than any other. */
  lemma RankedWindow(n: Measure, name: string, window: seq<Page>, ranked: seq<Page>)
    requires DistinctUrls(window) && window != [] && ranked == Sort(window, ByRank(n, name))
    ensures ranked != [] && ranked[0] in window
    ensures |ranked| > 1 ==> ranked[1] in window && ranked[1] != ranked[0]
    ensures forall p :: p in window ==> Similarity(n, name, p.title) <= Similarity(n, name, ranked[0].title)
    ensures forall p :: p in window && p != ranked[0] ==>
              |ranked| > 1 && Similarity(n, name, p.title) <= Similarity(n, name, ranked[1].title)
  {
    var le := ByRank(n, name);
    RankIsTotal(n, name);
    UrlsSeparate(n, name, window);
    SortSorts(window, le);
    SortDistinct(window, le);
    forall p ensures p in ranked <==> p in window { SameMembers(ranked, window, p); }
    TopTwo(ranked, le);
    assert ranked[0] in ranked;
    if |ranked| > 1 { assert ranked[1] in ranked; }
  }

  lemma TopIsWinner(n: Measure, name: string, window: seq<Page>, ranked: seq<Page>, date: int)
    requires Rounds(n) && DistinctUrls(window) && window != [] && ranked == Sort(window, ByRank(n, name))
    ensures var m := Verdict(n, name, date, ranked);
            && (m.decision == Matched <==> ClearWinner(n, name, window, ranked[0]))
            && (m.decision == Unmatched <==> forall p :: p in window ==> !Acceptable(n, Similarity(n, name, p.title)))
            && (forall p :: ClearWinner(n, name, window, p) ==> p == ranked[0])
  {
    RankedWindow(n, name, window, ranked);
    var best := Similarity(n, name, ranked[0].title);
    SimilarityInRange(n, name, ranked[0].title);
    LeadsNeedsMore(n, best, best);
    forall q | q in window && q != ranked[0]
      ensures Leads(n, best, Similarity(n, name, ranked[1].title)) ==> Leads(n, best, Similarity(n, name, q.title))
      ensures !Leads(n, Similarity(n, name, q.title), best)
    {
      LeadsMore(n, best, Similarity(n, name, ranked[1].title), Similarity(n, name, q.title));
      LeadsNeedsMore(n, Similarity(n, name, q.title), best);
    }
  }

  lemma VerdictIff(n: Measure, name: string, window: seq<Page>, ranked: seq<Page>, date: int)
    requires Rounds(n) && DistinctUrls(window) && window != [] && ranked == Sort(window, ByRank(n, name))
    ensures var m := Verdict(n, name, date, ranked);
            && (m.decision == Matched <==> exists p :: ClearWinner(n, name, window, p))
            && (m.resource.Some? <==> m.decision == Matched)
            && (forall p :: ClearWinner(n, name, window, p) ==> m.resource == Some(p.id))
  {
    TopIsWinner(n, name, window, ranked, date);
  }

  /** The event has a date and a name thick enough to compare. */
  predicate Comparable(n: Measure, name: string, startsOn: Option<int>) {
    startsOn.Some? && |n.tokens(name)| >= MINIMUM_TOKENS
  }

  lemma DecidedOverWindow(n: Measure, name: string, date: int, grouped: ByDate, rows: seq<Page>, mark: int)
    requires Groups(grouped, rows, mark) && DistinctUrls(rows) && Comparable(n, name, Some(date))
    ensures var window := Considered(rows, mark, date);
            && DistinctUrls(window)
            && |Sort(window, ByRank(n, name))| == |window|
            && MatchEvent(n, name, Some(date), grouped)
               == if window == [] then Match(Unmatched, None, 0.0, 0.0, [NoCandidate])
                  else Verdict(n, name, date, Sort(window, ByRank(n, name)))
  {
    SameRanking(n, name, grouped, rows, mark, date);
    ConsideredUrls(rows, mark, date);
  }

  /** **MATCHED means a unique clear winner on the day.** The event is matched to page `p` iff it is dated,
      its name has at least two content tokens, `p` lies within a day and not above the mark,
      scores at least 0.70 and leads every other page of that window by at least 0.20, all as the
      arithmetic rounds. */
  lemma MatchedIff(n: Measure, name: string, startsOn: Option<int>, grouped: ByDate, rows: seq<Page>, mark: int)
    requires Rounds(n) && Groups(grouped, rows, mark) && DistinctUrls(rows)
    ensures var m := MatchEvent(n, name, startsOn, grouped);
            && (m.decision == Matched <==>
                  Comparable(n, name, startsOn) && exists p :: ClearWinner(n, name, Considered(rows, mark, startsOn.value), p))
            && (m.decision == Matched ==>
                  forall p :: ClearWinner(n, name, Considered(rows, mark, startsOn.value), p) ==>
                    m.resource == Some(p.id) && p in rows && InWindow(p, mark, startsOn.value))
            && (m.resource.Some? <==> m.decision == Matched)
  {
    if Comparable(n, name, startsOn) {
      var window := Considered(rows, mark, startsOn.value);
      DecidedOverWindow(n, name, startsOn.value, grouped, rows, mark);
      ConsideredUrls(rows, mark, startsOn.value);
      if window != [] { VerdictIff(n, name, window, Sort(window, ByRank(n, name)), startsOn.value); }
    }
  }

  /** `top` scores highest in the window; of equals, its address comes first. */
  ghost predicate Top(n: Measure, name: string, window: seq<Page>, top: Page) {
    top in window && forall p :: p in window && p != top ==>
      var s, t := Similarity(n, name, p.title), Similarity(n, name, top.title);
      s < t || (s == t && Lexicographic.Le(top.url, p.url))
  }

  /** `m` reports on `top` against the rest of the window. */
  ghost predicate Reports(n: Measure, name: string, date: int, window: seq<Page>, top: Page, m: Match) {
    var dated := if top.startsOn == date then ExactDate else NearDate;
    && m.score == Similarity(n, name, top.title)
    && (if |window| == 1 then m.runnerUp == 0.0
        else exists p :: p in window && p != top && m.runnerUp == Similarity(n, name, p.title))
    && (forall p :: p in window && p != top ==> Similarity(n, name, p.title) <= m.runnerUp)
    && (m.decision == Matched ==> m.evidence == [dated])
    && (m.decision == Ambiguous ==> m.evidence == [RunnerUpTooClose, dated])
    && (m.decision == Unmatched ==> m.evidence == [BelowThreshold])
  }

  /** **What a match reports**: the score of the top page of the window, the highest score among the others or zero, and for
      its evidence whether the top page is of the very day, with the reason when it is not matched. */
  lemma MatchReports(n: Measure, name: string, date: int, grouped: ByDate, rows: seq<Page>, mark: int) returns (top: Page)
    requires Groups(grouped, rows, mark) && DistinctUrls(rows) && Comparable(n, name, Some(date)) && Considered(rows, mark, date) != []
    ensures Top(n, name, Considered(rows, mark, date), top)
    ensures Reports(n, name, date, Considered(rows, mark, date), top, MatchEvent(n, name, Some(date), grouped))
  {
    var window := Considered(rows, mark, date);
    var ranked := Sort(window, ByRank(n, name));
    DecidedOverWindow(n, name, date, grouped, rows, mark);
    RankedTop(n, name, window, ranked);
    VerdictReports(n, name, date, window, ranked);
    top := ranked[0];
  }

  lemma VerdictReports(n: Measure, name: string, date: int, window: seq<Page>, ranked: seq<Page>)
    requires DistinctUrls(window) && window != [] && ranked == Sort(window, ByRank(n, name))
    ensures ranked != [] && Reports(n, name, date, window, ranked[0], Verdict(n, name, date, ranked))
  {
    RankedWindow(n, name, window, ranked);
  }

  lemma RankedTop(n: Measure, name: string, window: seq<Page>, ranked: seq<Page>)
    requires DistinctUrls(window) && window != [] && ranked == Sort(window, ByRank(n, name))
    ensures |ranked| == |window| && Top(n, name, window, ranked[0])
  {
    var le := ByRank(n, name);
    RankIsTotal(n, name);
    UrlsSeparate(n, name, window);
    SortSorts(window, le);
    SortDistinct(window, le);
    forall p ensures p in ranked <==> p in window { SameMembers(ranked, window, p); }
    TopTwo(ranked, le);
    assert ranked[0] in ranked;
  }

  /** An event that cannot be compared is unmatched, and says why. */
  lemma NotCompared(n: Measure, name: string, startsOn: Option<int>, grouped: ByDate)
    ensures startsOn.None? ==> MatchEvent(n, name, startsOn, grouped) == Match(Unmatched, None, 0.0, 0.0, [NoDate])
    ensures startsOn.Some? && |n.tokens(name)| < 2 ==> MatchEvent(n, name, startsOn, grouped) == Match(Unmatched, None, 0.0, 0.0, [ThinName])
    ensures startsOn.Some? && |n.tokens(name)| >= 2 && Around(grouped, startsOn.value) == [] ==>
              MatchEvent(n, name, startsOn, grouped) == Match(Unmatched, None, 0.0, 0.0, [NoCandidate])
  {}

  /** With exact arithmetic the thresholds are the stated ones. */
  lemma ExactThresholds(n: Measure, a: real, b: real)
    requires forall x :: n.float(x) == x
    ensures Rounds(n)
    ensures Acceptable(n, a) <==> a >= 0.70
    ensures Leads(n, a, b) <==> a >= b + 0.20
  {}

  /** Four fifths and one fifth as a double-precision number holds them. */
  const FOUR_FIFTHS := 0.8000000000000000444089209850062616169452667236328125
  const ONE_FIFTH := 0.200000000000000011102230246251565404236316680908203125

  /** Rounds one fifth and four fifths up as double precision does, and leaves every other number alone. */
  function Double(x: real): real {
    if 0.8 <= x <= FOUR_FIFTHS then FOUR_FIFTHS else if 0.2 <= x <= ONE_FIFTH then ONE_FIFTH else x
  }

  const NAME := "Export seminar for food producers"

  /** The words of a title: five in the name itself, four of them in any other title. */
  function Words(title: string): set<string> {
    if title == NAME then {"export", "seminar", "for", "food", "producers"} else {"export", "seminar", "for", "food"}
  }

  function DoublePrecision(): Measure { Measure(_ => {}, Words, Double) }

  lemma DoubleRounds()
    ensures Rounds(DoublePrecision())
  {}

  /** Five words of five, and four of five. */
  lemma WordShare(title: string)
    ensures Jaccard(Words(NAME), Words(title)) == if title == NAME then 1.0 else 0.8
  {
    var a, b := Words(NAME), Words(title);
    FiveWords();
    assert a * b == b && a + b == a;
  }

  lemma FiveWords()
    ensures |{"export", "seminar", "for", "food"}| == 4 && |{"export", "seminar", "for", "food", "producers"}| == 5
  {
    assert {"export", "seminar", "for", "food", "producers"} == {"export", "seminar", "for", "food"} + {"producers"};
    assert "producers" !in {"export", "seminar", "for", "food"};
  }

  /** **Where rounding shows**: in double precision a page with all five words of the name does not lead one
      with four of them, so the event is ambiguous; exact arithmetic would match it. */
  lemma FifthIsNotEnough(date: int, best: Page, other: Page)
    requires best.title == NAME && other.title != NAME
    ensures Rounds(DoublePrecision())
    ensures Verdict(DoublePrecision(), NAME, date, [best, other]).decision == Ambiguous
    ensures Verdict(DoublePrecision().(float := x => x), NAME, date, [best, other]).decision == Matched
  {
    DoubleRounds();
    WordShare(best.title);
    WordShare(other.title);
  }

  /** **Only the window matters.** Two catalogues that hold the same pages in the event's window give the
      same answer in every part: listing order, pages on other days and pages above the high-water mark
      have no influence. */
  lemma OnlyWindowMatters(n: Measure, name: string, startsOn: Option<int>, a: ByDate, rowsA: seq<Page>, markA: int,
                          b: ByDate, rowsB: seq<Page>, markB: int)
    requires Groups(a, rowsA, markA) && DistinctUrls(rowsA) && Groups(b, rowsB, markB) && DistinctUrls(rowsB)
    requires startsOn.Some? ==>
               multiset(Considered(rowsA, markA, startsOn.value)) == multiset(Considered(rowsB, markB, startsOn.value))
    ensures MatchEvent(n, name, startsOn, a) == MatchEvent(n, name, startsOn, b)
  {
    if startsOn.Some? {
      var date := startsOn.value;
      var wa, wb := Considered(rowsA, markA, date), Considered(rowsB, markB, date);
      SameRanking(n, name, a, rowsA, markA, date);
      SameRanking(n, name, b, rowsB, markB, date);
      ConsideredUrls(rowsA, markA, date);
      UrlsSeparate(n, name, wa);
      RankIsTotal(n, name);
      SortIgnoresInputOrder(wa, wb, ByRank(n, name));
      assert |multiset(wa)| == |wa| && |multiset(wb)| == |wb|;
    }
  }

  // ------------------------------------------------------------------
  // The run.
  // ------------------------------------------------------------------

  datatype Event = Event(id: string, name: string, startsOn: Option<int>)

  datatype Report = Report(considered: nat, matched: nat, ambiguous: nat, unmatched: nat, evidence: map<Evidence, nat>)

  function CountOf(ms: seq<Match>, d: Decision): nat {
    if ms == [] then 0 else CountOf(ms[..|ms| - 1], d) + if ms[|ms| - 1].decision == d then 1 else 0
  }

  lemma {:induction false} DecisionsPartition(ms: seq<Match>)
    ensures CountOf(ms, Matched) + CountOf(ms, Ambiguous) + CountOf(ms, Unmatched) == |ms|
  {
    if ms != [] { DecisionsPartition(ms[..|ms| - 1]); }
  }

  function HighWater(rows: seq<Page>): int {
    if rows == [] then 0
    else
      var rest := HighWater(rows[1..]);
      if |rows| == 1 || rows[0].id > rest then rows[0].id else rest
  }

  /** The mark is the largest id there is, so no page of the listing itself is above it. */
  lemma {:induction false} HighWaterIs(rows: seq<Page>)
    ensures rows == [] ==> HighWater(rows) == 0
    ensures rows != [] ==> exists i :: 0 <= i < |rows| && rows[i].id == HighWater(rows)
    ensures forall i :: 0 <= i < |rows| ==> rows[i].id <= HighWater(rows)
  {
    if rows != [] {
      var rest := rows[1..];
      HighWaterIs(rest);
      assert forall i :: 0 <= i < |rest| ==> rest[i] == rows[i + 1];
      if rows[0].id != HighWater(rows) {
        var i :| 0 <= i < |rest| && rest[i].id == HighWater(rest);
        assert rows[i + 1].id == HighWater(rows);
      }
    }
  }

  function Times(counts: map<Evidence, nat>, code: Evidence): nat {
    if code in counts then counts[code] else 0
  }

  /** How often a code was given as evidence over all decisions. */
  function Cited(ms: seq<Match>, code: Evidence): nat {
    if ms == [] then 0 else Cited(ms[..|ms| - 1], code) + multiset(ms[|ms| - 1].evidence)[code]
  }

  method AddEvidence(before: map<Evidence, nat>, codes: seq<Evidence>) returns (counts: map<Evidence, nat>)
    ensures forall c :: Times(counts, c) == Times(before, c) + multiset(codes)[c]
  {
    counts := before;
    for k := 0 to |codes|
      invariant forall c :: Times(counts, c) == Times(before, c) + multiset(codes[..k])[c]
    {
      assert codes[..k + 1] == codes[..k] + [codes[k]];
      counts := counts[codes[k] := (if codes[k] in counts then counts[codes[k]] else 0) + 1];
    }
    assert codes[..|codes|] == codes;
  }

  /** The report says what the decisions are: three tallies that add up to them, and the evidence cited. */
  ghost predicate Tallies(report: Report, ms: seq<Match>) {
    && report.considered == |ms|
    && report.matched == CountOf(ms, Matched)
    && report.ambiguous == CountOf(ms, Ambiguous)
    && report.unmatched == CountOf(ms, Unmatched)
    && forall c :: Times(report.evidence, c) == Cited(ms, c)
  }

  method Record(before: Report, m: Match, ghost ms: seq<Match>) returns (report: Report)
    requires Tallies(before, ms)
    ensures Tallies(report, ms + [m])
  {
    assert (ms + [m])[..|ms|] == ms;
    report := before.(considered := before.considered + 1);
    match m.decision {
      case Matched => report := report.(matched := report.matched + 1);
      case Ambiguous => report := report.(ambiguous := report.ambiguous + 1);
      case Unmatched => report := report.(unmatched := report.unmatched + 1);
    }
    var evidence := AddEvidence(before.evidence, m.evidence);
    report := report.(evidence := evidence);
  }

  /** The decisions on the first `|ms|` events. */
  ghost predicate Decides(ms: seq<Match>, n: Measure, events: seq<Event>, grouped: ByDate) {
    |ms| <= |events| && forall i :: 0 <= i < |ms| ==> ms[i] == MatchEvent(n, events[i].name, events[i].startsOn, grouped)
  }

  /** One decision per programme item, in order, and a report whose tallies add up to them. */
  method RunEventMatching(n: Measure, events: seq<Event>, rows: seq<Page>)
    returns (decisions: seq<Match>, report: Report, grouped: ByDate)
    ensures Groups(grouped, rows, HighWater(rows)) && forall i :: 0 <= i < |rows| ==> rows[i].id <= HighWater(rows)
    ensures |decisions| == |events| && Decides(decisions, n, events, grouped)
    ensures Tallies(report, decisions)
    ensures report.matched + report.ambiguous + report.unmatched == report.considered == |events|
  {
    grouped := PagesByDate(rows, HighWater(rows));
    HighWaterIs(rows);
    decisions, report := [], Report(0, 0, 0, 0, map[]);
    for i := 0 to |events|
      invariant |decisions| == i && Tallies(report, decisions) && Decides(decisions, n, events, grouped)
    {
      var m := MatchEvent(n, events[i].name, events[i].startsOn, grouped);
      report := Record(report, m, decisions);
      decisions := decisions + [m];
    }
    DecisionsPartition(decisions);
  }
}
