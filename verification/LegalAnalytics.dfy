/** Conservation laws of the legal-work figures: every record is counted once, and the differently
    computed figures agree.

    Source: apps/legal_work/analytics.py:71-77, 166-185, 402-526, 592-668, 820-855. */
module LegalAnalytics {
  import opened Basics
  import opened Sorting

  datatype Date = Date(year: int, month: int, day: int)

  predicate NotAfter(a: Date, b: Date) {
    a.year < b.year || (a.year == b.year && (a.month < b.month || (a.month == b.month && a.day <= b.day)))
  }

  predicate RealDate(d: Date) { 1 <= d.month <= 12 }

  datatype Record = Record(
    isOpen: bool, sent: bool, received: Option<Date>, deadline: Option<Date>, sentDate: Option<Date>, sourceYear: int)

  /** Days from one date to another, agreeing with the order of dates. */
  type Days = (Date, Date) -> int

  ghost predicate Calendar(days: Days) {
    forall a, b :: days(a, b) >= 0 <==> NotAfter(a, b)
  }

  function Count(records: seq<Record>, p: Record -> bool): nat {
    if records == [] then 0 else (if p(records[0]) then 1 else 0) + Count(records[1..], p)
  }

  // ------------------------------------------------------------------
  // Deadline pressure.
  // ------------------------------------------------------------------

  /** The upper ends of the bands 0-3, 4-7, 8-14, 15-21 days; the last band is open. */
  const BAND_ENDS := [3, 7, 14, 21]

  /** `_band_for`: the first band whose bounds hold the value, else the last. */
  function BandFor(value: int): (b: nat)
    ensures b <= 4
    ensures value >= 0 ==> (b < 4 ==> value <= BAND_ENDS[b]) && (b > 0 ==> value > BAND_ENDS[b - 1])
  {
    if 0 <= value <= 3 then 0
    else if 4 <= value <= 7 then 1
    else if 8 <= value <= 14 then 2
    else if 15 <= value <= 21 then 3
    else 4
  }

  datatype Pressure = Pressure(bands: seq<nat>, dueWithin7: nat, overduePending: nat, overdueSent: nat, withoutDeadline: nat)

  predicate Upcoming(r: Record, today: Date) { r.isOpen && r.deadline.Some? && NotAfter(today, r.deadline.value) }
  predicate Overdue(r: Record, today: Date) { r.isOpen && r.deadline.Some? && !NotAfter(today, r.deadline.value) }

  predicate InBand(r: Record, today: Date, days: Days, b: nat) {
    Upcoming(r, today) && BandFor(days(today, r.deadline.value)) == b
  }

  function BandCount(records: seq<Record>, today: Date, days: Days, b: nat): nat {
    Count(records, (r: Record) => InBand(r, today, days, b))
  }

  method DeadlinePressure(records: seq<Record>, today: Date, days: Days) returns (p: Pressure)
    ensures |p.bands| == 5 && forall b :: 0 <= b < 5 ==> p.bands[b] == BandCount(records, today, days, b)
    ensures p.dueWithin7 == p.bands[0] + p.bands[1]
    ensures p.overduePending == Count(records, (r: Record) => Overdue(r, today) && !r.sent)
    ensures p.overdueSent == Count(records, (r: Record) => Overdue(r, today) && r.sent)
    ensures p.withoutDeadline == Count(records, (r: Record) => r.isOpen && r.deadline.None?)
    ensures Calendar(days) ==>
              && p.bands[0] + p.bands[1] + p.bands[2] + p.bands[3] + p.bands[4] + p.overduePending + p.overdueSent + p.withoutDeadline
                 == Count(records, (r: Record) => r.isOpen)
              && p.dueWithin7
                 == Count(records, (r: Record) => r.isOpen && r.deadline.Some? && 0 <= days(today, r.deadline.value) <= 7)
  {
    var counts: seq<nat> := [0, 0, 0, 0, 0];
    for i := 0 to |records|
      invariant |counts| == 5
      invariant forall b :: 0 <= b < 5 ==>
                  counts[b] + BandCount(records[i..], today, days, b) == BandCount(records, today, days, b)
    {
      assert records[i..][0] == records[i] && records[i..][1..] == records[i + 1..];
      if Upcoming(records[i], today) {
        var b := BandFor(days(today, records[i].deadline.value));
        counts := counts[b := counts[b] + 1];
      }
    }
    assert records[|records|..] == [];
    p := Pressure(counts, counts[0] + counts[1],
                  Count(records, (r: Record) => Overdue(r, today) && !r.sent),
                  Count(records, (r: Record) => Overdue(r, today) && r.sent),
                  Count(records, (r: Record) => r.isOpen && r.deadline.None?));
    if Calendar(days) { OpenConserved(records, today, days); }
  }

  /** **Every open record is in exactly one place**: a deadline band, one kind of overdue, or without a
      deadline; and "due within seven days" is a direct count of 0..7 days. */
  lemma {:induction false} OpenConserved(records: seq<Record>, today: Date, days: Days)
    requires Calendar(days)
    ensures BandCount(records, today, days, 0) + BandCount(records, today, days, 1) + BandCount(records, today, days, 2)
            + BandCount(records, today, days, 3) + BandCount(records, today, days, 4)
            + Count(records, (r: Record) => Overdue(r, today) && !r.sent)
            + Count(records, (r: Record) => Overdue(r, today) && r.sent)
            + Count(records, (r: Record) => r.isOpen && r.deadline.None?)
         == Count(records, (r: Record) => r.isOpen)
    ensures BandCount(records, today, days, 0) + BandCount(records, today, days, 1)
         == Count(records, (r: Record) => r.isOpen && r.deadline.Some? && 0 <= days(today, r.deadline.value) <= 7)
  {
    if records != [] { OpenConserved(records[1..], today, days); }
  }

  // ------------------------------------------------------------------
  // Response windows by cohort year.
  // ------------------------------------------------------------------

  datatype Standing = Eligible | Missing | Invalid

  function StandingOf(r: Record): Standing {
    if r.received.None? || r.deadline.None? then Missing
    else if NotAfter(r.received.value, r.deadline.value) then Eligible
    else Invalid
  }

  /** The cohort year: the year of arrival, or the register's own year when there is none. */
  function Cohort(r: Record): int {
    if r.received.Some? then r.received.value.year else r.sourceYear
  }

  function YearCount(records: seq<Record>, year: int, s: Standing): nat {
    Count(records, (r: Record) => Cohort(r) == year && StandingOf(r) == s)
  }

  function Get(counts: map<int, nat>, year: int): nat { if year in counts then counts[year] else 0 }

  /** The three per-year tables the response-window figures are read from. */
  method CountByYear(records: seq<Record>, s: Standing) returns (counts: map<int, nat>)
    ensures forall y :: Get(counts, y) == YearCount(records, y, s)
    ensures forall y :: y in counts ==> counts[y] > 0
  {
    counts := map[];
    for i := 0 to |records|
      invariant forall y :: Get(counts, y) + YearCount(records[i..], y, s) == YearCount(records, y, s)
      invariant forall y :: y in counts ==> counts[y] > 0
    {
      assert records[i..][0] == records[i] && records[i..][1..] == records[i + 1..];
      if StandingOf(records[i]) == s {
        var year := Cohort(records[i]);
        counts := counts[year := (if year in counts then counts[year] else 0) + 1];
      }
    }
    assert records[|records|..] == [];
  }

  /** Everything the reported years say, added up. */
  function Reported(records: seq<Record>, years: seq<int>): nat {
    if years == [] then 0
    else YearCount(records, years[0], Eligible) + YearCount(records, years[0], Missing) + YearCount(records, years[0], Invalid)
         + Reported(records, years[1..])
  }

  lemma {:induction false} OneRecordOnce(r: Record, rest: seq<Record>, years: seq<int>)
    requires Distinct(years)
    ensures Reported([r] + rest, years) == Reported(rest, years) + if Cohort(r) in years then 1 else 0
  {
    if years != [] {
      assert ([r] + rest)[1..] == rest;
      OneRecordOnce(r, rest, years[1..]);
    }
  }

  /** **Eligible, missing and invalid summed over the cohort years are all the records**, for any listing of
      those years that misses none and repeats none. */
  lemma {:induction false} CohortsConserved(records: seq<Record>, years: seq<int>)
    requires Distinct(years) && forall i :: 0 <= i < |records| ==> Cohort(records[i]) in years
    ensures Reported(records, years) == |records|
  {
    if records == [] {
      NothingReported(years);
    } else {
      CohortsConserved(records[1..], years);
      assert records == [records[0]] + records[1..];
      OneRecordOnce(records[0], records[1..], years);
    }
  }

  lemma {:induction false} NothingReported(years: seq<int>)
    ensures Reported([], years) == 0
  {
    if years != [] { NothingReported(years[1..]); }
  }

  datatype YearRow = YearRow(year: int, eligible: nat, missing: nat, invalid: nat)

  function RowFor(records: seq<Record>, year: int): YearRow {
    YearRow(year, YearCount(records, year, Eligible), YearCount(records, year, Missing), YearCount(records, year, Invalid))
  }

  function RowTotal(rows: seq<YearRow>): nat {
    if rows == [] then 0
    else rows[0].eligible + rows[0].missing + rows[0].invalid + RowTotal(rows[1..])
  }

  lemma {:induction false} RowsReport(records: seq<Record>, years: seq<int>, rows: seq<YearRow>)
    requires |rows| == |years| && forall i :: 0 <= i < |rows| ==> rows[i] == RowFor(records, years[i])
    ensures RowTotal(rows) == Reported(records, years)
  {
    if rows != [] { RowsReport(records, years[1..], rows[1..]); }
  }

  predicate Occurs(records: seq<Record>, year: int) {
    exists i :: 0 <= i < |records| && Cohort(records[i]) == year
  }

  lemma {:induction false} OwnYearCounted(records: seq<Record>, i: nat)
    requires i < |records|
    ensures YearCount(records, Cohort(records[i]), StandingOf(records[i])) > 0
  {
    if i > 0 { OwnYearCounted(records[1..], i - 1); }
  }

  lemma {:induction false} CountedYearHasRecord(records: seq<Record>, year: int, s: Standing)
    requires YearCount(records, year, s) > 0
    ensures Occurs(records, year)
  {
    if Cohort(records[0]) != year || StandingOf(records[0]) != s {
      CountedYearHasRecord(records[1..], year, s);
      var i :| 0 <= i < |records[1..]| && Cohort(records[1..][i]) == year;
      assert Cohort(records[i + 1]) == year;
    }
  }

  /** The members of a set, in no particular order. */
  method Enumerate<T(==)>(members: set<T>) returns (s: seq<T>)
    ensures Distinct(s)
    ensures forall x :: x in s <==> x in members
  {
    var left := members;
    s := [];
    while left != {}
      invariant left <= members && Distinct(s)
      invariant forall x :: x in s <==> x in members - left
    {
      var x :| x in left;
      assert x !in s;
      left, s := left - {x}, s + [x];
    }
  }

  /** The members of a set of years, least first. */
  method Ascending(years: set<int>) returns (s: seq<int>)
    ensures forall i, j :: 0 <= i < j < |s| ==> s[i] < s[j]
    ensures forall y :: y in s <==> y in years
  {
    var listed := Enumerate(years);
    var le := (a: int, b: int) => a <= b;
    s := Sort(listed, le);
    SortSorts(listed, le);
    SortDistinct(listed, le);
    forall y ensures y in s <==> y in years { SameMembers(s, listed, y); }
    forall i, j | 0 <= i < j < |s| ensures s[i] < s[j] { assert le(s[i], s[j]); }
  }

  /** `response_window_by_year`: **the reported rows, one for each cohort year in order, account for every
      record once.** */
  method ResponseWindowByYear(records: seq<Record>) returns (rows: seq<YearRow>)
    ensures forall i, j :: 0 <= i < j < |rows| ==> rows[i].year < rows[j].year
    ensures forall i :: 0 <= i < |rows| ==> rows[i] == RowFor(records, rows[i].year)
    ensures forall y :: Occurs(records, y) <==> exists i :: 0 <= i < |rows| && rows[i].year == y
    ensures RowTotal(rows) == |records|
  {
    var eligible := CountByYear(records, Eligible);
    var missing := CountByYear(records, Missing);
    var invalid := CountByYear(records, Invalid);
    var years := Ascending(eligible.Keys + missing.Keys + invalid.Keys);
    rows := [];
    for n := 0 to |years|
      invariant |rows| == n
      invariant forall i :: 0 <= i < n ==> rows[i] == RowFor(records, years[i])
    {
      var y := years[n];
      rows := rows + [YearRow(y, Get(eligible, y), Get(missing, y), Get(invalid, y))];
    }
    forall y ensures y in years <==> Occurs(records, y) { ReportedIffOccurs(records, y, eligible, missing, invalid); }
    RowsAccount(records, years, rows);
  }

  lemma RowsAccount(records: seq<Record>, years: seq<int>, rows: seq<YearRow>)
    requires Distinct(years) && forall y :: y in years <==> Occurs(records, y)
    requires |rows| == |years| && forall i :: 0 <= i < |rows| ==> rows[i] == RowFor(records, years[i])
    ensures RowTotal(rows) == |records|
    ensures forall y :: Occurs(records, y) <==> exists i :: 0 <= i < |rows| && rows[i].year == y
  {
    forall i | 0 <= i < |records| ensures Cohort(records[i]) in years { assert Occurs(records, Cohort(records[i])); }
    CohortsConserved(records, years);
    RowsReport(records, years, rows);
    forall y ensures y in years <==> exists i :: 0 <= i < |rows| && rows[i].year == y {
      if y in years {
        var i :| 0 <= i < |years| && years[i] == y;
        assert rows[i].year == y;
      }
    }
  }

  /** A year is a key of one of the three tables iff it is some record's cohort year. */
  lemma ReportedIffOccurs(records: seq<Record>, y: int, eligible: map<int, nat>, missing: map<int, nat>, invalid: map<int, nat>)
    requires Get(eligible, y) == YearCount(records, y, Eligible) && (y in eligible ==> eligible[y] > 0)
    requires Get(missing, y) == YearCount(records, y, Missing) && (y in missing ==> missing[y] > 0)
    requires Get(invalid, y) == YearCount(records, y, Invalid) && (y in invalid ==> invalid[y] > 0)
    ensures y in eligible || y in missing || y in invalid <==> Occurs(records, y)
  {
    if y in eligible || y in missing || y in invalid {
      CountedYearHasRecord(records, y, if y in eligible then Eligible else if y in missing then Missing else Invalid);
    }
    if Occurs(records, y) {
      var i :| 0 <= i < |records| && Cohort(records[i]) == y;
      OwnYearCounted(records, i);
    }
  }

  // ------------------------------------------------------------------
  // Monthly against annual.
  // ------------------------------------------------------------------

  predicate CountsAsSent(r: Record) { r.sent && r.sentDate.Some? }

  /** Sent in that month of that year, and in the reporting year not after the reporting date. */
  predicate SentInMonth(r: Record, year: int, month: int, reporting: Date) {
    && CountsAsSent(r) && r.sentDate.value.year == year && r.sentDate.value.month == month
    && (year == reporting.year ==> NotAfter(r.sentDate.value, reporting))
  }

  function LastMonth(year: int, reporting: Date): int {
    if year == reporting.year then reporting.month else 12
  }

  /** The months 1..`upTo` of the chart, added up. */
  function MonthlyTotal(records: seq<Record>, year: int, upTo: nat, reporting: Date): nat {
    if upTo == 0 then 0
    else MonthlyTotal(records, year, upTo - 1, reporting) + Count(records, (r: Record) => SentInMonth(r, year, upTo, reporting))
  }

  predicate SentInYear(r: Record, year: int, reporting: Date) {
    CountsAsSent(r) && NotAfter(r.sentDate.value, reporting) && r.sentDate.value.year == year
  }

  function AnnualSent(records: seq<Record>, year: int, reporting: Date): nat {
    Count(records, (r: Record) => SentInYear(r, year, reporting))
  }

  lemma {:induction false} OneMonthEach(r: Record, rest: seq<Record>, year: int, upTo: nat, reporting: Date)
    ensures MonthlyTotal([r] + rest, year, upTo, reporting) == MonthlyTotal(rest, year, upTo, reporting)
            + if CountsAsSent(r) && 1 <= r.sentDate.value.month <= upTo && SentInMonth(r, year, r.sentDate.value.month, reporting)
              then 1 else 0
  {
    if upTo > 0 {
      assert ([r] + rest)[1..] == rest;
      OneMonthEach(r, rest, year, upTo - 1, reporting);
    }
  }

  lemma {:induction false} MonthsOverAnnual(records: seq<Record>, year: int, reporting: Date)
    requires RealDate(reporting) && forall i :: 0 <= i < |records| && records[i].sentDate.Some? ==> RealDate(records[i].sentDate.value)
    ensures MonthlyTotal(records, year, LastMonth(year, reporting), reporting)
         == AnnualSent(records, year, reporting)
            + if year <= reporting.year then 0 else Count(records, (r: Record) => CountsAsSent(r) && r.sentDate.value.year == year)
  {
    if records == [] {
      NoMonths(year, LastMonth(year, reporting), reporting);
    } else {
      MonthsOverAnnual(records[1..], year, reporting);
      assert records == [records[0]] + records[1..];
      OneMonthEach(records[0], records[1..], year, LastMonth(year, reporting), reporting);
    }
  }

  lemma {:induction false} NoMonths(year: int, upTo: nat, reporting: Date)
    ensures MonthlyTotal([], year, upTo, reporting) == 0
  {
    if upTo > 0 { NoMonths(year, upTo - 1, reporting); }
  }

  /** **One opinion dated in the year after the reporting year**: the month shows it, the annual series does not. */
  lemma FutureOpinionDisagrees(reporting: Date)
    requires RealDate(reporting)
    ensures var year := reporting.year + 1;
            var records := [Record(false, true, None, None, Some(Date(year, 1, 1)), year)];
            MonthlyTotal(records, year, LastMonth(year, reporting), reporting) == 1 && AnnualSent(records, year, reporting) == 0
  {
    var year := reporting.year + 1;
    var r := Record(false, true, None, None, Some(Date(year, 1, 1)), year);
    assert [r] + [] == [r] && [r][1..] == [];
    NoMonths(year, LastMonth(year, reporting), reporting);
    OneMonthEach(r, [], year, LastMonth(year, reporting), reporting);
    assert !SentInYear(r, year, reporting) && AnnualSent([], year, reporting) == 0;
    assert AnnualSent([r], year, reporting) == 0;
  }

  /** **The monthly bars add up to the annual figure exactly when** the year is not after the reporting
      year, or nothing is recorded as sent in it. */
  lemma MonthlyEqualsAnnualIff(records: seq<Record>, year: int, reporting: Date)
    requires RealDate(reporting) && forall i :: 0 <= i < |records| && records[i].sentDate.Some? ==> RealDate(records[i].sentDate.value)
    ensures MonthlyTotal(records, year, LastMonth(year, reporting), reporting) == AnnualSent(records, year, reporting)
       <==> year <= reporting.year || Count(records, (r: Record) => CountsAsSent(r) && r.sentDate.value.year == year) == 0
  {
    MonthsOverAnnual(records, year, reporting);
  }

  // ------------------------------------------------------------------
  // What the counts count, record by record.
  // ------------------------------------------------------------------

  /** The positions of the records that satisfy `p`. */
  ghost function Where(records: seq<Record>, p: Record -> bool): set<int> {
    set i | 0 <= i < |records| && p(records[i])
  }

  lemma {:induction false} CountSnoc(records: seq<Record>, r: Record, p: Record -> bool)
    ensures Count(records + [r], p) == Count(records, p) + if p(r) then 1 else 0
  {
    if records == [] {
      assert records + [r] == [r] && [r][1..] == [];
    } else {
      assert (records + [r])[1..] == records[1..] + [r];
      CountSnoc(records[1..], r, p);
    }
  }

  lemma {:induction false} CountIs(records: seq<Record>, p: Record -> bool)
    ensures Count(records, p) == |Where(records, p)|
    decreases |records|
  {
    if records == [] {
      assert Where(records, p) == {};
    } else {
      var n := |records| - 1;
      var front := records[..n];
      CountIs(front, p);
      CountSnoc(front, records[n], p);
      assert records == front + [records[n]];
      WhereSnoc(front, records[n], p);
    }
  }

  lemma WhereSnoc(front: seq<Record>, r: Record, p: Record -> bool)
    ensures |Where(front + [r], p)| == |Where(front, p)| + if p(r) then 1 else 0
  {
    var records := front + [r];
    assert forall i :: 0 <= i < |front| ==> front[i] == records[i];
    assert Where(records, p) == Where(front, p) + if p(r) then {|front|} else {};
  }

  /** **Deadline bands in days**: 0-3, 4-7, 8-14, 15-21 and 22 or more. */
  lemma BandsCount(records: seq<Record>, today: Date, days: Days)
    requires Calendar(days)
    ensures forall b: nat :: b < 5 ==> BandCount(records, today, days, b) == |Where(records, (r: Record) => InDays(r, today, days, b))|
  {
    forall b: nat | b < 5 ensures BandCount(records, today, days, b) == |Where(records, (r: Record) => InDays(r, today, days, b))| {
      CountIs(records, (r: Record) => InBand(r, today, days, b));
      assert Where(records, (r: Record) => InBand(r, today, days, b)) == Where(records, (r: Record) => InDays(r, today, days, b));
    }
  }

  /** Open, and due in the days of band `b`. */
  predicate InDays(r: Record, today: Date, days: Days, b: nat) {
    && r.isOpen && r.deadline.Some?
    && var left := days(today, r.deadline.value);
       match b
       case 0 => 0 <= left <= 3
       case 1 => 4 <= left <= 7
       case 2 => 8 <= left <= 14
       case 3 => 15 <= left <= 21
       case _ => 22 <= left
  }

  /** **A record is missing a date, or has an impossible interval, or is eligible**; its cohort is the year it was received,
      or the register's when that is not known. */
  lemma StandingsAre(r: Record)
    ensures StandingOf(r) == Missing <==> r.received.None? || r.deadline.None?
    ensures StandingOf(r) == Invalid <==> r.received.Some? && r.deadline.Some? && !NotAfter(r.received.value, r.deadline.value)
    ensures StandingOf(r) == Eligible <==> r.received.Some? && r.deadline.Some? && NotAfter(r.received.value, r.deadline.value)
    ensures r.received.Some? ==> Cohort(r) == r.received.value.year
    ensures r.received.None? ==> Cohort(r) == r.sourceYear
  {}

  lemma YearCounts(records: seq<Record>, year: int, s: Standing)
    ensures YearCount(records, year, s) == |Where(records, (r: Record) => Cohort(r) == year && StandingOf(r) == s)|
  {
    CountIs(records, (r: Record) => Cohort(r) == year && StandingOf(r) == s);
  }

  /** The annual figure counts the sent records dated in that year and not after the reporting date. */
  predicate SentThatYear(r: Record, year: int, reporting: Date) {
    r.sent && r.sentDate.Some? && r.sentDate.value.year == year && NotAfter(r.sentDate.value, reporting)
  }

  lemma AnnualCounts(records: seq<Record>, year: int, reporting: Date)
    ensures AnnualSent(records, year, reporting) == |Where(records, (r: Record) => SentThatYear(r, year, reporting))|
  {
    CountIs(records, (r: Record) => SentInYear(r, year, reporting));
    assert Where(records, (r: Record) => SentInYear(r, year, reporting)) == Where(records, (r: Record) => SentThatYear(r, year, reporting));
  }

  /** One month's bar counts the sent records of that month; the months shown are those up to the reporting date in its own
      year and all twelve otherwise. */
  lemma MonthCounts(records: seq<Record>, year: int, month: nat, reporting: Date)
    requires month > 0
    ensures MonthlyTotal(records, year, month, reporting) - MonthlyTotal(records, year, month - 1, reporting)
         == |Where(records, (r: Record) => SentThatMonth(r, year, month, reporting))|
    ensures LastMonth(year, reporting) == if year == reporting.year then reporting.month else 12
  {
    CountIs(records, (r: Record) => SentInMonth(r, year, month, reporting));
    assert Where(records, (r: Record) => SentInMonth(r, year, month, reporting))
        == Where(records, (r: Record) => SentThatMonth(r, year, month, reporting));
  }

  predicate SentThatMonth(r: Record, year: int, month: int, reporting: Date) {
    && r.sent && r.sentDate.Some? && r.sentDate.value.year == year && r.sentDate.value.month == month
    && (reporting.year == year ==> NotAfter(r.sentDate.value, reporting))
  }

  /** Dates compare by year, then month, then day. */
  lemma DatesCompare(a: Date, b: Date)
    ensures NotAfter(a, b) && NotAfter(b, a) <==> a == b
    ensures NotAfter(a, b) || NotAfter(b, a)
    ensures a.year < b.year ==> !NotAfter(b, a)
    ensures a.year == b.year && a.month < b.month ==> !NotAfter(b, a)
    ensures a.year == b.year && a.month == b.month && a.day < b.day ==> !NotAfter(b, a)
  {}
}
