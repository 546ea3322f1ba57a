/** The event register's filter state: parsed from a query string, printed back as one.

    Source: apps/event_programme/page.py:244-296, 487-516, apps/event_programme/selectors.py:49-112.
    Percent-encoding is left to the library; a query string is its list of name/value pairs. */
module ProgrammeFilters {
  import opened Basics

  type Query = seq<(string, string)>

  const YEAR_ALL := "all"
  const LINK_ALL := "all"
  const LINK_VALUES := {"all", "linked", "unlinked"}
  const REVIEW_ALL := "all"
  const REVIEW_VALUES := {"all", "required", "clear"}
  const SORT_DATE := "date"
  const SORT_CHOICES := {"date", "views", "registrations"}
  const Q_LIMIT := 100

  datatype Options = Options(
    years: seq<int>, months: set<string>, quarters: set<string>, tags: set<string>, eventTypes: set<string>,
    deliveryModes: set<string>, statuses: set<string>)

  datatype Filters = Filters(
    q: string, year: Option<int>, month: string, quarter: string, tag: string, eventType: string,
    deliveryMode: string, status: string, publicLink: string, review: string, sort: string)

  /** The library's text conventions: what counts as a blank, `str` of a year and `int` of a text. */
  datatype Text = Text(blank: char -> bool, show: int -> string, parse: string -> Option<int>)

  /** `int(str(y))` is `y`, and neither the empty text nor "all" reads as a number. */
  ghost predicate Lawful(t: Text) {
    (forall y :: ReadsBack(t, y)) && t.parse("").None? && t.parse(YEAR_ALL).None?
  }

  ghost predicate ReadsBack(t: Text, y: int) {
    t.parse(t.show(y)) == Some(y)
  }

  // ------------------------------------------------------------------
  // Parsing.
  // ------------------------------------------------------------------

  /** `params.get`: the last value given for the name. */
  function Lookup(query: Query, name: string): Option<string> {
    if query == [] then None
    else
      var rest := Lookup(query[1..], name);
      if rest.Some? then rest else if query[0].0 == name then Some(query[0].1) else None
  }

  function StripLeft(s: string, blank: char -> bool): string {
    if s != "" && blank(s[0]) then StripLeft(s[1..], blank) else s
  }

  function StripRight(s: string, blank: char -> bool): string {
    if s != "" && blank(s[|s| - 1]) then StripRight(s[..|s| - 1], blank) else s
  }

  function Strip(s: string, blank: char -> bool): string {
    StripRight(StripLeft(s, blank), blank)
  }

  function Cut(s: string): string {
    FirstN(s, Q_LIMIT)
  }

  function DefaultYear(options: Options, thisYear: int): Option<int> {
    if options.years == [] then None
    else if thisYear in options.years then Some(thisYear)
    else Some(options.years[0])
  }

  function ParseYear(raw: Option<string>, options: Options, t: Text, thisYear: int): Option<int> {
    if raw == Some(YEAR_ALL) then None
    else if raw.Some? && raw.value != "" && t.parse(raw.value).Some? && t.parse(raw.value).value in options.years
    then t.parse(raw.value)
    else DefaultYear(options, thisYear)
  }

  function OneOf(raw: Option<string>, values: set<string>, default: string): string {
    if raw.Some? && raw.value in values then raw.value else default
  }

  function ParseFilters(query: Query, options: Options, t: Text, thisYear: int): Filters {
    var q := Lookup(query, "q");
    Filters(
      Cut(Strip(if q.Some? then q.value else "", t.blank)),
      ParseYear(Lookup(query, "year"), options, t, thisYear),
      OneOf(Lookup(query, "month"), options.months, ""),
      OneOf(Lookup(query, "quarter"), options.quarters, ""),
      OneOf(Lookup(query, "tag"), options.tags, ""),
      OneOf(Lookup(query, "event_type"), options.eventTypes, ""),
      OneOf(Lookup(query, "delivery_mode"), options.deliveryModes, ""),
      OneOf(Lookup(query, "status"), options.statuses, ""),
      OneOf(Lookup(query, "public_link"), LINK_VALUES, LINK_ALL),
      OneOf(Lookup(query, "review"), REVIEW_VALUES, REVIEW_ALL),
      OneOf(Lookup(query, "sort"), SORT_CHOICES, SORT_DATE))
  }

  // ------------------------------------------------------------------
  // What parsing gives.
  // ------------------------------------------------------------------

  /** A parameter given twice counts as given last. */
  lemma {:induction false} LastOneCounts(query: Query, name: string, value: string, other: string)
    ensures Lookup(query + [(name, value)], name) == Some(value)
    ensures other != name ==> Lookup(query + [(name, value)], other) == Lookup(query, other)
    ensures Lookup([], name) == None
  {
    if query == [] {
      assert query + [(name, value)] == [(name, value)] && [(name, value)][1..] == [];
    } else {
      assert (query + [(name, value)])[1..] == query[1..] + [(name, value)] && (query + [(name, value)])[0] == query[0];
      LastOneCounts(query[1..], name, value, other);
    }
  }

  /** **The year filtered on**: none for "all"; the number given if that year is offered; and otherwise this year if it is
      offered, else the first year offered, else none. */
  lemma YearIs(raw: Option<string>, options: Options, t: Text, thisYear: int)
    ensures var year := ParseYear(raw, options, t, thisYear);
            var asked := if raw.Some? then t.parse(raw.value) else None;
            && (raw == Some("all") ==> year.None?)
            && (raw != Some("all") && raw != Some("") && asked.Some? && asked.value in options.years ==> year == asked)
            && (raw != Some("all") && (raw == Some("") || asked.None? || asked.value !in options.years) ==>
                  && (thisYear in options.years ==> year == Some(thisYear))
                  && (thisYear !in options.years && options.years != [] ==> year == Some(options.years[0]))
                  && (options.years == [] ==> year.None?))
  {}

  /** Stripping takes the blanks off both ends and nothing else. */
  lemma StripIs(s: string, blank: char -> bool) returns (before: nat, behind: nat)
    ensures before + |Strip(s, blank)| + behind == |s| && Strip(s, blank) == s[before..|s| - behind]
    ensures forall i :: 0 <= i < before || |s| - behind <= i < |s| ==> blank(s[i])
    ensures Strip(s, blank) != "" ==> !blank(Strip(s, blank)[0]) && !blank(Strip(s, blank)[|Strip(s, blank)| - 1])
  {
    var left := StripLeft(s, blank);
    before := StripLeftTakes(s, blank);
    behind := StripRightTakes(left, blank);
    StripLeftIs(s, blank);
    StripRightIs(left, blank);
    assert left == s[before..];
    assert forall i :: |left| - behind <= i < |left| ==> left[i] == s[before + i];
    forall i | |s| - behind <= i < |s| ensures blank(s[i]) { assert s[i] == left[i - before]; }
    assert Strip(s, blank) == left[..|left| - behind];
  }

  lemma {:induction false} StripLeftTakes(s: string, blank: char -> bool) returns (n: nat)
    ensures n <= |s| && StripLeft(s, blank) == s[n..] && forall i :: 0 <= i < n ==> blank(s[i])
  {
    n := 0;
    if s != "" && blank(s[0]) {
      var m := StripLeftTakes(s[1..], blank);
      n := m + 1;
      forall i | 0 <= i < n ensures blank(s[i]) { if i > 0 { assert s[i] == s[1..][i - 1]; } }
    }
  }

  lemma {:induction false} StripRightTakes(s: string, blank: char -> bool) returns (n: nat)
    ensures n <= |s| && StripRight(s, blank) == s[..|s| - n] && forall i :: |s| - n <= i < |s| ==> blank(s[i])
  {
    n := 0;
    if s != "" && blank(s[|s| - 1]) {
      var m := StripRightTakes(s[..|s| - 1], blank);
      n := m + 1;
    }
  }

  /** The search text is the stripped parameter, at most a hundred characters of it; every other field is the parameter of
      its name where that is an offered value. */
  lemma FieldsAre(query: Query, options: Options, t: Text, thisYear: int)
    ensures var f := ParseFilters(query, options, t, thisYear);
            var q := Lookup(query, "q");
            var stripped := Strip(if q.Some? then q.value else "", t.blank);
            && f.q <= stripped && |f.q| == (if |stripped| <= 100 then |stripped| else 100)
            && (f.month != "" ==> Lookup(query, "month") == Some(f.month))
            && (Lookup(query, "month").Some? && Lookup(query, "month").value in options.months ==> f.month == Lookup(query, "month").value)
            && (Lookup(query, "quarter").Some? && Lookup(query, "quarter").value in options.quarters ==>
                  f.quarter == Lookup(query, "quarter").value)
            && (Lookup(query, "tag").Some? && Lookup(query, "tag").value in options.tags ==> f.tag == Lookup(query, "tag").value)
            && (Lookup(query, "event_type").Some? && Lookup(query, "event_type").value in options.eventTypes ==>
                  f.eventType == Lookup(query, "event_type").value)
            && (Lookup(query, "delivery_mode").Some? && Lookup(query, "delivery_mode").value in options.deliveryModes ==>
                  f.deliveryMode == Lookup(query, "delivery_mode").value)
            && (Lookup(query, "status").Some? && Lookup(query, "status").value in options.statuses ==>
                  f.status == Lookup(query, "status").value)
            && f.publicLink == (if Lookup(query, "public_link") in {Some("linked"), Some("unlinked")} then Lookup(query, "public_link").value else "all")
            && f.review == (if Lookup(query, "review") in {Some("required"), Some("clear")} then Lookup(query, "review").value else "all")
            && f.sort == (if Lookup(query, "sort") in {Some("views"), Some("registrations")} then Lookup(query, "sort").value else "date")
  {}

  // ------------------------------------------------------------------
  // Printing.
  // ------------------------------------------------------------------

  function Unless(value: string, default: string): string { if value == default then "" else value }

  /** Every parameter the printer knows, with the empty text for the ones it leaves out. */
  function Fields(f: Filters, t: Text, page: Option<nat>): Query {
    [ ("year", if f.year.Some? then t.show(f.year.value) else YEAR_ALL),
      ("q", f.q), ("month", f.month), ("quarter", f.quarter), ("tag", f.tag), ("event_type", f.eventType),
      ("delivery_mode", f.deliveryMode), ("status", f.status),
      ("public_link", Unless(f.publicLink, LINK_ALL)), ("review", Unless(f.review, REVIEW_ALL)),
      ("sort", Unless(f.sort, SORT_DATE)),
      ("page", if page.Some? && page.value > 1 then t.show(page.value) else "") ]
  }

  /** The fields that carry something. */
  function Written(fields: Query): Query {
    if fields == [] then [] else (if fields[0].1 != "" then [fields[0]] else []) + Written(fields[1..])
  }

  function Url(f: Filters, t: Text, page: Option<nat>): Query {
    Written(Fields(f, t, page))
  }

  lemma WrittenFrom(fields: Query, i: nat, query: Query)
    requires i < |fields|
    ensures query + Written(fields[i..])
         == (if fields[i].1 != "" then query + [fields[i]] else query) + Written(fields[i + 1..])
  {
    assert fields[i..][0] == fields[i] && fields[i..][1..] == fields[i + 1..];
  }

  method WriteFields(fields: Query) returns (query: Query)
    ensures query == Written(fields)
  {
    query := [];
    for i := 0 to |fields|
      invariant query + Written(fields[i..]) == Written(fields)
    {
      WrittenFrom(fields, i, query);
      if fields[i].1 != "" { query := query + [fields[i]]; }
    }
    assert fields[|fields|..] == [];
  }

  // ------------------------------------------------------------------
  // The round trip.
  // ------------------------------------------------------------------

  ghost predicate DistinctNames(fields: Query) {
    forall i, j :: 0 <= i < j < |fields| ==> fields[i].0 != fields[j].0
  }

  /** Looking a printed parameter up gives back what was written, or nothing where nothing was. */
  lemma {:induction false} LookupWritten(fields: Query, name: string)
    requires DistinctNames(fields)
    ensures forall i :: 0 <= i < |fields| && fields[i].0 == name ==>
              Lookup(Written(fields), name) == if fields[i].1 != "" then Some(fields[i].1) else None
    ensures (forall i :: 0 <= i < |fields| ==> fields[i].0 != name) ==> Lookup(Written(fields), name).None?
  {
    if fields != [] {
      var rest := fields[1..];
      assert forall i :: 0 <= i < |rest| ==> rest[i] == fields[i + 1];
      LookupWritten(rest, name);
      var head := if fields[0].1 != "" then [fields[0]] else [];
      assert Written(fields) == head + Written(rest);
      if fields[0].1 != "" {
        assert Written(fields)[1..] == Written(rest);
      } else {
        assert Written(fields) == Written(rest);
      }
    }
  }

  lemma NamesDiffer(f: Filters, t: Text, page: Option<nat>)
    ensures DistinctNames(Fields(f, t, page))
  {}

  lemma FieldComesBack(f: Filters, t: Text, page: Option<nat>, i: nat)
    requires i < |Fields(f, t, page)|
    ensures var field := Fields(f, t, page)[i];
            Lookup(Url(f, t, page), field.0) == if field.1 != "" then Some(field.1) else None
  {
    NamesDiffer(f, t, page);
    LookupWritten(Fields(f, t, page), Fields(f, t, page)[i].0);
  }

  /** Every value in the state is one the options offer, or the "not filtered" value. */
  ghost predicate Validated(f: Filters, options: Options) {
    && (f.year.Some? ==> f.year.value in options.years)
    && (f.month != "" ==> f.month in options.months)
    && (f.quarter != "" ==> f.quarter in options.quarters)
    && (f.tag != "" ==> f.tag in options.tags)
    && (f.eventType != "" ==> f.eventType in options.eventTypes)
    && (f.deliveryMode != "" ==> f.deliveryMode in options.deliveryModes)
    && (f.status != "" ==> f.status in options.statuses)
    && f.publicLink in LINK_VALUES && f.review in REVIEW_VALUES && f.sort in SORT_CHOICES
  }

  /** **Nothing unvalidated gets through**: whatever the query string, the state holds only offered values. */
  lemma ParsedIsValidated(query: Query, options: Options, t: Text, thisYear: int)
    ensures Validated(ParseFilters(query, options, t, thisYear), options)
  {}

  /** Everything but the search text survives printing, in any later year. */
  lemma RestComesBack(f: Filters, options: Options, t: Text, page: Option<nat>, laterYear: int)
    requires Lawful(t) && Validated(f, options)
    ensures ParseFilters(Url(f, t, page), options, t, laterYear)
         == f.(q := Cut(Strip(f.q, t.blank)))
  {
    NamedComeBack(f, t, page);
    YearComesBack(f.year, options, t, laterYear);
    OneOfGiven(f, options);
  }

  lemma YearComesBack(year: Option<int>, options: Options, t: Text, laterYear: int)
    requires Lawful(t) && (year.Some? ==> year.value in options.years)
    ensures ParseYear(Given(if year.Some? then t.show(year.value) else YEAR_ALL), options, t, laterYear) == year
  {
    if year.Some? { assert ReadsBack(t, year.value); }
  }

  lemma OneOfGiven(f: Filters, options: Options)
    requires Validated(f, options)
    ensures OneOf(Given(f.month), options.months, "") == f.month && OneOf(Given(f.quarter), options.quarters, "") == f.quarter
    ensures OneOf(Given(f.tag), options.tags, "") == f.tag && OneOf(Given(f.eventType), options.eventTypes, "") == f.eventType
    ensures OneOf(Given(f.deliveryMode), options.deliveryModes, "") == f.deliveryMode
    ensures OneOf(Given(f.status), options.statuses, "") == f.status
    ensures OneOf(Given(Unless(f.publicLink, LINK_ALL)), LINK_VALUES, LINK_ALL) == f.publicLink
    ensures OneOf(Given(Unless(f.review, REVIEW_ALL)), REVIEW_VALUES, REVIEW_ALL) == f.review
    ensures OneOf(Given(Unless(f.sort, SORT_DATE)), SORT_CHOICES, SORT_DATE) == f.sort
  {}

  function Given(value: string): Option<string> { if value != "" then Some(value) else None }

  lemma NamedComeBack(f: Filters, t: Text, page: Option<nat>)
    ensures var url, fields := Url(f, t, page), Fields(f, t, page);
            && Lookup(url, "year") == Given(fields[0].1) && Lookup(url, "q") == Given(f.q)
            && Lookup(url, "month") == Given(f.month) && Lookup(url, "quarter") == Given(f.quarter)
            && Lookup(url, "tag") == Given(f.tag) && Lookup(url, "event_type") == Given(f.eventType)
            && Lookup(url, "delivery_mode") == Given(f.deliveryMode) && Lookup(url, "status") == Given(f.status)
            && Lookup(url, "public_link") == Given(fields[8].1) && Lookup(url, "review") == Given(fields[9].1)
            && Lookup(url, "sort") == Given(fields[10].1)
  {
    FieldComesBack(f, t, page, 0);
    FieldComesBack(f, t, page, 1);
    FieldComesBack(f, t, page, 2);
    FieldComesBack(f, t, page, 3);
    FieldComesBack(f, t, page, 4);
    FieldComesBack(f, t, page, 5);
    FieldComesBack(f, t, page, 6);
    FieldComesBack(f, t, page, 7);
    FieldComesBack(f, t, page, 8);
    FieldComesBack(f, t, page, 9);
    FieldComesBack(f, t, page, 10);
  }

  /** The page number is printed from the second page on. */
  lemma PageComesBack(f: Filters, t: Text, page: Option<nat>)
    requires Lawful(t)
    ensures page.Some? && page.value >= 2 ==> Lookup(Url(f, t, page), "page") == Some(t.show(page.value))
    ensures page.None? || page.value <= 1 ==> Lookup(Url(f, t, page), "page").None?
  {
    FieldComesBack(f, t, page, 11);
    if page.Some? { assert ReadsBack(t, page.value); }
  }

  lemma {:induction false} StripLeftIs(s: string, blank: char -> bool)
    ensures StripLeft(s, blank) != "" ==> !blank(StripLeft(s, blank)[0])
  {
    if s != "" && blank(s[0]) { StripLeftIs(s[1..], blank); }
  }

  lemma {:induction false} StripRightIs(s: string, blank: char -> bool)
    ensures StripRight(s, blank) <= s
    ensures StripRight(s, blank) != "" ==> !blank(StripRight(s, blank)[|StripRight(s, blank)| - 1])
  {
    if s != "" && blank(s[|s| - 1]) { StripRightIs(s[..|s| - 1], blank); }
  }

  /** A text without a leading blank is changed by stripping exactly when it ends in one. */
  lemma StripChanges(s: string, blank: char -> bool)
    requires s != "" ==> !blank(s[0])
    ensures Strip(s, blank) == s <==> s == "" || !blank(s[|s| - 1])
  {
    StripRightIs(s, blank);
  }

  /** The search text after the cut ends in a blank. */
  predicate CutOnBlank(query: Query, t: Text) {
    var q := Lookup(query, "q");
    var stripped := Strip(if q.Some? then q.value else "", t.blank);
    |stripped| > Q_LIMIT && t.blank(stripped[Q_LIMIT - 1])
  }

  lemma SearchTextComesBackIff(raw: string, blank: char -> bool)
    ensures var stripped := Strip(raw, blank);
            Cut(Strip(Cut(stripped), blank)) == Cut(stripped) <==> !(|stripped| > Q_LIMIT && blank(stripped[Q_LIMIT - 1]))
  {
    var left := StripLeft(raw, blank);
    StripLeftIs(raw, blank);
    StripRightIs(left, blank);
    var stripped := Strip(raw, blank);
    var q := Cut(stripped);
    StripChanges(q, blank);
    StripLeftIs(q, blank);
    StripRightIs(StripLeft(q, blank), blank);
    assert |q| <= Q_LIMIT;
    assert StripLeft(q, blank) == q;
    assert Strip(q, blank) <= q;
  }

  /** **Printing and parsing give the same state back, for every query string, in any later year, exactly
      unless the hundred-character cut left the search text ending in a blank.** */
  lemma RoundTripIff(query: Query, options: Options, t: Text, page: Option<nat>, thisYear: int, laterYear: int)
    requires Lawful(t)
    ensures var f := ParseFilters(query, options, t, thisYear);
            ParseFilters(Url(f, t, page), options, t, laterYear) == f <==> !CutOnBlank(query, t)
  {
    var f := ParseFilters(query, options, t, thisYear);
    ParsedIsValidated(query, options, t, thisYear);
    RestComesBack(f, options, t, page, laterYear);
    var q := Lookup(query, "q");
    SearchTextComesBackIff(if q.Some? then q.value else "", t.blank);
  }

  /** Ninety-nine letters, a blank and a letter: a search text the cut leaves ending in a blank. */
  function LongSearch(): string { seq(99, _ => 'a') + " b" }

  /** **A state that does not come back**: the printed search text has lost its last character. */
  lemma CutSearchLosesBlank(options: Options, t: Text, page: Option<nat>, thisYear: int)
    requires Lawful(t) && t.blank(' ') && !t.blank('a') && !t.blank('b')
    ensures var f := ParseFilters([("q", LongSearch())], options, t, thisYear);
            && |f.q| == 100
            && ParseFilters(Url(f, t, page), options, t, thisYear).q == f.q[..99]
  {
    var query := [("q", LongSearch())];
    var f := ParseFilters(query, options, t, thisYear);
    assert Lookup(query[1..], "q") == None && Lookup(query, "q") == Some(LongSearch());
    assert Strip(LongSearch(), t.blank) == LongSearch();
    var q := LongSearch()[..100];
    assert f.q == q && q[99] == ' ' && q[..99][98] == 'a';
    ParsedIsValidated(query, options, t, thisYear);
    RestComesBack(f, options, t, page, thisYear);
    assert StripRight(q, t.blank) == StripRight(q[..99], t.blank) == q[..99];
  }
}
