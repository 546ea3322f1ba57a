/** Redacting audit change summaries: masked at every depth, and stable under repetition.

    Source: apps/audit/redaction.py. The pattern of sensitive key names is an input. */
module Redaction {
  import opened Basics

  const MASK := "[redacted]"
  const MAX_VALUE_LENGTH := 500
  const TRUNCATED := "\U{2026}[truncated]"
  const ALLOWED_KEYS := {"sha256", "import_key", "content_hash"}

  /** A dictionary key: text, or something else together with what `str` makes of it. */
  datatype Key = Text(text: string) | Other(shown: string)

  datatype Value =
    | Str(text: string)
    | Scalar(number: int)
    | List(items: seq<Value>)
    | Tuple(members: seq<Value>)
    | Dict(entries: seq<Entry>)

  datatype Entry = Entry(key: Key, value: Value)

  type Pattern = string -> bool

  function Shown(k: Key): string {
    match k
    case Text(t) => t
    case Other(s) => s
  }

  predicate Sensitive(pattern: Pattern, key: string) {
    key !in ALLOWED_KEYS && pattern(key)
  }

  function Truncate(s: string): string {
    if |s| > MAX_VALUE_LENGTH then s[..MAX_VALUE_LENGTH] + TRUNCATED else s
  }

  /** Assigning into a dictionary: in place for a key it has, at the end otherwise. */
  function Put(entries: seq<Entry>, key: string, v: Value): seq<Entry> {
    if entries == [] then [Entry(Text(key), v)]
    else if entries[0].key == Text(key) then [Entry(Text(key), v)] + entries[1..]
    else [entries[0]] + Put(entries[1..], key, v)
  }

  function RedactValue(pattern: Pattern, v: Value): Value
    decreases v, 1
  {
    match v
    case Dict(entries) => Dict(RedactInto(pattern, entries, []))
    case List(items) => List(RedactAll(pattern, items))
    case Tuple(items) => List(RedactAll(pattern, items))
    case Str(s) => Str(Truncate(s))
    case Scalar(_) => v
  }

  function RedactAll(pattern: Pattern, items: seq<Value>): (r: seq<Value>)
    ensures |r| == |items|
    decreases items, 0
  {
    if items == [] then [] else [RedactValue(pattern, items[0])] + RedactAll(pattern, items[1..])
  }

  function RedactEntry(pattern: Pattern, e: Entry): Value
    decreases e, 2
  {
    if Sensitive(pattern, Shown(e.key)) then Str(MASK) else RedactValue(pattern, e.value)
  }

  function RedactInto(pattern: Pattern, entries: seq<Entry>, redacted: seq<Entry>): seq<Entry>
    decreases entries, 0
  {
    if entries == [] then redacted
    else RedactInto(pattern, entries[1..], Put(redacted, Shown(entries[0].key), RedactEntry(pattern, entries[0])))
  }

  datatype TypeError = TypeError

  /** The entry point: nothing becomes an empty summary, anything but a dictionary is refused. */
  function Redact(pattern: Pattern, summary: Option<Value>): Result<Value, TypeError> {
    match summary
    case None => Ok(Dict([]))
    case Some(v) => if v.Dict? then Ok(RedactValue(pattern, v)) else Err(TypeError)
  }

  method RedactDict(pattern: Pattern, entries: seq<Entry>) returns (redacted: seq<Entry>)
    ensures redacted == RedactInto(pattern, entries, [])
  {
    redacted := [];
    for i := 0 to |entries|
      invariant RedactInto(pattern, entries[i..], redacted) == RedactInto(pattern, entries, [])
    {
      assert entries[i..][0] == entries[i] && entries[i..][1..] == entries[i + 1..];
      var key := Shown(entries[i].key);
      if key !in ALLOWED_KEYS && pattern(key) {
        redacted := Put(redacted, key, Str(MASK));
      } else {
        redacted := Put(redacted, key, RedactValue(pattern, entries[i].value));
      }
    }
  }

  // ------------------------------------------------------------------
  // What a redacted value looks like, at every depth.
  // ------------------------------------------------------------------

  /** Keys are distinct texts; every sensitive one holds the mask and nothing else; everything below is clean too. */
  ghost predicate Clean(pattern: Pattern, v: Value)
    decreases v
  {
    match v
    case Dict(entries) => DistinctTexts(entries) && forall i :: 0 <= i < |entries| ==> CleanEntry(pattern, entries[i])
    case List(items) => forall i :: 0 <= i < |items| ==> Clean(pattern, items[i])
    case Tuple(_) => false
    case Str(s) => Truncate(s) == s
    case Scalar(_) => true
  }

  ghost predicate CleanEntry(pattern: Pattern, e: Entry)
    decreases e
  {
    if Sensitive(pattern, Shown(e.key)) then e.value == Str(MASK) else Clean(pattern, e.value)
  }

  ghost predicate DistinctTexts(entries: seq<Entry>) {
    && (forall i :: 0 <= i < |entries| ==> entries[i].key.Text?)
    && (forall i, j :: 0 <= i < j < |entries| ==> entries[i].key != entries[j].key)
  }

  ghost predicate CleanEntries(pattern: Pattern, entries: seq<Entry>) {
    DistinctTexts(entries) && forall i :: 0 <= i < |entries| ==> CleanEntry(pattern, entries[i])
  }

  /** A text of at most five hundred characters is kept; of a longer one the first five hundred, and a notice. */
  lemma TruncateKeeps(s: string)
    ensures |s| <= 500 ==> Truncate(s) == s
    ensures |s| > 500 ==> |Truncate(s)| == 512 && Truncate(s)[..500] == s[..500] && Truncate(s)[500..] == "\U{2026}[truncated]"
  {}

  lemma TruncateOnce(s: string)
    ensures Truncate(Truncate(s)) == Truncate(s)
  {
    if |s| > MAX_VALUE_LENGTH { assert Truncate(s)[..MAX_VALUE_LENGTH] == s[..MAX_VALUE_LENGTH]; }
  }

  lemma {:induction false} PutKeepsClean(pattern: Pattern, entries: seq<Entry>, key: string, v: Value)
    requires CleanEntries(pattern, entries) && CleanEntry(pattern, Entry(Text(key), v))
    ensures CleanEntries(pattern, Put(entries, key, v))
    ensures forall e :: e in Put(entries, key, v) ==> e.key == Text(key) || e in entries
  {
    if entries != [] && entries[0].key != Text(key) {
      var rest := entries[1..];
      assert forall i :: 0 <= i < |rest| ==> rest[i] == entries[i + 1];
      PutKeepsClean(pattern, rest, key, v);
      var tail := Put(rest, key, v);
      forall i | 0 <= i < |tail| ensures tail[i].key != entries[0].key {
        assert tail[i] in tail;
      }
    }
  }

  lemma {:induction false} RedactIsClean(pattern: Pattern, v: Value)
    ensures Clean(pattern, RedactValue(pattern, v))
    decreases v, 1
  {
    match v
    case Dict(entries) => IntoIsClean(pattern, entries, []);
    case List(items) => AllClean(pattern, items);
    case Tuple(items) => AllClean(pattern, items);
    case Str(s) => TruncateOnce(s);
    case Scalar(_) =>
  }

  lemma {:induction false} AllClean(pattern: Pattern, items: seq<Value>)
    ensures forall i :: 0 <= i < |items| ==> Clean(pattern, RedactAll(pattern, items)[i])
    decreases items, 0
  {
    if items != [] {
      RedactIsClean(pattern, items[0]);
      AllClean(pattern, items[1..]);
    }
  }

  lemma {:induction false} EntryIsClean(pattern: Pattern, e: Entry)
    ensures CleanEntry(pattern, Entry(Text(Shown(e.key)), RedactEntry(pattern, e)))
    decreases e, 2
  {
    if !Sensitive(pattern, Shown(e.key)) { RedactIsClean(pattern, e.value); }
  }

  lemma {:induction false} IntoIsClean(pattern: Pattern, entries: seq<Entry>, redacted: seq<Entry>)
    requires CleanEntries(pattern, redacted)
    ensures CleanEntries(pattern, RedactInto(pattern, entries, redacted))
    decreases entries, 0
  {
    if entries != [] {
      var e := entries[0];
      EntryIsClean(pattern, e);
      PutKeepsClean(pattern, redacted, Shown(e.key), RedactEntry(pattern, e));
      IntoIsClean(pattern, entries[1..], Put(redacted, Shown(e.key), RedactEntry(pattern, e)));
    }
  }

  lemma {:induction false} PutFresh(entries: seq<Entry>, key: string, v: Value)
    requires forall i :: 0 <= i < |entries| ==> entries[i].key != Text(key)
    ensures Put(entries, key, v) == entries + [Entry(Text(key), v)]
  {
    if entries != [] { PutFresh(entries[1..], key, v); }
  }

  lemma {:induction false} CleanIsFixed(pattern: Pattern, v: Value)
    requires Clean(pattern, v)
    ensures RedactValue(pattern, v) == v
    decreases v, 1
  {
    match v
    case Dict(entries) =>
      IntoAppends(pattern, entries, []);
      assert [] + entries == entries;
    case List(items) => AllFixed(pattern, items);
    case Str(_) =>
    case Scalar(_) =>
  }

  lemma {:induction false} AllFixed(pattern: Pattern, items: seq<Value>)
    requires forall i :: 0 <= i < |items| ==> Clean(pattern, items[i])
    ensures RedactAll(pattern, items) == items
    decreases items, 0
  {
    if items != [] {
      CleanIsFixed(pattern, items[0]);
      AllFixed(pattern, items[1..]);
    }
  }

  lemma {:induction false} EntryFixed(pattern: Pattern, e: Entry)
    requires CleanEntry(pattern, e)
    ensures RedactEntry(pattern, e) == e.value
    decreases e, 2
  {
    if !Sensitive(pattern, Shown(e.key)) { CleanIsFixed(pattern, e.value); }
  }

  /** No key of `entries` is among those of `redacted`. */
  ghost predicate NewKeys(redacted: seq<Entry>, entries: seq<Entry>) {
    forall i, j :: 0 <= i < |redacted| && 0 <= j < |entries| ==> redacted[i].key != entries[j].key
  }

  /** The first of clean entries with new keys is appended as it is, and the rest still have new keys. */
  lemma AppendsOne(pattern: Pattern, entries: seq<Entry>, redacted: seq<Entry>)
    requires entries != [] && CleanEntries(pattern, entries) && NewKeys(redacted, entries)
    ensures CleanEntry(pattern, entries[0]) && CleanEntries(pattern, entries[1..])
    ensures Put(redacted, Shown(entries[0].key), entries[0].value) == redacted + [entries[0]]
    ensures NewKeys(redacted + [entries[0]], entries[1..])
  {
    var e := entries[0];
    PutFresh(redacted, Shown(e.key), e.value);
    assert forall j :: 0 <= j < |entries[1..]| ==> entries[1..][j] == entries[j + 1];
  }

  lemma RedactStep(pattern: Pattern, entries: seq<Entry>, redacted: seq<Entry>)
    requires entries != [] && RedactEntry(pattern, entries[0]) == entries[0].value
    requires Put(redacted, Shown(entries[0].key), entries[0].value) == redacted + [entries[0]]
    ensures RedactInto(pattern, entries, redacted) == RedactInto(pattern, entries[1..], redacted + [entries[0]])
  {}

  lemma {:induction false} IntoAppends(pattern: Pattern, entries: seq<Entry>, redacted: seq<Entry>)
    requires CleanEntries(pattern, entries) && NewKeys(redacted, entries)
    ensures RedactInto(pattern, entries, redacted) == redacted + entries
    decreases entries, 0
  {
    if entries == [] {
      assert redacted + entries == redacted;
    } else {
      AppendsOne(pattern, entries, redacted);
      EntryFixed(pattern, entries[0]);
      RedactStep(pattern, entries, redacted);
      IntoAppends(pattern, entries[1..], redacted + [entries[0]]);
      assert redacted + [entries[0]] + entries[1..] == redacted + entries;
    }
  }

  /** **Redaction is idempotent, and its results are exactly the clean values**: on arbitrarily nested
      summaries, with any keys, redacting again changes nothing, and at every depth, inside lists too,
      each sensitive key that is not exempt holds the mask. */
  lemma RedactIdempotent(pattern: Pattern, v: Value)
    ensures RedactValue(pattern, RedactValue(pattern, v)) == RedactValue(pattern, v)
    ensures Clean(pattern, RedactValue(pattern, v))
    ensures RedactValue(pattern, v) == v <==> Clean(pattern, v)
  {
    RedactIsClean(pattern, v);
    CleanIsFixed(pattern, RedactValue(pattern, v));
    if Clean(pattern, v) { CleanIsFixed(pattern, v); }
  }

  // ------------------------------------------------------------------
  // Nothing is dropped.
  // ------------------------------------------------------------------

  function Keys(entries: seq<Entry>): set<string> {
    if entries == [] then {} else {Shown(entries[0].key)} + Keys(entries[1..])
  }

  lemma {:induction false} PutKeys(entries: seq<Entry>, key: string, v: Value)
    ensures Keys(Put(entries, key, v)) == Keys(entries) + {key}
  {
    if entries == [] {
      assert Put(entries, key, v)[1..] == [];
    } else if entries[0].key == Text(key) {
      assert Put(entries, key, v)[1..] == entries[1..];
    } else {
      PutKeys(entries[1..], key, v);
      assert Put(entries, key, v)[1..] == Put(entries[1..], key, v);
    }
  }

  /** **What a stored summary is.** Exactly a missing summary or a dictionary is accepted; the result is a
      dictionary, clean at every depth, with the keys of the original, and storing it again changes nothing. */
  lemma RedactAccepted(pattern: Pattern, summary: Option<Value>)
    ensures Redact(pattern, summary).Ok? <==> summary.None? || summary.value.Dict?
    ensures Redact(pattern, summary).Ok? ==>
              var r := Redact(pattern, summary).value;
              && r.Dict? && Clean(pattern, r) && Redact(pattern, Some(r)) == Ok(r)
              && Keys(r.entries) == if summary.Some? then Keys(summary.value.entries) else {}
  {
    if summary.None? {
      assert RedactValue(pattern, Dict([])) == Dict([]);
      RedactIdempotent(pattern, Dict([]));
    } else if summary.value.Dict? {
      RedactIdempotent(pattern, summary.value);
      KeysSurvive(pattern, summary.value.entries, []);
    }
  }

  function Find(entries: seq<Entry>, key: string): Option<Value> {
    if entries == [] then None else if entries[0].key == Text(key) then Some(entries[0].value) else Find(entries[1..], key)
  }

  lemma {:induction false} PutFind(entries: seq<Entry>, key: string, v: Value, other: string)
    ensures Find(Put(entries, key, v), key) == Some(v)
    ensures other != key ==> Find(Put(entries, key, v), other) == Find(entries, other)
  {
    if entries != [] && entries[0].key != Text(key) {
      PutFind(entries[1..], key, v, other);
      assert Put(entries, key, v)[1..] == Put(entries[1..], key, v);
    } else if entries != [] {
      assert Put(entries, key, v)[1..] == entries[1..];
    } else {
      assert Put(entries, key, v)[1..] == [];
    }
  }

  lemma {:induction false} IntoKeeps(pattern: Pattern, entries: seq<Entry>, redacted: seq<Entry>, key: string)
    requires forall i :: 0 <= i < |entries| ==> Shown(entries[i].key) != key
    ensures Find(RedactInto(pattern, entries, redacted), key) == Find(redacted, key)
    decreases |entries|
  {
    if entries != [] {
      var e := entries[0];
      PutFind(redacted, Shown(e.key), RedactEntry(pattern, e), key);
      IntoKeeps(pattern, entries[1..], Put(redacted, Shown(e.key), RedactEntry(pattern, e)), key);
    }
  }

  /** **What each key holds afterwards.** The last value given under a key decides: the mask if the key matches the pattern
      and is not exempt, and otherwise that value redacted. */
  lemma {:induction false} HeldAfter(pattern: Pattern, entries: seq<Entry>, redacted: seq<Entry>, i: nat)
    requires i < |entries| && forall j :: i < j < |entries| ==> Shown(entries[j].key) != Shown(entries[i].key)
    ensures var key := Shown(entries[i].key);
            Find(RedactInto(pattern, entries, redacted), key)
            == Some(if pattern(key) && key !in {"sha256", "import_key", "content_hash"} then Str("[redacted]")
                    else RedactValue(pattern, entries[i].value))
    decreases |entries|
  {
    var e := entries[0];
    var next := Put(redacted, Shown(e.key), RedactEntry(pattern, e));
    assert forall j :: 0 <= j < |entries| - 1 ==> entries[1..][j] == entries[j + 1];
    if i == 0 {
      IntoKeeps(pattern, entries[1..], next, Shown(e.key));
      PutFind(redacted, Shown(e.key), RedactEntry(pattern, e), "");
    } else {
      HeldAfter(pattern, entries[1..], next, i - 1);
    }
  }

  /** Lists and tuples become lists, member by member; numbers stay. */
  lemma {:induction false} MembersKept(pattern: Pattern, items: seq<Value>, number: int)
    ensures RedactValue(pattern, List(items)) == RedactValue(pattern, Tuple(items))
    ensures RedactValue(pattern, List(items)).List? && |RedactValue(pattern, List(items)).items| == |items|
    ensures forall i :: 0 <= i < |items| ==> RedactValue(pattern, List(items)).items[i] == RedactValue(pattern, items[i])
    ensures RedactValue(pattern, Scalar(number)) == Scalar(number)
    decreases |items|
  {
    if items != [] {
      MembersKept(pattern, items[1..], number);
      assert RedactAll(pattern, items)[1..] == RedactAll(pattern, items[1..]);
    }
  }

  /** **Masking hides values, never keys**: a redacted dictionary has exactly the keys of the original, as text. */
  lemma {:induction false} KeysSurvive(pattern: Pattern, entries: seq<Entry>, redacted: seq<Entry>)
    ensures Keys(RedactInto(pattern, entries, redacted)) == Keys(redacted) + Keys(entries)
    decreases |entries|
  {
    if entries != [] {
      var e := entries[0];
      PutKeys(redacted, Shown(e.key), RedactEntry(pattern, e));
      KeysSurvive(pattern, entries[1..], Put(redacted, Shown(e.key), RedactEntry(pattern, e)));
    }
  }
}
