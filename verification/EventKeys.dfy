/** The stable key of an event page, and when two listed pages share one.

    Source: apps/events/collector.py:427-428, apps/events/public_discovery.py:159-174. Taking an address apart
    into host and path is the library's; this is about paths. */
module EventKeys {
  import opened Basics

  function StripSlashes(path: string): string {
    if path != "" && path[|path| - 1] == '/' then StripSlashes(path[..|path| - 1]) else path
  }

  /** The longest end of the path without a slash. */
  function LastSegment(path: string): (r: string)
    ensures |r| <= |path|
    ensures r == "" <==> path == "" || path[|path| - 1] == '/'
  {
    if path == "" || path[|path| - 1] == '/' then "" else LastSegment(path[..|path| - 1]) + [path[|path| - 1]]
  }

  /** `stable_key_for_url`, of an address's path: its last segment, cut to two hundred characters. */
  function StableKey(path: string): string {
    FirstN(LastSegment(StripSlashes(path)), 200)
  }

  /** The non-empty segments of a path. */
  function Segments(path: string): seq<string>
    decreases |path|
  {
    if path == "" then []
    else if path[|path| - 1] == '/' then Segments(path[..|path| - 1])
    else Segments(path[..|path| - |LastSegment(path)|]) + [LastSegment(path)]
  }

  predicate IsFolder(path: string) { path != "" && path[|path| - 1] == '/' }

  /** `_is_event_page`: one segment under the prefix. */
  predicate IsEventPath(prefix: string, path: string) {
    prefix <= path && |Segments(path[|prefix|..])| == 1
  }

  /** The one segment that names an event page. */
  function PageName(prefix: string, path: string): string
    requires IsEventPath(prefix, path)
  {
    Segments(path[|prefix|..])[0]
  }

  function Slashes(n: nat): string { seq(n, _ => '/') }

  // ------------------------------------------------------------------
  // What the key keeps.
  // ------------------------------------------------------------------

  /** The last segment is what the path ends in, has no slash, and follows one unless it is the whole path. */
  lemma {:induction false} LastSegmentIs(path: string)
    ensures path[|path| - |LastSegment(path)|..] == LastSegment(path) && '/' !in LastSegment(path)
    ensures |LastSegment(path)| < |path| ==> path[|path| - |LastSegment(path)| - 1] == '/'
  {
    if path != "" && path[|path| - 1] != '/' {
      var front := path[..|path| - 1];
      LastSegmentIs(front);
      assert path == front + [path[|path| - 1]];
    }
  }

  lemma {:induction false} SegmentFound(folder: string, segment: string)
    requires folder == "" || IsFolder(folder)
    requires forall i :: 0 <= i < |segment| ==> segment[i] != '/'
    ensures LastSegment(folder + segment) == segment
    decreases |segment|
  {
    var path := folder + segment;
    if segment == "" {
      assert path == folder;
    } else {
      var n := |segment| - 1;
      var front := segment[..n];
      assert path[..|path| - 1] == folder + front;
      SegmentFound(folder, front);
      assert segment == front + [segment[n]];
    }
  }

  lemma StripOne(path: string)
    requires IsFolder(path)
    ensures StableKey(path) == StableKey(path[..|path| - 1])
  {}

  lemma StripNone(path: string)
    requires path != "" && !IsFolder(path)
    ensures StableKey(path) == FirstN(LastSegment(path), 200)
  {}

  lemma SameSegmentBelow(folder: string, path: string)
    requires IsFolder(folder)
    ensures LastSegment(folder + path) == LastSegment(path)
  {
    var front, segment := SplitAtSegment(path);
    Regroup(folder, front, segment);
    BelowFolder(folder, front);
    SegmentFound(folder + front, segment);
  }

  lemma Regroup(a: string, b: string, c: string)
    ensures a + (b + c) == (a + b) + c
  {}

  lemma SplitAtSegment(path: string) returns (front: string, segment: string)
    ensures path == front + segment && segment == LastSegment(path)
    ensures (front == "" || IsFolder(front)) && forall i :: 0 <= i < |segment| ==> segment[i] != '/'
  {
    segment := LastSegment(path);
    front := path[..|path| - |segment|];
    LastSegmentIs(path);
  }

  lemma BelowFolder(folder: string, front: string)
    requires IsFolder(folder) && (front == "" || IsFolder(front))
    ensures IsFolder(folder + front)
  {
    if front == "" { assert folder + front == folder; }
  }

  /** The key of a path is its last non-empty segment, cut. */
  lemma {:induction false} KeyIsLastSegment(folder: string, path: string)
    requires IsFolder(folder) && Segments(path) != []
    ensures StableKey(folder + path) == FirstN(Segments(path)[|Segments(path)| - 1], 200)
    decreases |path|
  {
    var whole := folder + path;
    if IsFolder(path) {
      var front := path[..|path| - 1];
      assert whole[..|whole| - 1] == folder + front;
      StripOne(whole);
      KeyIsLastSegment(folder, front);
    } else {
      StripNone(whole);
      SameSegmentBelow(folder, path);
    }
  }

  lemma ListedKey(prefix: string, path: string)
    requires IsFolder(prefix) && IsEventPath(prefix, path)
    ensures StableKey(path) == FirstN(PageName(prefix, path), 200)
  {
    var rest := path[|prefix|..];
    KeyIsLastSegment(prefix, rest);
    assert path == prefix + rest;
  }

  /** **The key of an event page is its name, cut to two hundred characters**: the key forgets trailing and
      doubled slashes, the host, and the rest of a long name. So two listed pages share a key iff the names
      agree in their first two hundred characters. */
  lemma ListedClashIff(prefix: string, a: string, b: string)
    requires IsFolder(prefix) && IsEventPath(prefix, a) && IsEventPath(prefix, b)
    ensures StableKey(a) == FirstN(PageName(prefix, a), 200)
    ensures StableKey(a) == StableKey(b) <==> FirstN(PageName(prefix, a), 200) == FirstN(PageName(prefix, b), 200)
  {
    ListedKey(prefix, a);
    ListedKey(prefix, b);
  }

  lemma {:induction false} NoSegments(path: string)
    ensures Segments(path) == [] <==> path == Slashes(|path|)
    decreases |path|
  {
    if path != "" {
      var n := |path| - 1;
      if path[n] == '/' {
        NoSegments(path[..n]);
        assert path == path[..n] + ['/'];
        assert Slashes(|path|)[..n] == Slashes(n) && Slashes(|path|) == Slashes(n) + ['/'];
      } else {
        assert Slashes(|path|)[n] == '/';
      }
    }
  }

  lemma {:induction false} OneSegmentShape(path: string) returns (before: nat, behind: nat)
    requires |Segments(path)| == 1
    ensures path == Slashes(before) + Segments(path)[0] + Slashes(behind)
    decreases |path|
  {
    var n := |path| - 1;
    if path[n] == '/' {
      var rest;
      before, rest := OneSegmentShape(path[..n]);
      behind := rest + 1;
      assert path == path[..n] + ['/'];
      assert Slashes(behind) == Slashes(rest) + ['/'];
    } else {
      var front := path[..|path| - |LastSegment(path)|];
      NoSegments(front);
      LastSegmentIs(path);
      before, behind := |front|, 0;
      assert path == front + LastSegment(path);
    }
  }

  /** So two different listed paths with one name differ only in their slashes. */
  lemma ListedShape(prefix: string, path: string) returns (before: nat, behind: nat)
    requires IsEventPath(prefix, path)
    ensures path == prefix + Slashes(before) + PageName(prefix, path) + Slashes(behind)
  {
    before, behind := OneSegmentShape(path[|prefix|..]);
    assert path == prefix + path[|prefix|..];
  }

  lemma {:induction false} PageNamed(name: string, behind: nat)
    requires name != "" && forall i :: 0 <= i < |name| ==> name[i] != '/'
    ensures Segments(name + Slashes(behind)) == [name]
  {
    var path := name + Slashes(behind);
    if behind == 0 {
      assert path == name && "" + name == name;
      SegmentFound("", name);
      assert path[..|path| - |LastSegment(path)|] == "";
    } else {
      assert path[..|path| - 1] == name + Slashes(behind - 1);
      PageNamed(name, behind - 1);
    }
  }

  /** However many slashes follow its name, a page under the prefix passes the filter. */
  lemma SlashesPass(prefix: string, name: string, behind: nat)
    requires name != "" && forall i :: 0 <= i < |name| ==> name[i] != '/'
    ensures IsEventPath(prefix, prefix + name + Slashes(behind))
    ensures PageName(prefix, prefix + name + Slashes(behind)) == name
  {
    PageNamed(name, behind);
    assert (prefix + name + Slashes(behind))[|prefix|..] == name + Slashes(behind);
  }

  /** A page listed with and without trailing slashes: both pass the filter, under one key. */
  lemma SlashesShareKey(prefix: string, name: string, behind: nat)
    requires IsFolder(prefix) && name != "" && forall i :: 0 <= i < |name| ==> name[i] != '/'
    ensures StableKey(prefix + name + Slashes(behind)) == StableKey(prefix + name + Slashes(0))
  {
    SlashesPass(prefix, name, behind);
    SlashesPass(prefix, name, 0);
    ListedClashIff(prefix, prefix + name + Slashes(behind), prefix + name + Slashes(0));
  }
}
