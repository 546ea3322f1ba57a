/** The library `sorted` the repository leans on: a stable insertion sort, and the
    facts every ranking argument needs about it. */
module Sorting {
  import opened Basics

  ghost predicate TotalOrder<T(!new)>(le: (T, T) -> bool) {
    && (forall a, b :: le(a, b) || le(b, a))
    && (forall a, b, c :: le(a, b) && le(b, c) ==> le(a, c))
  }

  ghost predicate Ordered<T>(s: seq<T>, le: (T, T) -> bool) {
    forall i, j :: 0 <= i < j < |s| ==> le(s[i], s[j])
  }

  /** The order separates the members of `s`: a tie means the same member. */
  ghost predicate Separates<T>(s: seq<T>, le: (T, T) -> bool) {
    forall a, b :: a in s && b in s && le(a, b) && le(b, a) ==> a == b
  }

  function Insert<T>(x: T, s: seq<T>, le: (T, T) -> bool): (r: seq<T>)
    ensures |r| == |s| + 1
  {
    if s == [] || le(x, s[0]) then [x] + s else [s[0]] + Insert(x, s[1..], le)
  }

  function Sort<T>(s: seq<T>, le: (T, T) -> bool): (r: seq<T>)
    ensures |r| == |s|
  {
    if s == [] then [] else Insert(s[0], Sort(s[1..], le), le)
  }

  lemma {:induction false} InsertKeepsMembers<T>(x: T, s: seq<T>, le: (T, T) -> bool)
    ensures multiset(Insert(x, s, le)) == multiset(s) + multiset{x}
  {
    if s == [] || le(x, s[0]) {
    } else {
      InsertKeepsMembers(x, s[1..], le);
      assert s == [s[0]] + s[1..];
    }
  }

  lemma {:induction false} InsertOrders<T(!new)>(x: T, s: seq<T>, le: (T, T) -> bool)
    requires TotalOrder(le) && Ordered(s, le)
    ensures Ordered(Insert(x, s, le), le)
  {
    if s == [] || le(x, s[0]) {
    } else {
      var rest := Insert(x, s[1..], le);
      InsertOrders(x, s[1..], le);
      InsertKeepsMembers(x, s[1..], le);
      forall j | 0 <= j < |rest| ensures le(s[0], rest[j]) {
        assert rest[j] in multiset(rest);
        assert rest[j] == x || rest[j] in s[1..];
      }
    }
  }

  /** `sorted` returns the same members in non-decreasing order. */
  lemma {:induction false} SortSorts<T(!new)>(s: seq<T>, le: (T, T) -> bool)
    requires TotalOrder(le)
    ensures Ordered(Sort(s, le), le)
    ensures multiset(Sort(s, le)) == multiset(s)
  {
    if s != [] {
      SortSorts(s[1..], le);
      InsertOrders(s[0], Sort(s[1..], le), le);
      InsertKeepsMembers(s[0], Sort(s[1..], le), le);
      assert s == [s[0]] + s[1..];
    }
  }

  /** A sequence already in order is left alone. */
  lemma {:induction false} SortOfOrdered<T>(s: seq<T>, le: (T, T) -> bool)
    requires Ordered(s, le)
    ensures Sort(s, le) == s
  {
    if s != [] {
      SortOfOrdered(s[1..], le);
      assert s == [s[0]] + s[1..];
      if |s| > 1 { assert s[1..][0] == s[1]; }
    }
  }

  lemma SameMembers<T>(s: seq<T>, t: seq<T>, x: T)
    requires multiset(s) == multiset(t)
    ensures x in s <==> x in t
    ensures |s| == |t|
  {
    assert x in s <==> x in multiset(s);
    assert |multiset(s)| == |s| && |multiset(t)| == |t|;
  }

  lemma TailMembers<T(!new)>(s: seq<T>)
    requires s != []
    ensures multiset(s[1..]) == multiset(s) - multiset{s[0]}
    ensures forall a :: a in s[1..] ==> a in s
  {
    assert s == [s[0]] + s[1..];
  }

  lemma HeadsAgree<T>(s: seq<T>, t: seq<T>, le: (T, T) -> bool)
    requires s != [] && t != [] && s[0] in t && t[0] in s
    requires Ordered(s, le) && Ordered(t, le) && Separates(s, le)
    ensures s[0] == t[0]
  {
    var i :| 0 <= i < |s| && s[i] == t[0];
    var j :| 0 <= j < |t| && t[j] == s[0];
    if i != 0 && j != 0 {
      assert le(s[0], s[i]) && le(t[0], t[j]);
    }
  }

  lemma {:induction false} OrderedUnique<T(!new)>(s: seq<T>, t: seq<T>, le: (T, T) -> bool)
    requires multiset(s) == multiset(t)
    requires Ordered(s, le) && Ordered(t, le)
    requires Separates(s, le)
    ensures s == t
  {
    if s == [] {
      assert |t| == |multiset(t)|;
    } else {
      SameMembers(s, t, s[0]);
      SameMembers(s, t, t[0]);
      HeadsAgree(s, t, le);
      TailMembers(s);
      TailMembers(t);
      OrderedUnique(s[1..], t[1..], le);
      assert s == [s[0]] + s[1..] && t == [t[0]] + t[1..];
    }
  }

  /** Where ties mean identity, the order the input arrived in cannot matter. */
  lemma SortIgnoresInputOrder<T(!new)>(s: seq<T>, t: seq<T>, le: (T, T) -> bool)
    requires TotalOrder(le) && multiset(s) == multiset(t) && Separates(s, le)
    ensures Sort(s, le) == Sort(t, le)
  {
    SortSorts(s, le);
    SortSorts(t, le);
    forall x ensures x in s <==> x in Sort(s, le) { SameMembers(s, Sort(s, le), x); }
    OrderedUnique(Sort(s, le), Sort(t, le), le);
  }

  /** No duplicates in, no duplicates out. */
  lemma SortDistinct<T(!new)>(s: seq<T>, le: (T, T) -> bool)
    requires TotalOrder(le) && Distinct(s)
    ensures Distinct(Sort(s, le))
  {
    SortSorts(s, le);
    DistinctByCount(s);
    DistinctByCount(Sort(s, le));
  }

  lemma {:induction false} DistinctByCount<T(!new)>(s: seq<T>)
    ensures Distinct(s) <==> forall x :: multiset(s)[x] <= 1
  {
    if s != [] {
      var rest, last := s[..|s| - 1], s[|s| - 1];
      DistinctByCount(rest);
      assert s == rest + [last];
      assert multiset(s) == multiset(rest) + multiset{last};
      assert last in rest <==> last in multiset(rest);
      assert forall x :: multiset(rest)[x] <= multiset(s)[x];
    }
  }

  /** The head of a ranking beats everything; the second beats everything else. */
  lemma TopTwo<T(!new)>(s: seq<T>, le: (T, T) -> bool)
    requires Ordered(s, le) && Distinct(s)
    ensures s != [] ==> forall x :: x in s && x != s[0] ==> le(s[0], x)
    ensures |s| > 1 ==> s[1] != s[0] && forall x :: x in s && x != s[0] && x != s[1] ==> le(s[1], x)
    ensures |s| == 1 ==> forall x :: x in s ==> x == s[0]
  {
    forall x | x in s && x != s[0] ensures le(s[0], x) {
      var i :| 0 <= i < |s| && s[i] == x;
    }
    if |s| > 1 {
      forall x | x in s && x != s[0] && x != s[1] ensures le(s[1], x) {
        var i :| 0 <= i < |s| && s[i] == x;
      }
    }
  }

  function Filter<T>(s: seq<T>, keep: T -> bool): seq<T> {
    if s == [] then [] else (if keep(s[0]) then [s[0]] else []) + Filter(s[1..], keep)
  }

  lemma {:induction false} FilterKeeps<T(!new)>(s: seq<T>, keep: T -> bool, le: (T, T) -> bool)
    ensures forall x :: x in Filter(s, keep) <==> x in s && keep(x)
    ensures Ordered(s, le) ==> Ordered(Filter(s, keep), le)
    ensures Distinct(s) ==> Distinct(Filter(s, keep))
  {
    if s != [] {
      FilterKeeps(s[1..], keep, le);
      assert forall x :: x in s <==> x == s[0] || x in s[1..];
      if Ordered(s, le) { HeadFirst(s, le); }
      if Distinct(s) { assert s[0] !in s[1..]; }
    }
  }

  lemma HeadFirst<T(!new)>(s: seq<T>, le: (T, T) -> bool)
    requires s != [] && Ordered(s, le)
    ensures Ordered(s[1..], le) && forall x :: x in s[1..] ==> le(s[0], x)
  {
    forall x | x in s[1..] ensures le(s[0], x) {
      var i :| 0 <= i < |s[1..]| && s[1..][i] == x;
      assert s[i + 1] == x;
    }
  }
}
