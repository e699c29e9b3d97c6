/** Filtering and Python's stable list sort, generic over the element type and
    the order. `list.sort(key=k)` compares keys only and keeps equal-key
    elements in their original order; insertion sort does exactly the same. */
module Sorting {

  /** The elements of s satisfying f, in order (a list comprehension with `if`). */
  function Filter<T>(s: seq<T>, f: T -> bool): (r: seq<T>)
    ensures |r| <= |s|
    ensures forall k :: 0 <= k < |r| ==> f(r[k])
  {
    if s == [] then [] else (if f(s[0]) then [s[0]] else []) + Filter(s[1..], f)
  }

  /** Filter keeps exactly the elements satisfying f. */
  lemma {:induction false} FilterMembers<T>(s: seq<T>, f: T -> bool, x: T)
    ensures x in Filter(s, f) <==> x in s && f(x)
    decreases |s|
  {
    if s != [] {
      FilterMembers(s[1..], f, x);
      assert x in s <==> x == s[0] || x in s[1..];
    }
  }

  lemma {:induction false} FilterConcat<T>(a: seq<T>, b: seq<T>, f: T -> bool)
    ensures Filter(a + b, f) == Filter(a, f) + Filter(b, f)
    decreases |a|
  {
    if a == [] {
      assert a + b == b;
    } else {
      assert (a + b)[1..] == a[1..] + b;
      FilterConcat(a[1..], b, f);
    }
  }

  lemma AppendAssoc<T>(a: seq<T>, b: seq<T>, c: seq<T>)
    ensures a + b + c == a + (b + c)
  {
  }

  /** Filtering the prefix and the last element separately. */
  lemma FilterSnoc<T>(s: seq<T>, x: T, f: T -> bool)
    ensures Filter(s + [x], f) == Filter(s, f) + (if f(x) then [x] else [])
  {
    FilterConcat(s, [x], f);
  }

  /** Filtering keeps a list whose every element passes. */
  lemma {:induction false} FilterAll<T>(s: seq<T>, f: T -> bool)
    requires forall k :: 0 <= k < |s| ==> f(s[k])
    ensures Filter(s, f) == s
    decreases |s|
  {
    if s != [] {
      FilterAll(s[1..], f);
    }
  }

  /** Python's list.remove: the first occurrence of x is deleted. */
  function RemoveFirst<T(==)>(s: seq<T>, x: T): (r: seq<T>)
    requires x in s
    ensures multiset(r) == multiset(s) - multiset{x}
    ensures |r| == |s| - 1
  {
    assert s == [s[0]] + s[1..];
    if s[0] == x then s[1..]
    else [s[0]] + RemoveFirst(s[1..], x)
  }

  ghost predicate TotalPreorder<T(!new)>(le: (T, T) -> bool)
  {
    (forall a, b :: le(a, b) || le(b, a)) &&
    (forall a, b, c :: le(a, b) && le(b, c) ==> le(a, c))
  }

  predicate SortedBy<T>(s: seq<T>, le: (T, T) -> bool)
  {
    forall i, j :: 0 <= i < j < |s| ==> le(s[i], s[j])
  }

  /** Puts x after every element not above it. */
  function Insert<T>(x: T, s: seq<T>, le: (T, T) -> bool): (r: seq<T>)
    ensures multiset(r) == multiset(s) + multiset{x}
    ensures |r| == |s| + 1
  {
    if s == [] || !le(s[0], x) then [x] + s
    else
      assert s == [s[0]] + s[1..];
      [s[0]] + Insert(x, s[1..], le)
  }

  /** The sorted list, later elements inserted after earlier ones they tie with. */
  function SortBy<T>(s: seq<T>, le: (T, T) -> bool): (r: seq<T>)
    ensures multiset(r) == multiset(s)
    ensures |r| == |s|
  {
    if s == [] then []
    else
      assert s == s[..|s| - 1] + [s[|s| - 1]];
      Insert(s[|s| - 1], SortBy(s[..|s| - 1], le), le)
  }

  lemma {:induction false} InsertSorted<T(!new)>(x: T, s: seq<T>, le: (T, T) -> bool)
    requires TotalPreorder(le) && SortedBy(s, le)
    ensures SortedBy(Insert(x, s, le), le)
    decreases |s|
  {
    if s != [] && le(s[0], x) {
      InsertSorted(x, s[1..], le);
      var r := Insert(x, s[1..], le);
      forall k | 0 <= k < |r|
        ensures le(s[0], r[k])
      {
        assert r[k] in multiset(s[1..]) + multiset{x};
        if r[k] != x {
          assert r[k] in s[1..];
        }
      }
    }
  }

  /** The result of the sort is ordered. */
  lemma {:induction false} SortBySorted<T(!new)>(s: seq<T>, le: (T, T) -> bool)
    requires TotalPreorder(le)
    ensures SortedBy(SortBy(s, le), le)
    decreases |s|
  {
    if s != [] {
      SortBySorted(s[..|s| - 1], le);
      InsertSorted(s[|s| - 1], SortBy(s[..|s| - 1], le), le);
    }
  }

  predicate Ties<T>(le: (T, T) -> bool, a: T, b: T)
  {
    le(a, b) && le(b, a)
  }

  /** In a sorted list whose head is above x, nothing ties with x. */
  lemma {:induction false} AboveHeadNoTie<T(!new)>(x: T, s: seq<T>, le: (T, T) -> bool, y: T)
    requires TotalPreorder(le) && SortedBy(s, le) && s != [] && !le(s[0], x) && Ties(le, x, y)
    ensures Filter(s, z => Ties(le, z, y)) == []
    decreases |s|
  {
    assert !Ties(le, s[0], y);
    if |s| > 1 {
      assert le(s[0], s[1]);
      assert !le(s[1], x);
      AboveHeadNoTie(x, s[1..], le, y);
    }
  }

  lemma {:induction false} InsertStable<T(!new)>(x: T, s: seq<T>, le: (T, T) -> bool, y: T)
    requires TotalPreorder(le) && SortedBy(s, le)
    ensures Filter(Insert(x, s, le), z => Ties(le, z, y)) ==
            Filter(s, z => Ties(le, z, y)) + (if Ties(le, x, y) then [x] else [])
    decreases |s|
  {
    var f := z => Ties(le, z, y);
    var last := if Ties(le, x, y) then [x] else [];
    if s == [] {
      assert Insert(x, s, le) == [x] + [];
    } else if !le(s[0], x) {
      FilterConcat([x], s, f);
      if Ties(le, x, y) {
        AboveHeadNoTie(x, s, le, y);
      } else {
        assert Filter(s, f) + [] == Filter(s, f);
      }
    } else {
      var head := if f(s[0]) then [s[0]] else [];
      InsertStable(x, s[1..], le, y);
      FilterInsertHead(x, s, le, f);
      AppendAssoc(head, Filter(s[1..], f), last);
    }
  }

  /** Inserting behind the head leaves the head where filtering finds it. */
  lemma FilterInsertHead<T>(x: T, s: seq<T>, le: (T, T) -> bool, f: T -> bool)
    requires s != [] && le(s[0], x)
    ensures Filter(Insert(x, s, le), f) == (if f(s[0]) then [s[0]] else []) + Filter(Insert(x, s[1..], le), f)
    ensures Filter(s, f) == (if f(s[0]) then [s[0]] else []) + Filter(s[1..], f)
  {
    assert ([s[0]] + Insert(x, s[1..], le))[1..] == Insert(x, s[1..], le);
  }

  /** Stability: the elements tying with any y keep their original order. */
  lemma {:induction false} SortByStable<T(!new)>(s: seq<T>, le: (T, T) -> bool, y: T)
    requires TotalPreorder(le)
    ensures Filter(SortBy(s, le), z => Ties(le, z, y)) == Filter(s, z => Ties(le, z, y))
    decreases |s|
  {
    if s != [] {
      var p := s[..|s| - 1];
      SortByStable(p, le, y);
      SortBySorted(p, le);
      InsertStable(s[|s| - 1], SortBy(p, le), le, y);
      FilterSnoc(p, s[|s| - 1], z => Ties(le, z, y));
      assert p + [s[|s| - 1]] == s;
    }
  }
}
