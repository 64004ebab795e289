/** Array#sort and Array#filter: a stable sort by an integer key, and what the models need of it. */
module Sorting {
  import opened Basics

  predicate SortedBy<T>(s: seq<T>, key: T -> int) {
    forall i, j :: 0 <= i < j < |s| ==> key(s[i]) <= key(s[j])
  }

  // Before the first element whose key is not smaller: earlier elements stay ahead of their equals.
  function Insert<T>(x: T, s: seq<T>, key: T -> int): (r: seq<T>)
    ensures multiset(r) == multiset{x} + multiset(s)
    ensures |r| == |s| + 1
  {
    if s == [] then [x]
    else if key(x) <= key(s[0]) then [x] + s
    else
      assert s == [s[0]] + s[1..];
      [s[0]] + Insert(x, s[1..], key)
  }

  function SortBy<T>(s: seq<T>, key: T -> int): (r: seq<T>)
    ensures multiset(r) == multiset(s)
    ensures |r| == |s|
  {
    if s == [] then []
    else
      assert s == [s[0]] + s[1..];
      Insert(s[0], SortBy(s[1..], key), key)
  }

  function Filter<T>(s: seq<T>, p: T -> bool): (r: seq<T>)
    ensures |r| <= |s|
  {
    if s == [] then []
    else (if p(s[0]) then [s[0]] else []) + Filter(s[1..], p)
  }

  lemma {:induction false} InsertSorted<T>(x: T, s: seq<T>, key: T -> int)
    requires SortedBy(s, key)
    ensures SortedBy(Insert(x, s, key), key)
  {
    if s != [] && key(x) > key(s[0]) {
      InsertSorted(x, s[1..], key);
      var r := Insert(x, s[1..], key);
      forall i | 0 <= i < |r| ensures key(s[0]) <= key(r[i]) {
        assert r[i] in multiset(r);
        if r[i] != x { assert r[i] in s[1..]; }
      }
    }
  }

  lemma {:induction false} SortBySorts<T>(s: seq<T>, key: T -> int)
    ensures SortedBy(SortBy(s, key), key)
  {
    if s != [] {
      SortBySorts(s[1..], key);
      InsertSorted(s[0], SortBy(s[1..], key), key);
    }
  }

  // Sorting what is sorted changes nothing.
  lemma {:induction false} SortedIsFixed<T>(s: seq<T>, key: T -> int)
    requires SortedBy(s, key)
    ensures SortBy(s, key) == s
  {
    if s != [] {
      SortedIsFixed(s[1..], key);
      assert |s| > 1 ==> key(s[0]) <= key(s[1]);
    }
  }

  lemma SameElements<T>(a: seq<T>, b: seq<T>, x: T)
    requires multiset(a) == multiset(b)
    ensures x in a <==> x in b
  {
    assert x in a <==> x in multiset(a);
    assert x in b <==> x in multiset(b);
  }

  lemma TailMultiset<T>(s: seq<T>)
    requires s != []
    ensures multiset(s[1..]) == multiset(s) - multiset{s[0]}
  {
    assert s == [s[0]] + s[1..];
  }

  // No two elements share a key.
  ghost predicate NoTies<T>(s: seq<T>, key: T -> int) {
    forall x, y :: x in s && y in s && key(x) == key(y) ==> x == y
  }

  lemma SameFirst<T>(a: seq<T>, b: seq<T>, key: T -> int)
    requires SortedBy(a, key) && SortedBy(b, key) && multiset(a) == multiset(b) && a != [] && NoTies(a, key)
    ensures b != [] && a[0] == b[0]
  {
    assert |b| == |multiset(b)| == |multiset(a)| == |a|;
    SameElements(a, b, a[0]);
    SameElements(a, b, b[0]);
    assert key(a[0]) <= key(b[0]) <= key(a[0]);
  }

  lemma SortedTail<T>(s: seq<T>, key: T -> int)
    requires s != [] && SortedBy(s, key) && NoTies(s, key)
    ensures SortedBy(s[1..], key) && NoTies(s[1..], key)
  {
    assert forall x :: x in s[1..] ==> x in s;
  }

  lemma NoTiesEither<T>(a: seq<T>, b: seq<T>, key: T -> int)
    requires multiset(a) == multiset(b) && NoTies(a, key)
    ensures NoTies(b, key)
  {
    forall x | x in b ensures x in a { SameElements(a, b, x); }
  }

  // Two sorted arrangements of the same elements are equal when no two elements share a key.
  lemma {:induction false} SortedIsUnique<T>(a: seq<T>, b: seq<T>, key: T -> int)
    requires SortedBy(a, key) && SortedBy(b, key) && multiset(a) == multiset(b) && NoTies(a, key)
    ensures a == b
  {
    if a == [] {
      assert |b| == |multiset(b)| == |multiset(a)| == 0;
    } else {
      SameFirst(a, b, key);
      TailMultiset(a);
      TailMultiset(b);
      NoTiesEither(a, b, key);
      SortedTail(a, key);
      SortedTail(b, key);
      SortedIsUnique(a[1..], b[1..], key);
      SameHeadSameTail(a, b);
    }
  }

  lemma SameHeadSameTail<T>(a: seq<T>, b: seq<T>)
    requires a != [] && b != [] && a[0] == b[0] && a[1..] == b[1..]
    ensures a == b
  {
    assert a == [a[0]] + a[1..] && b == [b[0]] + b[1..];
  }

  lemma {:induction false} FilterMembers<T>(s: seq<T>, p: T -> bool, x: T)
    ensures x in Filter(s, p) <==> x in s && p(x)
  {
    if s != [] {
      FilterMembers(s[1..], p, x);
      assert s == [s[0]] + s[1..];
    }
  }

  lemma FilterFirst<T>(s: seq<T>, p: T -> bool)
    requires s != []
    ensures Filter(s, p) == (if p(s[0]) then [s[0]] else []) + Filter(s[1..], p)
  {
  }

  lemma Regroup<T>(a: seq<T>, b: seq<T>, c: seq<T>)
    ensures a + (b + c) == (a + b) + c
  {
  }

  lemma {:induction false} FilterConcat<T>(a: seq<T>, b: seq<T>, p: T -> bool)
    ensures Filter(a + b, p) == Filter(a, p) + Filter(b, p)
  {
    if a == [] {
      assert a + b == b;
    } else {
      var all, head := a + b, if p(a[0]) then [a[0]] else [];
      assert all[0] == a[0] && all[1..] == a[1..] + b;
      FilterConcat(a[1..], b, p);
      FilterFirst(a, p);
      FilterFirst(all, p);
      Regroup(head, Filter(a[1..], p), Filter(b, p));
    }
  }

  // A filtered sorted sequence is sorted.
  lemma {:induction false} FilterSorted<T>(s: seq<T>, p: T -> bool, key: T -> int)
    requires SortedBy(s, key)
    ensures SortedBy(Filter(s, p), key)
  {
    if s != [] {
      FilterSorted(s[1..], p, key);
      var r := Filter(s[1..], p);
      forall i | 0 <= i < |r| ensures key(s[0]) <= key(r[i]) {
        assert r[i] in r;
        FilterMembers(s[1..], p, r[i]);
        var j :| 0 <= j < |s[1..]| && s[1..][j] == r[i];
        assert s[j + 1] == r[i];
      }
    }
  }

  lemma FilterMultiset<T(!new)>(a: seq<T>, b: seq<T>, p: T -> bool)
    requires multiset(a) == multiset(b)
    ensures multiset(Filter(a, p)) == multiset(Filter(b, p))
  {
    var ma, mb := multiset(Filter(a, p)), multiset(Filter(b, p));
    forall x: T ensures ma[x] == mb[x] {
      FilterCount(a, p, x);
      FilterCount(b, p, x);
    }
    assert ma == mb;
  }

  lemma {:induction false} FilterCount<T>(s: seq<T>, p: T -> bool, x: T)
    ensures multiset(Filter(s, p))[x] == if p(x) then multiset(s)[x] else 0
  {
    if s != [] {
      FilterCount(s[1..], p, x);
      assert s == [s[0]] + s[1..];
    }
  }

  // ----------------------------------------------------------------- positions ---

  predicate Rising(at: seq<nat>, bound: nat) {
    (forall k :: 0 <= k < |at| ==> at[k] < bound) && (forall k, l :: 0 <= k < l < |at| ==> at[k] < at[l])
  }

  ghost predicate ItemsAt<T>(r: seq<T>, s: seq<T>, at: seq<nat>) {
    |at| == |r| && forall k :: 0 <= k < |at| ==> at[k] < |s| && r[k] == s[at[k]]
  }

  // The items of s at these positions, which rise.
  ghost predicate Picks<T>(r: seq<T>, s: seq<T>, at: seq<nat>) { ItemsAt(r, s, at) && Rising(at, |s|) }

  // The positions of s that p holds at.
  function Positions<T>(s: seq<T>, p: T -> bool): seq<nat> {
    if s == [] then []
    else
      var n := |s| - 1;
      if p(s[n]) then Positions(s[..n], p) + [n] else Positions(s[..n], p)
  }

  lemma {:induction false} PositionsMark<T>(s: seq<T>, p: T -> bool, i: nat)
    ensures i in Positions(s, p) <==> i < |s| && p(s[i])
  {
    if s != [] {
      PositionsMark(s[..|s| - 1], p, i);
    }
  }

  lemma {:induction false} PositionsRise<T>(s: seq<T>, p: T -> bool)
    ensures Rising(Positions(s, p), |s|)
  {
    if s != [] {
      PositionsRise(s[..|s| - 1], p);
    }
  }

  lemma FilterOne<T>(one: seq<T>, p: T -> bool)
    requires |one| == 1
    ensures Filter(one, p) == if p(one[0]) then one else []
  {
    assert one[1..] == [] && one == [one[0]];
  }

  lemma FilterOneMore<T>(init: seq<T>, p: T -> bool, one: seq<T>)
    requires |one| == 1
    ensures Filter(init + one, p) == if p(one[0]) then Filter(init, p) + one else Filter(init, p)
  {
    FilterConcat(init, one, p);
    FilterOne(one, p);
    assert Filter(init, p) + [] == Filter(init, p);
  }

  lemma FilterLast<T>(s: seq<T>, p: T -> bool)
    requires s != []
    ensures var n := |s| - 1;
      Filter(s, p) == if p(s[n]) then Filter(s[..n], p) + s[n..] else Filter(s[..n], p)
  {
    FilterOneMore(s[..|s| - 1], p, s[|s| - 1..]);
    assert s == s[..|s| - 1] + s[|s| - 1..];
  }

  lemma {:induction false} PositionsPick<T>(s: seq<T>, p: T -> bool)
    ensures ItemsAt(Filter(s, p), s, Positions(s, p))
  {
    if s != [] {
      PositionsPick(s[..|s| - 1], p);
      FilterLast(s, p);
    }
  }

  lemma FilterPositions<T>(s: seq<T>, p: T -> bool) returns (at: seq<nat>)
    ensures Picks(Filter(s, p), s, at)
    ensures forall i: nat :: i in at <==> i < |s| && p(s[i])
  {
    at := Positions(s, p);
    PositionsPick(s, p);
    PositionsRise(s, p);
    forall i: nat ensures i in at <==> i < |s| && p(s[i]) { PositionsMark(s, p, i); }
  }

  lemma {:induction false} FilterAgrees<T>(s: seq<T>, p: T -> bool, q: T -> bool)
    requires forall x :: x in s ==> p(x) == q(x)
    ensures Filter(s, p) == Filter(s, q)
  {
    if s != [] {
      assert s[0] in s && forall x :: x in s[1..] ==> x in s;
      FilterAgrees(s[1..], p, q);
    }
  }

  lemma {:induction false} AllPass<T>(s: seq<T>, p: T -> bool)
    requires forall i :: 0 <= i < |s| ==> p(s[i])
    ensures Filter(s, p) == s
  {
    if s != [] { AllPass(s[1..], p); }
  }

  lemma {:induction false} FilterTwice<T>(s: seq<T>, p: T -> bool, q: T -> bool, both: T -> bool)
    requires forall x :: x in s ==> (both(x) <==> p(x) && q(x))
    ensures Filter(Filter(s, p), q) == Filter(s, both)
  {
    if s != [] {
      var rest := Filter(s[1..], p);
      assert s[0] in s && forall x :: x in s[1..] ==> x in s;
      FilterTwice(s[1..], p, q, both);
      if p(s[0]) {
        assert Filter(s, p) == [s[0]] + rest && ([s[0]] + rest)[1..] == rest;
      } else {
        assert Filter(s, p) == rest;
      }
    }
  }
}
