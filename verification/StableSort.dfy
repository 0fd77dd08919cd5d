// Array.prototype.sort as the client code relies on it: a stable sort driven by a
// comparator. `le(x, y)` stands for `compare(x, y) <= 0`. A comparator that is not a
// total preorder on the rows has no ordered arrangement at all, so every result about
// order names the rows on which the comparator is consistent.
module StableSort {

  ghost predicate Ordered<T(!new)>(le: (T, T) -> bool, s: seq<T>) {
    forall i, j :: 0 <= i < j < |s| ==> le(s[i], s[j])
  }

  ghost predicate PreorderOn<T(!new)>(le: (T, T) -> bool, s: seq<T>) {
    && (forall x, y :: x in s && y in s ==> le(x, y) || le(y, x))
    && (forall x, y, z :: x in s && y in s && z in s && le(x, y) && le(y, z) ==> le(x, z))
  }

  ghost predicate AntisymmetricOn<T(!new)>(le: (T, T) -> bool, s: seq<T>) {
    forall x, y :: x in s && y in s && le(x, y) && le(y, x) ==> x == y
  }

  predicate Distinct<T(==)>(s: seq<T>) {
    forall i, j :: 0 <= i < j < |s| ==> s[i] != s[j]
  }

  // `x` stood before every element of `s` in the input, so it stays before equal ones.
  function Insert<T>(le: (T, T) -> bool, x: T, s: seq<T>): (r: seq<T>)
    ensures multiset(r) == multiset(s) + multiset{x}
  {
    if s == [] then [x]
    else if le(x, s[0]) then [x] + s
    else
      assert s == [s[0]] + s[1..];
      [s[0]] + Insert(le, x, s[1..])
  }

  function Sort<T>(le: (T, T) -> bool, s: seq<T>): (r: seq<T>)
    ensures multiset(r) == multiset(s)
  {
    if s == [] then []
    else
      assert s == [s[0]] + s[1..];
      Insert(le, s[0], Sort(le, s[1..]))
  }

  lemma SameMultisetSameElements<T>(a: seq<T>, b: seq<T>)
    requires multiset(a) == multiset(b)
    ensures |a| == |b|
    ensures forall x :: x in a <==> x in b
  {
    assert |multiset(a)| == |multiset(b)|;
    forall x ensures x in a <==> x in b {
      assert x in a <==> x in multiset(a);
      assert x in b <==> x in multiset(b);
    }
  }

  lemma SortKeepsElements<T>(le: (T, T) -> bool, s: seq<T>)
    ensures |Sort(le, s)| == |s|
    ensures forall x :: x in Sort(le, s) <==> x in s
  {
    SameMultisetSameElements(Sort(le, s), s);
  }

  lemma FirstIsLeast<T(!new)>(le: (T, T) -> bool, first: T, s: seq<T>)
    requires Ordered(le, s) && forall y :: y in s ==> le(first, y)
    ensures Ordered(le, [first] + s)
  {
    assert forall j :: 0 <= j < |s| ==> s[j] in s;
  }

  lemma InsertedBehind<T(!new)>(le: (T, T) -> bool, x: T, s: seq<T>, all: seq<T>)
    requires PreorderOn(le, all) && x in all && forall y :: y in s ==> y in all
    requires Ordered(le, s) && s != [] && !le(x, s[0])
    ensures forall y :: y in Insert(le, x, s[1..]) ==> le(s[0], y)
  {
    SameMultisetSameElements(Insert(le, x, s[1..]), [x] + s[1..]);
    assert s[0] in all;
    forall y | y in s[1..] ensures le(s[0], y) {
      var k :| 0 <= k < |s[1..]| && s[1..][k] == y;
      assert y == s[k + 1];
    }
  }

  lemma {:induction false} InsertOrders<T(!new)>(le: (T, T) -> bool, x: T, s: seq<T>, all: seq<T>)
    requires PreorderOn(le, all) && x in all
    requires forall y :: y in s ==> y in all
    requires Ordered(le, s)
    ensures Ordered(le, Insert(le, x, s))
  {
    if s != [] && !le(x, s[0]) {
      InsertOrders(le, x, s[1..], all);
      InsertedBehind(le, x, s, all);
      FirstIsLeast(le, s[0], Insert(le, x, s[1..]));
    } else if s != [] {
      assert s[0] in all;
      forall y | y in s ensures le(x, y) {
        var j :| 0 <= j < |s| && s[j] == y;
        assert j > 0 ==> le(s[0], s[j]);
      }
      FirstIsLeast(le, x, s);
    }
  }

  lemma {:induction false} SortSubsetOrders<T(!new)>(le: (T, T) -> bool, s: seq<T>, all: seq<T>)
    requires PreorderOn(le, all)
    requires forall y :: y in s ==> y in all
    ensures Ordered(le, Sort(le, s))
  {
    if s != [] {
      SortSubsetOrders(le, s[1..], all);
      SortKeepsElements(le, s[1..]);
      InsertOrders(le, s[0], Sort(le, s[1..]), all);
    }
  }

  lemma SortOrders<T(!new)>(le: (T, T) -> bool, s: seq<T>)
    requires PreorderOn(le, s)
    ensures Ordered(le, Sort(le, s))
  {
    SortSubsetOrders(le, s, s);
  }

  // Stability shows here: rows that already stand in order, ties included, stay put.
  lemma {:induction false} SortFixesOrdered<T(!new)>(le: (T, T) -> bool, s: seq<T>)
    requires Ordered(le, s)
    ensures Sort(le, s) == s
  {
    if s != [] {
      SortFixesOrdered(le, s[1..]);
      assert s == [s[0]] + s[1..];
      if |s| > 1 { assert s[1] == s[1..][0]; }
    }
  }

  // An ordered arrangement of distinct rows is determined by which rows there are.
  lemma {:induction false} OrderedArrangementIsUnique<T(!new)>(le: (T, T) -> bool, a: seq<T>, b: seq<T>)
    requires Ordered(le, a) && Ordered(le, b)
    requires Distinct(a) && Distinct(b)
    requires forall x :: x in a <==> x in b
    requires AntisymmetricOn(le, a)
    ensures a == b
  {
    assert b != [] ==> b[0] in b;
    if a != [] {
      assert a[0] in a && a[0] in b;
      var i :| 0 <= i < |b| && b[i] == a[0];
      var j :| 0 <= j < |a| && a[j] == b[0];
      assert a[0] == b[0];
      forall x ensures x in a[1..] <==> x in b[1..] {
        DistinctTail(a, x);
        DistinctTail(b, x);
      }
      assert AntisymmetricOn(le, a[1..]) by {
        assert forall x :: x in a[1..] ==> x in a;
      }
      OrderedArrangementIsUnique(le, a[1..], b[1..]);
      assert a == [a[0]] + a[1..] && b == [b[0]] + b[1..];
    }
  }

  lemma DistinctTail<T>(s: seq<T>, x: T)
    requires s != [] && Distinct(s)
    ensures x in s[1..] <==> x in s && x != s[0]
  {
    if x in s && x != s[0] {
      var k :| 0 <= k < |s| && s[k] == x;
      assert s[1..][k - 1] == x;
    }
  }

  lemma CountTwice<T>(b: seq<T>, i: nat, j: nat)
    requires i < j < |b| && b[i] == b[j]
    ensures multiset(b)[b[i]] >= 2
  {
    assert b == b[..i] + [b[i]] + b[i + 1..j] + [b[j]] + b[j + 1..];
  }

  lemma {:induction false} DistinctCountsOnce<T>(a: seq<T>, x: T)
    requires Distinct(a)
    ensures multiset(a)[x] <= 1
  {
    if a != [] {
      assert a == [a[0]] + a[1..];
      DistinctCountsOnce(a[1..], x);
      DistinctTail(a, a[0]);
    }
  }

  lemma PermutedDistinct<T>(a: seq<T>, b: seq<T>)
    requires multiset(a) == multiset(b) && Distinct(a)
    ensures Distinct(b)
  {
    forall i, j | 0 <= i < j < |b| ensures b[i] != b[j] {
      DistinctCountsOnce(a, b[i]);
      if b[i] == b[j] { CountTwice(b, i, j); }
    }
  }

  // Without ties the order of the input does not matter.
  lemma SortIgnoresInputOrder<T(!new)>(le: (T, T) -> bool, a: seq<T>, b: seq<T>)
    requires multiset(a) == multiset(b) && Distinct(a)
    requires PreorderOn(le, a) && AntisymmetricOn(le, a)
    ensures Sort(le, a) == Sort(le, b)
  {
    SameMultisetSameElements(a, b);
    SortKeepsElements(le, a);
    SortKeepsElements(le, b);
    PermutedDistinct(a, Sort(le, a));
    PermutedDistinct(a, Sort(le, b));
    SortSubsetOrders(le, a, a);
    SortSubsetOrders(le, b, a);
    OrderedArrangementIsUnique(le, Sort(le, a), Sort(le, b));
  }
}
