/** Sorting by a key, as a stable sort does, and what makes the result independent of the order it started from. */
module Sorting {
  import opened Basics

  function Insert<T>(x: T, sorted: seq<T>, key: T -> int): seq<T> {
    if sorted == [] || key(x) <= key(sorted[0]) then [x] + sorted
    else [sorted[0]] + Insert(x, sorted[1..], key)
  }

  function SortBy<T>(items: seq<T>, key: T -> int): seq<T> {
    if items == [] then [] else Insert(items[0], SortBy(items[1..], key), key)
  }

  predicate Sorted<T>(items: seq<T>, key: T -> int) {
    forall i, j | 0 <= i < j < |items| :: key(items[i]) <= key(items[j])
  }

  /** The key tells the items apart: only equal items share one. */
  ghost predicate Tells<T>(items: seq<T>, key: T -> int) {
    forall x, y | x in items && y in items && key(x) == key(y) :: x == y
  }

  lemma {:induction false} InsertElements<T>(x: T, sorted: seq<T>, key: T -> int)
    ensures multiset(Insert(x, sorted, key)) == multiset{x} + multiset(sorted)
    ensures forall y | y in Insert(x, sorted, key) :: y == x || y in sorted
  {
    if sorted != [] {
      assert sorted == [sorted[0]] + sorted[1..];
      if key(x) > key(sorted[0]) {
        InsertElements(x, sorted[1..], key);
      }
    }
  }

  lemma {:induction false} InsertSorts<T>(x: T, sorted: seq<T>, key: T -> int)
    requires Sorted(sorted, key)
    ensures Sorted(Insert(x, sorted, key), key)
  {
    if sorted != [] && key(x) > key(sorted[0]) {
      InsertSorts(x, sorted[1..], key);
      InsertElements(x, sorted[1..], key);
      var rest := Insert(x, sorted[1..], key);
      forall i | 0 <= i < |rest|
        ensures key(sorted[0]) <= key(rest[i])
      {
        assert rest[i] in rest;
      }
    }
  }

  lemma {:induction false} SortSorts<T>(items: seq<T>, key: T -> int)
    ensures Sorted(SortBy(items, key), key)
    ensures multiset(SortBy(items, key)) == multiset(items)
  {
    if items != [] {
      SortSorts(items[1..], key);
      InsertSorts(items[0], SortBy(items[1..], key), key);
      InsertElements(items[0], SortBy(items[1..], key), key);
      assert items == [items[0]] + items[1..];
    }
  }

  lemma {:induction false} SortedUnique<T>(a: seq<T>, b: seq<T>, key: T -> int)
    requires Sorted(a, key) && Sorted(b, key) && multiset(a) == multiset(b) && Tells(a, key)
    ensures a == b
  {
    assert |a| == |multiset(a)| == |multiset(b)| == |b|;
    if a != [] {
      SmallestFirst(a, b, key);
      SmallestFirst(b, a, key);
      assert b[0] in multiset(a);
      MultisetTail(a);
      MultisetTail(b);
      SortedUnique(a[1..], b[1..], key);
    }
  }

  lemma SmallestFirst<T>(a: seq<T>, b: seq<T>, key: T -> int)
    requires a != [] && b != [] && Sorted(a, key) && multiset(a) == multiset(b)
    ensures key(a[0]) <= key(b[0])
  {
    assert b[0] in multiset(a);
    Smallest(a, b[0], key);
  }

  lemma MultisetTail<T>(a: seq<T>)
    requires a != []
    ensures multiset(a[1..]) == multiset(a) - multiset{a[0]}
  {
    assert a == [a[0]] + a[1..];
  }

  /** Sorting is a normal form: it is equal exactly for permutations. */
  lemma SortIsNormalForm<T>(a: seq<T>, b: seq<T>, key: T -> int)
    requires Tells(a, key)
    ensures SortBy(a, key) == SortBy(b, key) <==> multiset(a) == multiset(b)
  {
    SortSorts(a, key);
    SortSorts(b, key);
    if multiset(a) == multiset(b) {
      forall x | x in SortBy(a, key)
        ensures x in a
      {
        assert x in multiset(SortBy(a, key));
      }
      SortedUnique(SortBy(a, key), SortBy(b, key), key);
    }
  }

  lemma SortElements<T>(items: seq<T>, key: T -> int)
    ensures |SortBy(items, key)| == |items|
    ensures forall x :: x in SortBy(items, key) <==> x in items
  {
    SortSorts(items, key);
    assert |SortBy(items, key)| == |multiset(items)| == |items|;
    forall x
      ensures x in SortBy(items, key) <==> x in items
    {
      assert x in multiset(SortBy(items, key)) <==> x in multiset(items);
    }
  }

  // Normal forms of keyed collections

  /** No two items share a key. */
  ghost predicate Distinct<T>(items: seq<T>, key: T -> int) {
    forall i, j | 0 <= i < j < |items| :: key(items[i]) != key(items[j])
  }

  /** Every item of one has a counterpart in the other, up to their normal form. */
  ghost predicate Covers<T, U>(a: seq<T>, b: seq<T>, form: T -> U) {
    forall x | x in a :: Counterpart(x, b, form)
  }

  ghost predicate Counterpart<T, U>(x: T, b: seq<T>, form: T -> U) {
    exists y :: y in b && form(x) == form(y)
  }

  /** The normal form still has the item's key. */
  ghost predicate Keeps<T, U>(items: seq<T>, key: T -> int, form: T -> U, kept: U -> int) {
    forall x | x in items :: kept(form(x)) == key(x)
  }

  lemma DistinctTells<T>(items: seq<T>, key: T -> int)
    requires Distinct(items, key)
    ensures Tells(items, key)
  {
  }

  lemma {:induction false} DistinctStays<T>(items: seq<T>, key: T -> int)
    requires Distinct(items, key)
    ensures Distinct(SortBy(items, key), key)
  {
    if items != [] {
      var rest, tail := SortBy(items[1..], key), items[1..];
      DistinctStays(tail, key);
      SortSorts(tail, key);
      forall i | 0 <= i < |rest|
        ensures key(rest[i]) != key(items[0])
      {
        var x := rest[i];
        assert x in multiset(rest) && x in multiset(tail);
        var j :| 0 <= j < |tail| && tail[j] == x;
        assert items[j + 1] == x;
      }
      InsertDistinct(items[0], rest, key);
    }
  }

  lemma {:induction false} InsertDistinct<T>(x: T, sorted: seq<T>, key: T -> int)
    requires Distinct(sorted, key) && forall i | 0 <= i < |sorted| :: key(sorted[i]) != key(x)
    ensures Distinct(Insert(x, sorted, key), key)
    ensures forall y | y in Insert(x, sorted, key) :: y == x || y in sorted
  {
    if sorted != [] && key(x) > key(sorted[0]) {
      var rest := Insert(x, sorted[1..], key);
      InsertDistinct(x, sorted[1..], key);
      forall i | 0 <= i < |rest|
        ensures key(rest[i]) != key(sorted[0])
      {
        assert rest[i] in rest;
      }
    }
  }

  /** Sorted collections with distinct keys that cover each other agree item by item. */
  lemma {:induction false} CoversPointwise<T, U>(a: seq<T>, b: seq<T>, key: T -> int, form: T -> U, kept: U -> int)
    requires Sorted(a, key) && Sorted(b, key) && Distinct(a, key) && Distinct(b, key)
    requires Keeps(a, key, form, kept) && Keeps(b, key, form, kept)
    requires Covers(a, b, form) && Covers(b, a, form)
    ensures Map(a, form) == Map(b, form)
  {
    if a == [] {
      assert b != [] ==> Counterpart(b[0], a, form);
    } else {
      assert Counterpart(a[0], b, form);
      HeadsMatch(a, b, key, form, kept);
      TailCovers(a, b, key, form, kept);
      TailCovers(b, a, key, form, kept);
      CoversPointwise(a[1..], b[1..], key, form, kept);
      MapHead(a, form);
      MapHead(b, form);
    }
  }

  lemma MapHead<T, U>(a: seq<T>, form: T -> U)
    requires a != []
    ensures Map(a, form) == [form(a[0])] + Map(a[1..], form)
  {
  }

  lemma HeadsMatch<T, U>(a: seq<T>, b: seq<T>, key: T -> int, form: T -> U, kept: U -> int)
    requires a != [] && b != [] && Sorted(a, key) && Sorted(b, key) && Distinct(b, key)
    requires Keeps(a, key, form, kept) && Keeps(b, key, form, kept)
    requires Covers(a, b, form) && Covers(b, a, form)
    ensures form(a[0]) == form(b[0])
  {
    var x := HeadReaches(b, a, key, form, kept);
    var y := HeadReaches(a, b, key, form, kept);
    OnlyFirst(b, y, key);
  }

  /** The counterpart of the first item, whose key is that item's and so no smaller than the least of its own list. */
  lemma HeadReaches<T, U>(a: seq<T>, b: seq<T>, key: T -> int, form: T -> U, kept: U -> int) returns (y: T)
    requires a != [] && b != [] && Sorted(b, key) && Covers(a, b, form)
    requires Keeps(a, key, form, kept) && Keeps(b, key, form, kept)
    ensures y in b && form(a[0]) == form(y) && key(b[0]) <= key(y) == key(a[0])
  {
    assert a[0] in a && Counterpart(a[0], b, form);
    y :| y in b && form(a[0]) == form(y);
    Smallest(b, y, key);
  }

  lemma Smallest<T>(a: seq<T>, x: T, key: T -> int)
    requires Sorted(a, key) && x in a
    ensures key(a[0]) <= key(x)
  {
    var i :| 0 <= i < |a| && a[i] == x;
  }

  lemma OnlyFirst<T>(b: seq<T>, y: T, key: T -> int)
    requires Distinct(b, key) && y in b && key(y) == key(b[0])
    ensures y == b[0]
  {
    var i :| 0 <= i < |b| && b[i] == y;
  }

  lemma TailCovers<T, U>(a: seq<T>, b: seq<T>, key: T -> int, form: T -> U, kept: U -> int)
    requires a != [] && b != [] && Distinct(a, key) && Covers(a, b, form)
    requires Keeps(a, key, form, kept) && Keeps(b, key, form, kept)
    requires form(a[0]) == form(b[0])
    ensures Covers(a[1..], b[1..], form)
  {
    assert key(a[0]) == key(b[0]);
    forall x | x in a[1..]
      ensures Counterpart(x, b[1..], form)
    {
      assert Counterpart(x, b, form);
      var y :| y in b && form(x) == form(y);
      assert key(y) == key(x) && key(x) != key(a[0]);
      assert y in b[1..];
    }
  }

  /** Sorting and normalising is a normal form for keyed collections that cover each other, in whatever order. */
  lemma KeyedNormalForm<T, U>(a: seq<T>, b: seq<T>, key: T -> int, form: T -> U, kept: U -> int)
    requires Distinct(a, key) && Distinct(b, key)
    requires Keeps(a, key, form, kept) && Keeps(b, key, form, kept)
    ensures Map(SortBy(a, key), form) == Map(SortBy(b, key), form) <==> Covers(a, b, form) && Covers(b, a, form)
  {
    var sa, sb := SortBy(a, key), SortBy(b, key);
    SortElements(a, key);
    SortElements(b, key);
    if Map(sa, form) == Map(sb, form) {
      SameForms(a, b, key, form);
      SameForms(b, a, key, form);
    }
    if Covers(a, b, form) && Covers(b, a, form) {
      SortSorts(a, key);
      SortSorts(b, key);
      DistinctStays(a, key);
      DistinctStays(b, key);
      forall x | x in sa
        ensures Counterpart(x, sb, form)
      {
        assert Counterpart(x, b, form);
      }
      forall x | x in sb
        ensures Counterpart(x, sa, form)
      {
        assert Counterpart(x, a, form);
      }
      CoversPointwise(sa, sb, key, form, kept);
    }
  }

  lemma SameForms<T, U>(a: seq<T>, b: seq<T>, key: T -> int, form: T -> U)
    requires Map(SortBy(a, key), form) == Map(SortBy(b, key), form)
    ensures Covers(a, b, form)
  {
    var sa, sb := SortBy(a, key), SortBy(b, key);
    SortElements(a, key);
    SortElements(b, key);
    assert |Map(sa, form)| == |sa| && |Map(sb, form)| == |sb|;
    forall x | x in a
      ensures Counterpart(x, b, form)
    {
      var i :| 0 <= i < |sa| && sa[i] == x;
      assert Map(sa, form)[i] == Map(sb, form)[i];
      assert sb[i] in sb;
    }
  }
}
