/**
 Sorting by a three-way comparison function, as `functools.cmp_to_key` offers it.
 */
module SortBy {

  /** Zero only for equal elements, opposite answers when swapped, and no cycles. */
  ghost predicate StrictTotalOrder<T(!new)>(cmp: (T, T) -> int, xs: seq<T>) {
    && (forall a, b :: a in xs && b in xs ==> (cmp(a, b) == 0 <==> a == b))
    && (forall a, b :: a in xs && b in xs ==> cmp(a, b) == -cmp(b, a))
    && (forall a, b, c ::
          a in xs && b in xs && c in xs && cmp(a, b) < 0 && cmp(b, c) < 0 ==> cmp(a, c) < 0)
  }

  ghost predicate Sorted<T>(cmp: (T, T) -> int, r: seq<T>) {
    forall i, j :: 0 <= i < j < |r| ==> cmp(r[i], r[j]) <= 0
  }

  ghost predicate IsSortOf<T>(cmp: (T, T) -> int, r: seq<T>, xs: seq<T>) {
    Sorted(cmp, r) && multiset(r) == multiset(xs)
  }

  lemma SameMembers<T>(r: seq<T>, xs: seq<T>)
    requires multiset(r) == multiset(xs)
    ensures forall s :: s in r <==> s in xs
  {
    assert forall s :: s in r <==> s in multiset(r);
    assert forall s :: s in xs <==> s in multiset(xs);
  }

  /** The first element of a sorted arrangement is the least. */
  lemma HeadIsLeast<T(!new)>(cmp: (T, T) -> int, r: seq<T>, s: T)
    requires Sorted(cmp, r) && StrictTotalOrder(cmp, r) && s in r
    ensures cmp(r[0], s) <= 0
  {
    var i :| 0 <= i < |r| && r[i] == s;
  }

  lemma HeadsEqual<T(!new)>(cmp: (T, T) -> int, r1: seq<T>, r2: seq<T>)
    requires Sorted(cmp, r1) && Sorted(cmp, r2) && multiset(r1) == multiset(r2)
    requires StrictTotalOrder(cmp, r1) && r1 != [] && r2 != []
    ensures r1[0] == r2[0]
  {
    SameMembers(r2, r1);
    assert r1[0] in r1 && r2[0] in r2;
    HeadIsLeast(cmp, r1, r2[0]);
    HeadIsLeast(cmp, r2, r1[0]);
    assert cmp(r1[0], r2[0]) == -cmp(r2[0], r1[0]);
  }

  lemma TailMultiset<T>(r: seq<T>)
    requires r != []
    ensures multiset(r) == multiset{r[0]} + multiset(r[1..])
    ensures forall s :: s in r[1..] ==> s in r
  {
    assert r == [r[0]] + r[1..];
  }

  lemma SubOrder<T(!new)>(cmp: (T, T) -> int, all: seq<T>, xs: seq<T>)
    requires StrictTotalOrder(cmp, all) && forall s :: s in xs ==> s in all
    ensures StrictTotalOrder(cmp, xs)
  {
  }

  lemma SortedTail<T>(cmp: (T, T) -> int, r: seq<T>)
    requires Sorted(cmp, r) && r != []
    ensures Sorted(cmp, r[1..])
    ensures forall s :: s in r[1..] ==> cmp(r[0], s) <= 0
  {
  }

  ghost predicate SameSort<T(!new)>(cmp: (T, T) -> int, r1: seq<T>, r2: seq<T>) {
    && Sorted(cmp, r1)
    && Sorted(cmp, r2)
    && multiset(r1) == multiset(r2)
    && StrictTotalOrder(cmp, r1)
  }

  lemma SameSortTail<T(!new)>(cmp: (T, T) -> int, r1: seq<T>, r2: seq<T>)
    requires SameSort(cmp, r1, r2) && r1 != [] && r2 != []
    ensures r1[0] == r2[0] && SameSort(cmp, r1[1..], r2[1..])
  {
    HeadsEqual(cmp, r1, r2);
    TailMultiset(r1);
    TailMultiset(r2);
    Cancel(r1[0], multiset(r1[1..]), multiset(r2[1..]));
    SubOrder(cmp, r1, r1[1..]);
    SortedTail(cmp, r1);
    SortedTail(cmp, r2);
  }

  lemma ConsEqual<T>(r1: seq<T>, r2: seq<T>)
    requires r1 != [] && r2 != [] && r1[0] == r2[0] && r1[1..] == r2[1..]
    ensures r1 == r2
  {
    assert r1 == [r1[0]] + r1[1..] && r2 == [r2[0]] + r2[1..];
  }

  /** An ordered list has at most one sorted arrangement. */
  lemma {:induction false} SortUnique<T(!new)>(cmp: (T, T) -> int, r1: seq<T>, r2: seq<T>)
    requires SameSort(cmp, r1, r2)
    ensures r1 == r2
    decreases |r1|
  {
    assert |r1| == |multiset(r1)| == |multiset(r2)| == |r2|;
    if r1 != [] {
      SameSortTail(cmp, r1, r2);
      SortUnique(cmp, r1[1..], r2[1..]);
      ConsEqual(r1, r2);
    }
  }

  lemma Cancel<T>(x: T, a: multiset<T>, b: multiset<T>)
    requires multiset{x} + a == multiset{x} + b
    ensures a == b
  {
    assert a == multiset{x} + a - multiset{x};
    assert b == multiset{x} + b - multiset{x};
  }

  function Insert<T>(cmp: (T, T) -> int, x: T, r: seq<T>): seq<T> {
    if r == [] then [x]
    else if cmp(x, r[0]) <= 0 then [x] + r
    else [r[0]] + Insert(cmp, x, r[1..])
  }

  lemma {:induction false} InsertMembers<T>(cmp: (T, T) -> int, x: T, r: seq<T>)
    ensures multiset(Insert(cmp, x, r)) == multiset{x} + multiset(r)
  {
    if r != [] {
      TailMultiset(r);
      InsertMembers(cmp, x, r[1..]);
    }
  }

  lemma SortedCons<T>(cmp: (T, T) -> int, x: T, r: seq<T>)
    requires Sorted(cmp, r) && forall s :: s in r ==> cmp(x, s) <= 0
    ensures Sorted(cmp, [x] + r)
  {
  }

  lemma {:induction false} InsertSorts<T(!new)>(cmp: (T, T) -> int, x: T, r: seq<T>)
    requires Sorted(cmp, r) && StrictTotalOrder(cmp, [x] + r)
    ensures Sorted(cmp, Insert(cmp, x, r))
    decreases |r|
  {
    if r != [] {
      var t := r[1..];
      SortedTail(cmp, r);
      assert x in [x] + r && r[0] in [x] + r;
      if cmp(x, r[0]) > 0 {
        SubOrder(cmp, [x] + r, [x] + t);
        InsertSorts(cmp, x, t);
        InsertMembers(cmp, x, t);
        forall s | s in Insert(cmp, x, t) ensures cmp(r[0], s) <= 0 {
          assert s in multiset(Insert(cmp, x, t));
          assert s == x || s in t;
          assert cmp(r[0], x) == -cmp(x, r[0]);
        }
        SortedCons(cmp, r[0], Insert(cmp, x, t));
      } else {
        BelowHead(cmp, x, r);
        SortedCons(cmp, x, r);
      }
    }
  }

  lemma BelowHead<T(!new)>(cmp: (T, T) -> int, x: T, r: seq<T>)
    requires r != [] && Sorted(cmp, r) && StrictTotalOrder(cmp, [x] + r) && cmp(x, r[0]) <= 0
    ensures forall s :: s in r ==> cmp(x, s) <= 0
  {
    SortedTail(cmp, r);
    forall s | s in r ensures cmp(x, s) <= 0 {
      var i :| 0 <= i < |r| && r[i] == s;
      assert x in [x] + r && r[0] in [x] + r && s in [x] + r;
      assert i > 0 ==> cmp(r[0], s) <= 0;
    }
  }

  /** Every list drawn from an ordered one has a sorted arrangement. */
  lemma {:induction false} SortExists<T(!new)>(cmp: (T, T) -> int, xs: seq<T>, all: seq<T>)
    requires StrictTotalOrder(cmp, all) && forall s :: s in xs ==> s in all
    ensures exists r :: IsSortOf(cmp, r, xs)
  {
    if xs == [] {
      assert IsSortOf(cmp, [], xs);
    } else {
      SortExists(cmp, xs[1..], all);
      var r :| IsSortOf(cmp, r, xs[1..]);
      SameMembers(r, xs[1..]);
      SubOrder(cmp, all, [xs[0]] + r);
      InsertSorts(cmp, xs[0], r);
      InsertMembers(cmp, xs[0], r);
      TailMultiset(xs);
      assert IsSortOf(cmp, Insert(cmp, xs[0], r), xs);
    }
  }
}
