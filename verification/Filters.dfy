/** Filtering a sequence, and the loop that does it in place with one index and a removal. */
module Filters {

  function Filter<T>(s: seq<T>, keep: T -> bool): (r: seq<T>)
    ensures |r| <= |s|
  {
    if s == [] then []
    else if keep(s[|s| - 1]) then Filter(s[..|s| - 1], keep) + [s[|s| - 1]]
    else Filter(s[..|s| - 1], keep)
  }

  function Without<T>(s: seq<T>, i: nat): seq<T>
    requires i < |s|
  {
    s[..i] + s[i + 1..]
  }

  lemma FilterSnoc<T>(s: seq<T>, x: T, keep: T -> bool)
    ensures Filter(s + [x], keep) == if keep(x) then Filter(s, keep) + [x] else Filter(s, keep)
  {
    assert (s + [x])[..|s|] == s;
  }

  lemma FilterNext<T>(s: seq<T>, i: nat, keep: T -> bool)
    requires i < |s|
    ensures Filter(s[..i + 1], keep) == if keep(s[i]) then Filter(s[..i], keep) + [s[i]] else Filter(s[..i], keep)
  {
    assert s[..i + 1] == s[..i] + [s[i]];
    FilterSnoc(s[..i], s[i], keep);
  }

  /** The loop's state: of `was`, the first `seen` elements have been filtered, leaving i. */
  ghost predicate Compacting<T>(was: seq<T>, seen: nat, i: nat, now: seq<T>, keep: T -> bool) {
    && seen <= |was| && i == |Filter(was[..seen], keep)|
    && now == Filter(was[..seen], keep) + was[seen..]
  }

  lemma CompactingStart<T>(was: seq<T>, keep: T -> bool)
    ensures Compacting(was, 0, 0, was, keep)
  {
  }

  lemma CompactingAt<T>(was: seq<T>, seen: nat, i: nat, now: seq<T>, keep: T -> bool)
    requires Compacting(was, seen, i, now, keep)
    ensures i <= |now| && |now| - i == |was| - seen
    ensures i < |now| ==> now[i] == was[seen]
    ensures i == |now| ==> now == Filter(was, keep)
  {
    if i == |now| {
      assert was[..seen] == was;
    }
  }

  lemma CompactingKeeps<T>(was: seq<T>, seen: nat, i: nat, now: seq<T>, keep: T -> bool)
    requires Compacting(was, seen, i, now, keep) && i < |now| && keep(now[i])
    ensures Compacting(was, seen + 1, i + 1, now, keep)
  {
    CompactingAt(was, seen, i, now, keep);
    FilterNext(was, seen, keep);
    assert was[seen..] == [was[seen]] + was[seen + 1..];
  }

  lemma CompactingDrops<T>(was: seq<T>, seen: nat, i: nat, now: seq<T>, keep: T -> bool)
    requires Compacting(was, seen, i, now, keep) && i < |now| && !keep(now[i])
    ensures Compacting(was, seen + 1, i, Without(now, i), keep)
  {
    CompactingAt(was, seen, i, now, keep);
    FilterNext(was, seen, keep);
    assert now[i + 1..] == was[seen + 1..];
    assert now[..i] == Filter(was[..seen], keep);
  }

  lemma Assoc<T>(a: seq<T>, b: seq<T>, c: seq<T>)
    ensures (a + b) + c == a + (b + c)
  {
  }

  /** One turn: the element at i stays and is passed, or is removed. */
  lemma CompactingTurn<T>(was: seq<T>, seen: nat, i: nat, now: seq<T>, keep: T -> bool, after: seq<T>)
    requires Compacting(was, seen, i, now, keep) && i < |now|
    requires after == if keep(now[i]) then now else Without(now, i)
    ensures Compacting(was, seen + 1, if keep(now[i]) then i + 1 else i, after, keep)
  {
    if keep(now[i]) {
      CompactingKeeps(was, seen, i, now, keep);
    } else {
      CompactingDrops(was, seen, i, now, keep);
    }
  }

  lemma {:induction false} FilterSame<T>(s: seq<T>, keep: T -> bool)
    requires forall x :: x in s ==> keep(x)
    ensures Filter(s, keep) == s
  {
    if s != [] {
      assert s[|s| - 1] in s;
      FilterSame(s[..|s| - 1], keep);
    }
  }

  lemma {:induction false} FilterNone<T>(s: seq<T>, keep: T -> bool)
    requires forall x :: x in s ==> !keep(x)
    ensures Filter(s, keep) == []
  {
    if s != [] {
      assert s[|s| - 1] in s;
      FilterNone(s[..|s| - 1], keep);
    }
  }

  lemma {:induction false} FilterMembers<T>(s: seq<T>, keep: T -> bool)
    ensures forall x :: x in Filter(s, keep) <==> x in s && keep(x)
  {
    if s != [] {
      FilterMembers(s[..|s| - 1], keep);
      assert s == s[..|s| - 1] + [s[|s| - 1]];
    }
  }
}
