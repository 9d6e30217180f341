/** Left folds, the effect of handling elements one after the other, and streams in parts. */
module Folds {

  function Fold<S, E>(f: (S, E) -> S, s: S, es: seq<E>): S
    decreases |es|
  {
    if es == [] then s else Fold(f, f(s, es[0]), es[1..])
  }

  lemma {:induction false} FoldAppend<S, E>(f: (S, E) -> S, s: S, a: seq<E>, b: seq<E>)
    ensures Fold(f, s, a + b) == Fold(f, Fold(f, s, a), b)
    decreases |a|
  {
    if a == [] {
      assert a + b == b;
    } else {
      assert (a + b)[1..] == a[1..] + b;
      FoldAppend(f, f(s, a[0]), a[1..], b);
    }
  }

  /** The first element is handled first. */
  lemma FoldCons<S, E>(f: (S, E) -> S, s: S, e: E, es: seq<E>)
    ensures Fold(f, s, [e] + es) == Fold(f, f(s, e), es)
  {
    assert ([e] + es)[1..] == es;
  }

  /** The last element is handled last. */
  lemma FoldSnoc<S, E>(f: (S, E) -> S, s: S, a: seq<E>, e: E)
    ensures Fold(f, s, a + [e]) == f(Fold(f, s, a), e)
  {
    FoldAppend(f, s, a, [e]);
    assert Fold(f, Fold(f, s, a), [e]) == Fold(f, f(Fold(f, s, a), e), [e][1..]);
  }

  /** The elements of all parts, in order. */
  function Concat<E>(parts: seq<seq<E>>): seq<E> {
    if parts == [] then [] else parts[0] + Concat(parts[1..])
  }

  lemma {:induction false} ConcatAppend<E>(a: seq<seq<E>>, b: seq<seq<E>>)
    ensures Concat(a + b) == Concat(a) + Concat(b)
  {
    if a == [] {
      assert a + b == b;
    } else {
      assert (a + b)[1..] == a[1..] + b;
      ConcatAppend(a[1..], b);
    }
  }
}
