/**
 The string hash of the FM configuration store.

 The source computes each term in floating point, converts it to `int`, takes a C remainder and
 adds it to an unsigned accumulator.  A conversion that does not fit in `int` is undefined in C, so
 it is a parameter here: `toInt` is the machine's conversion, known only to be exact where it fits.
 */
module ConfHash {

  const INT_MAX: int := 0x7fff_ffff
  const UINT_RANGE: int := 0x1_0000_0000

  function Pow2(n: nat): (p: nat)
    ensures p >= 1
  {
    if n == 0 then 1 else 2 * Pow2(n - 1)
  }

  /** A double-to-int conversion: some `int` always, the value itself where it fits. */
  ghost predicate Converts(toInt: int -> int) {
    && (forall x :: -INT_MAX - 1 <= toInt(x) <= INT_MAX)
    && (forall x :: 0 <= x <= INT_MAX ==> toInt(x) == x)
  }

  /** C's `%` truncates towards zero. */
  function CRem(x: int, m: int): int
    requires m > 0
  {
    if x >= 0 then x % m else -((-x) % m)
  }

  /** The string read as digits in base two, most significant first. */
  function Horner(s: string): nat {
    if s == "" then 0 else 2 * Horner(s[..|s| - 1]) + s[|s| - 1] as int
  }

  /** The term that character i contributes: `str[i] * 2^(len - i)`. */
  function Term(s: string, i: nat): nat
    requires i < |s|
  {
    Scaled(s[i] as int, |s| - i)
  }

  function Scaled(c: nat, n: nat): (t: nat)
    ensures t == c * Pow2(n)
  {
    if n == 0 then c else 2 * Scaled(c, n - 1)
  }

  ghost predicate TermsFit(s: string) {
    forall i :: 0 <= i < |s| ==> Term(s, i) <= INT_MAX
  }

  /** The sum of the first i terms. */
  function Sum(s: string, i: nat): nat
    requires i <= |s|
  {
    if i == 0 then 0 else Sum(s, i - 1) + Term(s, i - 1)
  }

  /** One round: the unsigned sum wraps at 32 bits and is then reduced. */
  function Accumulate(hash: nat, t: int): (h: nat)
    ensures h < INT_MAX
  {
    (hash + CRem(t, INT_MAX)) % UINT_RANGE % INT_MAX
  }

  /** A remainder is known by its size. */
  lemma RemainderIs(x: int, q: int, r: int)
    requires x == INT_MAX * q + r && 0 <= r < INT_MAX
    ensures x % INT_MAX == r
  {
  }

  lemma RemainderOfTerm(t: nat)
    requires t <= INT_MAX
    ensures CRem(t, INT_MAX) == if t < INT_MAX then t else 0
  {
  }

  lemma NoWrap(x: nat)
    requires x < UINT_RANGE
    ensures x % UINT_RANGE == x
  {
  }

  /** A term that fits never makes the unsigned sum wrap. */
  lemma AccumulateFits(hash: nat, sum: nat, t: nat)
    requires hash == sum % INT_MAX && t <= INT_MAX
    ensures hash + CRem(t, INT_MAX) < UINT_RANGE
    ensures Accumulate(hash, t) == (sum + t) % INT_MAX
  {
    hide CRem;
    var q, wraps := sum / INT_MAX, if hash + t < INT_MAX then 0 else 1;
    var r := hash + t - INT_MAX * wraps;
    RemainderOfTerm(t);
    NoWrap(hash + CRem(t, INT_MAX));
    RemainderIs(sum + t, q + wraps, r);
    RemainderIs(hash + CRem(t, INT_MAX), if t < INT_MAX then wraps else 0, r);
  }

  /** `get_hash_code`: the loop equals twice the base-two value of the string, modulo `INT_MAX`,
      whenever the terms fit. */
  method GetHashCode(str: string, toInt: int -> int) returns (hash: nat)
    requires Converts(toInt)
    ensures hash < INT_MAX
    ensures TermsFit(str) ==> hash == 2 * Horner(str) % INT_MAX
  {
    hash := 0;
    var len: nat, i: nat := |str|, 0;
    while len > 0
      invariant i + len == |str|
      invariant hash < INT_MAX
      invariant TermsFit(str) ==> hash == Sum(str, i) % INT_MAX
    {
      ghost var before := hash;
      hash := Accumulate(hash, toInt(Term(str, i)));
      if Term(str, i) <= INT_MAX && before == Sum(str, i) % INT_MAX {
        AccumulateFits(before, Sum(str, i), Term(str, i));
      }
      len, i := len - 1, i + 1;
    }
    SumIsHorner(str, i);
    assert str[..i] == str;
  }

  /** Each character doubles the value read so far and scales by what is left to read. */
  lemma {:induction false} SumIsHorner(s: string, i: nat)
    requires i <= |s|
    ensures Sum(s, i) == Pow2(|s| - i) * 2 * Horner(s[..i])
  {
    if i > 0 {
      SumIsHorner(s, i - 1);
      assert s[..i][..i - 1] == s[..i - 1];
      Distribute(Pow2(|s| - i), Horner(s[..i - 1]), s[i - 1] as int);
    }
  }

  lemma Distribute(p: int, h: int, c: int)
    ensures p * 2 * (2 * h + c) == 2 * p * 2 * h + c * (2 * p)
  {
  }

  lemma {:induction false} Pow2Monotone(m: nat, n: nat)
    requires m <= n
    ensures Pow2(m) <= Pow2(n)
  {
    if m < n { Pow2Monotone(m, n - 1); }
  }

  /** Names of at most 24 seven-bit characters always fit. */
  lemma ShortNamesFit(s: string)
    requires |s| <= 24 && forall c :: c in s ==> c as int < 128
    ensures TermsFit(s)
  {
    forall i | 0 <= i < |s| ensures Term(s, i) <= INT_MAX {
      Pow2Monotone(|s| - i, 24);
      assert s[i] in s;
      Pow2Of24();
      Product(s[i] as int, 127, Pow2(|s| - i), 0x100_0000);
    }
  }

  lemma Pow2Of24()
    ensures Pow2(24) == 0x100_0000
  {
    assert Pow2(8) == 256;
    assert Pow2(16) == 0x1_0000;
  }

  lemma Product(a: nat, b: nat, p: nat, q: nat)
    requires a <= b && p <= q
    ensures a * p <= b * q
  {
    assert (b - a) * p >= 0 && b * (q - p) >= 0;
  }

  /** The value of a name put together: that of the front, doubled once for each character behind it, plus
      that of the rest; a single character counts its code. */
  lemma {:induction false} HornerAppend(s: string, t: string)
    ensures Horner(s + t) == Horner(s) * Pow2(|t|) + Horner(t)
    ensures |t| == 1 ==> Horner(t) == t[0] as int
    decreases |t|
  {
    if t == "" {
      assert s + t == s;
    } else {
      var n := |t| - 1;
      assert (s + t)[..|s| + n] == s + t[..n];
      HornerAppend(s, t[..n]);
      Doubled(Horner(s), Pow2(n), Horner(t[..n]), t[n] as int);
    }
  }

  lemma Doubled(h: int, p: int, r: int, c: int)
    ensures 2 * (h * p + r) + c == h * (2 * p) + (2 * r + c)
  {
  }
}
