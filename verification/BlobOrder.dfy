/**
 The order in which `reorder-libs.py` sorts the lines of a blob list section.

 `Compare` is the hand-written comparator.  It is not an order on all lines: a line without a
 directory can take part in a cycle.  The theorems say exactly on which sections it is an order
 (`TransitiveIffNoClash`), and what a sorted section then looks like.
 */
module BlobOrder {
  import opened SortBy

  /** Sign of the lexicographic comparison of two code sequences. */
  function Lex(a: seq<int>, b: seq<int>): int {
    if a == [] then (if b == [] then 0 else -1)
    else if b == [] then 1
    else if a[0] < b[0] then -1
    else if a[0] > b[0] then 1
    else Lex(a[1..], b[1..])
  }

  /** A line is the sequence of its character codes; `strcoll` in the "C" locale compares those. */
  type Code = c: int | 0 <= c < 0x110000
  type Line = seq<Code>

  const SLASH: Code := 47

  function Strcoll(a: Line, b: Line): int {
    Lex(a, b)
  }

  predicate HasSlash(s: Line) {
    SLASH in s
  }

  /** Position of the last '/' of a line that has one. */
  function LastSlash(s: Line): (k: nat)
    requires HasSlash(s)
    ensures k < |s| && s[k] == SLASH
    ensures forall i :: k < i < |s| ==> s[i] != SLASH
  {
    if s[|s| - 1] == SLASH then |s| - 1
    else
      assert s == s[..|s| - 1] + [s[|s| - 1]];
      LastSlash(s[..|s| - 1])
  }

  /** `s.rsplit("/", 1)[0] + "/"`: the directory of a line, or the whole line taken as one. */
  function DirOf(s: Line): Line {
    (if HasSlash(s) then s[..LastSlash(s)] else s) + [SLASH]
  }

  /** `strcoll_extract_utils`. */
  function Compare(s1: Line, s2: Line): int {
    if s1 == [] || s2 == [] then Strcoll(s1, s2)
    else if !HasSlash(s1) && !HasSlash(s2) then Strcoll(s1, s2)
    else if DirOf(s1) == DirOf(s2) then Strcoll(s1, s2)
    else if DirOf(s2) <= DirOf(s1) then -1
    else if DirOf(s1) <= DirOf(s2) then 1
    else Strcoll(s1, s2)
  }

  // ---------------------------------------------------------------------------------------
  // Lexicographic order on code sequences
  // ---------------------------------------------------------------------------------------

  lemma {:induction false} LexSkip(a: seq<int>, b: seq<int>, n: nat)
    requires n <= |a| && n <= |b| && a[..n] == b[..n]
    ensures Lex(a, b) == Lex(a[n..], b[n..])
  {
    if n > 0 {
      assert a[0] == a[..n][0] == b[..n][0] == b[0];
      assert a[1..][..n - 1] == a[..n][1..] == b[..n][1..] == b[1..][..n - 1];
      LexSkip(a[1..], b[1..], n - 1);
      assert a[1..][n - 1..] == a[n..] && b[1..][n - 1..] == b[n..];
    }
  }

  lemma {:induction false} LexAntisymmetric(a: seq<int>, b: seq<int>)
    ensures Lex(a, b) == -Lex(b, a)
    ensures Lex(a, b) == 0 <==> a == b
  {
    if a != [] && b != [] {
      LexAntisymmetric(a[1..], b[1..]);
      assert a == [a[0]] + a[1..] && b == [b[0]] + b[1..];
    }
  }

  lemma {:induction false} LexTransitive(a: seq<int>, b: seq<int>, c: seq<int>)
    requires Lex(a, b) < 0 && Lex(b, c) < 0
    ensures Lex(a, c) < 0
  {
    if a != [] && b != [] && c != [] && a[0] == b[0] == c[0] {
      LexTransitive(a[1..], b[1..], c[1..]);
    }
  }

  /** Length of the longest common prefix. */
  function Agree(a: seq<int>, b: seq<int>): (n: nat)
    ensures n <= |a| && n <= |b| && a[..n] == b[..n]
    ensures n < |a| && n < |b| ==> a[n] != b[n]
  {
    if a == [] || b == [] || a[0] != b[0] then 0
    else
      var n := 1 + Agree(a[1..], b[1..]);
      assert a[..n] == [a[0]] + a[1..][..n - 1] && b[..n] == [b[0]] + b[1..][..n - 1];
      n
  }

  /** What the comparison says at the first disagreement. */
  lemma LexAgree(a: seq<int>, b: seq<int>, n: nat)
    requires n <= |a| && n <= |b| && a[..n] == b[..n]
    requires n < |a| && n < |b| ==> a[n] != b[n]
    ensures Lex(a, b) == if n == |a| then (if n == |b| then 0 else -1)
                         else if n == |b| then 1
                         else if a[n] < b[n] then -1 else 1
  {
    LexSkip(a, b, n);
  }

  // ---------------------------------------------------------------------------------------
  // Sort keys
  // ---------------------------------------------------------------------------------------

  /** Two symbols above every character: files sort after `MID`, and `MID` after subdirectories. */
  const MID: int := 0x110000
  const TOP: int := 0x110001

  /** x lies in a proper subdirectory of the directory named by the line s. */
  predicate Deep(x: Line, s: Line) {
    s != [] && !HasSlash(s) && HasSlash(x) && s + [SLASH] <= DirOf(x) && DirOf(x) != s + [SLASH]
  }

  /** z is s followed by a character that sorts before '/'. */
  predicate LowExtends(z: Line, s: Line) {
    |s| < |z| && s <= z && z[|s|] < SLASH
  }

  /** Some line without a directory has both a deep line and a low extension in the section. */
  ghost predicate Clash(lines: seq<Line>) {
    exists s, x, z :: s in lines && x in lines && z in lines && Deep(x, s) && LowExtends(z, s)
  }

  ghost predicate HasLow(lines: seq<Line>, s: Line) {
    exists z :: z in lines && LowExtends(z, s)
  }

  function BaseOf(s: Line): Line
    requires HasSlash(s)
  {
    s[LastSlash(s) + 1..]
  }

  /** Directory, then TOP, then file name; a line without a directory sorts as plain text or as
      the last entry below the subdirectories of the directory it names. */
  function Key(s: Line, plain: bool): seq<int> {
    if HasSlash(s) then DirOf(s) + [TOP] + BaseOf(s)
    else if s == [] || plain then s
    else s + [SLASH, MID]
  }

  /** Prefixes of the pieces of a directory line. */
  lemma DirParts(s: Line)
    requires HasSlash(s)
    ensures s == DirOf(s) + BaseOf(s)
    ensures DirOf(s) == s[..LastSlash(s) + 1]
  {
  }

  /** Keys of directory lines, given as directory and file name. */
  lemma OrderSlashed(da: Line, fa: Line, db: Line, fb: Line)
    ensures Lex(da + [TOP] + fa, db + [TOP] + fb) ==
            if da == db || !(da <= db || db <= da) then Lex(da + fa, db + fb)
            else if db <= da then -1 else 1
  {
    var ka, kb, n := da + [TOP] + fa, db + [TOP] + fb, Agree(da, db);
    assert ka[..n] == da[..n] == kb[..n];
    if da == db {
      LexSkip(da + fa, db + fb, |da|);
      LexSkip(ka, kb, |da| + 1);
      assert ka[|da| + 1..] == fa && kb[|da| + 1..] == fb;
      assert (da + fa)[|da|..] == fa && (db + fb)[|da|..] == fb;
    } else if n == |da| || n == |db| {
      LexAgree(ka, kb, n);
    } else {
      assert (da + fa)[..n] == da[..n] && (db + fb)[..n] == db[..n];
      LexAgree(da + fa, db + fb, n);
      LexAgree(ka, kb, n);
    }
  }

  /** A key without a directory against one with, when neither directory contains the other. */
  lemma OrderApart(s: Line, tail: seq<int>, d: Line, f: Line)
    requires d != [] && d[|d| - 1] == SLASH && SLASH !in s
    requires !(s + [SLASH] <= d)
    requires tail == [] || (tail[0] == SLASH && !LowExtends(d + f, s))
    ensures Lex(s + tail, d + [TOP] + f) == Lex(s, d + f)
    ensures !(d <= s + [SLASH])
  {
    var n := Agree(s, d);
    var ks, kx := s + tail, d + [TOP] + f;
    assert n < |d| && d[n] != (s + [SLASH])[n] by { PartInside(s, d, n); }
    assert s[..n] == ks[..n] && kx[..n] == d[..n] == (d + f)[..n];
    assert n == |s| ==> s <= d + f;
    LexAgree(s, d + f, n);
    LexAgree(ks, kx, n);
  }

  /** A slash-free line and a directory that does not continue it with '/' part inside both. */
  lemma PartInside(s: Line, d: Line, n: nat)
    requires d != [] && d[|d| - 1] == SLASH && SLASH !in s
    requires !(s + [SLASH] <= d)
    requires n <= |s| && n <= |d| && s[..n] == d[..n]
    requires n < |s| && n < |d| ==> s[n] != d[n]
    ensures n < |d| && d[n] != (s + [SLASH])[n]
  {
    assert forall i :: 0 <= i < n ==> d[i] == d[..n][i] == s[i];
    assert n < |d| && n == |s| ==> d[..n + 1] == s + [d[n]];
  }

  /** A key without a directory against one below the directory it names. */
  lemma OrderUnder(s: Line, d: Line, f: Line)
    requires s + [SLASH] <= d
    ensures Lex(s, d + [TOP] + f) == -1 && Lex(s, d + f) == -1
    ensures Lex(s + [SLASH, MID], d + [TOP] + f) == if d == s + [SLASH] then -1 else 1
  {
    var n, kx := |s|, d + [TOP] + f;
    assert d[..n + 1] == s + [SLASH];
    assert s == d[..n] == (d + f)[..n] == kx[..n];
    LexAgree(s, d + f, n);
    LexAgree(s, kx, n);
    assert (s + [SLASH, MID])[..n + 1] == s + [SLASH] == kx[..n + 1];
    LexAgree(s + [SLASH, MID], kx, n + 1);
  }

  /** Two keys without a directory. */
  lemma OrderPlain(a: Line, ta: seq<int>, b: Line, tb: seq<int>)
    requires SLASH !in a && SLASH !in b
    requires ta == [] || (ta[0] == SLASH && !LowExtends(b, a))
    requires tb == [] || (tb[0] == SLASH && !LowExtends(a, b))
    requires a == b ==> ta == tb
    ensures Lex(a + ta, b + tb) == Lex(a, b)
  {
    var n := Agree(a, b);
    if a == b {
      LexAntisymmetric(a, b);
      LexAntisymmetric(a + ta, b + tb);
    } else {
      assert (a + ta)[..n] == a[..n] && (b + tb)[..n] == b[..n];
      assert n < |a| ==> a[n] in a;
      assert n < |b| ==> b[n] in b;
      assert n == |a| == |b| ==> a == b;
      LexAgree(a, b, n);
      LexAgree(a + ta, b + tb, n);
    }
  }

  /** Two lines with directories: the comparator is the lexicographic order of the keys. */
  lemma EmbedSlashed(a: Line, b: Line, pa: bool, pb: bool)
    requires HasSlash(a) && HasSlash(b)
    ensures Compare(a, b) == Lex(Key(a, pa), Key(b, pb))
  {
    DirParts(a); DirParts(b);
    OrderSlashed(DirOf(a), BaseOf(a), DirOf(b), BaseOf(b));
  }

  /** The part of a key that follows the text of a line without a directory. */
  function Tail(s: Line, plain: bool): seq<int> {
    if s == [] || plain then [] else [SLASH, MID]
  }

  /** Swapping the lines negates the answer, on all lines. */
  lemma CompareAntisymmetric(a: Line, b: Line)
    ensures Compare(a, b) == -Compare(b, a)
  {
    LexAntisymmetric(a, b);
  }

  /** A line without a directory against one with. */
  lemma EmbedMixed(s: Line, x: Line, plain: bool, px: bool)
    requires !HasSlash(s) && HasSlash(x)
    requires LowExtends(x, s) ==> plain
    requires Deep(x, s) ==> !plain
    ensures Compare(s, x) == Lex(Key(s, plain), Key(x, px))
  {
    DirParts(x);
    var d, f := DirOf(x), BaseOf(x);
    assert d[|d| - 1] == SLASH;
    assert Key(s, plain) == s + Tail(s, plain);
    if s == [] {
    } else if s + [SLASH] <= d {
      OrderUnder(s, d, f);
    } else {
      OrderApart(s, Tail(s, plain), d, f);
    }
  }

  /** Two lines without a directory are compared as plain text. */
  lemma EmbedPlain(a: Line, b: Line, pa: bool, pb: bool)
    requires !HasSlash(a) && !HasSlash(b)
    requires LowExtends(b, a) ==> pa
    requires LowExtends(a, b) ==> pb
    requires a == b ==> pa == pb
    ensures Compare(a, b) == Lex(Key(a, pa), Key(b, pb))
  {
    assert Key(a, pa) == a + Tail(a, pa) && Key(b, pb) == b + Tail(b, pb);
    OrderPlain(a, Tail(a, pa), b, Tail(b, pb));
  }

  /** On a section without a clash the comparator is the lexicographic order of its keys. */
  lemma Embedding(lines: seq<Line>, a: Line, b: Line)
    requires !Clash(lines) && a in lines && b in lines
    ensures Compare(a, b) == Lex(Key(a, HasLow(lines, a)), Key(b, HasLow(lines, b)))
  {
    var pa, pb := HasLow(lines, a), HasLow(lines, b);
    if HasSlash(a) && HasSlash(b) {
      EmbedSlashed(a, b, pa, pb);
    } else if HasSlash(b) {
      assert Deep(b, a) ==> !pa;
      EmbedMixed(a, b, pa, pb);
    } else if HasSlash(a) {
      assert Deep(a, b) ==> !pb;
      EmbedMixed(b, a, pb, pa);
      CompareAntisymmetric(a, b);
      LexAntisymmetric(Key(a, pa), Key(b, pb));
    } else {
      EmbedPlain(a, b, pa, pb);
    }
  }

  // ---------------------------------------------------------------------------------------
  // When the comparator is an order
  // ---------------------------------------------------------------------------------------

  /** The comparator orders the lines of a section. */
  ghost predicate Ordered(lines: seq<Line>) {
    StrictTotalOrder(Compare, lines)
  }

  /** TOP and MID tell the shape of a key apart, and where its directory ends. */
  lemma KeyShape(s: Line, plain: bool)
    ensures HasSlash(s) <==> TOP in Key(s, plain)
    ensures MID in Key(s, plain) <==> !HasSlash(s) && s != [] && !plain
    ensures HasSlash(s) ==> Key(s, plain)[|DirOf(s)|] == TOP
    ensures forall i :: 0 <= i < |Key(s, plain)| && Key(s, plain)[i] == TOP ==> i == |DirOf(s)|
  {
    if HasSlash(s) {
      assert Key(s, plain)[|DirOf(s)|] == TOP;
    } else if s != [] && !plain {
      assert Key(s, plain)[|s| + 1] == MID;
    }
  }

  /** The text of a line is its key without the extra symbols. */
  lemma KeyText(s: Line, plain: bool)
    ensures HasSlash(s) ==> s == Key(s, plain)[..|DirOf(s)|] + Key(s, plain)[|DirOf(s)| + 1..]
    ensures !HasSlash(s) && s != [] && !plain ==> s == Key(s, plain)[..|Key(s, plain)| - 2]
  {
    if HasSlash(s) {
      DirParts(s);
      assert DirOf(s) == Key(s, plain)[..|DirOf(s)|];
      assert BaseOf(s) == Key(s, plain)[|DirOf(s)| + 1..];
    }
  }

  lemma KeyInjective(a: Line, b: Line, pa: bool, pb: bool)
    requires Key(a, pa) == Key(b, pb)
    ensures a == b
  {
    KeyShape(a, pa); KeyShape(b, pb);
    KeyText(a, pa); KeyText(b, pb);
    if HasSlash(a) {
      assert |DirOf(a)| == |DirOf(b)|;
    }
  }

  lemma NoClashIsOrder(lines: seq<Line>)
    requires !Clash(lines)
    ensures Ordered(lines)
  {
    forall a, b | a in lines && b in lines
      ensures Compare(a, b) == 0 <==> a == b
      ensures Compare(a, b) == -Compare(b, a)
    {
      var ka, kb := Key(a, HasLow(lines, a)), Key(b, HasLow(lines, b));
      Embedding(lines, a, b); Embedding(lines, b, a);
      LexAntisymmetric(ka, kb);
      if ka == kb { KeyInjective(a, b, HasLow(lines, a), HasLow(lines, b)); }
    }
    forall a, b, c | a in lines && b in lines && c in lines && Compare(a, b) < 0 && Compare(b, c) < 0
      ensures Compare(a, c) < 0
    {
      Embedding(lines, a, b); Embedding(lines, b, c); Embedding(lines, a, c);
      LexTransitive(Key(a, HasLow(lines, a)), Key(b, HasLow(lines, b)), Key(c, HasLow(lines, c)));
    }
  }

  /** A clash is a cycle: the line, its low extension, its deep line, and back. */
  lemma ClashIsCycle(s: Line, x: Line, z: Line)
    requires Deep(x, s) && LowExtends(z, s)
    ensures Compare(s, z) < 0 && Compare(z, x) < 0 && Compare(x, s) < 0
  {
    DeepBefore(x, s);
    LowAfter(z, s);
    LowBeforeDeep(z, x, s);
  }

  lemma DeepBefore(x: Line, s: Line)
    requires Deep(x, s)
    ensures Compare(x, s) == -1
  {
    assert DirOf(s) == s + [SLASH];
    assert |DirOf(s)| < |DirOf(x)|;
  }

  lemma LowAfter(z: Line, s: Line)
    requires LowExtends(z, s) && s != [] && !HasSlash(s)
    ensures Compare(s, z) == -1
  {
    var n := |s|;
    LexAgree(s, z, n);
    LowDirectory(z, s);
    assert DirOf(s)[n] == SLASH;
  }

  lemma LowBeforeDeep(z: Line, x: Line, s: Line)
    requires Deep(x, s) && LowExtends(z, s)
    ensures Compare(z, x) == -1
  {
    var n := |s|;
    DirParts(x);
    assert DirOf(x)[n] == (s + [SLASH])[n] == SLASH;
    assert x[..n] == DirOf(x)[..n] == (s + [SLASH])[..n] == s == z[..n];
    LexAgree(z, x, n);
    LowDirectory(z, s);
  }

  /** The directory of a low extension keeps the character that sorts before '/'. */
  lemma LowDirectory(z: Line, s: Line)
    requires LowExtends(z, s) && !HasSlash(s)
    ensures |DirOf(z)| > |s| && DirOf(z)[|s|] == z[|s|]
  {
    assert forall i :: 0 <= i < |s| ==> z[i] == s[i];
  }

  /** The comparator orders a section if and only if the section has no clash. */
  lemma TransitiveIffNoClash(lines: seq<Line>)
    ensures Ordered(lines) <==> !Clash(lines)
  {
    if Clash(lines) {
      var s, x, z :| s in lines && x in lines && z in lines && Deep(x, s) && LowExtends(z, s);
      ClashIsCycle(s, x, z);
      assert Ordered(lines) ==> Compare(s, x) < 0;
    } else {
      NoClashIsOrder(lines);
    }
  }

  /** In particular it orders every section all of whose lines have a directory. */
  lemma DirectoryLinesOrdered(lines: seq<Line>)
    requires forall s :: s in lines ==> HasSlash(s)
    ensures Ordered(lines)
  {
    TransitiveIffNoClash(lines);
  }

  /** The lines `a`, `a-` and `a/b/c` form the smallest cycle. */
  lemma CycleExample()
    ensures Compare([97], [97, 45]) < 0
    ensures Compare([97, 45], [97, 47, 98, 47, 99]) < 0
    ensures Compare([97, 47, 98, 47, 99], [97]) < 0
  {
    var x: Line := [97, 47, 98, 47, 99];
    assert x[3] == SLASH;
    assert LastSlash(x) == 3;
    assert DirOf(x) == [97, 47, 98, 47];
    ClashIsCycle([97], x, [97, 45]);
  }

  // ---------------------------------------------------------------------------------------
  // Sorted sections
  // ---------------------------------------------------------------------------------------

  /** A clash-free section has exactly one sorted arrangement: the result does not depend on the
      sorting algorithm or on the arrangement it starts from. */
  lemma SortedSectionUnique(r1: seq<Line>, r2: seq<Line>, lines: seq<Line>)
    requires !Clash(lines)
    requires IsSortOf(Compare, r1, lines) && IsSortOf(Compare, r2, lines)
    ensures r1 == r2
  {
    SameMembers(r1, lines);
    NoClashIsOrder(lines);
    SortUnique(Compare, r1, r2);
  }

  lemma SortedSectionExists(lines: seq<Line>)
    requires !Clash(lines)
    ensures exists r :: IsSortOf(Compare, r, lines)
  {
    NoClashIsOrder(lines);
    SortExists(Compare, lines, lines);
  }

  /** Sorting a sorted section again changes nothing. */
  lemma ResortIsIdentity(once: seq<Line>, twice: seq<Line>, lines: seq<Line>)
    requires !Clash(lines)
    requires IsSortOf(Compare, once, lines) && IsSortOf(Compare, twice, once)
    ensures twice == once
  {
    SortedSectionUnique(twice, once, lines);
  }

  /** What the script relies on: a library sort that sorts whenever the comparator is an order. */
  ghost predicate SortsWith(sort: seq<Line> -> seq<Line>) {
    forall lines :: Ordered(lines) ==> IsSortOf(Compare, sort(lines), lines)
  }

  function SortAll(sections: seq<seq<Line>>, sort: seq<Line> -> seq<Line>): seq<seq<Line>> {
    seq(|sections|, i requires 0 <= i < |sections| => sort(sections[i]))
  }

  /** The loop over the sections of a file. */
  method ReorderSections(sections: seq<seq<Line>>, sort: seq<Line> -> seq<Line>) returns (ordered: seq<seq<Line>>)
    requires SortsWith(sort)
    ensures ordered == SortAll(sections, sort)
    ensures forall i :: 0 <= i < |sections| && !Clash(sections[i]) ==> IsSortOf(Compare, ordered[i], sections[i])
  {
    ordered := [];
    var i: nat := 0;
    while i < |sections|
      invariant i <= |sections| && ordered == SortAll(sections[..i], sort)
    {
      ordered := ordered + [sort(sections[i])];
      i := i + 1;
    }
    assert sections[..i] == sections;
    forall k | 0 <= k < |sections| && !Clash(sections[k]) ensures IsSortOf(Compare, ordered[k], sections[k]) {
      NoClashIsOrder(sections[k]);
    }
  }

  ghost predicate NoClashes(sections: seq<seq<Line>>) {
    forall i :: 0 <= i < |sections| ==> !Clash(sections[i])
  }

  /** On a file without clashes the reordering does not depend on the sort, and running it on its own
      result changes nothing. */
  lemma ReorderingIsCanonical(sections: seq<seq<Line>>, sort1: seq<Line> -> seq<Line>, sort2: seq<Line> -> seq<Line>)
    requires NoClashes(sections) && SortsWith(sort1) && SortsWith(sort2)
    ensures SortAll(sections, sort1) == SortAll(sections, sort2)
    ensures SortAll(SortAll(sections, sort1), sort2) == SortAll(sections, sort1)
  {
    forall i | 0 <= i < |sections|
      ensures sort1(sections[i]) == sort2(sections[i]) && sort2(sort1(sections[i])) == sort1(sections[i])
    {
      var lines, once := sections[i], sort1(sections[i]);
      NoClashIsOrder(lines);
      SortedSectionUnique(once, sort2(lines), lines);
      SameMembers(once, lines);
      NoClashIsOrder(once);
      ResortIsIdentity(once, sort2(once), lines);
    }
  }

  /** In a sorted section of directory lines, everything between two lines below a directory
      is below that directory too. */
  lemma SubtreeContiguous(lines: seq<Line>, dir: Line, i: nat, j: nat, k: nat)
    requires Sorted(Compare, lines) && forall s :: s in lines ==> HasSlash(s)
    requires i < j < k < |lines|
    requires dir <= DirOf(lines[i]) && dir <= DirOf(lines[k])
    ensures dir <= DirOf(lines[j])
  {
    var a, b, c := lines[i], lines[j], lines[k];
    assert HasSlash(a) && HasSlash(b) && HasSlash(c);
    EmbedSlashed(a, b, false, false);
    EmbedSlashed(b, c, false, false);
    var n := |dir|;
    KeyStartsWithDirectory(a, dir);
    KeyStartsWithDirectory(c, dir);
    Between(Key(a, false), Key(b, false), Key(c, false), n);
    KeyDirectory(b, dir);
  }

  lemma KeyStartsWithDirectory(s: Line, dir: Line)
    requires HasSlash(s) && dir <= DirOf(s)
    ensures |dir| <= |Key(s, false)| && Key(s, false)[..|dir|] == dir
  {
  }

  /** No directory reaches beyond TOP. */
  lemma KeyDirectory(s: Line, dir: Line)
    requires HasSlash(s) && |dir| <= |Key(s, false)| && Key(s, false)[..|dir|] == dir
    ensures dir <= DirOf(s)
  {
    var k := Key(s, false);
    assert forall t :: 0 <= t < |dir| ==> k[t] == k[..|dir|][t] == dir[t] < MID;
    KeyShape(s, false);
    assert |dir| <= |DirOf(s)|;
    assert DirOf(s)[..|dir|] == k[..|dir|];
  }

  /** A sequence between two that share a prefix has that prefix. */
  lemma {:induction false} Between(a: seq<int>, b: seq<int>, c: seq<int>, n: nat)
    requires n <= |a| && n <= |c| && a[..n] == c[..n]
    requires Lex(a, b) <= 0 && Lex(b, c) <= 0
    ensures n <= |b| && b[..n] == a[..n]
  {
    if n > 0 {
      assert a[0] == a[..n][0] == c[..n][0] == c[0];
      assert a[1..][..n - 1] == a[..n][1..] == c[..n][1..] == c[1..][..n - 1];
      Between(a[1..], b[1..], c[1..], n - 1);
      assert b[..n] == [b[0]] + b[1..][..n - 1] && a[..n] == [a[0]] + a[1..][..n - 1];
    }
  }

  /** In a sorted section of directory lines, a directory's own files follow the files of all
      its subdirectories. */
  lemma FilesFollowSubdirectories(lines: seq<Line>, i: nat, j: nat)
    requires Sorted(Compare, lines) && i < |lines| && j < |lines|
    requires HasSlash(lines[i]) && HasSlash(lines[j])
    requires DirOf(lines[i]) <= DirOf(lines[j]) && DirOf(lines[i]) != DirOf(lines[j])
    ensures j < i
  {
    assert Compare(lines[i], lines[j]) > 0 by {
      assert |DirOf(lines[i])| < |DirOf(lines[j])|;
    }
  }
}
