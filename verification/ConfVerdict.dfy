/**
 Exactly which files load, and what they then send: the lines that spoil a file, wherever they stand,
 and the controls of a file that is laid out in any way.
 */
module ConfVerdict {
  import opened Wrappers
  import opened Folds
  import opened KeyTable
  import opened ConfText
  import opened ConfLayout
  import opened ConfOrder
  import opened PerformanceConfig

  /** What a raw line is; a carriage return inside it makes it malformed. */
  function KindOf(raw: string): LineKind {
    if Clean(raw).None? then Malformed else Classify(Clean(raw).value)
  }

  function Kinds(lines: seq<string>): seq<LineKind> {
    seq(|lines|, i requires 0 <= i < |lines| => KindOf(lines[i]))
  }

  /** Among the first n lines one opens a group, this group. */
  ghost predicate GroupBefore(kinds: seq<LineKind>, n: nat) {
    exists i :: 0 <= i < n <= |kinds| && kinds[i].GroupLine?
  }

  ghost predicate Opened(kinds: seq<LineKind>, n: nat, g: string) {
    exists i :: 0 <= i < n <= |kinds| && kinds[i] == GroupLine(g)
  }

  /** Line i gives this key, and no line between it and position n opens a group. */
  ghost predicate GivesAt(kinds: seq<LineKind>, n: nat, k: string, i: int) {
    && 0 <= i < n <= |kinds| && kinds[i].PairLine? && kinds[i].key == k
    && forall j :: i < j < n ==> !kinds[j].GroupLine?
  }

  /** The key has been given since the last group was opened. */
  ghost predicate Given(kinds: seq<LineKind>, n: nat, k: string) {
    exists i :: GivesAt(kinds, n, k, i)
  }

  /** A line is fit for its place: it is well-formed, no earlier line opens its group, and its pair stands
      in a group that has not had the key. */
  ghost predicate FitAt(kinds: seq<LineKind>, n: nat)
    requires n < |kinds|
  {
    match kinds[n]
    case Comment => true
    case Malformed => false
    case GroupLine(g) => !Opened(kinds, n, g)
    case PairLine(k, _) => GroupBefore(kinds, n) && !Given(kinds, n, k)
  }

  ghost predicate AllFit(kinds: seq<LineKind>) {
    forall n :: 0 <= n < |kinds| ==> FitAt(kinds, n)
  }

  /** The loader knows the groups of the lines read, the last of them, and its keys. */
  ghost predicate Knows(st: Load, kinds: seq<LineKind>) {
    && (forall g :: g in st.model <==> Opened(kinds, |kinds|, g))
    && (st.cur.Some? <==> GroupBefore(kinds, |kinds|))
    && (st.cur.Some? ==>
          && st.cur.value in st.model
          && forall k :: k in st.model[st.cur.value] <==> Given(kinds, |kinds|, k))
  }

  lemma LoadIsKind(st: Load, raw: string)
    ensures LoadLine(st, raw) == match KindOf(raw)
      case Comment => st
      case GroupLine(g) => if g in st.model then Fail(st) else Load(st.model[g := map[]], Some(g), st.ok)
      case PairLine(k, v) =>
        if st.cur.None? || st.cur.value !in st.model || k in st.model[st.cur.value] then Fail(st)
        else st.(model := st.model[st.cur.value := st.model[st.cur.value][k := v]])
      case Malformed => Fail(st)
  {
  }

  /** One more line changes nothing about the lines before it. */
  lemma GroupPrefix(front: seq<LineKind>, x: LineKind, n: nat)
    requires n <= |front|
    ensures GroupBefore(front + [x], n) <==> GroupBefore(front, n)
  {
    var all := front + [x];
    assert forall i :: 0 <= i < n ==> all[i] == front[i];
    if GroupBefore(front, n) {
      var i :| 0 <= i < n && front[i].GroupLine?;
      assert all[i].GroupLine?;
    }
  }

  lemma OpenedPrefix(front: seq<LineKind>, x: LineKind, n: nat, g: string)
    requires n <= |front|
    ensures Opened(front + [x], n, g) <==> Opened(front, n, g)
  {
    var all := front + [x];
    assert forall i :: 0 <= i < n ==> all[i] == front[i];
    if Opened(front, n, g) {
      var i :| 0 <= i < n && front[i] == GroupLine(g);
      assert all[i] == GroupLine(g);
    }
  }

  lemma GivenPrefix(front: seq<LineKind>, x: LineKind, n: nat, k: string)
    requires n <= |front|
    ensures Given(front + [x], n, k) <==> Given(front, n, k)
  {
    var all := front + [x];
    assert forall j :: 0 <= j < n ==> all[j] == front[j];
    forall i ensures GivesAt(all, n, k, i) <==> GivesAt(front, n, k, i) {
      assert GivesAt(front, n, k, i) ==> forall j :: i < j < n ==> !all[j].GroupLine?;
    }
  }

  lemma FitPrefix(front: seq<LineKind>, x: LineKind, n: nat)
    requires n < |front|
    ensures FitAt(front + [x], n) <==> FitAt(front, n)
  {
    hide Opened, GroupBefore, Given;
    assert (front + [x])[n] == front[n];
    GroupPrefix(front, x, n);
    match front[n]
    case GroupLine(g) => OpenedPrefix(front, x, n, g);
    case PairLine(k, _) => GivenPrefix(front, x, n, k);
    case _ =>
  }

  lemma AllFitSnoc(front: seq<LineKind>, x: LineKind)
    ensures AllFit(front + [x]) <==> AllFit(front) && FitAt(front + [x], |front|)
  {
    hide FitAt;
    forall n: nat | n < |front| ensures FitAt(front + [x], n) <==> FitAt(front, n) {
      FitPrefix(front, x, n);
    }
  }

  /** The next line loads exactly if it is fit for its place. */
  lemma NextFits(st: Load, front: seq<LineKind>, raw: string)
    requires Knows(st, front) && st.ok
    ensures LoadLine(st, raw).ok <==> FitAt(front + [KindOf(raw)], |front|)
  {
    hide KindOf, Opened, GroupBefore, Given, LoadLine;
    LoadIsKind(st, raw);
    var x, n := KindOf(raw), |front|;
    assert (front + [x])[n] == x;
    GroupPrefix(front, x, n);
    match x
    case GroupLine(g) => OpenedPrefix(front, x, n, g);
    case PairLine(k, _) => GivenPrefix(front, x, n, k);
    case _ =>
  }

  /** What one more line adds. */
  lemma OpenedSnoc(front: seq<LineKind>, x: LineKind, n: nat, g: string)
    requires n == |front| + 1
    ensures Opened(front + [x], n, g) <==> Opened(front, |front|, g) || x == GroupLine(g)
  {
    var all := front + [x];
    OpenedPrefix(front, x, |front|, g);
    assert all[|front|] == x;
    if Opened(all, |front|, g) {
      var i :| 0 <= i < |front| && all[i] == GroupLine(g);
      assert 0 <= i < n;
    }
  }

  lemma GroupSnoc(front: seq<LineKind>, x: LineKind, n: nat)
    requires n == |front| + 1
    ensures GroupBefore(front + [x], n) <==> GroupBefore(front, |front|) || x.GroupLine?
  {
    var all := front + [x];
    GroupPrefix(front, x, |front|);
    assert all[|front|] == x;
    if GroupBefore(all, |front|) {
      var i :| 0 <= i < |front| && all[i].GroupLine?;
      assert 0 <= i < n;
    }
  }

  lemma GivenSnoc(front: seq<LineKind>, x: LineKind, n: nat, k: string)
    requires n == |front| + 1
    ensures Given(front + [x], n, k) <==> !x.GroupLine? && (Given(front, |front|, k) || (x.PairLine? && x.key == k))
  {
    var all, m := front + [x], |front|;
    assert all[m] == x;
    GivenPrefix(front, x, m, k);
    if Given(all, n, k) {
      var i :| GivesAt(all, n, k, i);
      if i < m {
        assert GivesAt(all, m, k, i);
      }
    }
    if Given(all, m, k) && !x.GroupLine? {
      var i :| GivesAt(all, m, k, i);
      assert GivesAt(all, n, k, i);
    }
    if x.PairLine? && x.key == k {
      assert GivesAt(all, n, k, m);
    }
  }

  /** What the loader knows after one more line. */
  lemma KnowsNext(st: Load, front: seq<LineKind>, raw: string)
    requires Knows(st, front) && st.ok && LoadLine(st, raw).ok
    ensures Knows(LoadLine(st, raw), front + [KindOf(raw)])
  {
    hide KindOf, Opened, GroupBefore, Given, LoadLine;
    LoadIsKind(st, raw);
    var x, n: nat := KindOf(raw), |front| + 1;
    forall g ensures Opened(front + [x], n, g) <==> Opened(front, |front|, g) || x == GroupLine(g) {
      OpenedSnoc(front, x, n, g);
    }
    GroupSnoc(front, x, n);
    forall k ensures Given(front + [x], n, k) <==> !x.GroupLine? && (Given(front, |front|, k) || (x.PairLine? && x.key == k)) {
      GivenSnoc(front, x, n, k);
    }
    assert n == |front + [x]|;
  }

  lemma KindsSnoc(front: seq<string>, raw: string)
    ensures Kinds(front + [raw]) == Kinds(front) + [KindOf(raw)]
  {
  }

  lemma KnowsNothing()
    ensures Knows(Load0(map[]), Kinds([]))
  {
  }

  /** Lines load exactly if each is fit for its place. */
  lemma {:induction false} LinesLoadIff(lines: seq<string>)
    ensures LoadLines(Load0(map[]), lines).ok <==> AllFit(Kinds(lines))
    ensures LoadLines(Load0(map[]), lines).ok ==> Knows(LoadLines(Load0(map[]), lines), Kinds(lines))
    decreases |lines|
  {
    hide Knows, LoadLine, KindOf, FitAt;
    if lines == [] {
      KnowsNothing();
    } else {
      var front, raw := lines[..|lines| - 1], lines[|lines| - 1];
      assert lines == front + [raw];
      var st := LoadLines(Load0(map[]), front);
      LinesLoadIff(front);
      FoldSnoc(LoadLine, Load0(map[]), front, raw);
      KindsSnoc(front, raw);
      AllFitSnoc(Kinds(front), KindOf(raw));
      OnceFailed(st, raw);
      if st.ok {
        NextFits(st, Kinds(front), raw);
        if LoadLine(st, raw).ok {
          KnowsNext(st, Kinds(front), raw);
        }
      }
    }
  }

  /** What follows the last newline. */
  function LastPiece(bytes: string): string
    decreases |bytes|
  {
    var n := IndexOf(bytes, LF);
    if n == |bytes| then bytes else LastPiece(bytes[n + 1..])
  }

  lemma {:induction false} LinesStayFailed(st: Load, lines: seq<string>)
    requires !st.ok
    ensures !LoadLines(st, lines).ok
    decreases |lines|
  {
    if lines != [] {
      OnceFailed(st, lines[0]);
      LinesStayFailed(LoadLine(st, lines[0]), lines[1..]);
    }
  }

  lemma {:induction false} StreamLoadsIff(st: Load, bytes: string)
    requires st.ok
    ensures LoadStream(st, bytes).ok <==> LoadLines(st, CompleteLines(bytes)).ok && Clean(LastPiece(bytes)).Some?
    decreases |bytes|
  {
    var n := IndexOf(bytes, LF);
    hide LoadLine, Clean;
    if n == |bytes| {
      StreamEnd(st, bytes);
    } else {
      var line, rest := bytes[..n], bytes[n + 1..];
      var next := LoadLine(st, line);
      StreamCons(st, bytes);
      FoldCons(LoadLine, st, line, CompleteLines(rest));
      if next.ok {
        StreamLoadsIff(next, rest);
      } else {
        StreamFailed(next, rest);
        LinesStayFailed(next, CompleteLines(rest));
      }
    }
  }

  /** A file loads exactly if every line of it is fit for its place: well-formed, opening a group that no
      earlier line has opened, or giving the group opened last a key that it has not had since; and if no
      carriage return stands inside what follows the last newline. */
  lemma LoadsIff(bytes: string)
    ensures ReadStream(map[], bytes).ok <==> AllFit(Kinds(CompleteLines(bytes))) && Clean(LastPiece(bytes)).Some?
  {
    hide AllFit, LoadStream, ReadStream;
    ReadIsLineByLine(map[], bytes);
    StreamLoadsIff(Load0(map[]), bytes);
    LinesLoadIff(CompleteLines(bytes));
  }

  /** A file with one unfit line sends nothing at all. */
  lemma UnfitFileSendsNothing(blocks: seq<string>)
    requires !AllFit(Kinds(CompleteLines(Concat(blocks)))) || Clean(LastPiece(Concat(blocks))).None?
    ensures ControlsOf(Some(blocks)) == multiset{}
  {
    hide AllFit, ReadStream;
    LoadsIff(Concat(blocks));
  }

  /** From text to controls: a file that lays out a configuration sends each control that the
      configuration asks for once, and no other. */
  lemma LayoutControls(cfg: seq<Section>, raws: seq<string>, blocks: seq<string>, c: Control) returns (m: Model)
    requires ValidConfig(cfg) && LaidOut(raws, ConfigLines(cfg)) && Concat(blocks) == JoinLines(raws)
    ensures HasExactly(m, cfg)
    ensures ControlsOf(Some(blocks))[c] == if AskedFor(m, c) then 1 else 0
  {
    hide HasExactly, LaidOut, AskedFor, ReadStream, Wanted;
    m := ReadStream(map[], JoinLines(raws)).model;
    LayoutRoundTrip(cfg, raws);
    SentOnceIffAskedFor(m, c);
  }
}
