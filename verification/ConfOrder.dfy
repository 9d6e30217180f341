/**
 What a file defines, and that its order does not matter: for every byte stream that loads, with
 comments, blank and indented lines and trailing carriage returns, the table and the controls sent
 depend only on which groups have which pairs.
 */
module ConfOrder {
  import opened Wrappers
  import opened Folds
  import opened KeyTable
  import opened ConfText
  import opened ConfLoader
  import opened PerformanceConfig

  // ---------------------------------------------------------------------------------------
  // The definitions of a stream, in file order
  // ---------------------------------------------------------------------------------------

  /** The newline-terminated lines of a stream. */
  function CompleteLines(bytes: string): seq<string>
    decreases |bytes|
  {
    var n := IndexOf(bytes, LF);
    if n == |bytes| then [] else [bytes[..n]] + CompleteLines(bytes[n + 1..])
  }

  /** A group line opens a section, a pair line adds to the last one; other lines define nothing. */
  function AddDefinition(cfg: seq<Section>, kind: LineKind): seq<Section> {
    match kind
    case GroupLine(g) => cfg + [Section(g, [])]
    case PairLine(k, v) =>
      if cfg == [] then []
      else
        var n := |cfg| - 1;
        cfg[..n] + [Section(cfg[n].name, cfg[n].pairs + [(k, v)])]
    case _ => cfg
  }

  function DefineLine(cfg: seq<Section>, raw: string): seq<Section> {
    if Clean(raw).None? then cfg else AddDefinition(cfg, Classify(Clean(raw).value))
  }

  function Definitions(bytes: string): seq<Section> {
    Fold(DefineLine, [], CompleteLines(bytes))
  }

  // ---------------------------------------------------------------------------------------
  // A stream that loads holds exactly its definitions
  // ---------------------------------------------------------------------------------------

  ghost predicate DistinctNames(cfg: seq<Section>) {
    forall i, j :: 0 <= i < j < |cfg| ==> cfg[i].name != cfg[j].name
  }

  /** The table holds exactly the definitions so far, and the current group is the last one. */
  ghost predicate Tracks(st: Load, cfg: seq<Section>) {
    && DistinctNames(cfg) && HasExactly(st.model, cfg)
    && st.cur == if cfg == [] then None else Some(cfg[|cfg| - 1].name)
  }

  lemma GroupTracked(st: Load, cfg: seq<Section>, g: string)
    requires Tracks(st, cfg) && g !in st.model
    ensures Tracks(Load(st.model[g := map[]], Some(g), st.ok), cfg + [Section(g, [])])
  {
    var after, all := st.model[g := map[]], cfg + [Section(g, [])];
    forall h | h in after ensures exists i :: 0 <= i < |all| && all[i].name == h {
      if h == g {
        assert all[|cfg|].name == h;
      } else {
        var i :| 0 <= i < |cfg| && cfg[i].name == h;
        assert all[i].name == h;
      }
    }
  }

  /** Adding a pair changes the pairs of the last section only. */
  ghost predicate LastGains(cfg: seq<Section>, all: seq<Section>, p: (string, string)) {
    && |all| == |cfg| > 0
    && (forall i :: 0 <= i < |cfg| ==> all[i].name == cfg[i].name)
    && (forall i :: 0 <= i < |cfg| - 1 ==> all[i].pairs == cfg[i].pairs)
    && all[|cfg| - 1].pairs == cfg[|cfg| - 1].pairs + [p]
  }

  lemma LastGainsNames(m: Model, cfg: seq<Section>, all: seq<Section>, p: (string, string))
    requires LastGains(cfg, all, p) && DistinctNames(cfg) && HasExactly(m, cfg)
    ensures DistinctNames(all) && forall h :: h in m ==> exists i :: 0 <= i < |all| && all[i].name == h
  {
    hide HasExactlyPairs;
    forall h | h in m ensures exists i :: 0 <= i < |all| && all[i].name == h {
      var i :| 0 <= i < |cfg| && cfg[i].name == h;
      assert all[i].name == h;
    }
  }

  lemma LastGainsPairs(m: Model, cfg: seq<Section>, all: seq<Section>, g: string, p: (string, string), i: nat)
    requires LastGains(cfg, all, p) && DistinctNames(cfg) && HasExactly(m, cfg) && i < |all|
    requires g == cfg[|cfg| - 1].name && g in m && p.0 !in m[g]
    ensures all[i].name in m && HasExactlyPairs(m[g := m[g][p.0 := p.1]][all[i].name], all[i].pairs)
  {
    assert cfg[i].name in m && HasExactlyPairs(m[cfg[i].name], cfg[i].pairs);
    if i == |cfg| - 1 {
      ExactSnoc(m[g], cfg[i].pairs, p);
    }
  }

  lemma LastGainsExact(m: Model, cfg: seq<Section>, all: seq<Section>, g: string, p: (string, string))
    requires LastGains(cfg, all, p) && DistinctNames(cfg) && HasExactly(m, cfg)
    requires g == cfg[|cfg| - 1].name && g in m && p.0 !in m[g]
    ensures DistinctNames(all) && HasExactly(m[g := m[g][p.0 := p.1]], all)
  {
    hide LastGains, HasExactlyPairs, DistinctNames;
    LastGainsNames(m, cfg, all, p);
    forall i | 0 <= i < |all|
      ensures all[i].name in m && HasExactlyPairs(m[g := m[g][p.0 := p.1]][all[i].name], all[i].pairs)
    {
      LastGainsPairs(m, cfg, all, g, p, i);
    }
  }

  lemma PairTracked(st: Load, cfg: seq<Section>, k: string, v: string)
    requires Tracks(st, cfg) && cfg != [] && st.cur.value in st.model && k !in st.model[st.cur.value]
    ensures var g := st.cur.value;
      Tracks(st.(model := st.model[g := st.model[g][k := v]]), AddDefinition(cfg, PairLine(k, v)))
  {
    hide HasExactly, DistinctNames;
    LastGainsExact(st.model, cfg, AddDefinition(cfg, PairLine(k, v)), st.cur.value, (k, v));
  }

  /** A line that loads defines in the table what it defines in the list. */
  lemma LineTracked(st: Load, cfg: seq<Section>, raw: string)
    requires Tracks(st, cfg) && LoadLine(st, raw).ok
    ensures st.ok && Tracks(LoadLine(st, raw), DefineLine(cfg, raw))
  {
    hide Classify;
    match Classify(Clean(raw).value)
    case GroupLine(g) => GroupTracked(st, cfg, g);
    case PairLine(k, v) =>
      PairTracked(st, cfg, k, v);
    case _ =>
  }

  lemma {:induction false} LinesTracked(lines: seq<string>)
    requires LoadLines(Load0(map[]), lines).ok
    ensures Tracks(LoadLines(Load0(map[]), lines), Fold(DefineLine, [], lines))
    decreases |lines|
  {
    if lines != [] {
      hide Tracks, LoadLine, DefineLine;
      var front, last := lines[..|lines| - 1], lines[|lines| - 1];
      assert lines == front + [last];
      FoldSnoc(LoadLine, Load0(map[]), front, last);
      FoldSnoc(DefineLine, [], front, last);
      OnceFailed(LoadLines(Load0(map[]), front), last);
      LinesTracked(front);
      LineTracked(LoadLines(Load0(map[]), front), Fold(DefineLine, [], front), last);
    }
  }

  lemma OnceFailed(st: Load, raw: string)
    ensures LoadLine(st, raw).ok ==> st.ok
  {
  }

  /** A stream that loads has the effect of its complete lines. */
  lemma {:induction false} StreamIsLines(st: Load, bytes: string)
    requires LoadStream(st, bytes).ok
    ensures LoadStream(st, bytes) == LoadLines(st, CompleteLines(bytes))
    decreases |bytes|
  {
    var n := IndexOf(bytes, LF);
    OnceFailedStream(st, bytes);
    if n < |bytes| {
      hide LoadLine;
      var line, rest := bytes[..n], bytes[n + 1..];
      StreamCons(st, bytes);
      StreamIsLines(LoadLine(st, line), rest);
      FoldCons(LoadLine, st, line, CompleteLines(rest));
    } else {
      StreamEnd(st, bytes);
    }
  }

  lemma OnceFailedStream(st: Load, bytes: string)
    ensures LoadStream(st, bytes).ok ==> st.ok
  {
  }

  /** The table of a file that loads has exactly the groups and pairs that its lines define. */
  lemma LoadedIsDefined(bytes: string)
    requires ReadStream(map[], bytes).ok
    ensures HasExactly(ReadStream(map[], bytes).model, Definitions(bytes))
  {
    ReadIsLineByLine(map[], bytes);
    StreamIsLines(Load0(map[]), bytes);
    LinesTracked(CompleteLines(bytes));
  }

  // ---------------------------------------------------------------------------------------
  // Order
  // ---------------------------------------------------------------------------------------

  ghost predicate SamePairs(p: seq<(string, string)>, q: seq<(string, string)>) {
    forall x :: x in p <==> x in q
  }

  /** Every section of one list has a section of the other with its name and its pairs. */
  ghost predicate Within(a: seq<Section>, b: seq<Section>) {
    forall i :: 0 <= i < |a| ==> HasSection(b, a[i])
  }

  ghost predicate HasSection(b: seq<Section>, s: Section) {
    exists j :: 0 <= j < |b| && b[j].name == s.name && SamePairs(s.pairs, b[j].pairs)
  }

  /** The same groups with the same pairs, in any order. */
  ghost predicate SameDefinitions(a: seq<Section>, b: seq<Section>) {
    Within(a, b) && Within(b, a)
  }

  ghost predicate Included<K, V>(m: map<K, V>, n: map<K, V>) {
    forall k :: k in m ==> k in n && n[k] == m[k]
  }

  lemma SameMap<K, V>(m: map<K, V>, n: map<K, V>)
    requires Included(m, n) && Included(n, m)
    ensures m == n
  {
  }

  lemma PairsIncluded(m: Pairs, n: Pairs, p: seq<(string, string)>, q: seq<(string, string)>)
    requires HasExactlyPairs(m, p) && HasExactlyPairs(n, q) && SamePairs(p, q)
    ensures Included(m, n)
  {
    forall k | k in m ensures k in n && n[k] == m[k] {
      var i :| 0 <= i < |p| && p[i].0 == k;
      assert p[i] in p && p[i] in q;
      var j :| 0 <= j < |q| && q[j] == p[i];
    }
  }

  lemma ModelIncluded(m: Model, n: Model, a: seq<Section>, b: seq<Section>)
    requires HasExactly(m, a) && HasExactly(n, b) && Within(a, b)
    ensures Included(m, n)
  {
    forall g | g in m ensures g in n && n[g] == m[g] {
      var i :| 0 <= i < |a| && a[i].name == g;
      assert HasSection(b, a[i]);
      var j :| 0 <= j < |b| && b[j].name == a[i].name && SamePairs(a[i].pairs, b[j].pairs);
      PairsIncluded(m[g], n[g], a[i].pairs, b[j].pairs);
      PairsIncluded(n[g], m[g], b[j].pairs, a[i].pairs);
      SameMap(m[g], n[g]);
    }
  }

  lemma OnePairs(m: Pairs, p: seq<(string, string)>, q: seq<(string, string)>)
    requires HasExactlyPairs(m, p) && HasExactlyPairs(m, q)
    ensures forall x :: x in p ==> x in q
  {
    forall x | x in p ensures x in q {
      var i :| 0 <= i < |p| && p[i] == x;
      var j :| 0 <= j < |q| && q[j].0 == p[i].0;
      assert q[j] == x;
    }
  }

  lemma OneModel(m: Model, a: seq<Section>, b: seq<Section>)
    requires HasExactly(m, a) && HasExactly(m, b)
    ensures Within(a, b)
  {
    forall i | 0 <= i < |a| ensures HasSection(b, a[i]) {
      var j :| 0 <= j < |b| && b[j].name == a[i].name;
      OnePairs(m[a[i].name], a[i].pairs, b[j].pairs);
      OnePairs(m[a[i].name], b[j].pairs, a[i].pairs);
    }
  }

  /** Two tables are the same exactly when their definitions are, up to order. */
  lemma SameModelIff(m: Model, n: Model, a: seq<Section>, b: seq<Section>)
    requires HasExactly(m, a) && HasExactly(n, b)
    ensures m == n <==> SameDefinitions(a, b)
  {
    hide HasExactly, Within, Included;
    if SameDefinitions(a, b) {
      ModelIncluded(m, n, a, b);
      ModelIncluded(n, m, b, a);
      SameMap(m, n);
    }
    if m == n {
      OneModel(m, a, b);
      OneModel(m, b, a);
    }
  }

  /** For all files that load: they give the same table if and only if they define the same groups and
      pairs, in whatever order, and then they send the same controls. */
  lemma OrderDoesNotMatter(one: seq<string>, two: seq<string>)
    requires ReadStream(map[], Concat(one)).ok && ReadStream(map[], Concat(two)).ok
    ensures ReadStream(map[], Concat(one)).model == ReadStream(map[], Concat(two)).model
       <==> SameDefinitions(Definitions(Concat(one)), Definitions(Concat(two)))
    ensures SameDefinitions(Definitions(Concat(one)), Definitions(Concat(two)))
        ==> ControlsOf(Some(one)) == ControlsOf(Some(two))
  {
    hide ReadStream, HasExactly, SameDefinitions, Definitions, Wanted;
    LoadedIsDefined(Concat(one));
    LoadedIsDefined(Concat(two));
    SameModelIff(ReadStream(map[], Concat(one)).model, ReadStream(map[], Concat(two)).model,
                 Definitions(Concat(one)), Definitions(Concat(two)));
  }

  /** A rendered configuration defines exactly what it renders. */
  lemma RenderedDefinitions(cfg: seq<Section>)
    requires ValidConfig(cfg)
    ensures SameDefinitions(Definitions(Render(cfg)), cfg)
  {
    hide HasExactly, SameDefinitions;
    RoundTrip(cfg);
    LoadedIsDefined(Render(cfg));
    var m := ReadStream(map[], Render(cfg)).model;
    SameModelIff(m, m, Definitions(Render(cfg)), cfg);
  }
}
