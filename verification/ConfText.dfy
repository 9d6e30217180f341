/**
 What the text of a configuration file means: which lines define what, how a byte stream breaks
 into lines, and the round trip from a configuration to text and back.
 */
module ConfText {
  import opened Wrappers
  import opened Folds
  import opened KeyTable

  // ---------------------------------------------------------------------------------------
  // Characters ("C" locale)
  // ---------------------------------------------------------------------------------------

  const NUL: char := 0 as char
  const CR: char := 13 as char
  const LF: char := 10 as char

  predicate IsAlnum(c: char) {
    '0' <= c <= '9' || 'A' <= c <= 'Z' || 'a' <= c <= 'z'
  }

  predicate IsSpace(c: char) {
    c == ' ' || 9 as char <= c <= 13 as char
  }

  predicate IsBlank(c: char) {
    c == ' ' || c == '\t'
  }

  predicate AllAlnum(s: string) {
    forall i :: 0 <= i < |s| ==> IsAlnum(s[i])
  }

  predicate AllBlank(s: string) {
    forall i :: 0 <= i < |s| ==> IsBlank(s[i])
  }

  /** Position of the first c, or the length of the string. */
  function IndexOf(s: string, c: char): (n: nat)
    ensures n <= |s| && forall i :: 0 <= i < n ==> s[i] != c
    ensures n < |s| ==> s[n] == c
  {
    if s == "" || s[0] == c then 0 else 1 + IndexOf(s[1..], c)
  }

  lemma IndexOfUnique(s: string, c: char, n: nat)
    requires n <= |s| && (forall i :: 0 <= i < n ==> s[i] != c) && (n < |s| ==> s[n] == c)
    ensures IndexOf(s, c) == n
  {
  }

  // ---------------------------------------------------------------------------------------
  // Lines
  // ---------------------------------------------------------------------------------------

  /** A group line: the name in brackets, then blanks only. */
  ghost predicate IsGroupLine(s: string, name: string) {
    && name != "" && AllAlnum(name)
    && |s| >= |name| + 2
    && s[..|name| + 2] == "[" + name + "]"
    && AllBlank(s[|name| + 2..])
  }

  /** A pair line: an alphanumeric key, '=' and the value as it stands. */
  ghost predicate IsPairLine(s: string, key: string, value: string) {
    key != "" && AllAlnum(key) && s == key + "=" + value
  }

  function GroupOf(s: string): Option<string> {
    if s == "" || s[0] != '[' then None
    else
      var end := IndexOf(s, ']');
      if end == |s| || !AllBlank(s[end + 1..]) then None
      else if end > 1 && AllAlnum(s[1..end]) then Some(s[1..end])
      else None
  }

  function PairOf(s: string): Option<(string, string)> {
    var eq := IndexOf(s, '=');
    if eq == |s| || eq == 0 || !AllAlnum(s[..eq]) then None
    else Some((s[..eq], s[eq + 1..]))
  }

  lemma GroupLineIsFound(s: string, name: string)
    requires IsGroupLine(s, name)
    ensures GroupOf(s) == Some(name)
  {
    var end, head := |name| + 1, "[" + name + "]";
    assert s[..end + 1] == head;
    forall i | 0 <= i < |head| ensures s[i] == head[i] {
      assert s[i] == s[..end + 1][i];
    }
    forall i | 0 <= i < end ensures s[i] != ']' {
      assert i > 0 ==> head[i] == name[i - 1] && IsAlnum(name[i - 1]);
    }
    IndexOfUnique(s, ']', end);
    assert s[1..end] == name by {
      assert forall i :: 0 <= i < |name| ==> s[1..end][i] == head[i + 1] == name[i];
    }
  }

  lemma GroupOfIsGroupLine(s: string, name: string)
    ensures GroupOf(s) == Some(name) <==> IsGroupLine(s, name)
  {
    if IsGroupLine(s, name) {
      GroupLineIsFound(s, name);
    }
    if GroupOf(s) == Some(name) {
      var end := IndexOf(s, ']');
      assert name == s[1..end] && |name| + 2 == end + 1;
      assert s[..end + 1] == "[" + name + "]";
    }
  }

  lemma PairOfIsPairLine(s: string, key: string, value: string)
    ensures PairOf(s) == Some((key, value)) <==> IsPairLine(s, key, value)
  {
    if IsPairLine(s, key, value) {
      var eq := |key|;
      assert s[..eq] == key && s[eq] == '=' && s[eq + 1..] == value;
      IndexOfUnique(s, '=', eq);
    }
    if PairOf(s) == Some((key, value)) {
      var eq := IndexOf(s, '=');
      assert s == s[..eq] + "=" + s[eq + 1..];
    }
  }

  /** The bytes of a line up to its first NUL. */
  function CString(line: string): (s: string)
    ensures NUL !in s
  {
    line[..IndexOf(line, NUL)]
  }

  function SkipSpace(s: string): (t: string)
    ensures |t| <= |s| && t == s[|s| - |t|..]
  {
    if s != "" && IsSpace(s[0]) then SkipSpace(s[1..]) else s
  }

  datatype LineKind = Comment | GroupLine(name: string) | PairLine(key: string, value: string) | Malformed

  function Classify(line: string): LineKind {
    var s := SkipSpace(CString(line));
    if s == "" || s[0] == '#' then Comment
    else if GroupOf(s).Some? then GroupLine(GroupOf(s).value)
    else if PairOf(s).Some? then PairLine(PairOf(s).value.0, PairOf(s).value.1)
    else Malformed
  }

  /** What has been loaded so far: the table, the current group, and whether all went well. */
  datatype Load = Load(model: Model, cur: Option<string>, ok: bool)

  function Fail(st: Load): Load {
    st.(ok := false)
  }

  function Step(st: Load, line: string): Load {
    match Classify(line)
    case Comment => st
    case GroupLine(g) =>
      if g in st.model then Fail(st) else Load(st.model[g := map[]], Some(g), st.ok)
    case PairLine(k, v) =>
      if st.cur.None? || st.cur.value !in st.model || k in st.model[st.cur.value] then Fail(st)
      else st.(model := st.model[st.cur.value := st.model[st.cur.value][k := v]])
    case Malformed => Fail(st)
  }

  // ---------------------------------------------------------------------------------------
  // Streams, byte by byte
  // ---------------------------------------------------------------------------------------

  /** The reader between two bytes: the line collected so far and whether it has had a CR. */
  datatype Reader = Reader(load: Load, line: string, cr: bool)

  function FeedByte(r: Reader, c: char): Reader {
    if c == LF then Reader(Step(r.load, r.line), "", false)
    else if c == CR then r.(cr := true)
    else if r.cr then r.(load := Fail(r.load))
    else r.(line := r.line + [c])
  }

  /** The reader stops at the first failure. */
  function FeedAll(r: Reader, bytes: string): Reader
    decreases |bytes|
  {
    if bytes == "" || !r.load.ok then r else FeedAll(FeedByte(r, bytes[0]), bytes[1..])
  }

  lemma {:induction false} FeedAppend(r: Reader, a: string, b: string)
    ensures FeedAll(r, a + b) == FeedAll(FeedAll(r, a), b)
    decreases |a|
  {
    if a == "" {
      assert a + b == b;
    } else if r.load.ok {
      assert (a + b)[1..] == a[1..] + b;
      FeedAppend(FeedByte(r, a[0]), a[1..], b);
    }
  }

  // ---------------------------------------------------------------------------------------
  // Streams, line by line
  // ---------------------------------------------------------------------------------------

  /** A raw line may end in carriage returns; one anywhere else spoils the line. */
  function Clean(raw: string): Option<string> {
    var n := IndexOf(raw, CR);
    if forall i :: n <= i < |raw| ==> raw[i] == CR then Some(raw[..n]) else None
  }

  function LoadLine(st: Load, raw: string): Load {
    if Clean(raw).None? then Fail(st) else Step(st, Clean(raw).value)
  }

  /** The newline-terminated lines of a stream, in order, loaded until one fails; what follows the
      last newline defines nothing but must not be spoilt. */
  function LoadStream(st: Load, bytes: string): Load
    decreases |bytes|
  {
    var n := IndexOf(bytes, LF);
    if !st.ok then st
    else if n == |bytes| then (if Clean(bytes).None? then Fail(st) else st)
    else LoadStream(LoadLine(st, bytes[..n]), bytes[n + 1..])
  }

  /** What the reader holds after the bytes of an unfinished, unspoilt line. */
  ghost predicate Holds(r: Reader, raw: string) {
    && LF !in raw && CR !in r.line
    && r.line <= raw
    && (forall i :: |r.line| <= i < |raw| ==> raw[i] == CR)
    && (r.cr <==> |r.line| < |raw|)
  }

  lemma HoldsClean(r: Reader, raw: string)
    requires Holds(r, raw)
    ensures Clean(raw) == Some(r.line)
  {
    IndexOfUnique(raw, CR, |r.line|);
    assert raw[..|r.line|] == r.line;
  }

  /** One more byte: the line grows or is spoilt. */
  lemma CleanSnoc(r: Reader, raw: string, c: char)
    requires Holds(r, raw) && c != LF
    ensures r.cr && c != CR ==> Clean(raw + [c]).None?
    ensures !(r.cr && c != CR) ==> Holds(FeedByte(r, c), raw + [c])
  {
    if r.cr && c != CR {
      IndexOfUnique(raw + [c], CR, |r.line|);
      assert (raw + [c])[|raw|] == c;
    }
  }

  /** Once spoilt, an unfinished line stays spoilt. */
  lemma SpoiltStays(raw: string, more: string)
    requires Clean(raw).None?
    ensures Clean(raw + more).None?
  {
    var n := IndexOf(raw, CR);
    var i :| n <= i < |raw| && raw[i] != CR;
    assert (raw + more)[..n] == raw[..n];
    IndexOfUnique(raw + more, CR, n);
    assert (raw + more)[i] == raw[i];
  }

  function FirstLine(bytes: string): string {
    bytes[..IndexOf(bytes, LF)]
  }

  lemma StreamCons(st: Load, bytes: string)
    requires st.ok && IndexOf(bytes, LF) < |bytes|
    ensures LoadStream(st, bytes) == LoadStream(LoadLine(st, FirstLine(bytes)), bytes[IndexOf(bytes, LF) + 1..])
    ensures bytes == FirstLine(bytes) + [LF] + bytes[IndexOf(bytes, LF) + 1..]
  {
    LineAndRest(bytes);
    hide LoadLine, Clean, Fail;
  }

  lemma LineAndRest(bytes: string)
    requires IndexOf(bytes, LF) < |bytes|
    ensures bytes == FirstLine(bytes) + [LF] + bytes[IndexOf(bytes, LF) + 1..]
  {
    hide IndexOf;
    SplitAt(bytes, IndexOf(bytes, LF));
  }

  lemma SplitAt(s: string, n: nat)
    requires n < |s|
    ensures s == s[..n] + [s[n]] + s[n + 1..]
  {
  }

  lemma StreamEnd(st: Load, bytes: string)
    requires st.ok && IndexOf(bytes, LF) == |bytes|
    ensures LoadStream(st, bytes) == if Clean(bytes).None? then Fail(st) else st
    ensures FirstLine(bytes) == bytes
  {
  }

  lemma StreamFailed(st: Load, bytes: string)
    requires !st.ok
    ensures LoadStream(st, bytes) == st
  {
  }

  lemma FirstLineOf(raw: string, bytes: string)
    requires LF !in raw
    ensures IndexOf(raw + bytes, LF) == |raw| + IndexOf(bytes, LF)
    ensures FirstLine(raw + bytes) == raw + FirstLine(bytes)
  {
    var n, all := IndexOf(bytes, LF), raw + bytes;
    IndexOfUnique(all, LF, |raw| + n);
    assert all[..|raw| + n] == raw + bytes[..n];
  }

  /** A stream that starts with a complete line. */
  lemma StreamSplits(st: Load, raw: string, bytes: string)
    requires LF !in raw && st.ok
    ensures LoadStream(st, raw + [LF] + bytes) == LoadStream(LoadLine(st, raw), bytes)
  {
    var all, tail := raw + [LF] + bytes, [LF] + bytes;
    assert all == raw + tail;
    IndexOfUnique(tail, LF, 0);
    FirstLineOf(raw, tail);
    assert FirstLine(tail) == "" && raw + "" == raw;
    StreamCons(st, all);
    assert all[|raw| + 1..] == bytes;
  }

  /** A stream whose first line is already spoilt. */
  lemma StreamSpoilt(st: Load, raw: string, bytes: string)
    requires LF !in raw && st.ok && Clean(raw).None?
    ensures LoadStream(st, raw + bytes) == Fail(st)
  {
    var all := raw + bytes;
    FirstLineOf(raw, bytes);
    SpoiltStays(raw, FirstLine(bytes));
    if IndexOf(all, LF) < |all| {
      StreamCons(st, all);
      StreamFailed(Fail(st), all[IndexOf(all, LF) + 1..]);
    } else {
      StreamEnd(st, all);
    }
  }

  /** The reader's outcome is the line-by-line outcome, wherever in a line it is resumed. */
  lemma {:induction false} ReaderIsStream(r: Reader, raw: string, bytes: string)
    requires r.load.ok && Holds(r, raw)
    ensures FeedAll(r, bytes).load == LoadStream(r.load, raw + bytes)
    decreases |bytes|
  {
    HoldsClean(r, raw);
    if bytes == "" {
      assert raw + bytes == raw;
      IndexOfUnique(raw, LF, |raw|);
    } else {
      var c, rest := bytes[0], bytes[1..];
      assert bytes == [c] + rest;
      if c == LF {
        assert raw + bytes == raw + [LF] + rest;
        StreamSplits(r.load, raw, rest);
        var next := FeedByte(r, c);
        if next.load.ok {
          ReaderIsStream(next, "", rest);
          assert "" + rest == rest;
        }
      } else {
        CleanSnoc(r, raw, c);
        assert raw + bytes == (raw + [c]) + rest;
        if r.cr && c != CR {
          StreamSpoilt(r.load, raw + [c], rest);
        } else {
          ReaderIsStream(FeedByte(r, c), raw + [c], rest);
        }
      }
    }
  }

  /** Reading from the start of a stream. */
  function Load0(model: Model): Load {
    Load(model, None, true)
  }

  function ReadStream(model: Model, bytes: string): Load {
    FeedAll(Reader(Load0(model), "", false), bytes).load
  }

  /** The byte-wise reader equals loading the newline-terminated lines one by one. */
  lemma ReadIsLineByLine(model: Model, bytes: string)
    ensures ReadStream(model, bytes) == LoadStream(Load0(model), bytes)
  {
    ReaderIsStream(Reader(Load0(model), "", false), "", bytes);
    assert "" + bytes == bytes;
  }

  // ---------------------------------------------------------------------------------------
  // Failure
  // ---------------------------------------------------------------------------------------

  function JoinLines(lines: seq<string>): string {
    if lines == [] then "" else lines[0] + [LF] + JoinLines(lines[1..])
  }

  /** The fold over complete lines, without stopping early. */
  function LoadLines(st: Load, lines: seq<string>): Load {
    Fold(LoadLine, st, lines)
  }

  ghost predicate Complete(lines: seq<string>) {
    forall i :: 0 <= i < |lines| ==> LF !in lines[i]
  }

  lemma JoinCons(line: string, tail: seq<string>, rest: string)
    ensures JoinLines([line] + tail) + rest == line + [LF] + (JoinLines(tail) + rest)
  {
    assert ([line] + tail)[1..] == tail;
  }

  /** When loading fails, the stream splits into complete lines that load and a rest whose first
      line is bad, and the table holds exactly what the former define. */
  lemma {:induction false} FailureKeepsPrefix(st: Load, bytes: string) returns (good: seq<string>, rest: string)
    requires st.ok && !LoadStream(st, bytes).ok
    ensures Complete(good) && bytes == JoinLines(good) + rest
    ensures LoadLines(st, good).ok && !LoadLine(LoadLines(st, good), FirstLine(rest)).ok
    ensures LoadStream(st, bytes).model == LoadLines(st, good).model
    decreases |bytes|
  {
    hide LoadLine, Clean, LoadStream;
    var n, line := IndexOf(bytes, LF), FirstLine(bytes);
    var after := LoadLine(st, line);
    if n == |bytes| || !after.ok {
      good, rest := [], bytes;
      if n == |bytes| {
        StreamEnd(st, bytes);
      } else {
        StreamCons(st, bytes);
        StreamFailed(after, bytes[n + 1..]);
      }
      BadLineKeepsModel(st, line);
    } else {
      var tail;
      StreamCons(st, bytes);
      tail, rest := FailureKeepsPrefix(after, bytes[n + 1..]);
      good := [line] + tail;
      assert good[1..] == tail;
      JoinCons(line, tail, rest);
    }
  }

  /** A bad line changes nothing but the verdict. */
  lemma BadLineKeepsModel(st: Load, line: string)
    ensures !LoadLine(st, line).ok && st.ok ==> LoadLine(st, line) == Fail(st)
    ensures Clean(line).None? ==> !LoadLine(st, line).ok
  {
  }

  // ---------------------------------------------------------------------------------------
  // Round trip
  // ---------------------------------------------------------------------------------------

  datatype Section = Section(name: string, pairs: seq<(string, string)>)

  function PairText(p: (string, string)): string {
    p.0 + "=" + p.1
  }

  function PairTexts(pairs: seq<(string, string)>): seq<string> {
    seq(|pairs|, i requires 0 <= i < |pairs| => PairText(pairs[i]))
  }

  function GroupText(name: string): string {
    "[" + name + "]"
  }

  function SectionLines(s: Section): seq<string> {
    [GroupText(s.name)] + PairTexts(s.pairs)
  }

  function ConfigLines(cfg: seq<Section>): seq<string> {
    if cfg == [] then [] else SectionLines(cfg[0]) + ConfigLines(cfg[1..])
  }

  /** A configuration as text: `[group]` and `key=value` lines. */
  function Render(cfg: seq<Section>): string {
    JoinLines(ConfigLines(cfg))
  }

  predicate ValidName(s: string) {
    s != "" && AllAlnum(s)
  }

  predicate ValidValue(v: string) {
    LF !in v && CR !in v && NUL !in v
  }

  ghost predicate ValidPairs(pairs: seq<(string, string)>) {
    && (forall i :: 0 <= i < |pairs| ==> ValidName(pairs[i].0) && ValidValue(pairs[i].1))
    && (forall i, j :: 0 <= i < j < |pairs| ==> pairs[i].0 != pairs[j].0)
  }

  ghost predicate ValidSection(s: Section) {
    ValidName(s.name) && ValidPairs(s.pairs)
  }

  ghost predicate ValidConfig(cfg: seq<Section>) {
    && (forall i :: 0 <= i < |cfg| ==> ValidSection(cfg[i]))
    && (forall i, j :: 0 <= i < j < |cfg| ==> cfg[i].name != cfg[j].name)
  }

  /** The table has these pairs and no others. */
  ghost predicate HasExactlyPairs(m: Pairs, pairs: seq<(string, string)>) {
    && (forall i :: 0 <= i < |pairs| ==> pairs[i].0 in m && m[pairs[i].0] == pairs[i].1)
    && (forall k :: k in m ==> exists i :: 0 <= i < |pairs| && pairs[i].0 == k)
  }

  /** The table has these groups with these pairs and nothing else. */
  ghost predicate HasExactly(m: Model, cfg: seq<Section>) {
    && (forall i :: 0 <= i < |cfg| ==> cfg[i].name in m && HasExactlyPairs(m[cfg[i].name], cfg[i].pairs))
    && (forall g :: g in m ==> exists i :: 0 <= i < |cfg| && cfg[i].name == g)
  }

  lemma AlnumIsPlain(s: string)
    requires AllAlnum(s)
    ensures LF !in s && CR !in s && NUL !in s && '[' !in s && '#' !in s
    ensures s != "" ==> !IsSpace(s[0])
  {
  }

  /** A line without NUL, LF or CR that does not start with a space is read as it stands. */
  lemma PlainLine(st: Load, s: string)
    requires s != "" && !IsSpace(s[0]) && ValidValue(s)
    ensures Clean(s) == Some(s) && SkipSpace(CString(s)) == s && LoadLine(st, s) == Step(st, s)
  {
    assert s[..|s|] == s;
    IndexOfUnique(s, CR, |s|);
    IndexOfUnique(s, NUL, |s|);
  }

  lemma GroupTextLoads(st: Load, name: string)
    requires ValidName(name) && name !in st.model
    ensures LoadLine(st, GroupText(name)) == Load(st.model[name := map[]], Some(name), st.ok)
  {
    var s := "[" + name + "]";
    AlnumIsPlain(name);
    PlainLine(st, s);
    assert s[..|name| + 2] == s;
    GroupOfIsGroupLine(s, name);
  }

  lemma PairTextLoads(st: Load, k: string, v: string)
    requires ValidName(k) && ValidValue(v)
    requires st.cur.Some? && st.cur.value in st.model && k !in st.model[st.cur.value]
    ensures LoadLine(st, k + "=" + v)
         == st.(model := st.model[st.cur.value := st.model[st.cur.value][k := v]])
  {
    var s := k + "=" + v;
    AlnumIsPlain(k);
    assert s[0] == k[0] && k[0] in k;
    PlainLine(st, s);
    PairOfIsPairLine(s, k, v);
    assert GroupOf(s).None?;
  }

  /** From st on, exactly these pairs have been added to the current, initially empty group. */
  ghost predicate GroupFilled(st: Load, after: Load, name: string, pairs: seq<(string, string)>) {
    && after.ok == st.ok && after.cur == Some(name)
    && after.model.Keys == st.model.Keys && name in after.model
    && HasExactlyPairs(after.model[name], pairs)
    && (forall g :: g in st.model && g != name ==> after.model[g] == st.model[g])
  }

  /** The line loader reads a `key=value` line as a new pair of the current group ... */
  ghost predicate ReadsPairs(load: (Load, string) -> Load) {
    forall st: Load, p: (string, string) ::
      ValidName(p.0) && ValidValue(p.1)
      && st.cur.Some? && st.cur.value in st.model && p.0 !in st.model[st.cur.value]
      ==>
      load(st, PairText(p)) == st.(model := st.model[st.cur.value := st.model[st.cur.value][p.0 := p.1]])
  }

  /** ... and a `[group]` line as a new, empty, current group. */
  ghost predicate ReadsGroups(load: (Load, string) -> Load) {
    forall st: Load, name: string :: ValidName(name) && name !in st.model ==>
      load(st, GroupText(name)) == Load(st.model[name := map[]], Some(name), st.ok)
  }

  lemma FillOne(load: (Load, string) -> Load, st: Load, before: Load, name: string, front: seq<(string, string)>, p: (string, string))
    requires ReadsPairs(load)
    requires GroupFilled(st, before, name, front) && ValidName(p.0) && ValidValue(p.1)
    requires forall i :: 0 <= i < |front| ==> front[i].0 != p.0
    ensures GroupFilled(st, load(before, PairText(p)), name, front + [p])
  {
    ExactSnoc(before.model[name], front, p);
  }

  lemma PairTextsSnoc(front: seq<(string, string)>, p: (string, string))
    ensures PairTexts(front + [p]) == PairTexts(front) + [PairText(p)]
  {
  }

  /** Loading the pair lines of a section fills its group. */
  lemma {:induction false} PairsLoad(load: (Load, string) -> Load, st: Load, name: string, pairs: seq<(string, string)>)
    requires ReadsPairs(load) && ValidPairs(pairs)
    requires st.cur == Some(name) && name in st.model && st.model[name] == map[]
    ensures GroupFilled(st, Fold(load, st, PairTexts(pairs)), name, pairs)
    decreases |pairs|
  {
    if pairs != [] {
      var front, p := pairs[..|pairs| - 1], pairs[|pairs| - 1];
      assert pairs == front + [p];
      PairsLoad(load, st, name, front);
      PairTextsSnoc(front, p);
      FoldSnoc(load, st, PairTexts(front), PairText(p));
      FillOne(load, st, Fold(load, st, PairTexts(front)), name, front, p);
    }
  }

  lemma ExactSnoc(m: Pairs, pairs: seq<(string, string)>, p: (string, string))
    requires HasExactlyPairs(m, pairs) && p.0 !in m
    ensures HasExactlyPairs(m[p.0 := p.1], pairs + [p])
  {
    var all, after := pairs + [p], m[p.0 := p.1];
    forall k | k in after ensures exists i :: 0 <= i < |all| && all[i].0 == k {
      if k == p.0 {
        assert all[|pairs|].0 == k;
      } else {
        var i :| 0 <= i < |pairs| && pairs[i].0 == k;
        assert all[i].0 == k;
      }
    }
  }

  /** From st on, a new group with exactly these pairs has been added. */
  ghost predicate SectionAdded(st: Load, after: Load, s: Section) {
    && after.ok && after.model.Keys == st.model.Keys + {s.name}
    && HasExactlyPairs(after.model[s.name], s.pairs)
    && (forall g :: g in st.model ==> after.model[g] == st.model[g])
  }

  /** Loading a whole section adds its group and leaves the others alone. */
  lemma SectionLoads(load: (Load, string) -> Load, st: Load, s: Section)
    requires ReadsPairs(load) && ReadsGroups(load)
    requires ValidSection(s) && s.name !in st.model && st.ok
    ensures SectionAdded(st, Fold(load, st, SectionLines(s)), s)
  {
    var started := Load(st.model[s.name := map[]], Some(s.name), st.ok);
    assert load(st, GroupText(s.name)) == started;
    PairsLoad(load, started, s.name, s.pairs);
    FoldCons(load, st, GroupText(s.name), PairTexts(s.pairs));
  }

  /** One more section of a configuration. */
  lemma ConfigStep(load: (Load, string) -> Load, before: Load, front: seq<Section>, s: Section)
    requires ReadsPairs(load) && ReadsGroups(load)
    requires before.ok && HasExactly(before.model, front) && ValidSection(s)
    requires forall i :: 0 <= i < |front| ==> front[i].name != s.name
    ensures var after := Fold(load, before, SectionLines(s)); after.ok && HasExactly(after.model, front + [s])
  {
    FreshName(before.model, front, s.name);
    SectionLoads(load, before, s);
    ExactSection(before, Fold(load, before, SectionLines(s)), front, s);
  }

  /** Loading the lines of a configuration into an empty table. */
  lemma {:induction false} ConfigLoads(load: (Load, string) -> Load, cfg: seq<Section>)
    requires ReadsPairs(load) && ReadsGroups(load) && ValidConfig(cfg)
    ensures Fold(load, Load0(map[]), ConfigLines(cfg)).ok
    ensures HasExactly(Fold(load, Load0(map[]), ConfigLines(cfg)).model, cfg)
    decreases |cfg|
  {
    if cfg != [] {
      var n := |cfg| - 1;
      var front, s := cfg[..n], cfg[n];
      assert cfg == front + [s];
      ConfigLoads(load, front);
      ConfigLinesSnoc(front, s);
      FoldAppend(load, Load0(map[]), ConfigLines(front), SectionLines(s));
      ConfigStep(load, Fold(load, Load0(map[]), ConfigLines(front)), front, s);
    }
  }

  lemma FreshName(m: Model, front: seq<Section>, name: string)
    requires HasExactly(m, front) && forall i :: 0 <= i < |front| ==> front[i].name != name
    ensures name !in m
  {
  }

  lemma ExactSection(before: Load, after: Load, front: seq<Section>, s: Section)
    requires HasExactly(before.model, front) && s.name !in before.model && SectionAdded(before, after, s)
    ensures HasExactly(after.model, front + [s])
  {
    var cfg := front + [s];
    forall g | g in after.model ensures exists i :: 0 <= i < |cfg| && cfg[i].name == g {
      if g == s.name {
        assert cfg[|front|].name == g;
      } else {
        var i :| 0 <= i < |front| && front[i].name == g;
        assert cfg[i].name == g;
      }
    }
  }

  lemma {:induction false} ConfigLinesSnoc(front: seq<Section>, s: Section)
    ensures ConfigLines(front + [s]) == ConfigLines(front) + SectionLines(s)
  {
    if front == [] {
      assert front + [s] == [s];
      assert ConfigLines([s]) == SectionLines(s) + ConfigLines([s][1..]);
    } else {
      assert (front + [s])[1..] == front[1..] + [s];
      ConfigLinesSnoc(front[1..], s);
    }
  }

  lemma LinesAreRead()
    ensures ReadsPairs(LoadLine) && ReadsGroups(LoadLine)
  {
    forall st: Load, name | ValidName(name) && name !in st.model
      ensures LoadLine(st, GroupText(name)) == Load(st.model[name := map[]], Some(name), st.ok)
    {
      GroupTextLoads(st, name);
    }
    forall st: Load, p: (string, string)
      | ValidName(p.0) && ValidValue(p.1)
        && st.cur.Some? && st.cur.value in st.model && p.0 !in st.model[st.cur.value]
      ensures LoadLine(st, PairText(p))
           == st.(model := st.model[st.cur.value := st.model[st.cur.value][p.0 := p.1]])
    {
      PairTextLoads(st, p.0, p.1);
    }
  }

  /** Complete lines, each ended by a newline, load as their fold as long as it succeeds. */
  lemma {:induction false} JoinedLinesLoad(st: Load, lines: seq<string>)
    requires Complete(lines) && st.ok && LoadLines(st, lines).ok
    ensures LoadStream(st, JoinLines(lines)) == LoadLines(st, lines)
    decreases |lines|
  {
    if lines == [] {
      assert Clean("") == Some("");
    } else {
      StreamSplits(st, lines[0], JoinLines(lines[1..]));
      FailuresLast(LoadLine(st, lines[0]), lines[1..]);
      JoinedLinesLoad(LoadLine(st, lines[0]), lines[1..]);
    }
  }

  lemma {:induction false} FailuresLast(st: Load, lines: seq<string>)
    requires LoadLines(st, lines).ok
    ensures st.ok
    decreases |lines|
  {
    if lines != [] { FailuresLast(LoadLine(st, lines[0]), lines[1..]); }
  }

  lemma {:induction false} ConfigLinesComplete(cfg: seq<Section>)
    requires ValidConfig(cfg)
    ensures Complete(ConfigLines(cfg))
  {
    if cfg != [] {
      ConfigLinesComplete(cfg[1..]);
      var s := cfg[0];
      AlnumIsPlain(s.name);
      forall i | 0 <= i < |s.pairs| ensures LF !in PairText(s.pairs[i]) {
        AlnumIsPlain(s.pairs[i].0);
      }
      assert forall i :: 0 <= i < |SectionLines(s)| ==> LF !in SectionLines(s)[i];
    }
  }

  /** Round trip: rendering a configuration and reading the text into an empty table succeeds and
      yields exactly that configuration. */
  lemma RoundTrip(cfg: seq<Section>)
    requires ValidConfig(cfg)
    ensures ReadStream(map[], Render(cfg)).ok
    ensures HasExactly(ReadStream(map[], Render(cfg)).model, cfg)
  {
    LinesAreRead();
    ConfigLoads(LoadLine, cfg);
    ConfigLinesComplete(cfg);
    JoinedLinesLoad(Load0(map[]), ConfigLines(cfg));
    ReadIsLineByLine(map[], Render(cfg));
  }
}
