/**
 How a configuration file may be laid out: which characters separate, what a line means whatever its
 indentation, and the round trip for files with indented lines, blank lines and comments.
 */
module ConfLayout {
  import opened Wrappers
  import opened Folds
  import opened KeyTable
  import opened ConfText

  // ---------------------------------------------------------------------------------------
  // Characters
  // ---------------------------------------------------------------------------------------

  /** The six characters that count as space: blank, tab, newline, vertical tab, form feed, return. */
  predicate White(c: char) {
    c == ' ' || c == '\t' || c == '\n' || c == 11 as char || c == 12 as char || c == '\r'
  }

  predicate AllWhite(s: string) {
    forall i :: 0 <= i < |s| ==> White(s[i])
  }

  lemma CharacterClasses(c: char)
    ensures IsSpace(c) <==> White(c)
    ensures IsBlank(c) <==> c in " \t"
    ensures IsAlnum(c) <==> c in "0123456789" || c in "ABCDEFGHIJKLMNOPQRSTUVWXYZ" || c in "abcdefghijklmnopqrstuvwxyz"
    ensures LF == '\n' && CR == '\r' && NUL == '\0'
  {
    OneOf("0123456789", '0', c);
    OneOf("ABCDEFGHIJKLMNOPQRSTUVWXYZ", 'A', c);
    OneOf("abcdefghijklmnopqrstuvwxyz", 'a', c);
  }

  lemma OneOf(run: string, first: char, c: char)
    requires first as int + |run| < 128 && forall i :: 0 <= i < |run| ==> run[i] == (first as int + i) as char
    ensures c in run <==> first as int <= c as int < first as int + |run|
  {
    if first as int <= c as int < first as int + |run| {
      assert run[c as int - first as int] == c;
    }
  }

  /** Any leading white space is skipped, and nothing else. */
  lemma {:induction false} SkipsIndent(indent: string, rest: string)
    requires AllWhite(indent) && (rest == "" || !White(rest[0]))
    ensures SkipSpace(indent + rest) == rest
    decreases |indent|
  {
    hide SkipSpace;
    if indent == "" {
      assert indent + rest == rest;
      SkipNothing(rest);
    } else {
      TailOf(indent, rest);
      SkipOne(indent + rest);
      SkipsIndent(indent[1..], rest);
    }
  }

  lemma TailOf(a: string, b: string)
    requires a != ""
    ensures a + b != "" && (a + b)[0] == a[0] && (a + b)[1..] == a[1..] + b
  {
  }

  lemma SpaceIsWhite(c: char)
    ensures IsSpace(c) <==> White(c)
  {
  }

  lemma SkipNothing(s: string)
    requires s == "" || !White(s[0])
    ensures SkipSpace(s) == s
  {
    hide White, IsSpace;
    if s != "" {
      SpaceIsWhite(s[0]);
    }
  }

  lemma SkipOne(s: string)
    requires s != "" && White(s[0])
    ensures SkipSpace(s) == SkipSpace(s[1..])
  {
    hide White, IsSpace;
    SpaceIsWhite(s[0]);
  }

  // ---------------------------------------------------------------------------------------
  // Lines
  // ---------------------------------------------------------------------------------------

  /** How a line is put together: leading white space, the text, and from the first NUL on a tail that
      the C string functions do not see. */
  ghost predicate LineParts(line: string, indent: string, text: string, tail: string) {
    && line == indent + text + tail
    && AllWhite(indent) && (text == "" || !White(text[0])) && NUL !in text
    && (tail == "" || tail[0] == NUL)
  }

  lemma TextOfLine(line: string, indent: string, text: string, tail: string)
    requires LineParts(line, indent, text, tail)
    ensures SkipSpace(CString(line)) == text
  {
    var head := indent + text;
    IndexOfUnique(line, NUL, |head|);
    assert line[..|head|] == head;
    SkipsIndent(indent, text);
  }

  lemma GroupMeaning(line: string, text: string, g: string)
    requires SkipSpace(CString(line)) == text
    ensures Classify(line) == GroupLine(g) <==> IsGroupLine(text, g)
  {
    hide GroupOf, PairOf, CString, SkipSpace, IsGroupLine;
    GroupOfIsGroupLine(text, g);
    if IsGroupLine(text, g) {
      GroupIsNoComment(text, g);
    }
  }

  lemma PairMeaning(line: string, text: string, k: string, v: string)
    requires SkipSpace(CString(line)) == text
    ensures Classify(line) == PairLine(k, v) <==> IsPairLine(text, k, v)
  {
    hide GroupOf, PairOf, CString, SkipSpace, IsPairLine;
    PairOfIsPairLine(text, k, v);
    if IsPairLine(text, k, v) {
      PairIsNothingElse(text, k, v);
    }
  }

  lemma CommentMeaning(line: string, text: string)
    requires SkipSpace(CString(line)) == text
    ensures Classify(line) == Comment <==> text == "" || text[0] == '#'
  {
  }

  /** A line is a comment, a group or a pair exactly if its text is; otherwise it is malformed. */
  lemma LineMeaning(line: string, indent: string, text: string, tail: string)
    requires LineParts(line, indent, text, tail)
    ensures Classify(line) == Comment <==> text == "" || text[0] == '#'
    ensures forall g :: Classify(line) == GroupLine(g) <==> IsGroupLine(text, g)
    ensures forall k, v :: Classify(line) == PairLine(k, v) <==> IsPairLine(text, k, v)
  {
    TextOfLine(line, indent, text, tail);
    hide Classify, CString, SkipSpace, IsGroupLine, IsPairLine;
    CommentMeaning(line, text);
    forall g ensures Classify(line) == GroupLine(g) <==> IsGroupLine(text, g) {
      GroupMeaning(line, text, g);
    }
    forall k, v ensures Classify(line) == PairLine(k, v) <==> IsPairLine(text, k, v) {
      PairMeaning(line, text, k, v);
    }
  }

  lemma GroupIsNoComment(text: string, g: string)
    requires IsGroupLine(text, g)
    ensures text != "" && text[0] != '#'
  {
    assert text[0] == text[..|g| + 2][0] == '[';
  }

  lemma PairIsNothingElse(text: string, k: string, v: string)
    requires IsPairLine(text, k, v)
    ensures text != "" && text[0] != '#' && GroupOf(text).None?
  {
    AlnumIsPlain(k);
    assert text[0] == k[0] && k[0] in k;
  }

  /** Every line has parts. */
  lemma {:induction false} EveryLineHasParts(line: string) returns (indent: string, text: string, tail: string)
    ensures LineParts(line, indent, text, tail)
  {
    if line == "" || line[0] == NUL {
      indent, text, tail := "", "", line;
    } else if White(line[0]) {
      var more;
      more, text, tail := EveryLineHasParts(line[1..]);
      indent := [line[0]] + more;
      assert line == [line[0]] + (more + text + tail);
    } else {
      var n := IndexOf(line, NUL);
      indent, text, tail := "", line[..n], line[n..];
    }
  }

  // ---------------------------------------------------------------------------------------
  // Round trip for any layout
  // ---------------------------------------------------------------------------------------

  ghost predicate AllReturns(s: string) {
    forall i :: 0 <= i < |s| ==> s[i] == '\r'
  }

  /** A line that defines nothing: white space, or a comment behind some, and carriage returns. */
  ghost predicate IsFiller(raw: string) {
    exists indent, text, crs :: Filler(raw, indent, text, crs)
  }

  ghost predicate Filler(raw: string, indent: string, text: string, crs: string) {
    && raw == indent + text + crs && AllWhite(indent) && '\n' !in indent && '\r' !in indent && AllReturns(crs)
    && (text == "" || text[0] == '#') && '\n' !in text && '\r' !in text && '\0' !in text
  }

  /** A line with its text behind white space and in front of carriage returns; a group may also be
      followed by blanks. */
  ghost predicate IsDressed(raw: string, text: string) {
    exists indent, blanks, crs :: Dressed(raw, text, indent, blanks, crs)
  }

  ghost predicate Dressed(raw: string, text: string, indent: string, blanks: string, crs: string) {
    && raw == indent + text + blanks + crs && AllWhite(indent) && '\n' !in indent && '\r' !in indent && AllReturns(crs)
    && (forall i :: 0 <= i < |blanks| ==> blanks[i] == ' ' || blanks[i] == '\t')
    && (blanks == "" || (text != "" && text[0] == '['))
  }

  /** The texts in order, each dressed, with fillers in between. */
  ghost predicate LaidOut(raws: seq<string>, texts: seq<string>) {
    if raws == [] then texts == []
    else
      || (IsFiller(raws[0]) && LaidOut(raws[1..], texts))
      || (texts != [] && IsDressed(raws[0], texts[0]) && LaidOut(raws[1..], texts[1..]))
  }

  lemma CleanBefore(line: string, crs: string)
    requires '\r' !in line && AllReturns(crs)
    ensures Clean(line + crs) == Some(line)
  {
    var raw := line + crs;
    IndexOfUnique(raw, CR, |line|);
    assert raw[..|line|] == line;
  }

  lemma FillerLoads(st: Load, raw: string)
    requires IsFiller(raw)
    ensures LoadLine(st, raw) == st && '\n' !in raw
  {
    var indent, text, crs :| Filler(raw, indent, text, crs);
    var line := indent + text;
    CleanBefore(line, crs);
    assert line == indent + text + "";
    assert LineParts(line, indent, text, "");
    LineMeaning(line, indent, text, "");
  }

  /** The parts of a dressed line. */
  lemma DressedParts(raw: string, text: string) returns (indent: string, blanks: string)
    requires IsDressed(raw, text) && ValidValue(text) && text != "" && !White(text[0])
    ensures Clean(raw) == Some(indent + (text + blanks)) && '\n' !in raw
    ensures LineParts(indent + (text + blanks), indent, text + blanks, "")
    ensures (forall i :: 0 <= i < |blanks| ==> blanks[i] == ' ' || blanks[i] == '\t') && (blanks == "" || text[0] == '[')
  {
    hide Clean;
    var crs;
    indent, blanks, crs :| Dressed(raw, text, indent, blanks, crs);
    var inner := text + blanks;
    var line := indent + inner;
    assert raw == line + crs;
    CleanBefore(line, crs);
    assert line == indent + inner + "" && inner[0] == text[0];
  }

  lemma DressedGroup(raw: string, g: string)
    requires ValidName(g) && IsDressed(raw, GroupText(g))
    ensures Clean(raw).Some? && Classify(Clean(raw).value) == GroupLine(g) && '\n' !in raw
  {
    hide Clean, IsDressed, LineParts, Classify, IsGroupLine, IsPairLine;
    AlnumIsPlain(g);
    var indent, blanks := DressedParts(raw, GroupText(g));
    var line := indent + (GroupText(g) + blanks);
    LineMeaning(line, indent, GroupText(g) + blanks, "");
    GroupWithBlanks(g, blanks);
  }

  lemma DressedPair(raw: string, k: string, v: string)
    requires ValidName(k) && ValidValue(v) && IsDressed(raw, PairText((k, v)))
    ensures Clean(raw).Some? && Classify(Clean(raw).value) == PairLine(k, v) && '\n' !in raw
  {
    hide Clean, IsDressed, LineParts, Classify, IsGroupLine;
    var text := PairText((k, v));
    AlnumIsPlain(k);
    assert text[0] == k[0] && k[0] in k;
    var indent, blanks := DressedParts(raw, text);
    assert text + blanks == text;
    LineMeaning(indent + (text + blanks), indent, text + blanks, "");
  }

  lemma GroupWithBlanks(g: string, blanks: string)
    requires ValidName(g) && forall i :: 0 <= i < |blanks| ==> blanks[i] == ' ' || blanks[i] == '\t'
    ensures IsGroupLine(GroupText(g) + blanks, g)
  {
    var s := GroupText(g) + blanks;
    assert s[..|g| + 2] == GroupText(g) && s[|g| + 2..] == blanks;
  }

  /** The texts of a configuration. */
  ghost predicate ConfigText(text: string) {
    (exists g :: IsGroupText(text, g)) || (exists k, v :: IsPairText(text, k, v))
  }

  ghost predicate IsGroupText(text: string, g: string) {
    ValidName(g) && text == GroupText(g)
  }

  ghost predicate IsPairText(text: string, k: string, v: string) {
    ValidName(k) && ValidValue(v) && text == PairText((k, v))
  }

  lemma Undressed(text: string)
    ensures IsDressed(text, text)
  {
    assert text == "" + text + "" + "";
    assert Dressed(text, text, "", "", "");
  }

  lemma SameKind(st: Load, raw: string, text: string)
    requires Clean(raw).Some? && Clean(text).Some? && Classify(Clean(raw).value) == Classify(Clean(text).value)
    ensures LoadLine(st, raw) == LoadLine(st, text)
  {
    hide Clean, Classify;
  }

  lemma DressedLoads(st: Load, raw: string, text: string)
    requires IsDressed(raw, text) && ConfigText(text)
    ensures LoadLine(st, raw) == LoadLine(st, text) && '\n' !in raw
  {
    hide LoadLine, Clean, Classify, IsDressed;
    Undressed(text);
    if g :| IsGroupText(text, g) {
      DressedGroup(raw, g);
      DressedGroup(text, g);
    } else {
      var k, v :| IsPairText(text, k, v);
      DressedPair(raw, k, v);
      DressedPair(text, k, v);
    }
    SameKind(st, raw, text);
  }

  lemma {:induction false} LayoutLoads(st: Load, raws: seq<string>, texts: seq<string>)
    requires LaidOut(raws, texts) && forall i :: 0 <= i < |texts| ==> ConfigText(texts[i])
    ensures Fold(LoadLine, st, raws) == Fold(LoadLine, st, texts) && Complete(raws)
    decreases |raws|
  {
    if raws != [] {
      hide LoadLine, ConfigText;
      if IsFiller(raws[0]) && LaidOut(raws[1..], texts) {
        FillerLoads(st, raws[0]);
        LayoutLoads(st, raws[1..], texts);
      } else {
        DressedLoads(st, raws[0], texts[0]);
        LayoutLoads(LoadLine(st, texts[0]), raws[1..], texts[1..]);
      }
    }
  }

  lemma {:induction false} ConfigTexts(cfg: seq<Section>)
    requires ValidConfig(cfg)
    ensures forall i :: 0 <= i < |ConfigLines(cfg)| ==> ConfigText(ConfigLines(cfg)[i])
  {
    if cfg != [] {
      ConfigTexts(cfg[1..]);
      forall i | 0 <= i < |SectionLines(cfg[0])| ensures ConfigText(SectionLines(cfg[0])[i]) {
        if i > 0 {
          var p := cfg[0].pairs[i - 1];
          assert IsPairText(SectionLines(cfg[0])[i], p.0, p.1);
        } else {
          assert IsGroupText(SectionLines(cfg[0])[i], cfg[0].name);
        }
      }
    }
  }

  /** Round trip for any layout: however the lines of a configuration are indented, ended and
      interspersed with blank lines and comments, the file loads and gives exactly that configuration. */
  lemma LayoutRoundTrip(cfg: seq<Section>, raws: seq<string>)
    requires ValidConfig(cfg) && LaidOut(raws, ConfigLines(cfg))
    ensures ReadStream(map[], JoinLines(raws)).ok
    ensures HasExactly(ReadStream(map[], JoinLines(raws)).model, cfg)
  {
    hide HasExactly, LaidOut;
    LinesAreRead();
    ConfigLoads(LoadLine, cfg);
    ConfigTexts(cfg);
    LayoutLoads(Load0(map[]), raws, ConfigLines(cfg));
    JoinedLinesLoad(Load0(map[]), raws);
    ReadIsLineByLine(map[], JoinLines(raws));
  }
}
