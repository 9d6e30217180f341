/**
 The parser that fills the configuration store from a file: a block reader, a growing line buffer
 and the scanners that recognise a line.  `ConfText` says what the text means.

 A file is the list of blocks that `fread` returns, however it splits the stream.
 */
module ConfLoader {
  import opened Wrappers
  import opened Folds
  import opened KeyTable
  import opened ConfText

  const MAX_LINE_LEN: nat := 512
  const LINE_GROWTH: nat := 25

  /** The character under a pointer into a C string: NUL at its end. */
  function At(s: string, i: nat): (c: char)
    requires i <= |s|
    ensures NUL !in s ==> (c == NUL <==> i == |s|)
  {
    if i < |s| then s[i] else NUL
  }

  /** The pointer walk of `line_is_grp`: the name between the brackets, if the line is a group. */
  method ScanGroup(str: string) returns (name: Option<string>)
    requires NUL !in str
    ensures name == GroupOf(str)
  {
    if At(str, 0) != '[' {
      return None;
    }
    var p: nat := 1;
    while At(str, p) != NUL && At(str, p) != ']'
      invariant 1 <= p <= |str| && forall i :: 0 <= i < p ==> str[i] != ']'
      decreases |str| - p
    {
      p := p + 1;
    }
    IndexOfUnique(str, ']', p);
    if At(str, p) != ']' {
      return None;
    }
    var end := p;
    p := p + 1;
    while At(str, p) == ' ' || At(str, p) == '\t'
      invariant end < p <= |str| && forall i :: end < i < p ==> IsBlank(str[i])
      decreases |str| - p
    {
      p := p + 1;
    }
    if At(str, p) != NUL {
      assert str[end + 1..][p - end - 1] == str[p];
      return None;
    }
    assert AllBlank(str[end + 1..]);
    // the name runs from 1 to end - 1; for "[]" the walk never meets its last position
    var g: nat := 1;
    while g != end - 1 && IsAlnum(At(str, g))
      invariant 1 <= g <= end && (end > 1 ==> g < end)
      invariant forall i :: 1 <= i < g ==> IsAlnum(str[i])
      decreases end - g
    {
      g := g + 1;
    }
    if g == end - 1 && IsAlnum(At(str, g)) {
      name := Some(str[1..end]);
    } else {
      assert end > 1 ==> !IsAlnum(str[1..end][g - 1]);
      name := None;
    }
  }

  /** The pointer walk of `line_is_key_value_pair`. */
  method ScanPair(str: string) returns (pair: Option<(string, string)>)
    ensures pair == PairOf(str)
  {
    var eq: nat := 0;
    while eq < |str| && str[eq] != '='
      invariant eq <= |str| && forall i :: 0 <= i < eq ==> str[i] != '='
    {
      eq := eq + 1;
    }
    IndexOfUnique(str, '=', eq);
    if eq == |str| || eq == 0 {
      return None;
    }
    var p: nat := 0;
    while p != eq && IsAlnum(str[p])
      invariant p <= eq && AllAlnum(str[..p])
    {
      p := p + 1;
    }
    if p == eq {
      pair := Some((str[..eq], str[eq + 1..]));
    } else {
      assert !IsAlnum(str[..eq][p]);
      pair := None;
    }
  }

  /** The leading whitespace skipped by `parse_line`. */
  method SkipLeading(line: string) returns (str: string)
    ensures str == SkipSpace(line)
  {
    var b: nat := 0;
    while b < |line| && IsSpace(line[b])
      invariant b <= |line| && SkipSpace(line[b..]) == SkipSpace(line)
    {
      assert line[b..][1..] == line[b + 1..];
      b := b + 1;
    }
    str := line[b..];
  }

  /** `line_is_grp`: a new group becomes the current one; a repeated name is refused. */
  method LineIsGrp(t: GroupTable, str: string, cur: Option<string>) returns (ok: bool, next: Option<string>)
    requires t.Valid() && NUL !in str
    modifies t.repr
    ensures t.Valid() && fresh(t.repr - old(t.repr))
    ensures ok == (GroupOf(str).Some? && GroupOf(str).value !in old(t.model))
    ensures t.model == if ok then old(t.model)[GroupOf(str).value := map[]] else old(t.model)
    ensures next == if ok then GroupOf(str) else cur
  {
    var name := ScanGroup(str);
    ok := false;
    if name.Some? {
      ok := t.AddGrp(name.value);
    }
    next := if ok then name else cur;
  }

  /** `line_is_key_value_pair`: a new pair of the current group. */
  method LineIsKeyValuePair(t: GroupTable, str: string, cur: Option<string>) returns (ok: bool)
    requires t.Valid()
    modifies t.repr
    ensures t.Valid() && t.repr == old(t.repr)
    ensures ok == (cur.Some? && cur.value != "" && PairOf(str).Some?
                   && cur.value in old(t.model) && PairOf(str).value.0 !in old(t.model)[cur.value])
    ensures t.model ==
            if ok then old(t.model)[cur.value := old(t.model)[cur.value][PairOf(str).value.0 := PairOf(str).value.1]]
            else old(t.model)
  {
    ok := false;
    if cur.Some? && cur.value != "" {
      var pair := ScanPair(str);
      if pair.Some? {
        ok := t.AddKeyValuePair(cur.value, pair.value.0, pair.value.1);
      }
    }
  }

  /** What a line defines, once it is known not to be a comment. */
  function Define(st: Load, str: string): Load {
    var g, p := GroupOf(str), PairOf(str);
    if g.Some? && g.value !in st.model then Load(st.model[g.value := map[]], g, st.ok)
    else if p.None? || st.cur.None? || st.cur.value !in st.model || p.value.0 in st.model[st.cur.value] then Fail(st)
    else st.(model := st.model[st.cur.value := st.model[st.cur.value][p.value.0 := p.value.1]])
  }

  lemma StepIsDefine(st: Load, line: string, str: string)
    requires str == SkipSpace(CString(line))
    ensures NUL !in str
    ensures Step(st, line) == if str == "" || str[0] == '#' || str[0] == LF then st else Define(st, str)
  {
    NotSpace(CString(line));
    BracketIsNoPair(str);
  }

  lemma {:induction false} NotSpace(s: string)
    ensures SkipSpace(s) != "" ==> !IsSpace(SkipSpace(s)[0])
  {
    if s != "" && IsSpace(s[0]) { NotSpace(s[1..]); }
  }

  /** The two definitions a line may hold, tried in turn: a repeated group falls through to the
      pair scan, which its '[' fails. */
  method ParseDefinition(t: GroupTable, str: string, cur: Option<string>) returns (ok: bool, next: Option<string>)
    requires t.Valid() && cur != Some("") && NUL !in str
    modifies t.repr
    ensures t.Valid() && fresh(t.repr - old(t.repr)) && next != Some("")
    ensures Load(t.model, next, ok) == Define(Load(old(t.model), cur, true), str)
  {
    BracketIsNoPair(str);
    ok, next := LineIsGrp(t, str, cur);
    if !ok {
      ok := LineIsKeyValuePair(t, str, cur);
    }
  }

  /** `parse_line`: acts on the table as `Step` says. */
  method ParseLine(t: GroupTable, line: string, cur: Option<string>) returns (ok: bool, next: Option<string>)
    requires t.Valid() && cur != Some("")
    modifies t.repr
    ensures t.Valid() && fresh(t.repr - old(t.repr)) && next != Some("")
    ensures Load(t.model, next, ok) == Step(Load(old(t.model), cur, true), line)
  {
    var str := SkipLeading(CString(line));
    StepIsDefine(Load(t.model, cur, true), line, str);
    ok, next := true, cur;
    if !(str == "" || str[0] == '#' || str[0] == LF) {
      ok, next := ParseDefinition(t, str, cur);
    }
  }

  lemma BracketIsNoPair(str: string)
    ensures GroupOf(str).Some? ==> PairOf(str).None? && GroupOf(str).value != ""
  {
    var eq := IndexOf(str, '=');
    assert str != "" && str[0] == '[' && eq > 0 ==> !IsAlnum(str[..eq][0]);
  }

  /** The reader before the first byte. */
  function Start(model: Model): Reader {
    Reader(Load0(model), "", false)
  }

  /** The outer loop of `parse_load_frm_fhandler`: block after block, until a line fails. */
  function LoadBlocks(r: Reader, blocks: seq<string>): Reader
    decreases |blocks|
  {
    if blocks == [] || !r.load.ok then r else LoadBlocks(FeedAll(r, blocks[0]), blocks[1..])
  }

  /** The nested loops read the concatenated stream up to its first failure. */
  lemma {:induction false} BlocksAreOneStream(r: Reader, blocks: seq<string>)
    ensures LoadBlocks(r, blocks) == FeedAll(r, Concat(blocks))
    decreases |blocks|
  {
    if blocks != [] && r.load.ok {
      BlocksAreOneStream(FeedAll(r, blocks[0]), blocks[1..]);
      FeedAppend(r, blocks[0], Concat(blocks[1..]));
    }
  }

  /** The first n cells of the line buffer. */
  ghost predicate Buffers(line: array<char>, n: nat, content: string)
    reads line
  {
    n <= line.Length && line[..n] == content
  }

  /** `realloc` when the line buffer is full: a larger one with the same content. */
  method Grow(line: array<char>, lineLen: nat, ghost content: string) returns (line': array<char>)
    requires Buffers(line, lineLen, content)
    ensures line' == line || fresh(line')
    ensures Buffers(line', lineLen, content) && lineLen < line'.Length
  {
    line' := line;
    if lineLen == line.Length {
      line' := new char[line.Length + LINE_GROWTH](i requires 0 <= i reads line => if i < line.Length then line[i] else NUL);
      assert line'[..lineLen] == line[..lineLen];
    }
  }

  /** The newline: the buffer is terminated, parsed and emptied. */
  method EndLine(t: GroupTable, line: array<char>, lineLen: nat, cur: Option<string>)
    returns (ok: bool, cur': Option<string>, lineLen': nat)
    requires t.Valid() && line !in t.repr && lineLen < line.Length && cur != Some("")
    modifies t.repr, line
    ensures t.Valid() && fresh(t.repr - old(t.repr)) && cur' != Some("") && lineLen' == 0
    ensures Load(t.model, cur', ok) == Step(Load(old(t.model), cur, true), old(line[..lineLen]))
  {
    line[lineLen] := NUL;
    ok, cur' := ParseLine(t, line[..lineLen], cur);
    lineLen' := 0;
  }

  /** Any other character: it is buffered unless a carriage return came before it. */
  method PutChar(c: char, line: array<char>, lineLen: nat, cr: bool, ghost r: Reader)
    returns (ok: bool, lineLen': nat, cr': bool)
    requires c != LF && Buffers(line, lineLen, r.line) && lineLen < line.Length && r.cr == cr && r.load.ok
    modifies line
    ensures Buffers(line, lineLen', FeedByte(r, c).line)
    ensures FeedByte(r, c).load == r.load.(ok := ok) && FeedByte(r, c).cr == cr'
  {
    ok, lineLen', cr' := true, lineLen, cr;
    if c == CR {
      cr' := true;
    } else if cr {
      ok := false;
    } else {
      line[lineLen] := c;
      assert line[..lineLen + 1] == r.line + [c];
      lineLen' := lineLen + 1;
    }
  }

  /** One turn of the inner loop of `parse_load_frm_fhandler`.  Every buffer access is checked
      against the allocated length. */
  method ReadByte(t: GroupTable, c: char, line: array<char>, lineLen: nat, cr: bool, cur: Option<string>, ghost r: Reader)
    returns (ok: bool, line': array<char>, lineLen': nat, cr': bool, cur': Option<string>)
    requires t.Valid() && line !in t.repr && Buffers(line, lineLen, r.line)
    requires r.load == Load(t.model, cur, true) && r.cr == cr && cur != Some("")
    modifies t.repr, line
    ensures t.Valid() && fresh(t.repr - old(t.repr)) && cur' != Some("")
    ensures (line' == line || fresh(line')) && line' !in t.repr
    ensures Buffers(line', lineLen', FeedByte(r, c).line)
    ensures FeedByte(r, c).load == Load(t.model, cur', ok) && FeedByte(r, c).cr == cr'
  {
    line' := Grow(line, lineLen, r.line);
    cur' := cur;
    if c == LF {
      ok, cur', lineLen' := EndLine(t, line', lineLen, cur);
      cr' := false;
    } else {
      ok, lineLen', cr' := PutChar(c, line', lineLen, cr, r);
    }
  }

  /** The inner loop: one block, until it is used up or a line fails. */
  method ReadBlock(t: GroupTable, buf: string, line: array<char>, lineLen: nat, cr: bool, cur: Option<string>, ghost r: Reader)
    returns (ok: bool, line': array<char>, lineLen': nat, cr': bool, cur': Option<string>)
    requires t.Valid() && line !in t.repr && Buffers(line, lineLen, r.line)
    requires r.load == Load(t.model, cur, true) && r.cr == cr && cur != Some("")
    modifies t.repr, line
    ensures t.Valid() && fresh(t.repr - old(t.repr)) && cur' != Some("")
    ensures (line' == line || fresh(line')) && line' !in t.repr
    ensures Buffers(line', lineLen', FeedAll(r, buf).line)
    ensures FeedAll(r, buf).load == Load(t.model, cur', ok) && FeedAll(r, buf).cr == cr'
  {
    ok, line', lineLen', cr', cur' := true, line, lineLen, cr, cur;
    ghost var reader := r;
    var i: nat := 0;
    assert buf[0..] == buf;
    while i < |buf| && ok
      invariant i <= |buf| && t.Valid() && fresh(t.repr - old(t.repr)) && cur' != Some("")
      invariant (line' == line || fresh(line')) && line' !in t.repr
      invariant Buffers(line', lineLen', reader.line)
      invariant reader.load == Load(t.model, cur', ok) && reader.cr == cr'
      invariant FeedAll(r, buf) == FeedAll(reader, buf[i..])
      decreases |buf| - i
    {
      ghost var before := reader;
      reader := FeedByte(reader, buf[i]);
      assert buf[i..][1..] == buf[i + 1..];
      ok, line', lineLen', cr', cur' := ReadByte(t, buf[i], line', lineLen', cr', cur', before);
      i := i + 1;
    }
  }

  /** `parse_load_frm_fhandler`: the outcome is that of the byte-wise reader on the whole stream. */
  method ParseLoad(t: GroupTable, blocks: seq<string>) returns (ok: bool)
    requires t.Valid() && forall i :: 0 <= i < |blocks| ==> 0 < |blocks[i]| <= MAX_LINE_LEN
    modifies t.repr
    ensures t.Valid() && fresh(t.repr - old(t.repr))
    ensures LoadBlocks(Start(old(t.model)), blocks).load.(cur := None) == Load(t.model, None, ok)
    ensures ok == ReadStream(old(t.model), Concat(blocks)).ok
    ensures t.model == ReadStream(old(t.model), Concat(blocks)).model
  {
    ok := true;
    var line, lineLen: nat, cr, cur: Option<string> := new char[0], 0, false, None;
    ghost var start := Start(t.model);
    ghost var reader := start;
    var b: nat := 0;
    assert blocks[0..] == blocks;
    while b < |blocks| && ok
      invariant b <= |blocks| && t.Valid() && fresh(t.repr - old(t.repr)) && cur != Some("")
      invariant fresh(line) && line !in t.repr && Buffers(line, lineLen, reader.line)
      invariant reader.load == Load(t.model, cur, ok) && reader.cr == cr
      invariant LoadBlocks(start, blocks) == LoadBlocks(reader, blocks[b..])
    {
      ghost var before := reader;
      reader := FeedAll(reader, blocks[b]);
      assert blocks[b..][1..] == blocks[b + 1..];
      ok, line, lineLen, cr, cur := ReadBlock(t, blocks[b], line, lineLen, cr, cur, before);
      b := b + 1;
    }
    BlocksAreOneStream(start, blocks);
  }

  /** Two ways of splitting one stream into blocks have one outcome, that of its lines. */
  lemma BlocksDoNotMatter(model: Model, blocks1: seq<string>, blocks2: seq<string>)
    requires Concat(blocks1) == Concat(blocks2)
    ensures LoadBlocks(Start(model), blocks1) == LoadBlocks(Start(model), blocks2)
    ensures LoadBlocks(Start(model), blocks1).load == LoadStream(Load0(model), Concat(blocks2))
  {
    hide FeedAll, LoadBlocks, LoadStream;
    BlocksAreOneStream(Start(model), blocks1);
    BlocksAreOneStream(Start(model), blocks2);
    ReadIsLineByLine(model, Concat(blocks1));
  }
}
