/**
 The hybrid search list: comma-separated text, to growing arrays, to the packed message handed to the
 FM driver.

 `strtok_r` and `atoi` are the C library's, as functions; `atoi` is defined by C only for values
 that fit `int`, the only ones the round trips below are about.
 */
module HybridSearch {
  import opened Wrappers
  import opened Filters
  import opened ConfText
  import opened ConfLayout

  const HYBRID_SRCH_MODE: nat := 0x40
  const HYBRID_SRCH_DATA_LEN: nat := 3
  const HYBRID_SRCH_DATA_INDEX: nat := 3
  const STARTING_FREQ: nat := 76000
  const FREQ_MULTIPLEX: nat := 50
  const U32: nat := 0x1_0000_0000
  const FM_FAILURE: int := -1

  // ---------------------------------------------------------------------------------------
  // Numbers in text
  // ---------------------------------------------------------------------------------------

  predicate IsDigit(c: char) {
    '0' <= c <= '9'
  }

  /** Reads decimal digits, to the first other character. */
  function ReadDigits(s: string, acc: nat): nat {
    if s != "" && IsDigit(s[0]) then ReadDigits(s[1..], acc * 10 + (s[0] - '0') as nat) else acc
  }

  /** `atoi` */
  function Atoi(text: string): int {
    var s := SkipSpace(text);
    if s != "" && s[0] == '-' then 0 - ReadDigits(s[1..], 0)
    else if s != "" && s[0] == '+' then ReadDigits(s[1..], 0)
    else ReadDigits(s, 0)
  }

  function Digits(n: nat): string {
    (if n < 10 then "" else Digits(n / 10)) + ['0' + (n % 10) as char]
  }

  function Decimal(v: int): string {
    if v < 0 then "-" + Digits(-v) else Digits(v)
  }

  predicate AllDigits(s: string) {
    forall i :: 0 <= i < |s| ==> IsDigit(s[i])
  }

  lemma {:induction false} ReadLast(s: string, c: char, acc: nat)
    requires AllDigits(s) && IsDigit(c)
    ensures ReadDigits(s + [c], acc) == ReadDigits(s, acc) * 10 + (c - '0') as nat
    decreases |s|
  {
    if s == "" {
      assert s + [c] == [c] && ReadDigits([c][1..], acc * 10 + (c - '0') as nat) == acc * 10 + (c - '0') as nat;
    } else {
      assert (s + [c])[1..] == s[1..] + [c];
      ReadLast(s[1..], c, acc * 10 + (s[0] - '0') as nat);
    }
  }

  lemma {:induction false} ReadOfDigits(n: nat)
    ensures Digits(n) != "" && AllDigits(Digits(n)) && ReadDigits(Digits(n), 0) == n
  {
    var last := '0' + (n % 10) as char;
    if n >= 10 {
      ReadOfDigits(n / 10);
      ReadLast(Digits(n / 10), last, 0);
    } else {
      ReadLast("", last, 0);
    }
  }

  lemma NothingToSkip(s: string)
    requires s != "" && !IsSpace(s[0])
    ensures SkipSpace(s) == s
  {
  }

  lemma DigitIsPlain(c: char)
    requires IsDigit(c)
    ensures !IsSpace(c) && c != '-' && c != '+'
  {
  }

  lemma AtoiOfDigits(d: string)
    requires d != "" && IsDigit(d[0])
    ensures Atoi(d) == ReadDigits(d, 0)
    ensures Atoi("-" + d) == 0 - ReadDigits(d, 0)
  {
    hide SkipSpace, ReadDigits;
    var m := "-" + d;
    DigitIsPlain(d[0]);
    NothingToSkip(d);
    assert m[0] == '-' && m[1..] == d;
    NothingToSkip(m);
  }

  /** Reading a printed number gives it back; printing never yields a comma or an empty string. */
  lemma AtoiOfDecimal(v: int)
    ensures Atoi(Decimal(v)) == v && Decimal(v) != "" && ',' !in Decimal(v)
  {
    var n := if v < 0 then -v else v;
    ReadOfDigits(n);
    hide Atoi, Digits, ReadDigits;
    AtoiOfDigits(Digits(n));
    NoComma(Digits(n));
  }

  lemma NoComma(d: string)
    requires AllDigits(d)
    ensures ',' !in d && ',' !in "-" + d
  {
  }

  /** Reading stops at the first character that is no digit. */
  lemma {:induction false} ReadToTail(d: string, tail: string, acc: nat)
    requires AllDigits(d) && (tail == "" || tail[0] < '0' || '9' < tail[0])
    ensures ReadDigits(d + tail, acc) == ReadDigits(d, acc)
    decreases |d|
  {
    if d == "" {
      assert d + tail == tail;
    } else {
      TailOf(d, tail);
      ReadToTail(d[1..], tail, acc * 10 + (d[0] - '0') as nat);
    }
  }

  function Zeros(z: nat): string {
    seq(z, _ => '0')
  }

  /** Leading zeros do not count. */
  lemma {:induction false} ReadZeros(z: nat, d: string)
    ensures ReadDigits(Zeros(z) + d, 0) == ReadDigits(d, 0)
  {
    if z == 0 {
      assert Zeros(z) + d == d;
    } else {
      TailOf(Zeros(z), d);
      assert Zeros(z)[1..] == Zeros(z - 1);
      ReadZeros(z - 1, d);
    }
  }

  /** The number in a text: behind any white space an optional sign and digits, up to the first other
      character. */
  lemma AtoiOfText(indent: string, sign: string, z: nat, n: nat, tail: string)
    requires AllWhite(indent) && (sign == "" || sign == "+" || sign == "-")
    requires tail == "" || tail[0] < '0' || '9' < tail[0]
    ensures Atoi(indent + (sign + (Zeros(z) + Digits(n) + tail))) == if sign == "-" then 0 - n else n
  {
    var digits := Zeros(z) + Digits(n);
    var number := digits + tail;
    ReadOfDigits(n);
    ReadZeros(z, Digits(n));
    ReadToTail(digits, tail, 0);
    assert IsDigit(digits[0]) && number[0] == digits[0];
    AtoiSigned(indent, sign, number);
  }

  /** A text without digits in that place counts as 0. */
  lemma AtoiOfNothing(indent: string, sign: string, tail: string)
    requires AllWhite(indent) && (sign == "" || sign == "+" || sign == "-")
    requires tail == "" || tail[0] < '0' || '9' < tail[0]
    requires sign == "" && tail != "" ==> !White(tail[0]) && tail[0] != '+' && tail[0] != '-'
    ensures Atoi(indent + (sign + tail)) == 0
  {
    ReadToTail("", tail, 0);
    assert "" + tail == tail;
    AtoiSigned(indent, sign, tail);
  }

  lemma AtoiSigned(indent: string, sign: string, number: string)
    requires AllWhite(indent) && (sign == "" || sign == "+" || sign == "-")
    requires sign == "" && number != "" ==> !White(number[0]) && number[0] != '+' && number[0] != '-'
    ensures Atoi(indent + (sign + number)) == if sign == "-" then 0 - ReadDigits(number, 0) else ReadDigits(number, 0)
  {
    hide ReadDigits, SkipSpace;
    var signed := sign + number;
    if sign == "" {
      assert signed == number;
    } else {
      assert signed[0] == sign[0] && signed[1..] == number;
    }
    SkipsIndent(indent, signed);
  }

  // ---------------------------------------------------------------------------------------
  // Lists in text
  // ---------------------------------------------------------------------------------------

  function SkipCommas(s: string): (t: string)
    ensures |t| <= |s| && (t != "" ==> t[0] != ',')
  {
    if s != "" && s[0] == ',' then SkipCommas(s[1..]) else s
  }

  /** One call of `strtok_r`: the next token and what is left after its delimiter. */
  function StrTok(s: string): (r: Option<(string, string)>)
    ensures r.Some? ==> |r.value.1| < |s|
  {
    var t := SkipCommas(s);
    var n := IndexOf(t, ',');
    if t == "" then None else Some((t[..n], if n < |t| then t[n + 1..] else ""))
  }

  function Tokens(s: string): seq<string>
    decreases |s|
  {
    if StrTok(s).None? then [] else [StrTok(s).value.0] + Tokens(StrTok(s).value.1)
  }

  function Join(tokens: seq<string>): string {
    if tokens == [] then ""
    else if |tokens| == 1 then tokens[0]
    else tokens[0] + "," + Join(tokens[1..])
  }

  lemma StrTokOfToken(token: string, rest: string)
    requires token != "" && ',' !in token
    ensures StrTok(token) == Some((token, ""))
    ensures StrTok(token + "," + rest) == Some((token, rest))
  {
    var s, n := token + "," + rest, |token|;
    IndexOfUnique(token, ',', n);
    assert token[..n] == token;
    assert s[..n] == token && s[n] == ',' && s[n + 1..] == rest && s[0] == token[0];
    assert forall i :: 0 <= i < n ==> s[i] == token[i];
    IndexOfUnique(s, ',', n);
  }

  lemma {:induction false} TokensOfJoin(tokens: seq<string>)
    requires forall i :: 0 <= i < |tokens| ==> tokens[i] != "" && ',' !in tokens[i]
    ensures Tokens(Join(tokens)) == tokens
  {
    if |tokens| == 1 {
      StrTokOfToken(tokens[0], "");
      assert Tokens("") == [];
    } else if |tokens| > 1 {
      StrTokOfToken(tokens[0], Join(tokens[1..]));
      TokensOfJoin(tokens[1..]);
    }
  }

  predicate NonEmpty(s: string) {
    s != ""
  }

  lemma {:induction false} FilterCons(piece: string, rest: seq<string>)
    ensures Filter([piece] + rest, NonEmpty) == (if piece == "" then [] else [piece]) + Filter(rest, NonEmpty)
    decreases |rest|
  {
    if rest == [] {
      assert [piece] + rest == [] + [piece];
      FilterSnoc([], piece, NonEmpty);
    } else {
      var front, last := rest[..|rest| - 1], rest[|rest| - 1];
      assert rest == front + [last] && [piece] + rest == ([piece] + front) + [last];
      FilterCons(piece, front);
      FilterSnoc([piece] + front, last, NonEmpty);
      FilterSnoc(front, last, NonEmpty);
    }
  }

  lemma CommaSkipped(s: string)
    ensures Tokens("," + s) == Tokens(s)
  {
    var t := "," + s;
    assert t[1..] == s;
    assert StrTok(t) == StrTok(s);
  }

  /** Between commas, wherever they stand and however many, the tokens are the non-empty pieces. */
  lemma {:induction false} TokensOfPieces(pieces: seq<string>)
    requires forall i :: 0 <= i < |pieces| ==> ',' !in pieces[i]
    ensures Tokens(Join(pieces)) == Filter(pieces, NonEmpty)
  {
    if pieces == [] {
      assert Tokens("") == [];
    } else {
      hide Tokens;
      var piece, rest := pieces[0], pieces[1..];
      assert pieces == [piece] + rest;
      FilterCons(piece, rest);
      TokensOfPieces(rest);
      FirstPiece(piece, rest);
    }
  }

  lemma FirstPiece(piece: string, rest: seq<string>)
    requires ',' !in piece
    ensures Tokens(Join([piece] + rest)) == (if piece == "" then [] else [piece]) + Tokens(Join(rest))
  {
    assert ([piece] + rest)[1..] == rest;
    assert Tokens("") == [];
    if piece != "" {
      StrTokOfToken(piece, Join(rest));
    } else if rest != [] {
      CommaSkipped(Join(rest));
      assert "" + "," + Join(rest) == "," + Join(rest);
    }
  }

  /** And every text is made of such pieces. */
  lemma {:induction false} EveryTextHasPieces(text: string) returns (pieces: seq<string>)
    ensures pieces != [] && Join(pieces) == text && forall i :: 0 <= i < |pieces| ==> ',' !in pieces[i]
    decreases |text|
  {
    var n := IndexOf(text, ',');
    if n == |text| {
      pieces := [text];
    } else {
      var rest := EveryTextHasPieces(text[n + 1..]);
      pieces := [text[..n]] + rest;
      assert pieces[1..] == rest && text == text[..n] + "," + text[n + 1..];
    }
  }

  /** The numbers of a comma-separated list, converted to the element type. */
  function Values(text: string, convert: int -> int): seq<int> {
    Convert(Tokens(text), convert)
  }

  function Convert(tokens: seq<string>, convert: int -> int): seq<int> {
    seq(|tokens|, i requires 0 <= i < |tokens| => convert(Atoi(tokens[i])))
  }

  /** `int` to `unsigned int`, and `int` to `signed char`. */
  function ToUnsigned(v: int): int {
    v % U32
  }

  function ToSignedChar(v: int): int {
    (v + 128) % 256 - 128
  }

  /** Conversion keeps what fits and is blind to multiples of the range. */
  lemma Conversions(v: int, k: int)
    ensures 0 <= ToUnsigned(v) < 0x1_0000_0000 && ToUnsigned(v + k * 0x1_0000_0000) == ToUnsigned(v)
    ensures 0 <= v < 0x1_0000_0000 ==> ToUnsigned(v) == v
    ensures -128 <= ToSignedChar(v) < 128 && ToSignedChar(v + k * 256) == ToSignedChar(v)
    ensures -128 <= v < 128 ==> ToSignedChar(v) == v
  {
    Word(v + k * 0x1_0000_0000, v / 0x1_0000_0000 + k, v % 0x1_0000_0000);
    Octet(v + 128 + k * 256, (v + 128) / 256 + k, (v + 128) % 256);
  }

  /** A remainder is known by its size. */
  lemma Word(x: int, q: int, r: int)
    requires x == 0x1_0000_0000 * q + r && 0 <= r < 0x1_0000_0000
    ensures x % 0x1_0000_0000 == r
  {
  }

  lemma Octet(x: int, q: int, r: int)
    requires x == 256 * q + r && 0 <= r < 256
    ensures x % 256 == r
  {
  }

  function ListText(values: seq<int>): string {
    Join(seq(|values|, i requires 0 <= i < |values| => Decimal(values[i])))
  }

  /** A printed list is read back element by element. */
  lemma ValuesOfText(values: seq<int>, convert: int -> int)
    requires forall i :: 0 <= i < |values| ==> convert(values[i]) == values[i]
    ensures Values(ListText(values), convert) == values
  {
    var tokens := seq(|values|, i requires 0 <= i < |values| => Decimal(values[i]));
    forall i | 0 <= i < |values| ensures Atoi(tokens[i]) == values[i] && tokens[i] != "" && ',' !in tokens[i] {
      AtoiOfDecimal(values[i]);
    }
    TokensOfJoin(tokens);
  }

  predicate PowerOfTwo(n: nat) {
    n == 1 || (n > 0 && n % 2 == 0 && PowerOfTwo(n / 2))
  }

  /** The capacity after appending to a list of len elements: 0 for an empty list, otherwise the
      least power of two that holds it. */
  predicate Capacity(size: nat, len: nat) {
    if len == 0 then size == 0 else PowerOfTwo(size) && len <= size < 2 * len
  }

  /** The loop body of the extraction: the array is doubled by `realloc` when full, then appended to. */
  method Append(arr: array<int>, len: nat, v: int) returns (grown: array<int>)
    requires Capacity(arr.Length, len)
    modifies arr
    ensures grown == arr || fresh(grown)
    ensures len < grown.Length && Capacity(grown.Length, len + 1)
    ensures grown[..len + 1] == old(arr[..len]) + [v]
  {
    grown := arr;
    if arr.Length == len {
      var size := arr.Length * 2;
      if size == 0 {
        size := 1;
      }
      assert len > 0 ==> size / 2 == len;
      grown := new int[size](i requires 0 <= i reads arr => if i < arr.Length then arr[i] else 0);
    }
    grown[len] := v;
  }

  /** The tokens still to come. */
  function Ahead(next: Option<(string, string)>): seq<string> {
    if next.None? then [] else [next.value.0] + Tokens(next.value.1)
  }

  lemma AheadIsTokens(rest: string)
    ensures Ahead(StrTok(rest)) == Tokens(rest)
  {
  }

  lemma ConvertCons(token: string, tokens: seq<string>, convert: int -> int)
    ensures Convert([token] + tokens, convert) == [convert(Atoi(token))] + Convert(tokens, convert)
  {
    hide Atoi;
  }

  /** The first token ahead moves to the values done. */
  lemma OneMore(done: seq<int>, token: string, rest: string, convert: int -> int)
    ensures done + Convert([token] + Tokens(rest), convert)
      == (done + [convert(Atoi(token))]) + Convert(Ahead(StrTok(rest)), convert)
  {
    hide Convert, Tokens, Ahead, StrTok, Atoi;
    AheadIsTokens(rest);
    ConvertCons(token, Tokens(rest), convert);
    Assoc(done, [convert(Atoi(token))], Convert(Tokens(rest), convert));
  }

  /** The values done and the tokens ahead make up the whole list. */
  ghost predicate Extracted(text: string, convert: int -> int, done: seq<int>, next: Option<(string, string)>) {
    Values(text, convert) == done + Convert(Ahead(next), convert)
  }

  lemma ExtractedStart(text: string, convert: int -> int)
    ensures Extracted(text, convert, [], StrTok(text))
  {
    hide Convert, Tokens, StrTok, Ahead;
    AheadIsTokens(text);
  }

  lemma ExtractedNext(text: string, convert: int -> int, done: seq<int>, token: string, rest: string)
    requires Extracted(text, convert, done, Some((token, rest)))
    ensures Extracted(text, convert, done + [convert(Atoi(token))], StrTok(rest))
  {
    OneMore(done, token, rest, convert);
  }

  lemma ExtractedAll(text: string, convert: int -> int, done: seq<int>)
    requires Extracted(text, convert, done, None)
    ensures done == Values(text, convert)
  {
  }

  /** `extract_comma_sep_freqs` and `extract_comma_sep_sinrs`, which differ in the element type only. */
  method ExtractList(text: string, convert: int -> int) returns (arr: array<int>, len: nat)
    ensures Capacity(arr.Length, len) && len <= arr.Length
    ensures arr[..len] == Values(text, convert)
  {
    hide Extracted, Atoi;
    arr, len := new int[0], 0;
    ghost var done: seq<int> := [];
    var next := StrTok(text);
    ExtractedStart(text, convert);
    while next.Some?
      invariant fresh(arr) && Capacity(arr.Length, len) && len <= arr.Length && arr[..len] == done
      invariant Extracted(text, convert, done, next)
      decreases if next.Some? then |next.value.1| + 1 else 0
    {
      hide StrTok, Values;
      var token, rest := next.value.0, next.value.1;
      ExtractedNext(text, convert, done, token, rest);
      arr := Append(arr, len, convert(Atoi(token)));
      done := done + [convert(Atoi(token))];
      len := len + 1;
      next := StrTok(rest);
    }
    ExtractedAll(text, convert, done);
  }

  // ---------------------------------------------------------------------------------------
  // The message
  // ---------------------------------------------------------------------------------------

  type byte = b: nat | b < 256

  /** The channel number of a frequency: unsigned arithmetic, wrapping below the first channel. */
  function Channel(freq: nat): nat {
    (freq - STARTING_FREQ) % U32 / FREQ_MULTIPLEX
  }

  /** The three bytes of one entry. */
  function Entry(freq: nat, sinr: int): (entry: seq<byte>)
    ensures |entry| == HYBRID_SRCH_DATA_LEN
  {
    [Channel(freq) % 256, Channel(freq) / 256 % 256, sinr % 256]
  }

  function Entries(freqs: seq<nat>, sinrs: seq<int>): (data: seq<byte>)
    requires |freqs| == |sinrs|
    ensures |data| == |freqs| * HYBRID_SRCH_DATA_LEN
  {
    if freqs == [] then []
    else Entries(freqs[..|freqs| - 1], sinrs[..|freqs| - 1]) + Entry(freqs[|freqs| - 1], sinrs[|freqs| - 1])
  }

  /** Mode, payload length and number of entries, each cut to a byte. */
  function Head(n: nat): seq<byte> {
    [HYBRID_SRCH_MODE, (n * HYBRID_SRCH_DATA_LEN + 1) % 256, n % 256]
  }

  function Encode(freqs: seq<nat>, sinrs: seq<int>): (data: seq<byte>)
    requires |freqs| == |sinrs|
    ensures |data| == 3 * |freqs| + 3
  {
    Head(|freqs|) + Entries(freqs, sinrs)
  }

  /** What a receiver reads in an entry: the frequency of its channel and the signed SINR. */
  function Received(entry: seq<byte>): (nat, int)
    requires |entry| == HYBRID_SRCH_DATA_LEN
  {
    (STARTING_FREQ + FREQ_MULTIPLEX * (entry[0] as int + 256 * entry[1] as int), ToSignedChar(entry[2]))
  }

  function DecodeEntries(data: seq<byte>, n: nat): (pairs: seq<(nat, int)>)
    requires |data| == n * HYBRID_SRCH_DATA_LEN
    ensures |pairs| == n
  {
    if n == 0 then [] else DecodeEntries(data[..|data| - 3], n - 1) + [Received(data[|data| - 3..])]
  }

  /** The length and count bytes agree with the message. */
  predicate Coherent(data: seq<byte>) {
    && |data| >= 3 && data[0] == HYBRID_SRCH_MODE
    && data[1] as int == 3 * data[2] as int + 1 && |data| == 3 * data[2] as int + 3
  }

  function Decode(data: seq<byte>): Option<seq<(nat, int)>> {
    if Coherent(data) then Some(DecodeEntries(data[3..], data[2])) else None
  }

  function Zip(freqs: seq<nat>, sinrs: seq<int>): seq<(nat, int)>
    requires |freqs| == |sinrs|
  {
    seq(|freqs|, i requires 0 <= i < |freqs| => (freqs[i], sinrs[i]))
  }

  /** A frequency the message can carry: on the 50 kHz grid from 76 MHz, with a 16-bit channel. */
  predicate OnGrid(freq: nat) {
    STARTING_FREQ <= freq && (freq - STARTING_FREQ) % FREQ_MULTIPLEX == 0
    && (freq - STARTING_FREQ) / FREQ_MULTIPLEX < 0x10000
  }

  predicate IsSignedChar(v: int) {
    -128 <= v <= 127
  }

  /** Two bytes make a number up to 2^16. */
  lemma TwoBytes(c: nat)
    ensures c % 256 + 256 * (c / 256 % 256) == c % 0x10000
  {
    var q := c / 256;
    SixteenBits(c, q / 256, 256 * (q % 256) + c % 256);
  }

  lemma SixteenBits(c: nat, k: nat, r: nat)
    requires c == 0x10000 * k + r && r < 0x10000
    ensures c % 0x10000 == r
  {
  }

  /** The channel number of a frequency leads back to it exactly on the grid. */
  lemma ChannelOnGrid(freq: nat)
    requires freq < U32
    ensures STARTING_FREQ + FREQ_MULTIPLEX * (Channel(freq) % 0x10000) == freq <==> OnGrid(freq)
  {
    if freq >= STARTING_FREQ {
      ChannelAbove(freq - STARTING_FREQ);
    }
  }

  lemma ChannelAbove(d: nat)
    requires d < U32
    ensures d % U32 == d
    ensures 50 * (d / 50 % 0x10000) == d <==> d % 50 == 0 && d / 50 < 0x10000
  {
  }

  lemma SignedByte(v: int)
    requires IsSignedChar(v)
    ensures ToSignedChar(v % 256) == v
  {
  }

  /** An entry is read back exactly when its frequency is on the grid. */
  lemma EntryRoundTrip(freq: nat, sinr: int)
    requires freq < U32 && IsSignedChar(sinr)
    ensures Received(Entry(freq, sinr)) == (freq, sinr) <==> OnGrid(freq)
  {
    hide Channel, OnGrid, ToSignedChar;
    TwoBytes(Channel(freq));
    ChannelOnGrid(freq);
    SignedByte(sinr);
  }

  lemma SameLast<T>(a: seq<T>, x: T, b: seq<T>, y: T)
    ensures a + [x] == b + [y] <==> a == b && x == y
  {
    if a + [x] == b + [y] {
      assert a == (a + [x])[..|a|] && b == (b + [y])[..|b|];
    }
  }

  /** Encoding and decoding both go entry by entry. */
  lemma LastEntry(freqs: seq<nat>, sinrs: seq<int>)
    requires |freqs| == |sinrs| > 0
    ensures var n := |freqs| - 1;
      DecodeEntries(Entries(freqs, sinrs), n + 1)
        == DecodeEntries(Entries(freqs[..n], sinrs[..n]), n) + [Received(Entry(freqs[n], sinrs[n]))]
  {
    var n := |freqs| - 1;
    var front, last := Entries(freqs[..n], sinrs[..n]), Entry(freqs[n], sinrs[n]);
    assert Entries(freqs, sinrs) == front + last;
    assert (front + last)[..|front|] == front && (front + last)[|front|..] == last;
  }

  /** What the callers of the setter guarantee: 32-bit frequencies with a signed 8-bit SINR each. */
  predicate Typed(freqs: seq<nat>, sinrs: seq<int>) {
    |freqs| == |sinrs| && forall i :: 0 <= i < |freqs| ==> freqs[i] < U32 && IsSignedChar(sinrs[i])
  }

  predicate AllOnGrid(freqs: seq<nat>) {
    forall i :: 0 <= i < |freqs| ==> OnGrid(freqs[i])
  }

  lemma SnocFacts(freqs: seq<nat>, sinrs: seq<int>, n: nat)
    requires Typed(freqs, sinrs) && |freqs| == n + 1
    ensures AllOnGrid(freqs) <==> AllOnGrid(freqs[..n]) && OnGrid(freqs[n])
    ensures Typed(freqs[..n], sinrs[..n]) && Zip(freqs, sinrs) == Zip(freqs[..n], sinrs[..n]) + [(freqs[n], sinrs[n])]
  {
  }

  lemma {:induction false} EntriesRoundTrip(freqs: seq<nat>, sinrs: seq<int>)
    requires Typed(freqs, sinrs)
    ensures DecodeEntries(Entries(freqs, sinrs), |freqs|) == Zip(freqs, sinrs) <==> AllOnGrid(freqs)
    decreases |freqs|
  {
    if freqs != [] {
      var n := |freqs| - 1;
      var fs, ss := freqs[..n], sinrs[..n];
      SnocFacts(freqs, sinrs, n);
      EntriesRoundTrip(fs, ss);
      EntryRoundTrip(freqs[n], sinrs[n]);
      LastEntry(freqs, sinrs);
      SameLast(DecodeEntries(Entries(fs, ss), n), Received(Entry(freqs[n], sinrs[n])), Zip(fs, ss), (freqs[n], sinrs[n]));
    }
  }

  /** The length and count bytes are believed exactly up to 84 entries. */
  lemma HeadBytes(n: nat)
    ensures (n * 3 + 1) % 256 == 3 * (n % 256) + 1 && 3 * n + 3 == 3 * (n % 256) + 3 <==> n <= 84
    ensures n <= 84 ==> n % 256 == n
  {
  }

  lemma ThreeAhead<T>(head: seq<T>, tail: seq<T>)
    requires |head| == 3
    ensures var all := head + tail; all[0] == head[0] && all[1] == head[1] && all[2] == head[2] && all[3..] == tail
  {
  }

  lemma EncodeParts(freqs: seq<nat>, sinrs: seq<int>)
    requires |freqs| == |sinrs|
    ensures var n, data := |freqs|, Encode(freqs, sinrs);
      && data[0] == HYBRID_SRCH_MODE && data[1] as int == (n * 3 + 1) % 256 && data[2] as int == n % 256
      && data[3..] == Entries(freqs, sinrs)
  {
    hide Entries;
    ThreeAhead(Head(|freqs|), Entries(freqs, sinrs));
  }

  lemma HeadIsCoherent(freqs: seq<nat>, sinrs: seq<int>)
    requires |freqs| == |sinrs|
    ensures Coherent(Encode(freqs, sinrs)) <==> |freqs| <= 84
    ensures |freqs| <= 84 ==>
      Encode(freqs, sinrs)[2] == |freqs| && Encode(freqs, sinrs)[3..] == Entries(freqs, sinrs)
  {
    hide Entries, Encode;
    EncodeParts(freqs, sinrs);
    HeadBytes(|freqs|);
  }

  /** Round trip: the receiver reads the sender's list exactly when there are at most 84 entries and
      every frequency is on the grid. */
  lemma MessageRoundTrip(freqs: seq<nat>, sinrs: seq<int>)
    requires Typed(freqs, sinrs)
    ensures Decode(Encode(freqs, sinrs)) == Some(Zip(freqs, sinrs)) <==> |freqs| <= 84 && AllOnGrid(freqs)
  {
    EntriesRoundTrip(freqs, sinrs);
    HeadIsCoherent(freqs, sinrs);
  }

  /** The loop body of `SetHybridSrchList`: three stores. */
  method WriteEntry(data: array<byte>, size: nat, freq: nat, sinr: int)
    requires size + 3 <= data.Length
    modifies data
    ensures data[..size + 3] == old(data[..size]) + Entry(freq, sinr)
  {
    var channel := Channel(freq);
    data[size] := channel % 256;
    data[size + 1] := channel / 256 % 256;
    data[size + 2] := sinr % 256;
  }

  /** `SetHybridSrchList`: the message for the driver, or None when nothing is sent; `answer` is the
      driver's. */
  method SetHybridSrchList(freqs: array?<nat>, sinrs: array?<int>, n: nat, answer: int)
    returns (ret: int, sent: Option<array<byte>>)
    requires freqs != null && sinrs != null ==> n <= freqs.Length && n <= sinrs.Length
    requires n * HYBRID_SRCH_DATA_LEN + HYBRID_SRCH_DATA_INDEX < U32
    ensures sent.Some? <==> n > 0 && freqs != null && sinrs != null
    ensures sent.Some? ==> sent.value[..] == Encode(freqs[..n], sinrs[..n])
    ensures sent.Some? ==> Packed(sent.value[..], freqs[..n], sinrs[..n])
    ensures ret == if sent.Some? then answer else FM_FAILURE
  {
    ret, sent := FM_FAILURE, None;
    if n == 0 {
      return;
    }
    var data := new byte[n * HYBRID_SRCH_DATA_LEN + HYBRID_SRCH_DATA_INDEX];
    data[0] := HYBRID_SRCH_MODE;
    data[1] := (n * HYBRID_SRCH_DATA_LEN + 1) % 256;
    data[2] := n % 256;
    assert data[..3] == Head(n);
    var size := WriteEntries(data, freqs, sinrs, n);
    if size == n * HYBRID_SRCH_DATA_LEN + HYBRID_SRCH_DATA_INDEX {
      assert data[..size] == data[..];
      EncodePacks(freqs[..n], sinrs[..n]);
      ret, sent := answer, Some(data);
    }
  }

  /** The loop of `SetHybridSrchList`, with its moving `size`; without arrays it writes nothing. */
  method WriteEntries(data: array<byte>, freqs: array?<nat>, sinrs: array?<int>, n: nat) returns (size: nat)
    requires freqs != null && sinrs != null ==> n <= freqs.Length && n <= sinrs.Length
    requires data.Length == 3 * n + 3 && data[..3] == Head(n)
    modifies data
    ensures size == if freqs != null && sinrs != null then 3 * n + 3 else 3
    ensures freqs != null && sinrs != null ==> data[..size] == Head(n) + Entries(freqs[..n], sinrs[..n])
  {
    size := 3;
    var i: nat := 0;
    ghost var fs, ss := if freqs != null then freqs[..] else [], if sinrs != null then sinrs[..] else [];
    assert data[..3] == Head(n) + Entries(fs[..0], ss[..0]);
    hide Head, Entries, Entry;
    while size < n * HYBRID_SRCH_DATA_LEN + 2 && freqs != null && sinrs != null
      invariant i <= n && size == i * HYBRID_SRCH_DATA_LEN + 3 && i <= |fs| && i <= |ss|
      invariant freqs == null || sinrs == null ==> i == 0
      invariant data[..size] == Head(n) + Entries(fs[..i], ss[..i])
    {
      WriteEntry(data, size, freqs[i], sinrs[i]);
      EntriesSnoc(fs, ss, i);
      Assoc(Head(n), Entries(fs[..i], ss[..i]), Entry(fs[i], ss[i]));
      size, i := size + 3, i + 1;
    }
    assert freqs != null && sinrs != null ==> fs[..n] == freqs[..n] && ss[..n] == sinrs[..n];
  }

  lemma EntriesSnoc(freqs: seq<nat>, sinrs: seq<int>, i: nat)
    requires i < |freqs| && i < |sinrs|
    ensures Entries(freqs[..i + 1], sinrs[..i + 1]) == Entries(freqs[..i], sinrs[..i]) + Entry(freqs[i], sinrs[i])
  {
    assert freqs[..i + 1][..i] == freqs[..i] && sinrs[..i + 1][..i] == sinrs[..i];
  }

  /** The message byte by byte: mode, payload length and count, then for each entry the channel number on
      the 50 kHz grid from 76 MHz, low byte first, and the SINR. */
  ghost predicate Packed(data: seq<byte>, freqs: seq<nat>, sinrs: seq<int>)
    requires |freqs| == |sinrs|
  {
    && |data| == 3 * |freqs| + 3
    && data[0] == 0x40 && data[1] as int == (3 * |freqs| + 1) % 256 && data[2] as int == |freqs| % 256
    && forall i :: 0 <= i < |freqs| ==> PackedAt(data, 3 * i + 3, freqs[i], sinrs[i])
  }

  ghost predicate PackedAt(data: seq<byte>, at: nat, freq: nat, sinr: int)
    requires at + 2 < |data|
  {
    var channel := (freq - 76000) % 0x1_0000_0000 / 50;
    data[at] as int == channel % 256 && data[at + 1] as int == channel / 256 % 256 && data[at + 2] as int == sinr % 256
  }

  /** Bytes in front and behind do not matter. */
  lemma PackedInside(front: seq<byte>, data: seq<byte>, back: seq<byte>, at: nat, freq: nat, sinr: int)
    requires at + 2 < |data| && PackedAt(data, at, freq, sinr)
    ensures PackedAt(front + data + back, |front| + at, freq, sinr)
  {
    var all := front + data + back;
    assert all[|front| + at] == data[at] && all[|front| + at + 1] == data[at + 1] && all[|front| + at + 2] == data[at + 2];
  }

  lemma EntryPacks(freq: nat, sinr: int)
    ensures PackedAt(Entry(freq, sinr), 0, freq, sinr)
  {
  }

  lemma {:induction false} EntriesPack(freqs: seq<nat>, sinrs: seq<int>, i: nat)
    requires |freqs| == |sinrs| && i < |freqs|
    ensures PackedAt(Entries(freqs, sinrs), 3 * i, freqs[i], sinrs[i])
    decreases |freqs|
  {
    hide PackedAt, Entry;
    EntriesSnoc(freqs, sinrs, |freqs| - 1);
    hide Entries;
    var n := |freqs| - 1;
    assert freqs[..n + 1] == freqs && sinrs[..n + 1] == sinrs;
    var front, last := Entries(freqs[..n], sinrs[..n]), Entry(freqs[n], sinrs[n]);
    if i < n {
      EntriesPack(freqs[..n], sinrs[..n], i);
      PackedInside([], front, last, 3 * i, freqs[i], sinrs[i]);
      assert [] + front + last == front + last;
    } else {
      EntryPacks(freqs[n], sinrs[n]);
      PackedInside(front, last, [], 0, freqs[n], sinrs[n]);
      assert front + last + [] == front + last;
    }
  }

  lemma EncodePacks(freqs: seq<nat>, sinrs: seq<int>)
    requires |freqs| == |sinrs|
    ensures Packed(Encode(freqs, sinrs), freqs, sinrs)
  {
    EncodeParts(freqs, sinrs);
    hide PackedAt, Entries;
    var head, entries := Head(|freqs|), Entries(freqs, sinrs);
    forall i | 0 <= i < |freqs| ensures PackedAt(Encode(freqs, sinrs), 3 * i + 3, freqs[i], sinrs[i]) {
      EntriesPack(freqs, sinrs, i);
      PackedInside(head, entries, [], 3 * i, freqs[i], sinrs[i]);
      assert head + entries + [] == head + entries;
    }
  }

  /** From text to message and back: printed lists of at most 84 carriable frequencies and signed
      8-bit SINRs arrive as they were written. */
  lemma TextToMessage(freqs: seq<nat>, sinrs: seq<int>)
    requires |freqs| == |sinrs| <= 84
    requires forall i :: 0 <= i < |freqs| ==> OnGrid(freqs[i]) && IsSignedChar(sinrs[i])
    ensures Values(ListText(freqs), ToUnsigned) == freqs && Values(ListText(sinrs), ToSignedChar) == sinrs
    ensures Decode(Encode(freqs, sinrs)) == Some(Zip(freqs, sinrs))
  {
    ValuesOfText(freqs, ToUnsigned);
    ValuesOfText(sinrs, ToSignedChar);
    MessageRoundTrip(freqs, sinrs);
  }
}
