/** Which bytes are one JSON text: the lexemes of the bytes, and the grammar of RFC 8259 over them. */
module JsonGrammar {
  import opened Common
  import opened Utf8
  import opened JsonText

  // ----- lexemes

  lemma CharsCons(c: Char, chars: seq<Char>, rest: Bytes)
    ensures CharsText([c] + chars) + [QUOTE] + rest == CharText(c) + (CharsText(chars) + [QUOTE] + rest)
  {
    assert ([c] + chars)[1..] == chars;
  }

  /** The characters are well formed and spell the bytes up to the quote. */
  predicate Spells(chars: seq<Char>, rest: Bytes, s: Bytes) {
    CharsText(chars) + [QUOTE] + rest == s && forall i | 0 <= i < |chars| :: WellChar(chars[i])
  }

  function CharAt(s: Bytes): (c: Option<Char>)
    requires s != [] && s[0] != QUOTE
    ensures c.Some? ==> WellChar(c.value) && CharText(c.value) <= s
  {
    if s[0] != BACKSLASH then Some(Itself(s[0]))
    else if |s| < 2 || s[1] >= 0x80 || Html(s[1]) then None
    else Some(Behind(s[1]))
  }

  /** The characters up to the closing quote, and what follows it. */
  function LexChars(s: Bytes): (r: Option<(seq<Char>, Bytes)>)
    ensures r.Some? ==> |r.value.1| < |s| && Spells(r.value.0, r.value.1, s)
    decreases |s|
  {
    if s == [] then None
    else if s[0] == QUOTE then
      assert CharsText([]) + [QUOTE] + s[1..] == s;
      Some(([], s[1..]))
    else
      var c := CharAt(s);
      if c.None? then None
      else
        var r := LexChars(s[|CharText(c.value)|..]);
        if r.None? then None
        else
          CharsCons(c.value, r.value.0, r.value.1);
          Some(([c.value] + r.value.0, r.value.1))
  }

  /** The lexemes of the bytes; none where a string does not end or a byte has no place outside one. */
  function Lex(s: Bytes): (r: Option<seq<Lexeme>>)
    ensures r.Some? ==> WellText(r.value) && SourceText(r.value) == s
    decreases |s|
  {
    if s == [] then Some([])
    else if s[0] == QUOTE then
      var c := LexChars(s[1..]);
      if c.None? then None else
        var l := Quoted(c.value.0);
        assert LexemeText(l) + c.value.1 == s;
        Lexed(l, c.value.1, Lex(c.value.1))
    else if IsBlank(s[0]) then Lexed(Blank(s[0]), s[1..], Lex(s[1..]))
    else if s[0] < 0x80 && !Html(s[0]) then Lexed(Other(s[0]), s[1..], Lex(s[1..]))
    else None
  }

  function Lexed(l: Lexeme, rest: Bytes, more: Option<seq<Lexeme>>): (r: Option<seq<Lexeme>>)
    requires WellLexeme(l) && (more.Some? ==> WellText(more.value) && SourceText(more.value) == rest)
    ensures r.Some? <==> more.Some?
    ensures r.Some? ==> WellText(r.value) && SourceText(r.value) == LexemeText(l) + rest
  {
    if more.None? then None
    else
      assert ([l] + more.value)[1..] == more.value;
      Some([l] + more.value)
  }

  // ----- strings, numbers and words

  predicate IsHex(c: Char) {
    c.Itself? && (0x30 <= c.b <= 0x39 || 0x41 <= c.b <= 0x46 || 0x61 <= c.b <= 0x66)
  }

  /** No control character, and every escape one of the grammar's. */
  predicate IsString(chars: seq<Char>)
    decreases |chars|
  {
    if chars == [] then true
    else match chars[0]
      case Itself(b) => b >= 0x20 && IsString(chars[1..])
      case Behind(b) =>
        if b == 0x75 then
          |chars| >= 5 && (forall i | 1 <= i < 5 :: IsHex(chars[i])) && IsString(chars[5..])
        else
          b in {QUOTE, BACKSLASH, 0x2F, 0x62, 0x66, 0x6E, 0x72, 0x74} && IsString(chars[1..])
  }

  predicate IsDigit(b: Byte) {
    0x30 <= b <= 0x39
  }

  predicate AreDigits(s: Bytes) {
    forall b | b in s :: IsDigit(b)
  }

  function DigitsAt(s: Bytes): (n: nat)
    ensures n <= |s| && AreDigits(s[..n]) && (n < |s| ==> !IsDigit(s[n]))
  {
    if s == [] || !IsDigit(s[0]) then 0
    else
      var n := DigitsAt(s[1..]);
      assert s[..n + 1] == [s[0]] + s[1..][..n];
      n + 1
  }

  predicate IsExponent(s: Bytes) {
    s == [] ||
    (s[0] in {0x65, 0x45} &&
     var d := if |s| > 1 && s[1] in {0x2B, 0x2D} then s[2..] else s[1..];
     d != [] && AreDigits(d))
  }

  predicate IsFraction(s: Bytes) {
    if s != [] && s[0] == 0x2E then
      var n := DigitsAt(s[1..]);
      n > 0 && IsExponent(s[1 + n..])
    else IsExponent(s)
  }

  predicate IsNumber(s: Bytes) {
    var m := if s != [] && s[0] == 0x2D then s[1..] else s;
    var n := DigitsAt(m);
    n > 0 && (m[0] == 0x30 ==> n == 1) && IsFraction(m[n..])
  }

  predicate IsWord(s: Bytes) {
    s == TRUE || s == FALSE || s == NULL || IsNumber(s)
  }

  // ----- values

  const OPEN_LIST: Lexeme := Other(0x5B)
  const CLOSE_LIST: Lexeme := Other(0x5D)
  const OPEN_MAP: Lexeme := Other(0x7B)
  const CLOSE_MAP: Lexeme := Other(0x7D)
  const NEXT: Lexeme := Other(COMMA)
  const NAMED: Lexeme := Other(COLON)

  predicate IsMark(l: Lexeme) {
    l in {OPEN_LIST, CLOSE_LIST, OPEN_MAP, CLOSE_MAP, NEXT, NAMED}
  }

  function Skip(t: seq<Lexeme>): (r: seq<Lexeme>)
    ensures |r| <= |t| && (r != [] ==> !r[0].Blank?)
  {
    if t != [] && t[0].Blank? then Skip(t[1..]) else t
  }

  /** The bytes of a number or a word at the start. */
  function Word(t: seq<Lexeme>): (s: Bytes)
    ensures |s| <= |t|
  {
    if t == [] || !t[0].Other? || IsMark(t[0]) then [] else [t[0].b] + Word(t[1..])
  }

  /** How deep the library lets lists and maps nest. */
  const MAX_NESTING: nat := 10000

  /** What follows one value, if the text starts with one that nests no deeper than there is room. */
  function Value(text: seq<Lexeme>, room: nat): (rest: Option<seq<Lexeme>>)
    ensures rest.Some? ==> |rest.value| < |text|
    decreases |text|, 1
  {
    var t := Skip(text);
    if t == [] then None
    else if t[0].Quoted? then (if IsString(t[0].chars) then Some(t[1..]) else None)
    else if t[0] == OPEN_LIST then
      var u := Skip(t[1..]);
      if room == 0 then None
      else if u != [] && u[0] == CLOSE_LIST then Some(u[1..])
      else Items(u, room - 1)
    else if t[0] == OPEN_MAP then
      var u := Skip(t[1..]);
      if room == 0 then None
      else if u != [] && u[0] == CLOSE_MAP then Some(u[1..])
      else Members(u, room - 1)
    else
      var s := Word(t);
      if s != [] && IsWord(s) then Some(t[|s|..]) else None
  }

  /** The items of a list up to its end. */
  function Items(t: seq<Lexeme>, room: nat): (rest: Option<seq<Lexeme>>)
    ensures rest.Some? ==> |rest.value| < |t|
    decreases |t|, 2
  {
    var v := Value(t, room);
    if v.None? then None
    else
      var u := Skip(v.value);
      if u == [] then None
      else if u[0] == CLOSE_LIST then Some(u[1..])
      else if u[0] == NEXT then Items(u[1..], room)
      else None
  }

  /** The members of a map up to its end, each a string, a colon and a value. */
  function Members(t: seq<Lexeme>, room: nat): (rest: Option<seq<Lexeme>>)
    ensures rest.Some? ==> |rest.value| < |t|
    decreases |t|, 2
  {
    var n := Skip(t);
    if n == [] || !n[0].Quoted? || !IsString(n[0].chars) then None
    else
      var c := Skip(n[1..]);
      if c == [] || c[0] != NAMED then None
      else
        var v := Value(c[1..], room);
        if v.None? then None
        else
          var u := Skip(v.value);
          if u == [] then None
          else if u[0] == CLOSE_MAP then Some(u[1..])
          else if u[0] == NEXT then Members(u[1..], room)
          else None
  }

  /** One value and nothing more but blanks. */
  predicate IsText(t: seq<Lexeme>) {
    var rest := Value(t, MAX_NESTING);
    rest.Some? && Skip(rest.value) == []
  }

  predicate IsJson(s: Bytes) {
    var t := Lex(s);
    t.Some? && IsText(t.value)
  }

  /** The text as it is written into a record. */
  function CompactJson(s: Bytes): Bytes
    requires IsJson(s)
  {
    Compacted(Lex(s).value)
  }

  /** On every JSON text the automaton counts the compacted length. */
  lemma JsonCounts(s: Bytes)
    requires IsJson(s)
    ensures RawCount(OUTSIDE, s) == |CompactJson(s)|
  {
    RawCountsCompacted(Lex(s).value);
  }

  /** An absent raw value is no JSON text, and neither is a mark alone. */
  lemma NotJson(b: Byte)
    ensures !IsJson([])
    ensures b in {0x5B, 0x5D, 0x7B, 0x7D, COMMA, COLON} ==> !IsJson([b])
  {
    if b in {0x5B, 0x5D, 0x7B, 0x7D, COMMA, COLON} {
      assert [b][1..] == [] && [Other(b)] + [] == [Other(b)];
      assert Lex([b]) == Some([Other(b)]);
      assert [Other(b)][1..] == [] && IsMark(Other(b));
    }
  }
}
