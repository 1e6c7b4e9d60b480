/** JSON text as encoding/json writes it: strings, decimals and compacted raw values. */
module JsonText {
  import opened Utf8

  const COMMA: Byte := 0x2C
  const COLON: Byte := 0x3A
  const NULL: Bytes := [0x6E, 0x75, 0x6C, 0x6C]
  const TRUE: Bytes := [0x74, 0x72, 0x75, 0x65]
  const FALSE: Bytes := [0x66, 0x61, 0x6C, 0x73, 0x65]

  /** The six bytes of a \u escape. */
  function Escaped(c: int): (t: Bytes)
    requires 0 <= c < 65536
    ensures |t| == 6
  {
    [BACKSLASH, 0x75, HexDigit(c / 4096), HexDigit(c / 256 % 16), HexDigit(c / 16 % 16), HexDigit(c % 16)]
  }

  predicate Html(c: int) {
    c == 0x3C || c == 0x3E || c == 0x26
  }

  // ----- strings

  /** The letter of a two-byte escape, where there is one. */
  function Short(c: int): Byte {
    if c == 8 then 0x62 else if c == 12 then 0x66 else if c == 10 then 0x6E
    else if c == 13 then 0x72 else if c == 9 then 0x74
    else if c == 0x22 then QUOTE else BACKSLASH
  }

  predicate HasShort(c: int) {
    c == 0x22 || c == 0x5C || c == 8 || c == 12 || c == 10 || c == 13 || c == 9
  }

  /** What the first rune or invalid byte of a text is written as. */
  function StringRune(s: Bytes): (t: Bytes)
    requires s != []
    ensures |t| >= Decode(s).width
  {
    var c, d := s[0] as int, Decode(s);
    if c < 0x80 then
      if HasShort(c) then [BACKSLASH, Short(c)] else if c < 0x20 || Html(c) then Escaped(c) else [c]
    else if Invalid(s) then Escaped(RUNE_ERROR)
    else if d.rune == 0x2028 || d.rune == 0x2029 then Escaped(d.rune)
    else s[..d.width]
  }

  function StringBody(s: Bytes): (t: Bytes)
    ensures |t| >= |s|
    decreases |s|
  {
    if s == [] then [] else StringRune(s) + StringBody(s[Decode(s).width..])
  }

  function StringText(s: Bytes): Bytes {
    [QUOTE] + StringBody(s) + [QUOTE]
  }

  // ----- integers

  function Digits(n: nat): Bytes {
    if n < 10 then [0x30 + n] else Digits(n / 10) + [0x30 + n % 10]
  }

  function Decimal(n: int): Bytes {
    if n < 0 then [0x2D] + Digits(-n) else Digits(n)
  }

  // ----- raw values

  /** A JSON text is made of blanks, bytes outside strings, and strings. */
  datatype Lexeme = Blank(b: Byte) | Other(b: Byte) | Quoted(chars: seq<Char>)

  /** Inside a string: a byte that stands for itself, or a backslash and the byte behind it. */
  datatype Char = Itself(b: Byte) | Behind(b: Byte)

  predicate IsBlank(b: Byte) {
    b == 0x20 || b == 9 || b == 10 || b == 13
  }

  predicate WellChar(c: Char) {
    match c
    case Itself(b) => b != QUOTE && b != BACKSLASH
    case Behind(b) => b < 0x80 && !Html(b)
  }

  predicate WellLexeme(l: Lexeme) {
    match l
    case Blank(b) => IsBlank(b)
    case Other(b) => b < 0x80 && !IsBlank(b) && b != QUOTE && !Html(b)
    case Quoted(chars) => forall i | 0 <= i < |chars| :: WellChar(chars[i])
  }

  predicate WellText(text: seq<Lexeme>) {
    forall i | 0 <= i < |text| :: WellLexeme(text[i])
  }

  function CharText(c: Char): Bytes {
    match c case Itself(b) => [b] case Behind(b) => [BACKSLASH, b]
  }

  function CharsText(chars: seq<Char>): Bytes {
    if chars == [] then [] else CharText(chars[0]) + CharsText(chars[1..])
  }

  function LexemeText(l: Lexeme): Bytes {
    match l
    case Blank(b) => [b]
    case Other(b) => [b]
    case Quoted(chars) => [QUOTE] + CharsText(chars) + [QUOTE]
  }

  function SourceText(text: seq<Lexeme>): Bytes {
    if text == [] then [] else LexemeText(text[0]) + SourceText(text[1..])
  }

  /** The bytes E2 80 A8 and E2 80 A9 are U+2028 and U+2029. */
  predicate Separator(chars: seq<Char>) {
    |chars| >= 3 && chars[0] == Itself(0xE2) && chars[1] == Itself(0x80)
    && (chars[2] == Itself(0xA8) || chars[2] == Itself(0xA9))
  }

  function CompactChars(chars: seq<Char>): Bytes {
    if chars == [] then []
    else if Separator(chars) then
      Escaped(if chars[2] == Itself(0xA8) then 0x2028 else 0x2029) + CompactChars(chars[3..])
    else
      (if chars[0].Itself? && Html(chars[0].b) then Escaped(chars[0].b) else CharText(chars[0]))
      + CompactChars(chars[1..])
  }

  /** The text without its blanks, and with the characters HTML and scripts would read escaped. */
  function Compacted(text: seq<Lexeme>): Bytes {
    if text == [] then [] else CompactLexeme(text[0]) + Compacted(text[1..])
  }

  function CompactLexeme(l: Lexeme): Bytes {
    match l
    case Blank(_) => []
    case Other(b) => [b]
    case Quoted(chars) => [QUOTE] + CompactChars(chars) + [QUOTE]
  }

  // ----- the automaton that counts it

  datatype Mode = Mode(quoted: bool, escaped: bool)

  predicate SeparatorBytes(s: Bytes) {
    |s| >= 3 && s[0] == 0xE2 && s[1] == 0x80 && (s[2] == 0xA8 || s[2] == 0xA9)
  }

  /** What the first byte counts for, and how many bytes it takes. */
  function Counted(m: Mode, s: Bytes): (r: (nat, nat))
    requires s != []
    ensures 1 <= r.1 <= |s|
  {
    if !m.quoted && IsBlank(s[0]) then (0, 1)
    else if Html(s[0]) then (6, 1)
    else if SeparatorBytes(s) then (6, 3)
    else (1, 1)
  }

  function Moved(m: Mode, b: Byte): Mode {
    if m.escaped then m.(escaped := false)
    else if m.quoted && b == BACKSLASH then m.(escaped := true)
    else if b == QUOTE then m.(quoted := !m.quoted)
    else m
  }

  function RawCount(m: Mode, s: Bytes): nat
    decreases |s|
  {
    if s == [] then 0 else Counted(m, s).0 + RawCount(Moved(m, s[0]), s[Counted(m, s).1..])
  }

  const OUTSIDE := Mode(false, false)
  const INSIDE := Mode(true, false)

  lemma CharCounts(c: Char, rest: Bytes)
    requires WellChar(c) && !SeparatorBytes(CharText(c) + rest)
    ensures RawCount(INSIDE, CharText(c) + rest) ==
      (if c.Itself? && Html(c.b) then 6 else |CharText(c)|) + RawCount(INSIDE, rest)
  {
    var s := CharText(c) + rest;
    match c {
      case Itself(b) => assert s[1..] == rest;
      case Behind(b) =>
        assert s[1..] == [b] + rest;
        assert ([b] + rest)[1..] == rest;
        assert RawCount(INSIDE, s) == 1 + RawCount(Mode(true, true), [b] + rest);
    }
  }

  /** The rest of a string literal and what follows it. */
  function Ending(chars: seq<Char>, rest: Bytes): Bytes {
    CharsText(chars) + [QUOTE] + rest
  }

  lemma EndingFirst(chars: seq<Char>, rest: Bytes)
    ensures var s := Ending(chars, rest);
      && s != []
      && (chars == [] ==> s[0] == QUOTE && s[1..] == rest)
      && (chars != [] ==> s == CharText(chars[0]) + Ending(chars[1..], rest))
      && (chars != [] && chars[0].Itself? ==> s[0] == chars[0].b && s[1..] == Ending(chars[1..], rest))
      && (chars != [] && chars[0].Behind? ==> s[0] == BACKSLASH)
  {
    if chars != [] {
      assert Ending(chars, rest) == CharText(chars[0]) + Ending(chars[1..], rest);
    }
  }

  lemma SeparatorText(chars: seq<Char>, rest: Bytes)
    requires forall i | 0 <= i < |chars| :: WellChar(chars[i])
    ensures SeparatorBytes(Ending(chars, rest)) <==> Separator(chars)
    ensures Separator(chars) ==> Ending(chars, rest)[3..] == Ending(chars[3..], rest)
  {
    var s := Ending(chars, rest);
    EndingFirst(chars, rest);
    if chars != [] && chars[0] == Itself(0xE2) {
      EndingFirst(chars[1..], rest);
      assert s[1] == s[1..][0];
      if |chars| > 1 && chars[1] == Itself(0x80) {
        assert chars[1..][1..] == chars[2..] && s[2..] == s[1..][1..];
        EndingFirst(chars[2..], rest);
        assert s[2] == s[2..][0];
        if |chars| > 2 {
          assert chars[2..][1..] == chars[3..] && s[3..] == s[2..][1..];
        }
      }
    }
  }

  lemma {:induction false} CharsCount(chars: seq<Char>, rest: Bytes)
    requires forall i | 0 <= i < |chars| :: WellChar(chars[i])
    ensures RawCount(INSIDE, Ending(chars, rest)) == |CompactChars(chars)| + 1 + RawCount(OUTSIDE, rest)
    decreases |chars|
  {
    SeparatorText(chars, rest);
    EndingFirst(chars, rest);
    if chars == [] {
    } else if Separator(chars) {
      CharsCount(chars[3..], rest);
    } else {
      CharCounts(chars[0], Ending(chars[1..], rest));
      CharsCount(chars[1..], rest);
    }
  }

  lemma LexemeCounts(l: Lexeme, rest: Bytes)
    requires WellLexeme(l)
    ensures RawCount(OUTSIDE, LexemeText(l) + rest) == |CompactLexeme(l)| + RawCount(OUTSIDE, rest)
  {
    var s := LexemeText(l) + rest;
    match l {
      case Blank(b) => assert s[1..] == rest;
      case Other(b) => assert s[1..] == rest;
      case Quoted(chars) =>
        assert s[1..] == Ending(chars, rest);
        CharsCount(chars, rest);
    }
  }

  /** The automaton counts exactly the bytes of the compacted text. */
  lemma {:induction false} RawCountsCompacted(text: seq<Lexeme>)
    requires WellText(text)
    ensures RawCount(OUTSIDE, SourceText(text)) == |Compacted(text)|
  {
    if text != [] {
      RawCountsCompacted(text[1..]);
      LexemeCounts(text[0], SourceText(text[1..]));
    }
  }
}
