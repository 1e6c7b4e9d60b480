/** The display escaper: every byte string becomes one printable line, and no two become the same. */
module DisplayEscape {
  import opened Common
  import opened Utf8

  /** Which runes print is the library's table; the escaper takes it as given. */
  type Printer = int -> bool

  // ----- hexadecimal

  function HexValue(b: Byte): (d: int)
    ensures 0 <= d < 16
  {
    if 0x30 <= b <= 0x39 then b as int - 0x30 else if 0x61 <= b <= 0x66 then b as int - 0x61 + 10 else 0
  }

  function Hex2(b: int): (t: Bytes)
    requires 0 <= b < 256
    ensures |t| == 2
  {
    [HexDigit(b / 16), HexDigit(b % 16)]
  }

  function Hex4(c: int): (t: Bytes)
    requires 0 <= c < 65536
    ensures |t| == 4
  {
    Hex2(c / 256) + Hex2(c % 256)
  }

  function Value2(t: Bytes): (b: int)
    requires |t| >= 2
    ensures 0 <= b < 256
  {
    HexValue(t[0]) * 16 + HexValue(t[1])
  }

  function Value4(t: Bytes): (c: int)
    requires |t| >= 4
    ensures 0 <= c < 65536
  {
    Value2(t) * 256 + Value2(t[2..])
  }

  lemma HexRoundTrip(c: int, rest: Bytes)
    requires 0 <= c < 65536
    ensures Value4(Hex4(c) + rest) == c
  {
    var t := Hex4(c) + rest;
    assert t[0] == Hex2(c / 256)[0] && t[1] == Hex2(c / 256)[1];
    assert t[2..][0] == Hex2(c % 256)[0] && t[2..][1] == Hex2(c % 256)[1];
  }

  // ----- UTF-16 surrogates, section 2.1 of RFC 2781

  function HighSurrogate(r: int): int
    requires 0x10000 <= r <= 0x10FFFF
  {
    0xD800 + (r - 0x10000) / 1024
  }

  function LowSurrogate(r: int): int
    requires 0x10000 <= r <= 0x10FFFF
  {
    0xDC00 + (r - 0x10000) % 1024
  }

  function Combine(high: int, low: int): int {
    0x10000 + (high - 0xD800) * 1024 + (low - 0xDC00)
  }

  // ----- escaping

  function Unicode(c: int): Bytes
    requires 0 <= c < 65536
  {
    [BACKSLASH, 0x75] + Hex4(c)
  }

  /** What one rune is written as. */
  function EscapeRune(prints: Printer, r: int): Bytes
    requires Scalar(r)
  {
    if r == 0x5C then [BACKSLASH, BACKSLASH]
    else if r == 10 then [BACKSLASH, 0x6E]
    else if r == 13 then [BACKSLASH, 0x72]
    else if r == 9 then [BACKSLASH, 0x74]
    else if prints(r) then EncodeRune(r)
    else if r <= 0xFFFF then Unicode(r)
    else Unicode(HighSurrogate(r)) + Unicode(LowSurrogate(r))
  }

  /** What the first rune or invalid byte of a text is written as. */
  function EscapeFirst(prints: Printer, s: Bytes): Bytes
    requires s != []
  {
    if Invalid(s) then [BACKSLASH, 0x78] + Hex2(s[0])
    else
      DecodeThenEncode(s);
      EscapeRune(prints, Decode(s).rune)
  }

  function Escape(prints: Printer, s: Bytes): Bytes
    decreases |s|
  {
    if s == [] then [] else EscapeFirst(prints, s) + Escape(prints, s[Decode(s).width..])
  }

  lemma EscapeStep(prints: Printer, escaped: Bytes, rest: Bytes)
    requires rest != []
    ensures escaped + EscapeFirst(prints, rest) + Escape(prints, rest[Decode(rest).width..]) ==
      escaped + Escape(prints, rest)
  {
    var first, more := EscapeFirst(prints, rest), Escape(prints, rest[Decode(rest).width..]);
    assert escaped + first + more == escaped + (first + more);
  }

  method EscapeDisplayLine(prints: Printer, value: Bytes) returns (escaped: Bytes)
    ensures escaped == Escape(prints, value)
    ensures Unescape(escaped) == value
  {
    escaped := [];
    var rest := value;
    while rest != []
      invariant escaped + Escape(prints, rest) == Escape(prints, value)
      decreases |rest|
    {
      EscapeStep(prints, escaped, rest);
      var d := Decode(rest);
      escaped := escaped + EscapeFirst(prints, rest);
      rest := rest[d.width..];
    }
    assert escaped + [] == escaped;
    RoundTrip(prints, value);
  }

  // ----- reading it back

  /** Reads one escape back; what is not one stands for itself. */
  function UnescapeFirst(t: Bytes): (r: (Bytes, nat))
    requires t != []
    ensures 1 <= r.1 <= |t|
  {
    if t[0] != BACKSLASH || |t| < 2 then ([t[0]], 1)
    else if t[1] == 0x78 && |t| >= 4 then ([Value2(t[2..])], 4)
    else if t[1] == 0x6E then ([10], 2)
    else if t[1] == 0x72 then ([13], 2)
    else if t[1] == 0x74 then ([9], 2)
    else if t[1] == 0x75 && |t| >= 6 then
      var c := Value4(t[2..]);
      if 0xD800 <= c <= 0xDBFF && |t| >= 12
        && 0xDC00 <= Value4(t[8..]) <= 0xDFFF then (EncodeRune(Combine(c, Value4(t[8..]))), 12)
      else if Scalar(c) then (EncodeRune(c), 6)
      else ([BACKSLASH], 1)
    else ([BACKSLASH], 2)
  }

  function Unescape(t: Bytes): Bytes
    decreases |t|
  {
    if t == [] then [] else UnescapeFirst(t).0 + Unescape(t[UnescapeFirst(t).1..])
  }

  lemma Step(chunk: Bytes, rest: Bytes, bytes: Bytes)
    requires chunk != [] && UnescapeFirst(chunk + rest) == (bytes, |chunk|)
    ensures Unescape(chunk + rest) == bytes + Unescape(rest)
  {
    assert (chunk + rest)[|chunk|..] == rest;
  }

  lemma CopiesByte(b: Byte, rest: Bytes)
    requires b != BACKSLASH
    ensures Unescape([b] + rest) == [b] + Unescape(rest)
  {
    assert UnescapeFirst([b] + rest) == ([b], 1);
    Step([b], rest, [b]);
  }

  lemma {:induction false} CopiesPlain(p: Bytes, rest: Bytes)
    requires forall b | b in p :: b != BACKSLASH
    ensures Unescape(p + rest) == p + Unescape(rest)
  {
    if p == [] {
      assert p + rest == rest;
    } else {
      assert p[0] in p && forall b | b in p[1..] :: b in p;
      CopiesPlain(p[1..], rest);
      ConsAppend(p, rest);
      CopiesByte(p[0], p[1..] + rest);
      ConsAppend(p, Unescape(rest));
    }
  }

  lemma ReadsInvalid(b: Byte, rest: Bytes)
    ensures Unescape([BACKSLASH, 0x78] + Hex2(b) + rest) == [b] + Unescape(rest)
  {
    var chunk := [BACKSLASH, 0x78] + Hex2(b);
    var t := chunk + rest;
    assert t[2..][0] == HexDigit(b / 16) && t[2..][1] == HexDigit(b % 16);
    Step(chunk, rest, [b]);
  }

  lemma UnicodeText(c: int, rest: Bytes)
    requires 0 <= c < 65536
    ensures var t := Unicode(c) + rest;
            |t| >= 6 && t[0] == BACKSLASH && t[1] == 0x75 && Value4(t[2..]) == c && t[6..] == rest
  {
    var t := Unicode(c) + rest;
    assert t[2..] == Hex4(c) + rest;
    HexRoundTrip(c, rest);
  }

  lemma ReadsUnicode(r: int, rest: Bytes)
    requires Scalar(r) && r <= 0xFFFF
    ensures Unescape(Unicode(r) + rest) == EncodeRune(r) + Unescape(rest)
  {
    UnicodeText(r, rest);
    Step(Unicode(r), rest, EncodeRune(r));
  }

  lemma SurrogatesCombine(r: int)
    requires 0x10000 <= r <= 0x10FFFF
    ensures 0xD800 <= HighSurrogate(r) <= 0xDBFF && 0xDC00 <= LowSurrogate(r) <= 0xDFFF
    ensures Combine(HighSurrogate(r), LowSurrogate(r)) == r
  {
  }

  lemma PairFirst(r: int, rest: Bytes)
    requires 0x10000 <= r <= 0x10FFFF
    ensures var t := Unicode(HighSurrogate(r)) + (Unicode(LowSurrogate(r)) + rest);
            t != [] && UnescapeFirst(t) == (EncodeRune(r), 12)
  {
    var high, low := HighSurrogate(r), LowSurrogate(r);
    SurrogatesCombine(r);
    UnicodeText(low, rest);
    UnicodeText(high, Unicode(low) + rest);
    var t := Unicode(high) + (Unicode(low) + rest);
    assert t[8..] == t[6..][2..];
  }

  lemma ReadsPair(r: int, rest: Bytes)
    requires 0x10000 <= r <= 0x10FFFF
    ensures Unescape(Unicode(HighSurrogate(r)) + Unicode(LowSurrogate(r)) + rest) == EncodeRune(r) + Unescape(rest)
  {
    var a, b := Unicode(HighSurrogate(r)), Unicode(LowSurrogate(r));
    PairFirst(r, rest);
    assert a + b + rest == a + (b + rest);
    Step(a + b, rest, EncodeRune(r));
  }

  lemma EncodedIsPlain(r: int)
    requires Scalar(r) && r != 0x5C
    ensures forall b | b in EncodeRune(r) :: b != BACKSLASH
  {
  }

  lemma ReadsRune(prints: Printer, r: int, rest: Bytes)
    requires Scalar(r)
    ensures Unescape(EscapeRune(prints, r) + rest) == EncodeRune(r) + Unescape(rest)
  {
    if r == 0x5C || r == 10 || r == 13 || r == 9 {
      Step(EscapeRune(prints, r), rest, [r]);
    } else if prints(r) {
      EncodedIsPlain(r);
      CopiesPlain(EncodeRune(r), rest);
    } else if r <= 0xFFFF {
      ReadsUnicode(r, rest);
    } else {
      ReadsPair(r, rest);
    }
  }

  /** Unescaping gives the escaped text back, whatever its bytes and whatever prints. */
  lemma {:induction false} RoundTrip(prints: Printer, s: Bytes)
    ensures Unescape(Escape(prints, s)) == s
    decreases |s|
  {
    if s != [] {
      var w := Decode(s).width;
      RoundTrip(prints, s[w..]);
      if Invalid(s) {
        ReadsInvalid(s[0], Escape(prints, s[w..]));
      } else {
        DecodeThenEncode(s);
        ReadsRune(prints, Decode(s).rune, Escape(prints, s[w..]));
      }
      assert s == s[..w] + s[w..];
    }
  }

  /** So two texts never share a line. */
  lemma Unambiguous(prints: Printer, s: Bytes, t: Bytes)
    requires Escape(prints, s) == Escape(prints, t)
    ensures s == t
  {
    RoundTrip(prints, s);
    RoundTrip(prints, t);
  }

  // ----- what the line may hold

  /** The text is valid UTF-8 and every rune of it prints. */
  predicate Shown(prints: Printer, t: Bytes)
    decreases |t|
  {
    t == [] || (!Invalid(t) && prints(Decode(t).rune) && Shown(prints, t[Decode(t).width..]))
  }

  /** The graphic characters of ASCII print. */
  ghost predicate PrintsAscii(prints: Printer) {
    forall r | 0x20 <= r <= 0x7E :: prints(r)
  }

  lemma {:induction false} ShownAscii(prints: Printer, p: Bytes, rest: Bytes)
    requires PrintsAscii(prints) && Shown(prints, rest)
    requires forall b | b in p :: 0x20 <= b <= 0x7E
    ensures Shown(prints, p + rest)
  {
    if p == [] {
      assert p + rest == rest;
    } else {
      assert p[0] in p && forall b | b in p[1..] :: b in p;
      ShownAscii(prints, p[1..], rest);
      assert (p + rest)[1..] == p[1..] + rest;
    }
  }

  lemma ShownRune(prints: Printer, r: int, rest: Bytes)
    requires Scalar(r) && prints(r) && Shown(prints, rest)
    ensures Shown(prints, EncodeRune(r) + rest)
  {
    EncodeThenDecode(r, rest);
    assert (EncodeRune(r) + rest)[|EncodeRune(r)|..] == rest;
    if r == RUNE_ERROR { assert |EncodeRune(r)| == 3; }
  }

  lemma EscapesAreAscii(prints: Printer, s: Bytes)
    requires s != [] && (Invalid(s) || !prints(Decode(s).rune) || Decode(s).rune == 0x5C
      || Decode(s).rune in {9, 10, 13})
    ensures forall b | b in EscapeFirst(prints, s) :: 0x20 <= b <= 0x7E
  {
    if !Invalid(s) { DecodeThenEncode(s); }
  }

  /** An escaped line is valid UTF-8 and holds only printable runes. */
  lemma {:induction false} EscapedIsShown(prints: Printer, s: Bytes)
    requires PrintsAscii(prints)
    ensures Shown(prints, Escape(prints, s))
    decreases |s|
  {
    if s != [] {
      var rest := s[Decode(s).width..];
      EscapedIsShown(prints, rest);
      if Invalid(s) || !prints(Decode(s).rune) || Decode(s).rune == 0x5C || Decode(s).rune in {9, 10, 13} {
        EscapesAreAscii(prints, s);
        ShownAscii(prints, EscapeFirst(prints, s), Escape(prints, rest));
      } else {
        DecodeThenEncode(s);
        ShownRune(prints, Decode(s).rune, Escape(prints, rest));
      }
    }
  }

  /** With control characters unprintable, no byte of a shown text breaks the line. */
  lemma {:induction false} ShownHasNoBreak(prints: Printer, t: Bytes)
    requires Shown(prints, t) && !prints(0x7F) && forall r | 0 <= r < 0x20 :: !prints(r)
    ensures forall b | b in t :: b >= 0x20 && b != 0x7F
    decreases |t|
  {
    if t != [] {
      var w := Decode(t).width;
      ShownHasNoBreak(prints, t[w..]);
      assert forall b | b in t[..w] :: b >= 0x20 && b != 0x7F;
      assert t == t[..w] + t[w..];
    }
  }

  // ----- what is printable stays as it is

  /** A rune that is shown as it is written. */
  predicate Passes(prints: Printer, r: int) {
    Scalar(r) && prints(r) && r != 0x5C && r != 9 && r != 10 && r != 13
  }

  lemma RunePasses(prints: Printer, r: int, rest: Bytes)
    requires Passes(prints, r)
    ensures Escape(prints, EncodeRune(r) + rest) == EncodeRune(r) + Escape(prints, rest)
  {
    var s := EncodeRune(r) + rest;
    EncodeThenDecode(r, rest);
    assert s[|EncodeRune(r)|..] == rest;
  }

  function Encoded(runes: seq<int>): Bytes
    requires forall i | 0 <= i < |runes| :: Scalar(runes[i])
  {
    if runes == [] then [] else EncodeRune(runes[0]) + Encoded(runes[1..])
  }

  /** A text of printable runes, without a backslash, a tab or a line break, is shown unchanged. */
  lemma {:induction false} PrintablePasses(prints: Printer, runes: seq<int>)
    requires forall i | 0 <= i < |runes| :: Scalar(runes[i]) && Passes(prints, runes[i])
    ensures Escape(prints, Encoded(runes)) == Encoded(runes)
  {
    if runes != [] {
      PrintablePasses(prints, runes[1..]);
      RunePasses(prints, runes[0], Encoded(runes[1..]));
    }
  }
}
