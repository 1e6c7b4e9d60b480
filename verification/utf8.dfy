/** Bytes and the UTF-8 decoding of section 3 of RFC 3629, as the Go library does it one rune at a time. */
module Utf8 {
  type Byte = b: int | 0 <= b < 256

  type Bytes = seq<Byte>

  const RUNE_ERROR := 0xFFFD

  /** A rune and how many bytes it took; an invalid byte is RUNE_ERROR of width one. */
  datatype Decoded = Decoded(rune: int, width: nat)

  const BAD := Decoded(RUNE_ERROR, 1)

  const QUOTE: Byte := 0x22
  const BACKSLASH: Byte := 0x5C

  /** One lower-case hexadecimal digit. */
  function HexDigit(d: int): (b: Byte)
    requires 0 <= d < 16
    ensures 0x20 <= b <= 0x7E && b != BACKSLASH
  {
    if d < 10 then 0x30 + d else 0x61 + (d - 10)
  }

  predicate Continues(b: Byte) {
    0x80 <= b <= 0xBF
  }

  /** The bytes that may follow a lead byte, which exclude overlong forms, surrogates and runes past the last. */
  predicate Second(lead: Byte, b: Byte) {
    (if lead == 0xE0 then 0xA0 else if lead == 0xF0 then 0x90 else 0x80) <= b <=
    (if lead == 0xED then 0x9F else if lead == 0xF4 then 0x8F else 0xBF)
  }

  /** Six bits a digit. */
  function Join(a: int, b: int, c: int, d: int): int {
    ((a * 64 + b) * 64 + c) * 64 + d
  }

  function Low(b: Byte): int {
    b as int - 0x80
  }

  lemma SplitJoin(a: int, b: int, c: int, d: int)
    requires 0 <= b < 64 && 0 <= c < 64 && 0 <= d < 64
    ensures var r := Join(a, b, c, d);
            r % 64 == d && r / 64 % 64 == c && r / 4096 % 64 == b && r / 262144 == a
  {
    var x := a * 64 + b;
    var y := x * 64 + c;
    var r := y * 64 + d;
    assert r / 64 == y && y / 64 == x && x / 64 == a;
    assert r / 4096 == r / 64 / 64;
    assert r / 262144 == r / 64 / 64 / 64;
  }

  lemma JoinSplit(r: int)
    ensures Join(r / 262144, r / 4096 % 64, r / 64 % 64, r % 64) == r
  {
    assert r / 4096 == r / 64 / 64;
    assert r / 262144 == r / 64 / 64 / 64;
  }

  function Decode(s: Bytes): (d: Decoded)
    requires s != []
    ensures 1 <= d.width <= |s|
  {
    var lead: int := s[0];
    if lead < 0x80 then Decoded(lead, 1)
    else if 0xC2 <= lead <= 0xDF && |s| >= 2 && Continues(s[1]) then
      Decoded(Join(0, 0, lead - 0xC0, Low(s[1])), 2)
    else if 0xE0 <= lead <= 0xEF && |s| >= 3 && Second(lead, s[1]) && Continues(s[2]) then
      Decoded(Join(0, lead - 0xE0, Low(s[1]), Low(s[2])), 3)
    else if 0xF0 <= lead <= 0xF4 && |s| >= 4 && Second(lead, s[1]) && Continues(s[2]) && Continues(s[3]) then
      Decoded(Join(lead - 0xF0, Low(s[1]), Low(s[2]), Low(s[3])), 4)
    else BAD
  }

  predicate Invalid(s: Bytes)
    requires s != []
  {
    Decode(s) == BAD
  }

  predicate Scalar(r: int) {
    0 <= r <= 0x10FFFF && !(0xD800 <= r <= 0xDFFF)
  }

  function EncodeRune(r: int): (e: Bytes)
    requires Scalar(r)
    ensures 1 <= |e| <= 4
  {
    if r < 0x80 then [r]
    else if r < 0x800 then [0xC0 + r / 64, 0x80 + r % 64]
    else if r < 0x10000 then [0xE0 + r / 4096, 0x80 + r / 64 % 64, 0x80 + r % 64]
    else [0xF0 + r / 262144, 0x80 + r / 4096 % 64, 0x80 + r / 64 % 64, 0x80 + r % 64]
  }

  lemma Encode2(c: int, d: int)
    requires 2 <= c < 32 && 0 <= d < 64
    ensures var r := Join(0, 0, c, d); Scalar(r) && EncodeRune(r) == [0xC0 + c, 0x80 + d]
  {
    SplitJoin(0, 0, c, d);
    assert Join(0, 0, c, d) / 64 == c;
  }

  lemma Encode3(b: int, c: int, d: int)
    requires 0 <= b < 16 && 0 <= c < 64 && 0 <= d < 64 && (b == 0 ==> c >= 32) && (b == 13 ==> c < 32)
    ensures var r := Join(0, b, c, d); Scalar(r) && EncodeRune(r) == [0xE0 + b, 0x80 + c, 0x80 + d]
  {
    SplitJoin(0, b, c, d);
    assert Join(0, b, c, d) / 4096 == b;
  }

  lemma Encode4(a: int, b: int, c: int, d: int)
    requires 0 <= a < 5 && 0 <= b < 64 && 0 <= c < 64 && 0 <= d < 64 && (a == 0 ==> b >= 16) && (a == 4 ==> b < 16)
    ensures var r := Join(a, b, c, d); Scalar(r) && EncodeRune(r) == [0xF0 + a, 0x80 + b, 0x80 + c, 0x80 + d]
  {
    SplitJoin(a, b, c, d);
  }

  /** A decoded rune encodes to the bytes it came from. */
  lemma DecodeThenEncode(s: Bytes)
    requires s != [] && !Invalid(s)
    ensures Scalar(Decode(s).rune) && EncodeRune(Decode(s).rune) == s[..Decode(s).width]
  {
    var w, lead := Decode(s).width, s[0] as int;
    if w == 2 {
      Encode2(lead - 0xC0, Low(s[1]));
    } else if w == 3 {
      Encode3(lead - 0xE0, Low(s[1]), Low(s[2]));
    } else if w == 4 {
      Encode4(lead - 0xF0, Low(s[1]), Low(s[2]), Low(s[3]));
    }
  }

  lemma EncodeThenDecode(r: int, rest: Bytes)
    requires Scalar(r)
    ensures EncodeRune(r) + rest != [] && Decode(EncodeRune(r) + rest) == Decoded(r, |EncodeRune(r)|)
  {
    JoinSplit(r);
    if 0x80 <= r < 0x800 {
      assert r / 4096 == 0 && r / 262144 == 0 && r / 64 % 64 == r / 64;
    } else if 0x800 <= r < 0x10000 {
      assert r / 262144 == 0 && r / 4096 % 64 == r / 4096;
      var lead, second := r / 4096, r / 64 % 64;
      assert r / 64 == lead * 64 + second;
    } else if 0x10000 <= r {
      var lead, second := r / 262144, r / 4096 % 64;
      assert r / 4096 == lead * 64 + second;
    }
  }
}
