/** What the characters of a JSON string mean, and that neither encoding nor compaction changes it. */
module JsonRunes {
  import opened Common
  import opened Utf8
  import opened JsonText
  import opened JsonGrammar

  // ----- runes of bytes

  /** The runes of a text; an invalid byte stands for the replacement rune. */
  function RunesOf(s: Bytes): seq<int>
    decreases |s|
  {
    if s == [] then [] else [Decode(s).rune] + RunesOf(s[Decode(s).width..])
  }

  /** A byte that continues no rune ends the one before it, whole or not. */
  lemma DecodeStops(p: Bytes, b: Byte, q: Bytes)
    requires p != [] && !Continues(b)
    ensures Decode(p + [b] + q) == Decode(p)
  {
    var s := p + [b] + q;
    assert forall i | 0 <= i < |p| :: s[i] == p[i];
    assert s[|p|] == b;
  }

  lemma DecodeLocal(s: Bytes, rest: Bytes)
    requires s != [] && !Invalid(s)
    ensures Decode(s[..Decode(s).width] + rest) == Decode(s)
  {
    var w := Decode(s).width;
    var t := s[..w] + rest;
    assert forall i | 0 <= i < w :: t[i] == s[i];
  }

  // ----- runes of the characters of a string

  function HexOf(c: Char): (d: int)
    requires IsHex(c)
    ensures 0 <= d < 16
  {
    if c.b <= 0x39 then c.b - 0x30 else if c.b <= 0x46 then c.b - 0x41 + 10 else c.b - 0x61 + 10
  }

  /** The characters start with a whole unicode escape. */
  predicate IsUnicode(chars: seq<Char>) {
    |chars| >= 5 && chars[0] == Behind(0x75) && forall i | 1 <= i < 5 :: IsHex(chars[i])
  }

  function UnitOf(chars: seq<Char>): (c: int)
    requires IsUnicode(chars)
    ensures 0 <= c < 65536
  {
    HexOf(chars[1]) * 4096 + HexOf(chars[2]) * 256 + HexOf(chars[3]) * 16 + HexOf(chars[4])
  }

  predicate IsHigh(c: int) {
    0xD800 <= c <= 0xDBFF
  }

  predicate IsLow(c: int) {
    0xDC00 <= c <= 0xDFFF
  }

  /** A high surrogate and at once a low one. */
  predicate IsPair(chars: seq<Char>) {
    IsUnicode(chars) && IsHigh(UnitOf(chars)) && IsUnicode(chars[5..]) && IsLow(UnitOf(chars[5..]))
  }

  /** The rune a letter behind a backslash stands for. */
  function Letter(b: Byte): int {
    if b == 0x62 then 8 else if b == 0x66 then 12 else if b == 0x6E then 10
    else if b == 0x72 then 13 else if b == 0x74 then 9 else b
  }

  /** The bytes before the first backslash. */
  function Run(chars: seq<Char>): (p: Bytes)
    ensures |p| <= |chars| && forall i | 0 <= i < |p| :: chars[i] == Itself(p[i])
    ensures |p| < |chars| ==> chars[|p|].Behind?
    ensures chars != [] && chars[0].Itself? ==> p != []
  {
    if chars == [] || chars[0].Behind? then [] else [chars[0].b] + Run(chars[1..])
  }

  /** One rune, and how many characters spell it. */
  function First(chars: seq<Char>): (r: (int, nat))
    requires chars != []
    ensures 1 <= r.1 <= |chars|
  {
    if chars[0].Itself? then var d := Decode(Run(chars)); (d.rune, d.width)
    else if IsPair(chars) then
      (0x10000 + (UnitOf(chars) - 0xD800) * 1024 + (UnitOf(chars[5..]) - 0xDC00), 10)
    else if IsUnicode(chars) then
      (if IsHigh(UnitOf(chars)) || IsLow(UnitOf(chars)) then RUNE_ERROR else UnitOf(chars), 5)
    else (Letter(chars[0].b), 1)
  }

  function Runes(chars: seq<Char>): seq<int>
    decreases |chars|
  {
    if chars == [] then [] else [First(chars).0] + Runes(chars[First(chars).1..])
  }

  // ----- an encoded string

  function HexChar(d: int): (c: Char)
    requires 0 <= d < 16
    ensures IsHex(c) && HexOf(c) == d && WellChar(c) && c.b >= 0x20
  {
    Itself(HexDigit(d))
  }

  function UnicodeChars(c: int): (r: seq<Char>)
    requires 0 <= c < 65536
    ensures |r| == 5 && IsUnicode(r) && UnitOf(r) == c
    ensures r[0] == Behind(0x75) && forall i | 0 <= i < |r| :: WellChar(r[i])
  {
    HexSplit(c);
    [Behind(0x75), HexChar(c / 4096), HexChar(c / 256 % 16), HexChar(c / 16 % 16), HexChar(c % 16)]
  }

  lemma HexSplit(c: int)
    requires 0 <= c < 65536
    ensures 0 <= c / 4096 < 16
    ensures c / 4096 * 4096 + c / 256 % 16 * 256 + c / 16 % 16 * 16 + c % 16 == c
  {
    var a, b := c / 16, c / 256;
    assert c == a * 16 + c % 16 && a == b * 16 + a % 16 && b == c / 4096 * 16 + b % 16;
  }

  lemma UnicodeText(c: int)
    requires 0 <= c < 65536
    ensures CharsText(UnicodeChars(c)) == Escaped(c)
  {
    var r := UnicodeChars(c);
    assert r[1..][1..] == r[2..] && r[2..][1..] == r[3..] && r[3..][1..] == r[4..] && r[4..][1..] == [];
    assert CharsText(r[4..]) == [HexDigit(c % 16)];
    assert CharsText(r[3..]) == [HexDigit(c / 16 % 16), HexDigit(c % 16)];
    assert CharsText(r[2..]) == [HexDigit(c / 256 % 16), HexDigit(c / 16 % 16), HexDigit(c % 16)];
    assert CharsText(r[1..]) == [HexDigit(c / 4096), HexDigit(c / 256 % 16), HexDigit(c / 16 % 16), HexDigit(c % 16)];
  }

  lemma UnicodeReads(c: int, rest: seq<Char>)
    requires 0 <= c < 65536 && !IsHigh(c) && !IsLow(c)
    ensures Runes(UnicodeChars(c) + rest) == [c] + Runes(rest)
  {
    var r := UnicodeChars(c) + rest;
    assert forall i | 0 <= i < 5 :: r[i] == UnicodeChars(c)[i];
    assert IsUnicode(r) && UnitOf(r) == c && r[5..] == rest;
  }

  function Bytewise(s: Bytes): (r: seq<Char>)
    ensures |r| == |s| && forall i | 0 <= i < |r| :: r[i] == Itself(s[i])
  {
    seq(|s|, i requires 0 <= i < |s| => Itself(s[i]))
  }

  lemma {:induction false} BytewiseText(s: Bytes)
    ensures CharsText(Bytewise(s)) == s
  {
    if s != [] {
      BytewiseText(s[1..]);
      assert Bytewise(s)[1..] == Bytewise(s[1..]);
    }
  }

  lemma RunCons(c: Char, rest: seq<Char>)
    ensures Run([c] + rest) == if c.Itself? then [c.b] + Run(rest) else []
  {
    assert ([c] + rest)[1..] == rest;
  }

  lemma BytewiseCons(s: Bytes, rest: seq<Char>)
    requires s != []
    ensures Bytewise(s) + rest == [Itself(s[0])] + (Bytewise(s[1..]) + rest)
  {
    assert Bytewise(s) == [Itself(s[0])] + Bytewise(s[1..]);
  }

  lemma {:induction false} RunAppend(s: Bytes, rest: seq<Char>)
    ensures Run(Bytewise(s) + rest) == s + Run(rest)
  {
    if s == [] {
      assert Bytewise(s) + rest == rest && s + Run(rest) == Run(rest);
    } else {
      RunAppend(s[1..], rest);
      BytewiseCons(s, rest);
      RunCons(Itself(s[0]), Bytewise(s[1..]) + rest);
      ConsAppend(s, Run(rest));
    }
  }

  /** The characters that spell the first rune of an encoded text. */
  function RuneChars(s: Bytes): seq<Char>
    requires s != []
  {
    var c, d := s[0] as int, Decode(s);
    if c < 0x80 then
      if HasShort(c) then [Behind(Short(c))] else if c < 0x20 || Html(c) then UnicodeChars(c) else [Itself(c)]
    else if Invalid(s) then UnicodeChars(RUNE_ERROR)
    else if d.rune == 0x2028 || d.rune == 0x2029 then UnicodeChars(d.rune)
    else Bytewise(s[..d.width])
  }

  function BodyChars(s: Bytes): seq<Char>
    decreases |s|
  {
    if s == [] then [] else RuneChars(s) + BodyChars(s[Decode(s).width..])
  }

  lemma {:induction false} CharsAppend(a: seq<Char>, b: seq<Char>)
    ensures CharsText(a + b) == CharsText(a) + CharsText(b)
  {
    if a == [] {
      assert a + b == b;
    } else {
      CharsAppend(a[1..], b);
      assert (a + b)[1..] == a[1..] + b && (a + b)[0] == a[0];
    }
  }

  lemma RuneCharsText(s: Bytes)
    requires s != []
    ensures CharsText(RuneChars(s)) == StringRune(s)
  {
    var c, d := s[0] as int, Decode(s);
    if c < 0x80 {
      if HasShort(c) {
        assert [Behind(Short(c))][1..] == [];
      } else if c < 0x20 || Html(c) {
        UnicodeText(c);
      } else {
        assert [Itself(c)][1..] == [];
      }
    } else if Invalid(s) {
      UnicodeText(RUNE_ERROR);
    } else if d.rune == 0x2028 || d.rune == 0x2029 {
      UnicodeText(d.rune);
    } else {
      BytewiseText(s[..d.width]);
    }
  }

  lemma {:induction false} BodyCharsText(s: Bytes)
    ensures CharsText(BodyChars(s)) == StringBody(s)
    decreases |s|
  {
    if s != [] {
      var rest := s[Decode(s).width..];
      BodyCharsText(rest);
      RuneCharsText(s);
      CharsAppend(RuneChars(s), BodyChars(rest));
    }
  }

  lemma RuneReads(s: Bytes, rest: seq<Char>)
    requires s != []
    ensures Runes(RuneChars(s) + rest) == [Decode(s).rune] + Runes(rest)
  {
    var c, d := s[0] as int, Decode(s);
    var r := RuneChars(s) + rest;
    if c < 0x80 {
      if HasShort(c) {
        assert r[0] == Behind(Short(c)) && r[1..] == rest;
        assert !IsUnicode(r);
      } else if c < 0x20 || Html(c) {
        UnicodeReads(c, rest);
      } else {
        assert r[0] == Itself(c) && r[1..] == rest;
        assert Decode(Run(r)) == Decoded(c, 1);
      }
    } else if Invalid(s) {
      UnicodeReads(RUNE_ERROR, rest);
    } else if d.rune == 0x2028 || d.rune == 0x2029 {
      UnicodeReads(d.rune, rest);
    } else {
      RunAppend(s[..d.width], rest);
      DecodeLocal(s, Run(rest));
      assert r[0].Itself? && r[d.width..] == rest;
    }
  }

  /** An encoded string means the runes of the text. */
  lemma {:induction false} BodyReads(s: Bytes)
    ensures Runes(BodyChars(s)) == RunesOf(s)
    decreases |s|
  {
    if s != [] {
      var rest := s[Decode(s).width..];
      BodyReads(rest);
      RuneReads(s, BodyChars(rest));
    }
  }

  // ----- such a string is one of the grammar

  lemma StringStep(r: seq<Char>)
    requires r != []
    ensures IsString(r) <==>
      if r[0] == Behind(0x75) then IsUnicode(r) && IsString(r[5..])
      else IsString(r[1..]) && match r[0]
        case Itself(b) => b >= 0x20
        case Behind(b) => b in {QUOTE, BACKSLASH, 0x2F, 0x62, 0x66, 0x6E, 0x72, 0x74}
  {
  }

  lemma {:induction false} StringAppend(a: seq<Char>, b: seq<Char>)
    requires IsString(a) && IsString(b)
    ensures IsString(a + b)
    decreases |a|
  {
    var r := a + b;
    if a == [] {
      assert r == b;
    } else {
      StringStep(a);
      StringStep(r);
      assert r[0] == a[0];
      if a[0] == Behind(0x75) {
        StringAppend(a[5..], b);
        assert r[5..] == a[5..] + b && r[..5] == a[..5];
        UnicodePrefix(a, r);
      } else {
        StringAppend(a[1..], b);
        assert r[1..] == a[1..] + b;
      }
    }
  }

  lemma UnicodeIsString(c: int)
    requires 0 <= c < 65536
    ensures IsString(UnicodeChars(c))
  {
    assert UnicodeChars(c)[5..] == [];
  }

  lemma {:induction false} BytewiseIsString(s: Bytes)
    requires forall i | 0 <= i < |s| :: s[i] >= 0x20
    ensures IsString(Bytewise(s))
  {
    if s != [] {
      BytewiseIsString(s[1..]);
      assert Bytewise(s)[1..] == Bytewise(s[1..]);
    }
  }

  predicate WellChars(chars: seq<Char>) {
    forall i | 0 <= i < |chars| :: WellChar(chars[i])
  }

  lemma RuneIsString(s: Bytes)
    requires s != []
    ensures IsString(RuneChars(s)) && WellChars(RuneChars(s))
  {
    var c, d := s[0] as int, Decode(s);
    if c < 0x80 {
      if HasShort(c) {
        assert [Behind(Short(c))][1..] == [];
      } else if c < 0x20 || Html(c) {
        UnicodeIsString(c);
      } else {
        assert [Itself(c)][1..] == [];
      }
    } else if Invalid(s) {
      UnicodeIsString(RUNE_ERROR);
    } else if d.rune == 0x2028 || d.rune == 0x2029 {
      UnicodeIsString(d.rune);
    } else {
      BytewiseIsString(s[..d.width]);
    }
  }

  lemma {:induction false} BodyIsString(s: Bytes)
    ensures IsString(BodyChars(s)) && WellChars(BodyChars(s))
    decreases |s|
  {
    if s != [] {
      var rest := s[Decode(s).width..];
      BodyIsString(rest);
      RuneIsString(s);
      StringAppend(RuneChars(s), BodyChars(rest));
    }
  }

  // ----- a compacted string

  /** The characters of a compacted string. */
  function Tightened(chars: seq<Char>): seq<Char>
    decreases |chars|
  {
    if chars == [] then []
    else if Separator(chars) then
      UnicodeChars(if chars[2] == Itself(0xA8) then 0x2028 else 0x2029) + Tightened(chars[3..])
    else (if chars[0].Itself? && Html(chars[0].b) then UnicodeChars(chars[0].b) else [chars[0]]) + Tightened(chars[1..])
  }

  lemma {:induction false} TightenedText(chars: seq<Char>)
    ensures CharsText(Tightened(chars)) == CompactChars(chars)
    decreases |chars|
  {
    if chars != [] {
      if Separator(chars) {
        var c := if chars[2] == Itself(0xA8) then 0x2028 else 0x2029;
        TightenedText(chars[3..]);
        CharsAppend(UnicodeChars(c), Tightened(chars[3..]));
        UnicodeText(c);
      } else {
        TightenedText(chars[1..]);
        if chars[0].Itself? && Html(chars[0].b) {
          CharsAppend(UnicodeChars(chars[0].b), Tightened(chars[1..]));
          UnicodeText(chars[0].b);
        } else {
          CharsAppend([chars[0]], Tightened(chars[1..]));
          assert [chars[0]][1..] == [];
        }
      }
    }
  }

  lemma {:induction false} TightenedWell(chars: seq<Char>)
    requires WellChars(chars)
    ensures WellChars(Tightened(chars))
    decreases |chars|
  {
    if chars != [] {
      TightenedWell(if Separator(chars) then chars[3..] else chars[1..]);
    }
  }

  /** The character stays as it is. */
  predicate Stays(chars: seq<Char>) {
    chars != [] && !Separator(chars) && (chars[0].Itself? ==> !Html(chars[0].b))
  }

  lemma PrefixCons(chars: seq<Char>, n: nat, rest: seq<Char>)
    requires 0 < n <= |chars|
    ensures chars[..n] + rest == [chars[0]] + (chars[1..][..n - 1] + rest)
  {
    assert chars[..n] == [chars[0]] + chars[1..][..n - 1];
  }

  lemma {:induction false} StaysFor(chars: seq<Char>, n: nat)
    requires n <= |chars| && forall i | 0 <= i < n :: Stays(chars[i..])
    ensures Tightened(chars) == chars[..n] + Tightened(chars[n..])
    decreases n
  {
    if n > 0 {
      assert chars[0..] == chars;
      forall i | 0 <= i < n - 1 ensures Stays(chars[1..][i..]) {
        assert chars[1..][i..] == chars[i + 1..];
      }
      StaysFor(chars[1..], n - 1);
      assert chars[1..][n - 1..] == chars[n..];
      TightenedCons(chars);
      PrefixCons(chars, n, Tightened(chars[n..]));
    } else {
      assert chars[..0] + Tightened(chars) == Tightened(chars) && chars[0..] == chars;
    }
  }

  /** One run is the other, cut before a byte that continues no rune. */
  predicate CutFrom(p: Bytes, q: Bytes) {
    |q| <= |p| && q == p[..|q|] && (|q| < |p| ==> !Continues(p[|q|]))
  }

  lemma CutCons(b: Byte, p: Bytes, q: Bytes)
    requires CutFrom(p, q)
    ensures CutFrom([b] + p, [b] + q)
  {
  }

  lemma TightenedCons(chars: seq<Char>)
    requires Stays(chars)
    ensures Tightened(chars) == [chars[0]] + Tightened(chars[1..])
  {
  }

  /** What is tightened ends a run: it begins a rune of its own. */
  lemma {:induction false} RunTightened(chars: seq<Char>)
    ensures CutFrom(Run(chars), Run(Tightened(chars)))
    decreases |chars|
  {
    if Stays(chars) && chars[0].Itself? {
      RunTightened(chars[1..]);
      TightenedCons(chars);
      RunCons(chars[0], Tightened(chars[1..]));
      assert chars == [chars[0]] + chars[1..];
      RunCons(chars[0], chars[1..]);
      CutCons(chars[0].b, Run(chars[1..]), Run(Tightened(chars[1..])));
    } else {
      NoRun(chars);
    }
  }

  lemma NoRun(chars: seq<Char>)
    requires !(Stays(chars) && chars[0].Itself?)
    ensures Run(Tightened(chars)) == [] && (Run(chars) != [] ==> !Continues(Run(chars)[0]))
  {
    if chars != [] && !Stays(chars) {
      assert Tightened(chars)[0] == Behind(0x75);
    }
  }

  lemma {:induction false} RunStays(chars: seq<Char>, i: nat)
    requires i < |Run(Tightened(chars))|
    ensures i < |chars| && Stays(chars[i..])
    decreases |chars|
  {
    if !(Stays(chars) && chars[0].Itself?) {
      NoRun(chars);
    } else if i > 0 {
      TightenedCons(chars);
      RunCons(chars[0], Tightened(chars[1..]));
      RunStays(chars[1..], i - 1);
      assert chars[1..][i - 1..] == chars[i..];
    } else {
      assert chars[0..] == chars;
    }
  }

  lemma SameDecode(p: Bytes, q: Bytes)
    requires q != [] && CutFrom(p, q)
    ensures p != [] && Decode(p) == Decode(q)
  {
    if |q| < |p| {
      assert p == q + [p[|q|]] + p[|q| + 1..];
      DecodeStops(q, p[|q|], p[|q| + 1..]);
    } else {
      assert p == q;
    }
  }

  lemma {:induction false} StringTail(chars: seq<Char>, n: nat)
    requires IsString(chars) && n <= |Run(chars)|
    ensures IsString(chars[n..])
    decreases n
  {
    if n > 0 {
      assert chars[0].Itself?;
      StringTail(chars[1..], n - 1);
      assert chars[1..][n - 1..] == chars[n..];
    } else {
      assert chars[0..] == chars;
    }
  }

  /** A unicode escape stays whole. */
  lemma UnicodeStays(chars: seq<Char>)
    requires IsUnicode(chars)
    ensures Tightened(chars) == chars[..5] + Tightened(chars[5..])
  {
    forall i | 0 <= i < 5 ensures Stays(chars[i..]) {
      assert chars[i..][0] == chars[i];
    }
    StaysFor(chars, 5);
  }

  lemma UnicodePrefix(a: seq<Char>, b: seq<Char>)
    requires IsUnicode(a) && |b| >= 5 && b[..5] == a[..5]
    ensures IsUnicode(b) && UnitOf(b) == UnitOf(a)
  {
    assert forall i | 0 <= i < 5 :: b[i] == b[..5][i] && a[i] == a[..5][i];
  }

  /** What replaces a character is no surrogate. */
  lemma ReplacedUnit(chars: seq<Char>)
    requires chars != [] && !Stays(chars)
    ensures var t := Tightened(chars); IsUnicode(t) && !IsLow(UnitOf(t))
  {
    var t := Tightened(chars);
    var c := if !Separator(chars) then chars[0].b else if chars[2] == Itself(0xA8) then 0x2028 else 0x2029;
    assert t[..5] == UnicodeChars(c)[..5];
    UnicodePrefix(UnicodeChars(c), t);
  }

  /** Where a tightened string starts with an escape of a low surrogate, the string did. */
  lemma LowStays(chars: seq<Char>)
    requires IsString(chars) && IsUnicode(Tightened(chars)) && IsLow(UnitOf(Tightened(chars)))
    ensures IsUnicode(chars) && UnitOf(chars) == UnitOf(Tightened(chars))
  {
    if Stays(chars) {
      var t := Tightened(chars);
      TightenedCons(chars);
      assert t[0] == chars[0];
      UnicodeStays(chars);
      assert t[..5] == chars[..5];
      UnicodePrefix(chars, t);
    } else {
      ReplacedUnit(chars);
    }
  }

  lemma FirstUnicode(chars: seq<Char>)
    requires IsString(chars) && IsUnicode(chars)
    ensures var t := Tightened(chars);
      First(t) == First(chars) && t[First(chars).1..] == Tightened(chars[First(chars).1..])
    ensures IsString(chars[First(chars).1..])
  {
    var t := Tightened(chars);
    UnicodeStays(chars);
    assert t[..5] == chars[..5] && t[5..] == Tightened(chars[5..]);
    UnicodePrefix(chars, t);
    if IsPair(chars) {
      UnicodeStays(chars[5..]);
      assert t[5..][..5] == chars[5..][..5];
      UnicodePrefix(chars[5..], t[5..]);
      assert t[10..] == t[5..][5..] && chars[10..] == chars[5..][5..];
    } else if IsPair(t) {
      LowStays(chars[5..]);
    }
  }

  lemma FirstPlain(chars: seq<Char>)
    requires IsString(chars) && Stays(chars) && chars[0].Itself?
    ensures var t := Tightened(chars);
      t != [] && First(t) == First(chars) && t[First(chars).1..] == Tightened(chars[First(chars).1..])
    ensures IsString(chars[First(chars).1..])
  {
    var t := Tightened(chars);
    var p, q := Run(chars), Run(t);
    RunTightened(chars);
    TightenedCons(chars);
    RunCons(chars[0], Tightened(chars[1..]));
    SameDecode(p, q);
    var w := Decode(q).width;
    forall i | 0 <= i < w ensures Stays(chars[i..]) {
      RunStays(chars, i);
    }
    StaysFor(chars, w);
    assert t[w..] == Tightened(chars[w..]);
    StringTail(chars, w);
  }

  lemma SeparatorReads(chars: seq<Char>)
    requires IsString(chars) && Separator(chars)
    ensures First(chars) == (if chars[2] == Itself(0xA8) then 0x2028 else 0x2029, 3) && IsString(chars[3..])
  {
    var p := Run(chars);
    assert chars[1..][0] == chars[1] && chars[1..][1..] == chars[2..] && chars[2..][0] == chars[2];
    assert Run(chars) == [0xE2] + Run(chars[1..]) && Run(chars[1..]) == [0x80] + Run(chars[2..]);
    assert |p| >= 3 && p[0] == 0xE2 && p[1] == 0x80 && p[2] == chars[2].b;
    StringTail(chars, 3);
  }

  /** Compaction leaves what a string means. */
  lemma {:induction false} TightenedReads(chars: seq<Char>)
    requires IsString(chars)
    ensures Runes(Tightened(chars)) == Runes(chars)
    decreases |chars|
  {
    if chars == [] {
    } else if Separator(chars) {
      SeparatorReads(chars);
      TightenedReads(chars[3..]);
      UnicodeReads(if chars[2] == Itself(0xA8) then 0x2028 else 0x2029, Tightened(chars[3..]));
    } else if chars[0].Itself? && Html(chars[0].b) {
      assert First(chars) == (chars[0].b as int, 1);
      TightenedReads(chars[1..]);
      UnicodeReads(chars[0].b, Tightened(chars[1..]));
    } else if chars[0].Itself? {
      FirstPlain(chars);
      TightenedReads(chars[First(chars).1..]);
    } else if chars[0].b == 0x75 {
      assert IsUnicode(chars);
      FirstUnicode(chars);
      TightenedReads(chars[First(chars).1..]);
    } else {
      var t := Tightened(chars);
      assert t == [chars[0]] + Tightened(chars[1..]) && t[1..] == Tightened(chars[1..]);
      TightenedReads(chars[1..]);
    }
  }

  /** And a string of the grammar. */
  lemma {:induction false} TightenedIsString(chars: seq<Char>)
    requires IsString(chars)
    ensures IsString(Tightened(chars))
    decreases |chars|
  {
    if chars == [] {
    } else if Separator(chars) {
      var c := if chars[2] == Itself(0xA8) then 0x2028 else 0x2029;
      SeparatorReads(chars);
      TightenedIsString(chars[3..]);
      UnicodeIsString(c);
      StringAppend(UnicodeChars(c), Tightened(chars[3..]));
    } else if chars[0].Itself? && Html(chars[0].b) {
      TightenedIsString(chars[1..]);
      UnicodeIsString(chars[0].b);
      StringAppend(UnicodeChars(chars[0].b), Tightened(chars[1..]));
    } else if chars[0].Behind? && chars[0].b == 0x75 {
      assert IsUnicode(chars);
      UnicodeStays(chars);
      TightenedIsString(chars[5..]);
      assert chars[..5][5..] == [] && forall i | 0 <= i < 5 :: chars[..5][i] == chars[i];
      StringAppend(chars[..5], Tightened(chars[5..]));
    } else {
      TightenedIsString(chars[1..]);
      assert [chars[0]][1..] == [];
      StringAppend([chars[0]], Tightened(chars[1..]));
    }
  }
}
