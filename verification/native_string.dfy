/** The check that a JSON string's escapes form well-formed UTF-16. */
module NativeString {
  import opened Common
  import opened Utf8

  const LETTER_U: Byte := 0x75

  function HexValue(b: Byte): Option<int> {
    if 0x30 <= b <= 0x39 then Some(b as int - 0x30)
    else if 0x61 <= b <= 0x66 then Some(b as int - 0x61 + 10)
    else if 0x41 <= b <= 0x46 then Some(b as int - 0x41 + 10)
    else None
  }

  /** The number hexadecimal digits stand for. */
  function ParseUnit(s: Bytes): Option<int> {
    if s == [] then Some(0)
    else
      var front, digit := ParseUnit(s[..|s| - 1]), HexValue(s[|s| - 1]);
      if front.None? || digit.None? then None else Some(front.value * 16 + digit.value)
  }

  // ----- the literals of section 7 of RFC 8259

  /** A character of a string literal: itself, a two-byte escape, or a \u escape of four digits. */
  datatype Part = Plain(b: Byte) | Simple(c: Byte) | Unit(digits: Bytes)

  predicate WellPart(p: Part) {
    match p
    case Plain(b) => b != QUOTE && b != BACKSLASH
    case Simple(c) => c != LETTER_U
    case Unit(digits) => |digits| == 4 && ParseUnit(digits).Some?
  }

  predicate WellParts(parts: seq<Part>) {
    forall i | 0 <= i < |parts| :: WellPart(parts[i])
  }

  function PartText(p: Part): Bytes {
    match p
    case Plain(b) => [b]
    case Simple(c) => [BACKSLASH, c]
    case Unit(digits) => [BACKSLASH, LETTER_U] + digits
  }

  function Text(parts: seq<Part>): Bytes {
    if parts == [] then [] else PartText(parts[0]) + Text(parts[1..])
  }

  function Literal(parts: seq<Part>): Bytes {
    [QUOTE] + Text(parts) + [QUOTE]
  }

  predicate IsHigh(code: Option<int>) {
    code.Some? && 0xD800 <= code.value <= 0xDBFF
  }

  predicate IsLow(code: Option<int>) {
    code.Some? && 0xDC00 <= code.value <= 0xDFFF
  }

  predicate High(p: Part) {
    p.Unit? && IsHigh(ParseUnit(p.digits))
  }

  predicate Low(p: Part) {
    p.Unit? && IsLow(ParseUnit(p.digits))
  }

  predicate PairedAt(parts: seq<Part>, i: int)
    requires 0 <= i < |parts|
  {
    && (High(parts[i]) ==> i + 1 < |parts| && Low(parts[i + 1]))
    && (Low(parts[i]) ==> 0 < i && High(parts[i - 1]))
  }

  /** Each high surrogate is immediately followed by a low one, and no low one stands alone. */
  predicate Paired(parts: seq<Part>) {
    forall i | 0 <= i < |parts| :: PairedAt(parts, i)
  }

  // ----- the scan

  /** How far the scan moves over an accepted prefix, or zero where it refuses. */
  function Stride(s: Bytes): (n: nat)
    requires s != []
    ensures n <= |s|
  {
    if s[0] != BACKSLASH then 1
    else if |s| < 2 then 0
    else if s[1] != LETTER_U then 2
    else if |s| < 6 then 0
    else
      var code := ParseUnit(s[2..6]);
      if code.None? || IsLow(code) then 0
      else if IsHigh(code) then
        if |s| < 12 || s[6] != BACKSLASH || s[7] != LETTER_U then 0
        else if IsLow(ParseUnit(s[8..12])) then 12 else 0
      else 6
  }

  predicate Scan(s: Bytes)
    decreases |s|
  {
    s == [] || (Stride(s) > 0 && Scan(s[Stride(s)..]))
  }

  /** One turn of the source's loop at index i: how far it moves, or zero where it refuses. */
  method StepAt(raw: Bytes, i: nat) returns (step: nat)
    requires i < |raw|
    ensures step == Stride(raw[i..])
  {
    var rest := raw[i..];
    if raw[i] != BACKSLASH {
      return 1;
    }
    if i + 1 >= |raw| {
      return 0;
    }
    if raw[i + 1] != LETTER_U {
      return 2;
    }
    if i + 6 > |raw| {
      return 0;
    }
    assert rest[2..6] == raw[i + 2..i + 6];
    var code := ParseUnit(raw[i + 2..i + 6]);
    if code.None? || 0xDC00 <= code.value <= 0xDFFF {
      return 0;
    }
    if 0xD800 <= code.value <= 0xDBFF {
      if i + 12 > |raw| || raw[i + 6] != BACKSLASH || raw[i + 7] != LETTER_U {
        return 0;
      }
      assert rest[8..12] == raw[i + 8..i + 12];
      var low := ParseUnit(raw[i + 8..i + 12]);
      if low.None? || low.value < 0xDC00 || low.value > 0xDFFF {
        return 0;
      }
      return 12;
    }
    step := 6;
  }

  /** The source's index loop; decodes says whether the JSON decoder took raw as a string. */
  method Accepts(raw: Bytes, decodes: bool) returns (ok: bool)
    ensures ok <==> decodes && Scan(raw)
  {
    if !decodes {
      return false;
    }
    var i := 0;
    assert raw[0..] == raw;
    while i < |raw|
      invariant i <= |raw| && Scan(raw) == Scan(raw[i..])
    {
      var step := StepAt(raw, i);
      if step == 0 {
        return false;
      }
      assert raw[i..][step..] == raw[i + step..];
      i := i + step;
    }
    ok := true;
  }

  // ----- the scan decides pairing

  lemma PairedTail(parts: seq<Part>)
    requires parts != [] && !High(parts[0]) && !Low(parts[0])
    ensures Paired(parts) <==> Paired(parts[1..])
  {
    var rest := parts[1..];
    assert forall i | 0 <= i < |rest| :: rest[i] == parts[i + 1];
    if Paired(parts) {
      forall i | 0 <= i < |rest| ensures PairedAt(rest, i) { assert PairedAt(parts, i + 1); }
    }
    if Paired(rest) {
      forall i | 0 <= i < |parts| ensures PairedAt(parts, i) {
        if i > 0 { assert PairedAt(rest, i - 1); }
      }
    }
  }

  lemma PairedPair(parts: seq<Part>)
    requires |parts| >= 2 && High(parts[0]) && Low(parts[1])
    ensures Paired(parts) <==> Paired(parts[2..])
  {
    var rest := parts[2..];
    assert forall i | 0 <= i < |rest| :: rest[i] == parts[i + 2];
    if Paired(parts) {
      forall i | 0 <= i < |rest| ensures PairedAt(rest, i) { assert PairedAt(parts, i + 2); }
    }
    if Paired(rest) {
      forall i | 0 <= i < |parts| ensures PairedAt(parts, i) {
        if i > 1 { assert PairedAt(rest, i - 2); }
      }
    }
  }

  lemma UnitText(p: Part, rest: Bytes)
    requires WellPart(p) && p.Unit?
    ensures var s := PartText(p) + rest;
            |s| >= 6 && s[0] == BACKSLASH && s[1] == LETTER_U && s[2..6] == p.digits && s[6..] == rest
  {
  }

  /** The scan passes a part that is no surrogate whole. */
  lemma StrideOfPart(p: Part, rest: Bytes)
    requires WellPart(p) && !High(p) && !Low(p)
    ensures var s := PartText(p) + rest; s != [] && Stride(s) > 0 && s[Stride(s)..] == rest
  {
    match p {
      case Plain(_) => assert ([p.b] + rest)[1..] == rest;
      case Simple(_) => assert ([BACKSLASH, p.c] + rest)[2..] == rest;
      case Unit(_) => UnitText(p, rest);
    }
  }

  /** It passes a high surrogate together with the low one behind it. */
  lemma StrideOfPair(p: Part, q: Part, rest: Bytes)
    requires WellPart(p) && WellPart(q) && High(p) && Low(q)
    ensures var s := PartText(p) + (PartText(q) + rest); s != [] && Stride(s) == 12 && s[12..] == rest
  {
    var t := PartText(q) + rest;
    UnitText(q, rest);
    UnitText(p, t);
    var s := PartText(p) + t;
    assert s[6..][2..6] == s[8..12] && s[6..][6..] == s[12..];
    assert s[6] == s[6..][0] && s[7] == s[6..][1];
  }

  lemma StrideOfLow(p: Part, rest: Bytes)
    requires WellPart(p) && Low(p)
    ensures var s := PartText(p) + rest; s != [] && Stride(s) == 0
  {
    UnitText(p, rest);
  }

  /** A high surrogate before anything but a low one stops the scan. */
  lemma StrideOfHigh(p: Part, t: Bytes)
    requires WellPart(p) && High(p)
    requires |t| < 6 || t[0] != BACKSLASH || t[1] != LETTER_U || !IsLow(ParseUnit(t[2..6]))
    ensures var s := PartText(p) + t; s != [] && Stride(s) == 0
  {
    UnitText(p, t);
    var s := PartText(p) + t;
    if |s| >= 12 {
      assert s[6] == t[0] && s[7] == t[1] && s[8..12] == t[2..6];
    }
  }

  lemma NoLowNext(p: Part, rest: Bytes)
    requires WellPart(p) && !Low(p)
    ensures var t := PartText(p) + rest; |t| < 6 || t[0] != BACKSLASH || t[1] != LETTER_U || !IsLow(ParseUnit(t[2..6]))
  {
    if p.Unit? { UnitText(p, rest); }
  }

  lemma TextSplits(parts: seq<Part>)
    requires parts != []
    ensures Text(parts) + [QUOTE] == PartText(parts[0]) + (Text(parts[1..]) + [QUOTE])
  {
  }

  lemma {:induction false} ScanOfParts(parts: seq<Part>)
    requires WellParts(parts)
    ensures Scan(Text(parts) + [QUOTE]) <==> Paired(parts)
    decreases |parts|
  {
    if parts == [] {
      assert (Text(parts) + [QUOTE])[1..] == [];
    } else {
      var p, rest := parts[0], Text(parts[1..]) + [QUOTE];
      TextSplits(parts);
      if !High(p) && !Low(p) {
        StrideOfPart(p, rest);
        PairedTail(parts);
        ScanOfParts(parts[1..]);
      } else if High(p) && |parts| > 1 && Low(parts[1]) {
        TextSplits(parts[1..]);
        assert parts[1..][1..] == parts[2..];
        StrideOfPair(p, parts[1], Text(parts[2..]) + [QUOTE]);
        PairedPair(parts);
        ScanOfParts(parts[2..]);
      } else {
        assert !PairedAt(parts, 0);
        if Low(p) {
          StrideOfLow(p, rest);
        } else {
          if |parts| > 1 {
            TextSplits(parts[1..]);
            NoLowNext(parts[1], Text(parts[1..][1..]) + [QUOTE]);
          }
          StrideOfHigh(p, rest);
        }
      }
    }
  }

  /** Of the JSON string literals, exactly those whose \u escapes form well-formed UTF-16 are accepted. */
  lemma LiteralIsPaired(parts: seq<Part>)
    requires WellParts(parts)
    ensures Scan(Literal(parts)) <==> Paired(parts)
  {
    ScanOfParts(parts);
    var s := Literal(parts);
    assert s[1..] == Text(parts) + [QUOTE];
    assert Stride(s) == 1;
  }
}
