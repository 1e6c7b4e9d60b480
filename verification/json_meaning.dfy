/** What a value means as JSON, apart from how it is encoded, and that its encoding reads as that. */
module JsonMeaning {
  import opened Common
  import opened Utf8
  import opened JsonText
  import JsonGrammar
  import opened JsonRunes
  import opened JsonReader
  import opened JsonSqueeze
  import opened JsonSize

  // ----- what a value means

  /** The values an omitempty field is left out for. */
  predicate IsEmpty(v: Value) {
    || v == Bool(false) || v == Number(0) || v == String([]) || v == Raw([])
    || v == NilPointer || v == NilSlice || v == Slice([]) || v == Opaque(Some(true))
  }

  predicate LeftOut(f: Field) {
    f.skipped || (f.option == OmitEmpty && IsEmpty(f.value))
  }

  /** The tag's name, and the Go name where the tag has none. */
  function FieldName(f: Field): Bytes {
    if |f.tagName| > 0 then f.tagName else f.goName
  }

  function Meaning(v: Value): Json {
    match v
    case Bool(b) => Truth(b)
    case Number(n) => Whole(n)
    case String(s) => Text(RunesOf(s))
    case Raw(raw) => var said := Read(raw); if said.Some? then said.value else Null
    case Pointer(target) => Meaning(target)
    case Interface(target) => Meaning(target)
    case Slice(items) => List(Meanings(items))
    case Array(items) => List(Meanings(items))
    case Struct(fields) => Map(MembersOf(fields))
    case _ => Null
  }

  function Meanings(items: seq<Value>): (r: seq<Json>)
    ensures |r| == |items|
  {
    if items == [] then [] else Meanings(items[..|items| - 1]) + [Meaning(items[|items| - 1])]
  }

  function MembersOf(fields: seq<Field>): seq<Member> {
    if fields == [] then []
    else
      var f := fields[|fields| - 1];
      MembersOf(fields[..|fields| - 1]) + if LeftOut(f) then [] else [Member(RunesOf(FieldName(f)), Meaning(f.value))]
  }

  // ----- integers

  lemma {:induction false} DigitsRead(n: nat)
    ensures Digits(n) != [] && JsonGrammar.AreDigits(Digits(n)) && DigitsValue(Digits(n)) == n
    ensures Digits(n)[0] == 0x30 ==> |Digits(n)| == 1
  {
    var d := Digits(n);
    if n < 10 {
      assert d[..0] == [] && d[|d| - 1] == 0x30 + n;
    } else {
      DigitsRead(n / 10);
      var front := Digits(n / 10);
      assert d[..|d| - 1] == front && d[|d| - 1] == 0x30 + n % 10 && d[0] == front[0];
      FirstDigit(n / 10);
    }
  }

  /** Only nothing starts with a zero. */
  lemma {:induction false} FirstDigit(n: nat)
    requires n > 0
    ensures Digits(n) != [] && Digits(n)[0] != 0x30
  {
    if n >= 10 {
      FirstDigit(n / 10);
    }
  }

  lemma {:induction false} AllDigits(s: Bytes)
    requires JsonGrammar.AreDigits(s)
    ensures JsonGrammar.DigitsAt(s) == |s|
  {
    if s != [] {
      assert s[0] in s;
      AllDigits(s[1..]);
    }
  }

  lemma DecimalIsNumber(n: int)
    ensures var s := Decimal(n); s != [] && JsonGrammar.IsNumber(s) && IsWhole(s) && WholeValue(s) == n
  {
    var s := Decimal(n);
    var m := if n < 0 then -n else n;
    DigitsRead(m);
    AllDigits(Digits(m));
    assert n < 0 ==> s[0] == 0x2D && s[1..] == Digits(m);
    assert Digits(m)[0] in Digits(m);
    assert Digits(m)[|Digits(m)|..] == [];
  }

  /** An integer reads back as itself. */
  lemma DecimalReads(n: int)
    ensures WordMeaning(Decimal(n)) == Some(Whole(n))
  {
    DecimalIsNumber(n);
    var s := Decimal(n);
    assert s[0] == 0x2D || s[0] in s;
    assert s != TRUE && s != FALSE && s != NULL;
  }

  // ----- spelled lexemes

  /** The lexemes are well formed, have no blanks and spell the bytes. */
  predicate Spells(c: Lexemes, s: Bytes) {
    WellText(c) && NoBlank(c) && SourceText(c) == s
  }

  function Others(s: Bytes): (r: Lexemes)
    ensures |r| == |s| && forall i | 0 <= i < |r| :: r[i] == Other(s[i])
  {
    seq(|s|, i requires 0 <= i < |s| => Other(s[i]))
  }

  predicate WordByte(b: Byte) {
    JsonGrammar.IsDigit(b) || b == 0x2D || 0x61 <= b <= 0x7A
  }

  lemma {:induction false} OthersSpell(s: Bytes)
    requires forall i | 0 <= i < |s| :: WordByte(s[i])
    ensures Spells(Others(s), s) && JsonGrammar.Word(Others(s)) == s
  {
    if s != [] {
      OthersSpell(s[1..]);
      assert Others(s)[1..] == Others(s[1..]);
    }
  }

  lemma WordSpells(s: Bytes, j: Json) returns (c: Lexemes)
    requires s != [] && (forall i | 0 <= i < |s| :: WordByte(s[i])) && WordMeaning(s) == Some(j)
    ensures Spells(c, s) && Reads(c, j)
  {
    c := Others(s);
    OthersSpell(s);
    WordReads(c, j);
  }

  lemma StringSpells(s: Bytes)
    ensures Spells([Quoted(BodyChars(s))], StringText(s))
    ensures JsonGrammar.IsString(BodyChars(s)) && Runes(BodyChars(s)) == RunesOf(s)
  {
    BodyCharsText(s);
    BodyIsString(s);
    BodyReads(s);
    var c := [Quoted(BodyChars(s))];
    assert c[1..] == [];
    assert SourceText(c) == LexemeText(c[0]) + [];
  }

  lemma SpellsAppend(a: Lexemes, s: Bytes, b: Lexemes, t: Bytes)
    requires Spells(a, s) && Spells(b, t)
    ensures Spells(a + b, s + t)
  {
    SourceAppend(a, b);
  }

  lemma MarkSpells(b: Byte)
    requires b in {0x5B, 0x5D, 0x7B, 0x7D, COMMA, COLON}
    ensures Spells([Other(b)], [b])
  {
    assert [Other(b)][1..] == [];
    assert SourceText([Other(b)]) == [b] + [];
  }

  // ----- items and members, joined by commas

  function Joined(cs: seq<Lexemes>): Lexemes {
    if cs == [] then [] else if |cs| == 1 then cs[0] else cs[0] + [JsonGrammar.NEXT] + Joined(cs[1..])
  }

  lemma {:induction false} JoinedSnoc(cs: seq<Lexemes>, c: Lexemes)
    ensures Joined(cs + [c]) == if cs == [] then c else Joined(cs) + [JsonGrammar.NEXT] + c
  {
    var all := cs + [c];
    if cs != [] {
      assert all[0] == cs[0] && all[1..] == cs[1..] + [c];
      JoinedSnoc(cs[1..], c);
      if |cs| == 1 {
        assert cs[1..] == [];
      } else {
        var rest := Joined(cs[1..]);
        RegroupLexemes(cs[0] + [JsonGrammar.NEXT], rest, [JsonGrammar.NEXT]);
        RegroupLexemes(cs[0] + [JsonGrammar.NEXT], rest + [JsonGrammar.NEXT], c);
      }
    }
  }

  lemma {:induction false} JoinedItems(cs: seq<Lexemes>, js: seq<Json>)
    requires |cs| == |js| > 0 && forall i | 0 <= i < |cs| :: Reads(cs[i], js[i])
    ensures ReadsItems(Joined(cs) + [JsonGrammar.CLOSE_LIST], js)
    decreases |cs|
  {
    if |cs| == 1 {
      LastItem(cs[0], js[0]);
      assert js == [js[0]];
    } else {
      var end := [JsonGrammar.CLOSE_LIST];
      JoinedItems(cs[1..], js[1..]);
      NextItem(cs[0], js[0], Joined(cs[1..]) + end, js[1..]);
      RegroupLexemes(cs[0] + [JsonGrammar.NEXT], Joined(cs[1..]), end);
      assert js == [js[0]] + js[1..];
    }
  }

  /** A member's name, the lexemes of its value and what they read as. */
  datatype Part = Part(chars: seq<Char>, c: Lexemes, j: Json)

  function PartsOf(parts: seq<Part>): (r: seq<Lexemes>)
    ensures |r| == |parts| && forall i | 0 <= i < |r| :: r[i] == MemberOf(parts[i].chars, parts[i].c)
  {
    seq(|parts|, i requires 0 <= i < |parts| => MemberOf(parts[i].chars, parts[i].c))
  }

  function SaidBy(parts: seq<Part>): (r: seq<Member>)
    ensures |r| == |parts| && forall i | 0 <= i < |r| :: r[i] == Member(Runes(parts[i].chars), parts[i].j)
  {
    seq(|parts|, i requires 0 <= i < |parts| => Member(Runes(parts[i].chars), parts[i].j))
  }

  ghost predicate GoodPart(p: Part) {
    JsonGrammar.IsString(p.chars) && Reads(p.c, p.j)
  }

  lemma {:induction false} JoinedMembers(parts: seq<Part>)
    requires parts != [] && forall i | 0 <= i < |parts| :: GoodPart(parts[i])
    ensures ReadsMembers(Joined(PartsOf(parts)) + [JsonGrammar.CLOSE_MAP], SaidBy(parts))
    decreases |parts|
  {
    var cs, ms, end := PartsOf(parts), SaidBy(parts), [JsonGrammar.CLOSE_MAP];
    var p := parts[0];
    assert GoodPart(p);
    if |parts| == 1 {
      LastMember(p.chars, p.c, p.j);
      assert ms == [ms[0]];
    } else {
      JoinedMembers(parts[1..]);
      assert cs[1..] == PartsOf(parts[1..]) && ms[1..] == SaidBy(parts[1..]);
      NextMember(p.chars, p.c, p.j, Joined(cs[1..]) + end, ms[1..]);
      RegroupLexemes(cs[0] + [JsonGrammar.NEXT], Joined(cs[1..]), end);
      assert ms == [ms[0]] + ms[1..];
    }
  }

  lemma ListSpells(cs: seq<Lexemes>, js: seq<Json>, s: Bytes) returns (c: Lexemes)
    requires |cs| == |js| && Spells(Joined(cs), s) && forall i | 0 <= i < |cs| :: Reads(cs[i], js[i])
    ensures Spells(c, [0x5B] + s + [0x5D]) && Reads(c, List(js))
  {
    var open, end := [JsonGrammar.OPEN_LIST], [JsonGrammar.CLOSE_LIST];
    c := open + Joined(cs) + end;
    MarkSpells(0x5B);
    MarkSpells(0x5D);
    SpellsAppend(open, [0x5B], Joined(cs), s);
    SpellsAppend(open + Joined(cs), [0x5B] + s, end, [0x5D]);
    if cs == [] {
      assert js == [] && c == [JsonGrammar.OPEN_LIST, JsonGrammar.CLOSE_LIST];
      EmptyListReads();
    } else {
      JoinedItems(cs, js);
      RegroupLexemes(open, Joined(cs), end);
      ListReads(Joined(cs) + end, js);
    }
  }

  lemma MapSpells(parts: seq<Part>, s: Bytes) returns (c: Lexemes)
    requires Spells(Joined(PartsOf(parts)), s) && forall i | 0 <= i < |parts| :: GoodPart(parts[i])
    ensures Spells(c, [0x7B] + s + [0x7D]) && Reads(c, Map(SaidBy(parts)))
  {
    var open, end, all := [JsonGrammar.OPEN_MAP], [JsonGrammar.CLOSE_MAP], Joined(PartsOf(parts));
    c := open + all + end;
    MarkSpells(0x7B);
    MarkSpells(0x7D);
    SpellsAppend(open, [0x7B], all, s);
    SpellsAppend(open + all, [0x7B] + s, end, [0x7D]);
    if parts == [] {
      assert PartsOf(parts) == [] && SaidBy(parts) == [] && c == [JsonGrammar.OPEN_MAP, JsonGrammar.CLOSE_MAP];
      EmptyMapReads();
    } else {
      JoinedMembers(parts);
      RegroupLexemes(open, all, end);
      MapReads(all + end, SaidBy(parts));
    }
  }

  // ----- the encoding

  lemma EmptyIsEmptiness(v: Value)
    ensures IsEmpty(v) <==> Emptiness(v) == Some(true)
  {
  }

  lemma WrittenIsNotLeftOut(f: Field)
    ensures Written(f) <==> !LeftOut(f)
    ensures FieldName(f) == Name(f)
  {
    EmptyIsEmptiness(f.value);
  }

  lemma {:induction false} EncodedReads(v: Value) returns (c: Lexemes)
    requires Predictable(v)
    ensures Spells(c, Encode(v)) && Reads(c, Meaning(v))
    decreases v, 0
  {
    match v {
      case Bool(b) => c := WordSpells(if b then TRUE else FALSE, Truth(b));
      case Number(n) =>
        DecimalReads(n);
        DecimalBytes(n);
        c := WordSpells(Decimal(n), Whole(n));
      case String(s) =>
        StringSpells(s);
        c := [Quoted(BodyChars(s))];
        QuotedReads(BodyChars(s));
      case Raw(raw) => c := RawReads(raw);
      case Pointer(target) => c := EncodedReads(target);
      case Interface(target) => c := EncodedReads(target);
      case Slice(items) =>
        var cs := ItemsEncoded(items);
        c := ListSpells(cs, Meanings(items), EncodeAll(items));
      case Array(items) =>
        var cs := ItemsEncoded(items);
        c := ListSpells(cs, Meanings(items), EncodeAll(items));
      case Struct(fields) =>
        var parts := FieldsEncoded(fields);
        c := MapSpells(parts, EncodeFields(fields));
      case _ => c := WordSpells(NULL, Null);
    }
  }

  lemma DecimalBytes(n: int)
    ensures Decimal(n) != [] && forall i | 0 <= i < |Decimal(n)| :: WordByte(Decimal(n)[i])
  {
    var m := if n < 0 then -n else n;
    DigitsRead(m);
    forall i | 0 <= i < |Digits(m)| ensures WordByte(Digits(m)[i]) {
      assert Digits(m)[i] in Digits(m);
    }
  }

  lemma RawReads(raw: Bytes) returns (c: Lexemes)
    requires JsonGrammar.IsJson(raw)
    ensures Spells(c, JsonGrammar.CompactJson(raw)) && Reads(c, Meaning(Raw(raw)))
  {
    var t := JsonGrammar.Lex(raw).value;
    c := Squeezed(t);
    JsonSqueezes(raw);
    SqueezedText(t);
  }

  lemma {:induction false} ItemsEncoded(items: seq<Value>) returns (cs: seq<Lexemes>)
    requires PredictableAll(items)
    ensures |cs| == |items| && Spells(Joined(cs), EncodeAll(items))
    ensures forall i | 0 <= i < |cs| :: Reads(cs[i], Meanings(items)[i])
    decreases items, 1
  {
    if items == [] {
      cs := [];
    } else {
      var front, v := items[..|items| - 1], items[|items| - 1];
      var was := ItemsEncoded(front);
      var c := EncodedReads(v);
      cs := was + [c];
      JoinedSnoc(was, c);
      if was != [] {
        MarkSpells(COMMA);
        SpellsAppend(Joined(was), EncodeAll(front), [JsonGrammar.NEXT], [COMMA]);
        SpellsAppend(Joined(was) + [JsonGrammar.NEXT], EncodeAll(front) + [COMMA], c, Encode(v));
      }
    }
  }

  lemma FieldSpells(f: Field, c: Lexemes)
    requires Predictable(f.value) && Spells(c, Encode(f.value))
    ensures Spells(MemberOf(BodyChars(Name(f)), c), StringText(Name(f)) + [COLON] + Encode(f.value))
  {
    var name := [Quoted(BodyChars(Name(f)))];
    StringSpells(Name(f));
    MarkSpells(COLON);
    SpellsAppend(name, StringText(Name(f)), [JsonGrammar.NAMED], [COLON]);
    SpellsAppend(name + [JsonGrammar.NAMED], StringText(Name(f)) + [COLON], c, Encode(f.value));
    assert name + [JsonGrammar.NAMED] + c == MemberOf(BodyChars(Name(f)), c);
  }

  lemma {:induction false} FieldsEncoded(fields: seq<Field>) returns (parts: seq<Part>)
    requires PredictableFields(fields)
    ensures |parts| == WrittenCount(fields) && Spells(Joined(PartsOf(parts)), EncodeFields(fields))
    ensures SaidBy(parts) == MembersOf(fields) && forall i | 0 <= i < |parts| :: GoodPart(parts[i])
    decreases fields, 1
  {
    if fields == [] {
      parts := [];
    } else {
      var front, f := fields[..|fields| - 1], fields[|fields| - 1];
      var was := FieldsEncoded(front);
      WrittenIsNotLeftOut(f);
      if Written(f) {
        var c := EncodedReads(f.value);
        var p := Part(BodyChars(Name(f)), c, Meaning(f.value));
        StringSpells(Name(f));
        FieldSpells(f, c);
        parts := was + [p];
        PartsSnoc(was, p);
        FieldJoins(front, f, was, p);
      } else {
        parts := was;
        assert EncodeFields(front) + [] == EncodeFields(front) && MembersOf(front) + [] == MembersOf(front);
      }
    }
  }

  lemma PartsSnoc(was: seq<Part>, p: Part)
    ensures PartsOf(was + [p]) == PartsOf(was) + [MemberOf(p.chars, p.c)]
    ensures SaidBy(was + [p]) == SaidBy(was) + [Member(Runes(p.chars), p.j)]
  {
  }

  lemma RegroupField(a: Bytes, comma: Bytes, name: Bytes, colon: Bytes, value: Bytes)
    ensures a + (comma + name + colon + value) == a + comma + (name + colon + value)
  {
    assert comma + name + colon + value == comma + (name + colon + value);
  }

  lemma FieldJoins(front: seq<Field>, f: Field, was: seq<Part>, p: Part)
    requires PredictableFields(front) && Predictable(f.value) && |was| == WrittenCount(front)
    requires Spells(Joined(PartsOf(was)), EncodeFields(front))
    requires Spells(MemberOf(p.chars, p.c), StringText(Name(f)) + [COLON] + Encode(f.value))
    ensures Spells(Joined(PartsOf(was) + [MemberOf(p.chars, p.c)]),
                   EncodeFields(front) +
                   ((if WrittenCount(front) > 0 then [COMMA] else []) + StringText(Name(f)) + [COLON]
                    + Encode(f.value)))
  {
    var m, name, value := MemberOf(p.chars, p.c), StringText(Name(f)), Encode(f.value);
    var comma := if WrittenCount(front) > 0 then [COMMA] else [];
    JoinedSnoc(PartsOf(was), m);
    RegroupField(EncodeFields(front), comma, name, [COLON], value);
    MemberJoins(PartsOf(was), EncodeFields(front), m, name + [COLON] + value);
  }

  lemma MemberJoins(cs: seq<Lexemes>, s: Bytes, m: Lexemes, t: Bytes)
    requires Spells(Joined(cs), s) && Spells(m, t)
    ensures Spells(if cs == [] then m else Joined(cs) + [JsonGrammar.NEXT] + m,
                   s + (if cs == [] then [] else [COMMA]) + t)
  {
    if cs == [] {
      assert s == [] && s + [] + t == t;
    } else {
      MarkSpells(COMMA);
      SpellsAppend(Joined(cs), s, [JsonGrammar.NEXT], [COMMA]);
      SpellsAppend(Joined(cs) + [JsonGrammar.NEXT], s + [COMMA], m, t);
    }
  }

  /** The encoding of a value reads as what the value means. */
  lemma EncodingMeans(v: Value)
    requires Predictable(v)
    ensures Read(Encode(v)) == Some(Meaning(v))
  {
    var c := EncodedReads(v);
    LexOf(c);
    assert c + [] == c;
    assert ReadValue(c + []) == Some((Meaning(v), []));
  }
}
