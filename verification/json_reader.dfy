/** Reading a JSON text back into what it says, and that blanks and escapes do not change it. */
module JsonReader {
  import opened Common
  import opened Utf8
  import opened JsonText
  import opened JsonGrammar
  import opened JsonRunes

  /** What a text says. A number that is no integer stays as it is written. */
  datatype Json =
    | Null
    | Truth(b: bool)
    | Whole(n: int)
    | Fraction(text: Bytes)
    | Text(runes: seq<int>)
    | List(items: seq<Json>)
    | Map(members: seq<Member>)

  datatype Member = Member(name: seq<int>, value: Json)

  type Lexemes = seq<Lexeme>

  // ----- numbers

  function DigitsValue(s: Bytes): int {
    if s == [] then 0 else DigitsValue(s[..|s| - 1]) * 10 + (s[|s| - 1] as int - 0x30)
  }

  /** Digits, perhaps behind a minus sign. */
  predicate IsWhole(s: Bytes) {
    s != [] && AreDigits(if s[0] == 0x2D then s[1..] else s)
  }

  function WholeValue(s: Bytes): int
    requires s != []
  {
    if s[0] == 0x2D then -DigitsValue(s[1..]) else DigitsValue(s)
  }

  function WordMeaning(s: Bytes): Option<Json> {
    if s == TRUE then Some(Truth(true))
    else if s == FALSE then Some(Truth(false))
    else if s == NULL then Some(Null)
    else if s == [] || !IsNumber(s) then None
    else Some(if IsWhole(s) then Whole(WholeValue(s)) else Fraction(s))
  }

  // ----- the reader

  function ReadValue(text: Lexemes): (r: Option<(Json, Lexemes)>)
    ensures r.Some? ==> |r.value.1| < |text|
    decreases |text|, 1
  {
    var t := Skip(text);
    if t == [] then None
    else if t[0].Quoted? then (if IsString(t[0].chars) then Some((Text(Runes(t[0].chars)), t[1..])) else None)
    else if t[0] == OPEN_LIST then
      var u := Skip(t[1..]);
      if u != [] && u[0] == CLOSE_LIST then Some((List([]), u[1..]))
      else
        var items := ReadItems(u);
        if items.None? then None else Some((List(items.value.0), items.value.1))
    else if t[0] == OPEN_MAP then
      var u := Skip(t[1..]);
      if u != [] && u[0] == CLOSE_MAP then Some((Map([]), u[1..]))
      else
        var members := ReadMembers(u);
        if members.None? then None else Some((Map(members.value.0), members.value.1))
    else
      var s := Word(t);
      var word := WordMeaning(s);
      if word.None? then None else Some((word.value, t[|s|..]))
  }

  function ReadItems(t: Lexemes): (r: Option<(seq<Json>, Lexemes)>)
    ensures r.Some? ==> |r.value.1| < |t|
    decreases |t|, 2
  {
    var v := ReadValue(t);
    if v.None? then None
    else
      var u := Skip(v.value.1);
      if u == [] then None
      else if u[0] == CLOSE_LIST then Some(([v.value.0], u[1..]))
      else if u[0] == NEXT then
        var more := ReadItems(u[1..]);
        if more.None? then None else Some(([v.value.0] + more.value.0, more.value.1))
      else None
  }

  function ReadMembers(t: Lexemes): (r: Option<(seq<Member>, Lexemes)>)
    ensures r.Some? ==> |r.value.1| < |t|
    decreases |t|, 2
  {
    var n := Skip(t);
    if n == [] || !n[0].Quoted? || !IsString(n[0].chars) then None
    else
      var c := Skip(n[1..]);
      if c == [] || c[0] != NAMED then None
      else
        var v := ReadValue(c[1..]);
        if v.None? then None
        else
          var member, u := Member(Runes(n[0].chars), v.value.0), Skip(v.value.1);
          if u == [] then None
          else if u[0] == CLOSE_MAP then Some(([member], u[1..]))
          else if u[0] == NEXT then
            var more := ReadMembers(u[1..]);
            if more.None? then None else Some(([member] + more.value.0, more.value.1))
          else None
  }

  /** What the bytes of one text say. */
  function Read(s: Bytes): Option<Json> {
    var t := Lex(s);
    if t.None? then None
    else
      var r := ReadValue(t.value);
      if r.None? || Skip(r.value.1) != [] then None else Some(r.value.0)
  }

  // ----- whatever the grammar admits can be read

  lemma {:induction false} ValueIsRead(text: Lexemes, room: nat)
    requires Value(text, room).Some?
    ensures ReadValue(text).Some? && ReadValue(text).value.1 == Value(text, room).value
    decreases |text|, 1
  {
    var t := Skip(text);
    if t[0] == OPEN_LIST {
      var u := Skip(t[1..]);
      if !(u != [] && u[0] == CLOSE_LIST) {
        ItemsAreRead(u, room - 1);
      }
    } else if t[0] == OPEN_MAP {
      var u := Skip(t[1..]);
      if !(u != [] && u[0] == CLOSE_MAP) {
        MembersAreRead(u, room - 1);
      }
    }
  }

  lemma {:induction false} ItemsAreRead(t: Lexemes, room: nat)
    requires Items(t, room).Some?
    ensures ReadItems(t).Some? && ReadItems(t).value.1 == Items(t, room).value
    decreases |t|, 2
  {
    ValueIsRead(t, room);
    var u := Skip(Value(t, room).value);
    if u[0] == NEXT {
      ItemsAreRead(u[1..], room);
    }
  }

  lemma {:induction false} MembersAreRead(t: Lexemes, room: nat)
    requires Members(t, room).Some?
    ensures ReadMembers(t).Some? && ReadMembers(t).value.1 == Members(t, room).value
    decreases |t|, 2
  {
    var c := Skip(Skip(t)[1..]);
    ValueIsRead(c[1..], room);
    var u := Skip(Value(c[1..], room).value);
    if u[0] == NEXT {
      MembersAreRead(u[1..], room);
    }
  }

  /** Every JSON text says something. */
  lemma JsonIsRead(s: Bytes)
    requires IsJson(s)
    ensures Read(s).Some?
  {
    ValueIsRead(Lex(s).value, MAX_NESTING);
  }

  // ----- lexemes of a spelled text

  lemma {:induction false} LexCharsOf(chars: seq<Char>, rest: Bytes)
    requires WellChars(chars)
    ensures LexChars(CharsText(chars) + [QUOTE] + rest) == Some((chars, rest))
    decreases |chars|
  {
    var s := CharsText(chars) + [QUOTE] + rest;
    if chars == [] {
      assert s[0] == QUOTE && s[1..] == rest;
    } else {
      var c, more := chars[0], chars[1..];
      var tail := CharsText(more) + [QUOTE] + rest;
      LexCharsOf(more, rest);
      assert chars == [c] + more;
      CharsCons(c, more, rest);
      assert s == CharText(c) + tail;
      assert s[|CharText(c)|..] == tail;
      assert s[0] == CharText(c)[0] && CharAt(s) == Some(c);
    }
  }

  lemma LexByte(b: Byte, rest: Bytes)
    requires b != QUOTE && Lex(rest).Some? && (IsBlank(b) || (b < 0x80 && !Html(b)))
    ensures Lex([b] + rest) == Some([if IsBlank(b) then Blank(b) else Other(b)] + Lex(rest).value)
  {
    var s := [b] + rest;
    assert s[0] == b && s[1..] == rest;
  }

  lemma LexQuoted(chars: seq<Char>, rest: Bytes)
    requires WellChars(chars) && Lex(rest).Some?
    ensures Lex([QUOTE] + CharsText(chars) + [QUOTE] + rest) == Some([Quoted(chars)] + Lex(rest).value)
  {
    var s := [QUOTE] + CharsText(chars) + [QUOTE] + rest;
    var tail := CharsText(chars) + [QUOTE] + rest;
    assert s == [QUOTE] + tail;
    assert s[0] == QUOTE && s[1..] == tail;
    LexCharsOf(chars, rest);
    assert LexChars(s[1..]) == Some((chars, rest));
    assert Lex(s) == Lexed(Quoted(chars), rest, Lex(rest));
  }

  lemma LexFirst(l: Lexeme, rest: Bytes)
    requires WellLexeme(l) && Lex(rest).Some?
    ensures Lex(LexemeText(l) + rest) == Some([l] + Lex(rest).value)
  {
    match l {
      case Blank(b) => LexByte(b, rest);
      case Other(b) => LexByte(b, rest);
      case Quoted(chars) => LexQuoted(chars, rest);
    }
  }

  /** The lexemes of a spelled text are those it was spelled from. */
  lemma {:induction false} LexOf(t: Lexemes)
    requires WellText(t)
    ensures Lex(SourceText(t)) == Some(t)
  {
    if t != [] {
      LexOf(t[1..]);
      LexFirst(t[0], SourceText(t[1..]));
      assert t == [t[0]] + t[1..];
    }
  }

  lemma RegroupBytes(a: Bytes, b: Bytes, c: Bytes)
    ensures a + (b + c) == a + b + c
  {
  }

  lemma SourceCons(l: Lexeme, t: Lexemes)
    ensures SourceText([l] + t) == LexemeText(l) + SourceText(t)
  {
    assert ([l] + t)[1..] == t;
  }

  lemma {:induction false} SourceAppend(a: Lexemes, b: Lexemes)
    ensures SourceText(a + b) == SourceText(a) + SourceText(b)
  {
    if a == [] {
      assert a + b == b && SourceText(a) + SourceText(b) == SourceText(b);
    } else {
      SourceAppend(a[1..], b);
      ConsAppend(a, b);
      SourceCons(a[0], a[1..] + b);
      RegroupBytes(LexemeText(a[0]), SourceText(a[1..]), SourceText(b));
    }
  }
}
