/** Compacting a JSON text leaves what it says. */
module JsonSqueeze {
  import opened Common
  import opened Utf8
  import opened JsonText
  import opened JsonGrammar
  import opened JsonRunes
  import opened JsonReader

  // ----- texts that read as a value wherever one may stand

  /** Nothing follows, or a mark that ends a value. */
  predicate Closed(rest: Lexemes) {
    rest == [] || IsMark(rest[0])
  }

  ghost predicate Reads(c: Lexemes, j: Json) {
    forall rest {:trigger ReadValue(c + rest)} | Closed(rest) :: ReadValue(c + rest) == Some((j, rest))
  }

  ghost predicate ReadsItems(c: Lexemes, js: seq<Json>) {
    forall rest {:trigger ReadItems(c + rest)} :: ReadItems(c + rest) == Some((js, rest))
  }

  ghost predicate ReadsMembers(c: Lexemes, ms: seq<Member>) {
    forall rest {:trigger ReadMembers(c + rest)} :: ReadMembers(c + rest) == Some((ms, rest))
  }

  predicate NoBlank(t: Lexemes) {
    forall i | 0 <= i < |t| :: !t[i].Blank?
  }

  lemma RegroupLexemes(a: Lexemes, b: Lexemes, c: Lexemes)
    ensures a + b + c == a + (b + c)
  {
  }

  lemma QuotedReads(chars: seq<Char>)
    requires IsString(chars)
    ensures Reads([Quoted(chars)], Text(Runes(chars)))
  {
    forall rest | Closed(rest) ensures ReadValue([Quoted(chars)] + rest) == Some((Text(Runes(chars)), rest)) {
      var t := [Quoted(chars)] + rest;
      assert t[0] == Quoted(chars) && t[1..] == rest && Skip(t) == t;
    }
  }

  lemma {:induction false} WordOf(w: Lexemes, rest: Lexemes)
    requires Closed(rest) && forall i | 0 <= i < |w| :: w[i].Other? && !IsMark(w[i])
    ensures Word(w + rest) == Word(w) && |Word(w)| == |w|
  {
    if w == [] {
      assert w + rest == rest;
    } else {
      WordOf(w[1..], rest);
      assert (w + rest)[0] == w[0] && (w + rest)[1..] == w[1..] + rest;
    }
  }

  lemma WordReads(w: Lexemes, j: Json)
    requires w != [] && (forall i | 0 <= i < |w| :: w[i].Other? && !IsMark(w[i])) && WordMeaning(Word(w)) == Some(j)
    ensures Reads(w, j)
  {
    forall rest | Closed(rest) ensures ReadValue(w + rest) == Some((j, rest)) {
      var t := w + rest;
      WordOf(w, rest);
      assert t[0] == w[0] && Skip(t) == t && t[|w|..] == rest;
    }
  }

  lemma EmptyListReads()
    ensures Reads([OPEN_LIST, CLOSE_LIST], List([]))
  {
    forall rest | Closed(rest) ensures ReadValue([OPEN_LIST, CLOSE_LIST] + rest) == Some((List([]), rest)) {
      var t := [OPEN_LIST, CLOSE_LIST] + rest;
      assert t[0] == OPEN_LIST && Skip(t) == t;
      assert t[1..] == [CLOSE_LIST] + rest && t[1..][0] == CLOSE_LIST && Skip(t[1..]) == t[1..] && t[1..][1..] == rest;
    }
  }

  lemma EmptyMapReads()
    ensures Reads([OPEN_MAP, CLOSE_MAP], Map([]))
  {
    forall rest | Closed(rest) ensures ReadValue([OPEN_MAP, CLOSE_MAP] + rest) == Some((Map([]), rest)) {
      var t := [OPEN_MAP, CLOSE_MAP] + rest;
      assert t[0] == OPEN_MAP && Skip(t) == t;
      assert t[1..] == [CLOSE_MAP] + rest && t[1..][0] == CLOSE_MAP && Skip(t[1..]) == t[1..] && t[1..][1..] == rest;
    }
  }

  lemma ItemsStart(c: Lexemes, js: seq<Json>)
    requires ReadsItems(c, js) && NoBlank(c)
    ensures c != [] && c[0] != CLOSE_LIST
  {
    assert c + [] == c;
    assert ReadItems(c + []).Some?;
    assert ReadValue(c).Some?;
    assert c != [];
    assert Skip(c) == c;
    assert c[0] == CLOSE_LIST ==> Word(c) == [];
  }

  lemma ListReads(c: Lexemes, js: seq<Json>)
    requires ReadsItems(c, js) && NoBlank(c)
    ensures Reads([OPEN_LIST] + c, List(js))
  {
    ItemsStart(c, js);
    forall rest | Closed(rest) ensures ReadValue([OPEN_LIST] + c + rest) == Some((List(js), rest)) {
      var t := [OPEN_LIST] + c + rest;
      assert t[0] == OPEN_LIST && Skip(t) == t && t[1..] == c + rest;
      assert (c + rest)[0] == c[0] && Skip(c + rest) == c + rest;
      assert ReadItems(c + rest) == Some((js, rest));
    }
  }

  lemma MembersStart(c: Lexemes, ms: seq<Member>)
    requires ReadsMembers(c, ms) && NoBlank(c)
    ensures c != [] && c[0] != CLOSE_MAP
  {
    assert c + [] == c;
    assert ReadMembers(c + []).Some?;
  }

  lemma MapReads(c: Lexemes, ms: seq<Member>)
    requires ReadsMembers(c, ms) && NoBlank(c)
    ensures Reads([OPEN_MAP] + c, Map(ms))
  {
    MembersStart(c, ms);
    forall rest | Closed(rest) ensures ReadValue([OPEN_MAP] + c + rest) == Some((Map(ms), rest)) {
      var t := [OPEN_MAP] + c + rest;
      assert t[0] == OPEN_MAP && Skip(t) == t && t[1..] == c + rest;
      assert (c + rest)[0] == c[0] && Skip(c + rest) == c + rest;
      assert ReadMembers(c + rest) == Some((ms, rest));
    }
  }

  /** The last item and the end of the list. */
  lemma LastItem(c: Lexemes, j: Json)
    requires Reads(c, j)
    ensures ReadsItems(c + [CLOSE_LIST], [j])
  {
    forall rest ensures ReadItems(c + [CLOSE_LIST] + rest) == Some(([j], rest)) {
      var u := [CLOSE_LIST] + rest;
      RegroupLexemes(c, [CLOSE_LIST], rest);
      assert ReadValue(c + u) == Some((j, u));
      assert u[0] == CLOSE_LIST && Skip(u) == u && u[1..] == rest;
    }
  }

  lemma NextItem(c: Lexemes, j: Json, more: Lexemes, js: seq<Json>)
    requires Reads(c, j) && ReadsItems(more, js)
    ensures ReadsItems(c + [NEXT] + more, [j] + js)
  {
    forall rest ensures ReadItems(c + [NEXT] + more + rest) == Some(([j] + js, rest)) {
      var u := [NEXT] + (more + rest);
      assert c + [NEXT] + more + rest == c + u;
      assert ReadValue(c + u) == Some((j, u));
      assert u[0] == NEXT && Skip(u) == u && u[1..] == more + rest;
      assert ReadItems(more + rest) == Some((js, rest));
    }
  }

  /** A name, a colon and a value, as they stand before the mark that ends the member. */
  function MemberOf(chars: seq<Char>, c: Lexemes): Lexemes {
    [Quoted(chars), NAMED] + c
  }

  lemma MemberStarts(chars: seq<Char>, c: Lexemes, j: Json, u: Lexemes)
    requires IsString(chars) && Reads(c, j) && Closed(u)
    ensures var t := MemberOf(chars, c) + u;
      && Skip(t) == t && t != [] && t[0] == Quoted(chars)
      && Skip(t[1..]) == t[1..] && t[1..] != [] && t[1..][0] == NAMED
      && ReadValue(t[1..][1..]) == Some((j, u))
  {
    var t := MemberOf(chars, c) + u;
    assert t[0] == Quoted(chars) && t[1..] == [NAMED] + c + u && t[1..][0] == NAMED && t[1..][1..] == c + u;
    assert Skip(t) == t && Skip(t[1..]) == t[1..];
    assert ReadValue(c + u) == Some((j, u));
  }

  lemma LastMember(chars: seq<Char>, c: Lexemes, j: Json)
    requires IsString(chars) && Reads(c, j)
    ensures ReadsMembers(MemberOf(chars, c) + [CLOSE_MAP], [Member(Runes(chars), j)])
  {
    forall rest ensures ReadMembers(MemberOf(chars, c) + [CLOSE_MAP] + rest) ==
      Some(([Member(Runes(chars), j)], rest)) {
      var u := [CLOSE_MAP] + rest;
      RegroupLexemes(MemberOf(chars, c), [CLOSE_MAP], rest);
      MemberStarts(chars, c, j, u);
      assert u[0] == CLOSE_MAP && Skip(u) == u && u[1..] == rest;
    }
  }

  lemma NextMember(chars: seq<Char>, c: Lexemes, j: Json, more: Lexemes, ms: seq<Member>)
    requires IsString(chars) && Reads(c, j) && ReadsMembers(more, ms)
    ensures ReadsMembers(MemberOf(chars, c) + [NEXT] + more, [Member(Runes(chars), j)] + ms)
  {
    forall rest
      ensures ReadMembers(MemberOf(chars, c) + [NEXT] + more + rest) == Some(([Member(Runes(chars), j)] + ms, rest))
    {
      var u := [NEXT] + (more + rest);
      assert MemberOf(chars, c) + [NEXT] + more + rest == MemberOf(chars, c) + u;
      MemberStarts(chars, c, j, u);
      assert u[0] == NEXT && Skip(u) == u && u[1..] == more + rest;
      assert ReadMembers(more + rest) == Some((ms, rest));
    }
  }

  // ----- a text without its blanks

  function SqueezedLexeme(l: Lexeme): Lexemes {
    match l
    case Blank(_) => []
    case Other(_) => [l]
    case Quoted(chars) => [Quoted(Tightened(chars))]
  }

  function Squeezed(t: Lexemes): (r: Lexemes)
    ensures NoBlank(r)
  {
    if t == [] then [] else SqueezedLexeme(t[0]) + Squeezed(t[1..])
  }

  lemma {:induction false} SqueezedText(t: Lexemes)
    requires WellText(t)
    ensures SourceText(Squeezed(t)) == Compacted(t) && WellText(Squeezed(t))
  {
    if t != [] {
      SqueezedText(t[1..]);
      SourceAppend(SqueezedLexeme(t[0]), Squeezed(t[1..]));
      SourceCons(if SqueezedLexeme(t[0]) == [] then t[0] else SqueezedLexeme(t[0])[0], []);
      if t[0].Quoted? {
        TightenedText(t[0].chars);
        TightenedWell(t[0].chars);
        assert [Quoted(Tightened(t[0].chars))] + [] == [Quoted(Tightened(t[0].chars))];
      } else if t[0].Other? {
        assert [t[0]] + [] == [t[0]];
      }
    }
  }

  lemma {:induction false} SkipSqueezed(t: Lexemes)
    ensures Squeezed(Skip(t)) == Squeezed(t)
  {
    if t != [] && t[0].Blank? {
      SkipSqueezed(t[1..]);
      assert [] + Squeezed(t[1..]) == Squeezed(t[1..]);
    }
  }

  lemma NoBlankPrefix(q: Lexemes, rest: Lexemes)
    requires NoBlank(q + rest)
    ensures NoBlank(q)
  {
    assert forall i | 0 <= i < |q| :: q[i] == (q + rest)[i];
  }

  /** A mark after perhaps some blanks. */
  lemma MarkSqueezed(r: Lexemes, u: Lexemes)
    requires u == Skip(r) && u != [] && u[0].Other?
    ensures Squeezed(r) == [u[0]] + Squeezed(u[1..])
  {
    SkipSqueezed(r);
  }

  lemma {:induction false} WordSqueezed(t: Lexemes)
    ensures var n := |Word(t)|;
      && n <= |t| && (forall i | 0 <= i < n :: t[i].Other? && !IsMark(t[i]))
      && Word(t[..n]) == Word(t) && Squeezed(t) == t[..n] + Squeezed(t[n..])
  {
    if t != [] && t[0].Other? && !IsMark(t[0]) {
      var n := |Word(t[1..])|;
      WordSqueezed(t[1..]);
      var w := t[..n + 1];
      assert w[0] == t[0] && w[1..] == t[1..][..n] && t[1..][n..] == t[n + 1..];
      ConsAppend(w, Squeezed(t[n + 1..]));
    } else {
      assert t[..0] + Squeezed(t) == Squeezed(t) && t[0..] == t;
    }
  }

  // ----- reading a squeezed text

  lemma {:induction false} SqueezeValue(text: Lexemes) returns (q: Lexemes)
    requires ReadValue(text).Some?
    ensures Squeezed(text) == q + Squeezed(ReadValue(text).value.1) && Reads(q, ReadValue(text).value.0)
    decreases |text|, 1
  {
    var t := Skip(text);
    SkipSqueezed(text);
    if t[0].Quoted? {
      var chars := Tightened(t[0].chars);
      q := [Quoted(chars)];
      TightenedIsString(t[0].chars);
      TightenedReads(t[0].chars);
      QuotedReads(chars);
    } else if t[0] == OPEN_LIST {
      q := SqueezeList(t);
      assert Skip(t) == t;
    } else if t[0] == OPEN_MAP {
      q := SqueezeMap(t);
      assert Skip(t) == t;
    } else {
      var n := |Word(t)|;
      WordSqueezed(t);
      q := t[..n];
      WordReads(q, WordMeaning(Word(t)).value);
    }
  }

  lemma {:induction false} SqueezeList(t: Lexemes) returns (q: Lexemes)
    requires t != [] && t[0] == OPEN_LIST && ReadValue(t).Some?
    ensures Squeezed(t) == q + Squeezed(ReadValue(t).value.1) && Reads(q, ReadValue(t).value.0)
    decreases |t|, 0
  {
    assert Skip(t) == t;
    var u := Skip(t[1..]);
    SkipSqueezed(t[1..]);
    if u != [] && u[0] == CLOSE_LIST {
      q := [OPEN_LIST, CLOSE_LIST];
      EmptyListReads();
      assert Squeezed(t) == [OPEN_LIST] + ([CLOSE_LIST] + Squeezed(u[1..]));
      assert q == [OPEN_LIST] + [CLOSE_LIST];
      RegroupLexemes([OPEN_LIST], [CLOSE_LIST], Squeezed(u[1..]));
    } else {
      var items := SqueezeItems(u);
      var rest := Squeezed(ReadItems(u).value.1);
      q := [OPEN_LIST] + items;
      RegroupLexemes([OPEN_LIST], items, rest);
      NoBlankPrefix(items, rest);
      ListReads(items, ReadItems(u).value.0);
    }
  }

  lemma {:induction false} SqueezeMap(t: Lexemes) returns (q: Lexemes)
    requires t != [] && t[0] == OPEN_MAP && ReadValue(t).Some?
    ensures Squeezed(t) == q + Squeezed(ReadValue(t).value.1) && Reads(q, ReadValue(t).value.0)
    decreases |t|, 0
  {
    assert Skip(t) == t;
    var u := Skip(t[1..]);
    SkipSqueezed(t[1..]);
    if u != [] && u[0] == CLOSE_MAP {
      q := [OPEN_MAP, CLOSE_MAP];
      EmptyMapReads();
      assert Squeezed(t) == [OPEN_MAP] + ([CLOSE_MAP] + Squeezed(u[1..]));
      assert q == [OPEN_MAP] + [CLOSE_MAP];
      RegroupLexemes([OPEN_MAP], [CLOSE_MAP], Squeezed(u[1..]));
    } else {
      var members := SqueezeMembers(u);
      var rest := Squeezed(ReadMembers(u).value.1);
      q := [OPEN_MAP] + members;
      RegroupLexemes([OPEN_MAP], members, rest);
      NoBlankPrefix(members, rest);
      MapReads(members, ReadMembers(u).value.0);
    }
  }

  lemma Regroup4(a: Lexemes, b: Lexemes, c: Lexemes, d: Lexemes)
    ensures a + (b + (c + d)) == a + b + c + d
  {
  }

  lemma {:induction false} SqueezeItems(t: Lexemes) returns (q: Lexemes)
    requires ReadItems(t).Some?
    ensures Squeezed(t) == q + Squeezed(ReadItems(t).value.1) && ReadsItems(q, ReadItems(t).value.0)
    decreases |t|, 2
  {
    var j, r := ReadValue(t).value.0, ReadValue(t).value.1;
    var v := SqueezeValue(t);
    var u := Skip(r);
    MarkSqueezed(r, u);
    if u[0] == CLOSE_LIST {
      q := v + [CLOSE_LIST];
      RegroupLexemes(v, [CLOSE_LIST], Squeezed(u[1..]));
      LastItem(v, j);
    } else {
      var more := SqueezeItems(u[1..]);
      q := v + [NEXT] + more;
      Regroup4(v, [NEXT], more, Squeezed(ReadItems(u[1..]).value.1));
      NextItem(v, j, more, ReadItems(u[1..]).value.0);
    }
  }

  /** The name and the value of a member. */
  lemma SqueezeName(t: Lexemes, k: Lexemes, v: Lexemes, rest: Lexemes)
    requires Skip(t) != [] && Skip(t)[0].Quoted? && k == Skip(Skip(t)[1..]) && k != [] && k[0] == NAMED
    requires Squeezed(k[1..]) == v + rest
    ensures Squeezed(t) == MemberOf(Tightened(Skip(t)[0].chars), v) + rest
  {
    var n := Skip(t);
    var name := [Quoted(Tightened(n[0].chars))];
    SkipSqueezed(t);
    MarkSqueezed(n[1..], k);
    Regroup4(name, [NAMED], v, rest);
    assert name + [NAMED] == [Quoted(Tightened(n[0].chars)), NAMED];
  }

  lemma {:induction false} SqueezeMembers(t: Lexemes) returns (q: Lexemes)
    requires ReadMembers(t).Some?
    ensures Squeezed(t) == q + Squeezed(ReadMembers(t).value.1) && ReadsMembers(q, ReadMembers(t).value.0)
    decreases |t|, 2
  {
    var n := Skip(t);
    var chars := n[0].chars;
    var k := Skip(n[1..]);
    var j, r := ReadValue(k[1..]).value.0, ReadValue(k[1..]).value.1;
    var v := SqueezeValue(k[1..]);
    SqueezeName(t, k, v, Squeezed(r));
    TightenedIsString(chars);
    TightenedReads(chars);
    var name, u := MemberOf(Tightened(chars), v), Skip(r);
    MarkSqueezed(r, u);
    if u[0] == CLOSE_MAP {
      q := name + [CLOSE_MAP];
      RegroupLexemes(name, [CLOSE_MAP], Squeezed(u[1..]));
      LastMember(Tightened(chars), v, j);
    } else {
      var more := SqueezeMembers(u[1..]);
      q := name + [NEXT] + more;
      Regroup4(name, [NEXT], more, Squeezed(ReadMembers(u[1..]).value.1));
      NextMember(Tightened(chars), v, j, more, ReadMembers(u[1..]).value.0);
    }
  }

  /** The squeezed lexemes of a JSON text read as what the text says, wherever a value may stand. */
  lemma JsonSqueezes(s: Bytes)
    requires IsJson(s)
    ensures Read(s).Some? && Reads(Squeezed(Lex(s).value), Read(s).value)
  {
    JsonIsRead(s);
    var t := Lex(s).value;
    ValueIsRead(t, MAX_NESTING);
    var rest := ReadValue(t).value.1;
    var q := SqueezeValue(t);
    SkipSqueezed(rest);
    assert q + [] == q;
  }

  /** Compaction preserves what a JSON text says. */
  lemma CompactionPreserves(s: Bytes)
    requires IsJson(s)
    ensures Read(CompactJson(s)) == Read(s)
  {
    JsonSqueezes(s);
    var q := Squeezed(Lex(s).value);
    SqueezedText(Lex(s).value);
    LexOf(q);
    assert q + [] == q;
    assert ReadValue(q + []) == Some((Read(s).value, []));
  }
}
