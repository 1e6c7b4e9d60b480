/** Predicting the length of a JSON encoding under a limit and a depth, against an encoder. */
module JsonSize {
  import opened Common
  import opened Utf8
  import opened JsonText
  import opened JsonGrammar

  /**
   The values encoding/json may be given. Opaque is any value whose encoding is
   not predicted: a map, a float, a byte slice or a type that encodes itself;
   its kind may still say whether it is empty.
   */
  datatype Value =
    | Absent
    | Bool(b: bool)
    | Number(n: int)
    | String(s: Bytes)
    | Raw(raw: Bytes)
    | NilPointer
    | Pointer(target: Value)
    | NilInterface
    | Interface(target: Value)
    | NilSlice
    | Slice(items: seq<Value>)
    | Array(items: seq<Value>)
    | Struct(fields: seq<Field>)
    | Opaque(empty: Option<bool>)

  datatype TagOption = NoOption | OmitEmpty | OtherOption

  /** A struct field: its Go name, and what its json tag says. */
  datatype Field = Field(goName: Bytes, tagName: Bytes, option: TagOption, skipped: bool, anonymous: bool,
      exported: bool, value: Value)

  /** Whether a value is empty, where its kind says so. */
  function Emptiness(v: Value): Option<bool> {
    match v
    case Bool(b) => Some(!b)
    case Number(n) => Some(n == 0)
    case String(s) => Some(s == [])
    case Raw(raw) => Some(raw == [])
    case NilPointer => Some(true)
    case Pointer(_) => Some(false)
    case NilSlice => Some(true)
    case Slice(items) => Some(items == [])
    case Opaque(empty) => empty
    case _ => None
  }

  predicate Written(f: Field) {
    !f.skipped && !(f.option == OmitEmpty && Emptiness(f.value) == Some(true))
  }

  function Name(f: Field): Bytes {
    if f.tagName == [] then f.goName else f.tagName
  }

  // ----- the encoder

  /** The values whose encoding is predicted. */
  predicate Predictable(v: Value) {
    match v
    case Raw(raw) => IsJson(raw)
    case Pointer(target) => Predictable(target)
    case Interface(target) => Predictable(target)
    case Slice(items) => PredictableAll(items)
    case Array(items) => PredictableAll(items)
    case Struct(fields) => PredictableFields(fields)
    case Opaque(_) => false
    case _ => true
  }

  predicate PredictableAll(items: seq<Value>) {
    items == [] || (PredictableAll(items[..|items| - 1]) && Predictable(items[|items| - 1]))
  }

  predicate Plain(f: Field) {
    && !f.anonymous && f.exported
    && (f.skipped || (f.option != OtherOption && (f.option == OmitEmpty ==> Emptiness(f.value).Some?)))
  }

  predicate PredictableFields(fields: seq<Field>) {
    fields == [] ||
    (PredictableFields(fields[..|fields| - 1]) &&
     var f := fields[|fields| - 1]; Plain(f) && (Written(f) ==> Predictable(f.value)))
  }

  function Encode(v: Value): Bytes
    requires Predictable(v)
  {
    match v
    case Bool(b) => if b then TRUE else FALSE
    case Number(n) => Decimal(n)
    case String(s) => StringText(s)
    case Raw(raw) => CompactJson(raw)
    case Pointer(target) => Encode(target)
    case Interface(target) => Encode(target)
    case Slice(items) => [0x5B] + EncodeAll(items) + [0x5D]
    case Array(items) => [0x5B] + EncodeAll(items) + [0x5D]
    case Struct(fields) => [0x7B] + EncodeFields(fields) + [0x7D]
    case _ => NULL
  }

  function EncodeAll(items: seq<Value>): Bytes
    requires PredictableAll(items)
  {
    if items == [] then []
    else EncodeAll(items[..|items| - 1]) + (if |items| > 1 then [COMMA] else []) + Encode(items[|items| - 1])
  }

  function EncodeFields(fields: seq<Field>): Bytes
    requires PredictableFields(fields)
  {
    if fields == [] then []
    else
      var front, f := fields[..|fields| - 1], fields[|fields| - 1];
      EncodeFields(front) +
      (if !Written(f) then []
       else (if WrittenCount(front) > 0 then [COMMA] else []) + StringText(Name(f)) + [COLON] + Encode(f.value))
  }

  function WrittenCount(fields: seq<Field>): nat {
    if fields == [] then 0 else WrittenCount(fields[..|fields| - 1]) + (if Written(fields[|fields| - 1]) then 1 else 0)
  }

  // ----- nesting

  function Max(a: nat, b: nat): nat {
    if a > b then a else b
  }

  /** How deep the values written below this one nest. */
  function Nesting(v: Value): nat {
    match v
    case Pointer(target) => Nesting(target)
    case Interface(target) => Nesting(target)
    case Slice(items) => NestingAll(items)
    case Array(items) => NestingAll(items)
    case Struct(fields) => NestingFields(fields)
    case _ => 0
  }

  function NestingAll(items: seq<Value>): nat {
    if items == [] then 0 else Max(NestingAll(items[..|items| - 1]), 1 + Nesting(items[|items| - 1]))
  }

  function NestingFields(fields: seq<Field>): nat {
    if fields == [] then 0
    else
      var f := fields[|fields| - 1];
      Max(NestingFields(fields[..|fields| - 1]), if Written(f) then 1 + Nesting(f.value) else 0)
  }

  // ----- the predictor

  /** A value fits when it is predictable, nests no deeper than allowed and encodes within what is left. */
  ghost predicate Fits(v: Value, at: nat, depth: int, room: int) {
    at + Nesting(v) <= depth && Predictable(v) && |Encode(v)| <= room
  }

  ghost predicate FitsAll(items: seq<Value>, at: nat, depth: int, room: int) {
    at + NestingAll(items) <= depth && PredictableAll(items) && |EncodeAll(items)| <= room
  }

  ghost predicate FitsFields(fields: seq<Field>, at: nat, depth: int, room: int) {
    at + NestingFields(fields) <= depth && PredictableFields(fields) && |EncodeFields(fields)| <= room
  }

  lemma FitsSnoc(items: seq<Value>, k: nat, at: nat, depth: int, room: int)
    requires k < |items|
    ensures FitsAll(items[..k + 1], at, depth, room) <==>
            && FitsAll(items[..k], at, depth, room)
            && Fits(items[k], at + 1, depth, room - |EncodeAll(items[..k])| - (if k > 0 then 1 else 0))
    ensures FitsAll(items[..k + 1], at, depth, room) ==>
            |EncodeAll(items[..k + 1])| == |EncodeAll(items[..k])| + (if k > 0 then 1 else 0) + |Encode(items[k])|
  {
    assert items[..k + 1][..k] == items[..k] && items[..k + 1][k] == items[k];
  }

  /** What a prefix refuses the whole refuses. */
  lemma {:induction false} FitsPrefix(items: seq<Value>, k: nat, at: nat, depth: int, room: int)
    requires k <= |items| && FitsAll(items, at, depth, room)
    ensures FitsAll(items[..k], at, depth, room)
  {
    if k < |items| {
      var n := |items| - 1;
      assert items[..n + 1] == items;
      FitsSnoc(items, n, at, depth, room);
      FitsPrefix(items[..n], k, at, depth, room);
      assert items[..n][..k] == items[..k];
    } else {
      assert items[..k] == items;
    }
  }

  /** What one field costs beside its value. */
  function FieldCost(f: Field, first: bool): nat {
    (if first then 0 else 1) + |StringText(Name(f))| + 1
  }

  ghost predicate FitsField(f: Field, at: nat, depth: int, room: int, first: bool) {
    Plain(f) && (Written(f) ==> Fits(f.value, at + 1, depth, room - FieldCost(f, first)))
  }

  lemma FitsFieldSnoc(fields: seq<Field>, k: nat, at: nat, depth: int, room: int)
    requires k < |fields|
    ensures var first := WrittenCount(fields[..k]) == 0;
            FitsFields(fields[..k + 1], at, depth, room) <==>
            FitsFields(fields[..k], at, depth, room)
              && FitsField(fields[k], at, depth, room - |EncodeFields(fields[..k])|, first)
    ensures FitsFields(fields[..k + 1], at, depth, room) ==>
            |EncodeFields(fields[..k + 1])| == |EncodeFields(fields[..k])| +
            (if Written(fields[k]) then FieldCost(fields[k], WrittenCount(fields[..k]) ==
              0) + |Encode(fields[k].value)| else 0)
    ensures WrittenCount(fields[..k + 1]) == WrittenCount(fields[..k]) + (if Written(fields[k]) then 1 else 0)
  {
    assert fields[..k + 1][..k] == fields[..k] && fields[..k + 1][k] == fields[k];
  }

  lemma {:induction false} FitsFieldsPrefix(fields: seq<Field>, k: nat, at: nat, depth: int, room: int)
    requires k <= |fields| && FitsFields(fields, at, depth, room)
    ensures FitsFields(fields[..k], at, depth, room)
  {
    if k < |fields| {
      var n := |fields| - 1;
      assert fields[..n + 1] == fields;
      FitsFieldSnoc(fields, n, at, depth, room);
      FitsFieldsPrefix(fields[..n], k, at, depth, room);
      assert fields[..n][..k] == fields[..k];
    } else {
      assert fields[..k] == fields;
    }
  }

  /** One turn of the string loop: what the first rune or byte costs, and its width. */
  method RuneCost(s: Bytes) returns (cost: nat, width: nat)
    requires s != []
    ensures cost == |StringRune(s)| && width == Decode(s).width
  {
    var c := s[0] as int;
    if c < 0x80 {
      cost := if HasShort(c) then 2 else if c < 0x20 || Html(c) then 6 else 1;
      return cost, 1;
    }
    var d := Decode(s);
    cost := if (d.rune == RUNE_ERROR && d.width == 1) || d.rune == 0x2028 || d.rune == 0x2029 then 6 else d.width;
    width := d.width;
  }

  class Predictor {
    const limit: int
    const depth: int
    var count: int

    predicate Valid()
      reads this
    {
      0 <= count <= limit
    }

    constructor (limit: int, depth: int)
      requires limit >= 0
      ensures Valid() && count == 0 && this.limit == limit && this.depth == depth
    {
      this.limit, this.depth, this.count := limit, depth, 0;
    }

    method Add(n: int) returns (ok: bool)
      requires Valid() && n >= 0
      modifies this
      ensures Valid()
      ensures ok <==> old(count) + n <= limit
      ensures count == if ok then old(count) + n else old(count)
    {
      if n < 0 || n > limit - count {
        return false;
      }
      count := count + n;
      ok := true;
    }

    method Str(value: Bytes) returns (ok: bool)
      requires Valid()
      modifies this
      ensures Valid()
      ensures ok <==> old(count) + |StringText(value)| <= limit
      ensures ok ==> count == old(count) + |StringText(value)|
    {
      if |value| > limit - count {
        return false;
      }
      var size := 2;
      var index := 0;
      assert value[0..] == value;
      while index < |value|
        invariant index <= |value| && count == old(count) && size >= 2
        invariant size + |StringBody(value[index..])| == |StringText(value)|
      {
        var rest := value[index..];
        var cost, width := RuneCost(rest);
        assert rest[width..] == value[index + width..];
        size, index := size + cost, index + width;
      }
      ok := Add(size);
    }

    method RawValue(raw: Bytes) returns (ok: bool)
      requires Valid()
      modifies this
      ensures Valid()
      ensures ok <==> IsJson(raw) && old(count) + |CompactJson(raw)| <= limit
      ensures ok ==> count == old(count) + |CompactJson(raw)|
    {
      if !IsJson(raw) {
        return false;
      }
      JsonCounts(raw);
      ok := CountRaw(raw);
    }

    /** The automaton over the bytes of a raw value. */
    method CountRaw(raw: Bytes) returns (ok: bool)
      requires Valid()
      modifies this
      ensures Valid()
      ensures ok <==> old(count) + RawCount(OUTSIDE, raw) <= limit
      ensures ok ==> count == old(count) + RawCount(OUTSIDE, raw)
    {
      var mode := OUTSIDE;
      var index := 0;
      assert raw[0..] == raw;
      while index < |raw|
        invariant index <= |raw| && Valid()
        invariant count + RawCount(mode, raw[index..]) == old(count) + RawCount(OUTSIDE, raw)
      {
        var rest := raw[index..];
        var sized := Counted(mode, rest);
        assert rest[sized.1..] == raw[index + sized.1..];
        ok := Add(sized.0);
        if !ok {
          return;
        }
        mode := Moved(mode, raw[index]);
        index := index + sized.1;
      }
      ok := true;
    }

    /** Succeeds exactly when the value fits, and then counts exactly its encoding. */
    method Predict(v: Value, at: nat) returns (ok: bool)
      requires Valid()
      modifies this
      ensures Valid()
      ensures ok <==> Fits(v, at, depth, limit - old(count))
      ensures ok ==> count == old(count) + |Encode(v)|
      decreases v, 3
    {
      if at > depth {
        return false;
      }
      match v {
        case Absent => ok := Add(4);
        case NilPointer => ok := Add(4);
        case NilInterface => ok := Add(4);
        case NilSlice => ok := Add(4);
        case Bool(b) => ok := Add(if b then 4 else 5);
        case Number(n) => ok := Add(|Decimal(n)|);
        case String(s) => ok := Str(s);
        case Raw(raw) => ok := RawValue(raw);
        case Opaque(_) => ok := false;
        case Pointer(target) => ok := Predict(target, at);
        case Interface(target) => ok := Predict(target, at);
        case Slice(items) => ok := Sequence(items, at, v);
        case Array(items) => ok := Sequence(items, at, v);
        case Struct(fields) => ok := Structure(fields, at, v);
      }
    }

    method Sequence(items: seq<Value>, at: nat, ghost v: Value) returns (ok: bool)
      requires Valid() && at <= depth && (v == Slice(items) || v == Array(items))
      modifies this
      ensures Valid()
      ensures ok <==> FitsAll(items, at, depth, limit - old(count) - 2)
      ensures ok ==> count == old(count) + 2 + |EncodeAll(items)|
      decreases v, 2
    {
      ok := Add(2);
      if !ok {
        return;
      }
      var index := 0;
      while index < |items|
        invariant index <= |items| && Valid()
        invariant FitsAll(items[..index], at, depth, limit - old(count) - 2)
        invariant count == old(count) + 2 + |EncodeAll(items[..index])|
        invariant ok
      {
        FitsSnoc(items, index, at, depth, limit - old(count) - 2);
        if index > 0 {
          ok := Add(1);
        }
        if ok {
          ok := Predict(items[index], at + 1);
        }
        index := index + 1;
        if !ok {
          if FitsAll(items, at, depth, limit - old(count) - 2) {
            FitsPrefix(items, index, at, depth, limit - old(count) - 2);
          }
          return;
        }
      }
      assert items[..|items|] == items;
    }

    method Structure(fields: seq<Field>, at: nat, ghost v: Value) returns (ok: bool)
      requires Valid() && at <= depth && v == Struct(fields)
      modifies this
      ensures Valid()
      ensures ok <==> FitsFields(fields, at, depth, limit - old(count) - 2)
      ensures ok ==> count == old(count) + 2 + |EncodeFields(fields)|
      decreases v, 2
    {
      ok := Add(2);
      if !ok {
        return;
      }
      var written, index := 0, 0;
      while index < |fields|
        invariant index <= |fields| && Valid() && ok
        invariant written == WrittenCount(fields[..index])
        invariant FitsFields(fields[..index], at, depth, limit - old(count) - 2)
        invariant count == old(count) + 2 + |EncodeFields(fields[..index])|
      {
        ghost var room := limit - old(count) - 2;
        FitsFieldSnoc(fields, index, at, depth, room);
        ok := OneField(fields[index], at, written == 0, v);
        if ok && Written(fields[index]) {
          written := written + 1;
        }
        index := index + 1;
        if !ok {
          if FitsFields(fields, at, depth, room) {
            FitsFieldsPrefix(fields, index, at, depth, room);
          }
          return;
        }
      }
      assert fields[..|fields|] == fields;
    }

    method OneField(f: Field, at: nat, first: bool, ghost v: Value) returns (ok: bool)
      requires Valid() && at <= depth && v.Struct? && f in v.fields
      modifies this
      ensures Valid()
      ensures ok <==> FitsField(f, at, depth, limit - old(count), first)
      ensures ok ==> count == old(count) + if Written(f) then FieldCost(f, first) + |Encode(f.value)| else 0
      decreases v, 1
    {
      if f.anonymous || !f.exported {
        return false;
      }
      if f.skipped {
        return true;
      }
      match f.option {
        case NoOption =>
        case OmitEmpty =>
          var empty := Emptiness(f.value);
          if empty.None? {
            return false;
          }
          if empty.value {
            return true;
          }
        case OtherOption => return false;
      }
      ok := true;
      if !first {
        ok := Add(1);
      }
      if ok {
        ok := Str(Name(f));
      }
      if ok {
        ok := Add(1);
      }
      if ok {
        ok := Predict(f.value, at + 1);
      }
    }
  }

  /** The source's entry: the exact length of the encoding, or a refusal. */
  method Size(v: Value, limit: int, depth: int) returns (n: int, ok: bool)
    ensures ok <==> limit >= 0 && depth >= Nesting(v) && Predictable(v) && |Encode(v)| <= limit
    ensures n == if ok then |Encode(v)| else 0
  {
    if limit < 0 || depth < 0 {
      return 0, false;
    }
    var p := new Predictor(limit, depth);
    ok := p.Predict(v, 0);
    n := if ok then p.count else 0;
  }
}
