/** The value tree of the API: reading, writing and comparing. */
module ApiValue {
  import opened Common

  datatype ValueType = Absent | Text | Boolean | Integer | Number | Mapping | Sequence

  datatype Field = Field(name: string, value: Value)

  datatype Value = Value(kind: ValueType, text: string, flag: bool, fields: seq<Field>, items: seq<Value>)

  const NOTHING := Value(Absent, "", false, [], [])

  function StringValue(s: string): Value { Value(Text, s, false, [], []) }

  function BoolValue(b: bool): Value { Value(Boolean, "", b, [], []) }

  function MapValue(fields: seq<Field>): Value { Value(Mapping, "", false, fields, []) }

  function ListValue(items: seq<Value>): Value { Value(Sequence, "", false, [], items) }

  predicate Present(v: Value) {
    v.kind != Absent
  }

  // ----- reading

  /** The first field of a name, or nothing. */
  function Find(fields: seq<Field>, name: string): Value {
    if fields == [] then NOTHING
    else if fields[0].name == name then fields[0].value
    else Find(fields[1..], name)
  }

  function At(v: Value, name: string): Value {
    Find(v.fields, name)
  }

  predicate Has(v: Value, name: string) {
    Present(At(v, name))
  }

  function PathValue(v: Value, path: seq<string>): Value
    decreases |path|
  {
    if path == [] then v else PathValue(At(v, path[0]), path[1..])
  }

  /** Get as the source writes it: a loop that walks down one name at a time. */
  method Get(v: Value, path: seq<string>) returns (found: Value)
    ensures found == PathValue(v, path)
  {
    found := v;
    var i := 0;
    assert path[0..] == path;
    while i < |path|
      invariant i <= |path| && PathValue(found, path[i..]) == PathValue(v, path)
    {
      assert path[i..][1..] == path[i + 1..];
      found := At(found, path[i]);
      i := i + 1;
    }
  }

  // ----- writing

  function Put(fields: seq<Field>, name: string, value: Value): seq<Field> {
    if fields == [] then [Field(name, value)]
    else if fields[0].name == name then [Field(name, value)] + fields[1..]
    else [fields[0]] + Put(fields[1..], name, value)
  }

  function With(v: Value, name: string, value: Value): Value {
    MapValue(Put(v.fields, name, value))
  }

  lemma {:induction false} PutFound(fields: seq<Field>, i: nat, name: string, value: Value)
    requires i < |fields| && fields[i].name == name && forall k | 0 <= k < i :: fields[k].name != name
    ensures Put(fields, name, value) == fields[i := Field(name, value)]
  {
    if i > 0 { PutFound(fields[1..], i - 1, name, value); }
  }

  lemma {:induction false} PutMissing(fields: seq<Field>, name: string, value: Value)
    requires forall k | 0 <= k < |fields| :: fields[k].name != name
    ensures Put(fields, name, value) == fields + [Field(name, value)]
  {
    if fields != [] { PutMissing(fields[1..], name, value); }
  }

  /** With as the source writes it: the first field of the name is replaced in a copy, or a new one appended. */
  method WithField(v: Value, name: string, value: Value) returns (r: Value)
    ensures r == With(v, name, value)
  {
    var fields := v.fields;
    for i := 0 to |fields|
      invariant forall k | 0 <= k < i :: fields[k].name != name
    {
      if fields[i].name == name {
        PutFound(fields, i, name, value);
        return MapValue(fields[i := Field(name, value)]);
      }
    }
    PutMissing(fields, name, value);
    r := MapValue(fields + [Field(name, value)]);
  }

  function WithPath(v: Value, value: Value, path: seq<string>): Value
    decreases |path|
  {
    if path == [] then value else With(v, path[0], WithPath(At(v, path[0]), value, path[1..]))
  }

  function Default(v: Value, name: string, value: Value): Value {
    if Has(v, name) then v else With(v, name, value)
  }

  lemma FindPut(fields: seq<Field>, name: string, value: Value, other: string)
    ensures Find(Put(fields, name, value), other) == if other == name then value else Find(fields, other)
  {
  }

  lemma AtWith(v: Value, name: string, value: Value, other: string)
    ensures At(With(v, name, value), other) == if other == name then value else At(v, other)
  {
    FindPut(v.fields, name, value, other);
  }

  lemma AtDefault(v: Value, name: string, value: Value, other: string)
    ensures At(Default(v, name, value), other) == if other == name && !Has(v, name) then value else At(v, other)
  {
    AtWith(v, name, value, other);
  }

  /** What was written at a path is read there. */
  lemma {:induction false} WrittenIsRead(v: Value, value: Value, path: seq<string>)
    ensures PathValue(WithPath(v, value, path), path) == value
    decreases |path|
  {
    if path != [] {
      AtWith(v, path[0], WithPath(At(v, path[0]), value, path[1..]), path[0]);
      WrittenIsRead(At(v, path[0]), value, path[1..]);
    }
  }

  /** Two paths part where they first name different fields. */
  predicate Parts(p: seq<string>, q: seq<string>)
    decreases |p|
  {
    p != [] && q != [] && (p[0] != q[0] || Parts(p[1..], q[1..]))
  }

  /** A write changes nothing off its path, at any depth. */
  lemma {:induction false} WriteIsLocal(v: Value, value: Value, path: seq<string>, other: seq<string>)
    requires Parts(path, other)
    ensures PathValue(WithPath(v, value, path), other) == PathValue(v, other)
    decreases |path|
  {
    AtWith(v, path[0], WithPath(At(v, path[0]), value, path[1..]), other[0]);
    if path[0] == other[0] {
      WriteIsLocal(At(v, path[0]), value, path[1..], other[1..]);
    }
  }

  // ----- comparing

  predicate Equal(v: Value, w: Value) {
    && v.kind == w.kind && v.text == w.text && v.flag == w.flag
    && |v.fields| == |w.fields| && |v.items| == |w.items|
    && (forall i | 0 <= i < |v.fields| :: Equal(v.fields[i].value, At(w, v.fields[i].name)))
    && (forall i | 0 <= i < |v.items| :: Equal(v.items[i], w.items[i]))
  }

  /** A value with its fields unordered. */
  datatype Tree = Tree(kind: ValueType, text: string, flag: bool, fields: map<string, Tree>, items: seq<Tree>)

  function Meaning(v: Value): Tree {
    Tree(v.kind, v.text, v.flag, FieldsMeaning(v.fields), ItemsMeaning(v.items))
  }

  function FieldsMeaning(fields: seq<Field>): map<string, Tree> {
    if fields == [] then map[] else FieldsMeaning(fields[1..])[fields[0].name := Meaning(fields[0].value)]
  }

  function ItemsMeaning(items: seq<Value>): (r: seq<Tree>)
    ensures |r| == |items| && forall i | 0 <= i < |r| :: r[i] == Meaning(items[i])
  {
    if items == [] then [] else [Meaning(items[0])] + ItemsMeaning(items[1..])
  }

  function FieldNames(fields: seq<Field>): (r: set<string>)
    ensures r == FieldsMeaning(fields).Keys
    ensures forall i | 0 <= i < |fields| :: fields[i].name in r
  {
    if fields == [] then {} else {fields[0].name} + FieldNames(fields[1..])
  }

  predicate DistinctNames(fields: seq<Field>) {
    fields == [] || (fields[0].name !in FieldNames(fields[1..]) && DistinctNames(fields[1..]))
  }

  /** No name repeats and no field is absent, here and below. */
  predicate Tidy(v: Value) {
    && DistinctNames(v.fields)
    && (forall i | 0 <= i < |v.fields| :: Present(v.fields[i].value) && Tidy(v.fields[i].value))
    && (forall i | 0 <= i < |v.items| :: Tidy(v.items[i]))
  }

  lemma {:induction false} NamesCount(fields: seq<Field>)
    requires DistinctNames(fields)
    ensures |FieldNames(fields)| == |fields|
  {
    if fields != [] { NamesCount(fields[1..]); }
  }

  lemma {:induction false} FindMeaning(fields: seq<Field>, name: string)
    ensures name in FieldNames(fields) ==> FieldsMeaning(fields)[name] == Meaning(Find(fields, name))
    ensures name in FieldNames(fields) ==>
      exists i :: 0 <= i < |fields| && fields[i].name == name && fields[i].value == Find(fields, name)
    ensures name !in FieldNames(fields) ==> Find(fields, name) == NOTHING
  {
    if fields != [] {
      FindMeaning(fields[1..], name);
      if fields[0].name == name {
        assert fields[0].value == Find(fields, name);
      } else if name in FieldNames(fields) {
        var i :| 0 <= i < |fields[1..]| && fields[1..][i].name == name
          && fields[1..][i].value == Find(fields[1..], name);
        assert fields[i + 1].name == name && fields[i + 1].value == Find(fields, name);
      }
    }
  }

  lemma {:induction false} FindOwn(fields: seq<Field>, i: nat)
    requires DistinctNames(fields) && i < |fields|
    ensures Find(fields, fields[i].name) == fields[i].value
  {
    if i > 0 {
      FindOwn(fields[1..], i - 1);
      assert fields[1..][i - 1] == fields[i] && fields[1..][i - 1].name in FieldNames(fields[1..]);
    }
  }

  // ----- equality is equality of meanings

  lemma FieldsEqualMean(v: Value, w: Value)
    requires Tidy(v) && Tidy(w) && |v.fields| == |w.fields|
    requires forall i | 0 <= i < |v.fields| ::
      Present(At(w, v.fields[i].name)) && Meaning(v.fields[i].value) == Meaning(At(w, v.fields[i].name))
    ensures FieldsMeaning(v.fields) == FieldsMeaning(w.fields)
  {
    var a, b := FieldsMeaning(v.fields), FieldsMeaning(w.fields);
    forall n | n in FieldNames(v.fields) ensures n in FieldNames(w.fields) && a[n] == b[n] {
      FindMeaning(v.fields, n);
      FindMeaning(w.fields, n);
      var i :| 0 <= i < |v.fields| && v.fields[i].name == n && v.fields[i].value == Find(v.fields, n);
      assert Present(At(w, v.fields[i].name));
    }
    NamesCount(v.fields);
    NamesCount(w.fields);
    SameSize(FieldNames(v.fields), FieldNames(w.fields));
    assert a.Keys == b.Keys;
  }

  lemma MeanFieldsEqual(v: Value, w: Value, i: nat)
    requires Tidy(v) && Tidy(w) && FieldsMeaning(v.fields) == FieldsMeaning(w.fields) && i < |v.fields|
    ensures Meaning(v.fields[i].value) == Meaning(At(w, v.fields[i].name)) && Tidy(At(w, v.fields[i].name))
  {
    var n := v.fields[i].name;
    assert n in FieldNames(v.fields) && n in FieldNames(w.fields);
    FindOwn(v.fields, i);
    FindMeaning(v.fields, n);
    FindMeaning(w.fields, n);
  }

  lemma FoundIsTidy(w: Value, name: string)
    requires Tidy(w)
    ensures Tidy(At(w, name))
  {
    FindMeaning(w.fields, name);
  }

  lemma {:induction false} EqualMeans(v: Value, w: Value)
    requires Tidy(v) && Tidy(w) && Equal(v, w)
    ensures Meaning(v) == Meaning(w)
    decreases v
  {
    forall i | 0 <= i < |v.fields| ensures Present(At(w, v.fields[i].name))
      && Meaning(v.fields[i].value) == Meaning(At(w, v.fields[i].name)) {
      FoundIsTidy(w, v.fields[i].name);
      assert Equal(v.fields[i].value, At(w, v.fields[i].name));
      EqualMeans(v.fields[i].value, At(w, v.fields[i].name));
    }
    FieldsEqualMean(v, w);
    forall i | 0 <= i < |v.items| ensures ItemsMeaning(v.items)[i] == ItemsMeaning(w.items)[i] {
      EqualMeans(v.items[i], w.items[i]);
    }
  }

  lemma {:induction false} MeansEqual(v: Value, w: Value)
    requires Tidy(v) && Tidy(w) && Meaning(v) == Meaning(w)
    ensures Equal(v, w)
    decreases v
  {
    NamesCount(v.fields);
    NamesCount(w.fields);
    forall i | 0 <= i < |v.fields| ensures Equal(v.fields[i].value, At(w, v.fields[i].name)) {
      MeanFieldsEqual(v, w, i);
      MeansEqual(v.fields[i].value, At(w, v.fields[i].name));
    }
    assert |v.items| == |w.items|;
    forall i | 0 <= i < |v.items| ensures Equal(v.items[i], w.items[i]) {
      assert ItemsMeaning(v.items)[i] == ItemsMeaning(w.items)[i];
      MeansEqual(v.items[i], w.items[i]);
    }
  }

  /** On tidy values the comparison is equality up to the order of fields. */
  lemma EqualIsMeaning(v: Value, w: Value)
    requires Tidy(v) && Tidy(w)
    ensures Equal(v, w) <==> Meaning(v) == Meaning(w)
  {
    if Equal(v, w) { EqualMeans(v, w); }
    if Meaning(v) == Meaning(w) { MeansEqual(v, w); }
  }

  /** So on tidy values it is an equivalence. */
  lemma EqualIsEquivalence(u: Value, v: Value, w: Value)
    requires Tidy(u) && Tidy(v) && Tidy(w)
    ensures Equal(v, v)
    ensures Equal(v, w) ==> Equal(w, v)
    ensures Equal(u, v) && Equal(v, w) ==> Equal(u, w)
  {
    EqualIsMeaning(v, v);
    EqualIsMeaning(v, w);
    EqualIsMeaning(w, v);
    EqualIsMeaning(u, v);
    EqualIsMeaning(u, w);
  }

  /** A repeated name breaks symmetry, so tidiness is needed. */
  lemma RepeatedNameIsNotSymmetric()
    ensures var x, y := Field("x", StringValue("1")), Field("y", StringValue("1"));
            var v, w := MapValue([x, x]), MapValue([x, y]);
            !Tidy(v) && Tidy(w) && Equal(v, w) && !Equal(w, v)
  {
    var x, y := Field("x", StringValue("1")), Field("y", StringValue("1"));
    var v, w := MapValue([x, x]), MapValue([x, y]);
    assert v.fields[1..] == [x] && w.fields[1..] == [y] && [y][1..] == [];
    assert FieldNames([x]) == {"x"} && FieldNames([y]) == {"y"};
    assert DistinctNames([y]);
    assert At(v, "y") == NOTHING by { assert Find([x], "y") == Find([x][1..], "y"); }
    assert !Equal(w.fields[1].value, At(v, w.fields[1].name));
    assert Equal(x.value, x.value);
  }
}
