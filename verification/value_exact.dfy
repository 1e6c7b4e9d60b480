/** Exactly which maps compare the same way round with every tidy value. */
module ApiValueExact {
  import opened Common
  import opened ApiValue

  ghost predicate Symmetric(v: Value) {
    forall w | Tidy(w) :: Equal(v, w) <==> Equal(w, v)
  }

  function FieldsOf(names: seq<string>, values: seq<Value>): (r: seq<Field>)
    requires |names| == |values|
    ensures |r| == |names| && forall i | 0 <= i < |r| :: r[i] == Field(names[i], values[i])
  {
    seq(|names|, i requires 0 <= i < |names| => Field(names[i], values[i]))
  }

  lemma {:induction false} DistinctFields(fields: seq<Field>)
    requires forall i, j | 0 <= i < j < |fields| :: fields[i].name != fields[j].name
    ensures DistinctNames(fields)
  {
    if fields != [] {
      DistinctFields(fields[1..]);
      FindMeaning(fields[1..], fields[0].name);
    }
  }

  lemma TidyMap(names: seq<string>, values: seq<Value>)
    requires Distinct(names) && |values| == |names| && AllTidy(values)
    ensures Tidy(MapValue(FieldsOf(names, values)))
  {
    DistinctFields(FieldsOf(names, values));
  }

  lemma TidyIsSymmetric(v: Value)
    requires Tidy(v)
    ensures Symmetric(v)
  {
    forall w | Tidy(w) ensures Equal(v, w) <==> Equal(w, v) {
      EqualIsMeaning(v, w);
      EqualIsMeaning(w, v);
    }
  }

  // ----- names that no map uses

  function Longest(names: seq<string>): (n: nat)
    ensures forall i | 0 <= i < |names| :: |names[i]| <= n
  {
    if names == [] then 0
    else
      var n := Longest(names[..|names| - 1]);
      if n < |names[|names| - 1]| then |names[|names| - 1]| else n
  }

  /** A name longer than all of them, another one at each place. */
  function Fresh(names: seq<string>, i: nat): (r: string)
    ensures |r| == Longest(names) + 1 + i
  {
    seq(Longest(names) + 1 + i, _ => 'x')
  }

  /** The names that are kept, and fresh ones in the place of the others. */
  function Spread(names: seq<string>, keep: seq<bool>): (r: seq<string>)
    requires |keep| == |names|
    ensures |r| == |names| && forall i | 0 <= i < |r| :: r[i] == if keep[i] then names[i] else Fresh(names, i)
  {
    seq(|names|, i requires 0 <= i < |names| => if keep[i] then names[i] else Fresh(names, i))
  }

  predicate KeepsDistinct(names: seq<string>, keep: seq<bool>)
    requires |keep| == |names|
  {
    forall i, j | 0 <= i < j < |names| && keep[i] && keep[j] :: names[i] != names[j]
  }

  const ONE := StringValue("1")

  function Ones(n: nat): (r: seq<Value>)
    ensures |r| == n && forall i | 0 <= i < n :: r[i] == ONE
  {
    seq(n, _ => ONE)
  }

  /** A map of the kept names, filled up with others. */
  function Filled(names: seq<string>, keep: seq<bool>): Value
    requires |keep| == |names|
  {
    MapValue(FieldsOf(Spread(names, keep), Ones(|names|)))
  }

  lemma FilledIsTidy(names: seq<string>, keep: seq<bool>)
    requires |keep| == |names| && KeepsDistinct(names, keep)
    ensures Tidy(Filled(names, keep))
  {
    assert Tidy(ONE);
    TidyMap(Spread(names, keep), Ones(|names|));
  }

  lemma FilledReads(names: seq<string>, keep: seq<bool>, i: nat, j: nat)
    requires |keep| == |names| && KeepsDistinct(names, keep) && i < |names|
    requires j < |names| && names[j] == names[i] && keep[j]
    ensures At(Filled(names, keep), names[i]) == ONE
  {
    FilledIsTidy(names, keep);
    FindOwn(Filled(names, keep).fields, j);
  }

  lemma FilledMisses(names: seq<string>, keep: seq<bool>, i: nat)
    requires |keep| == |names| && i < |names| && forall j | 0 <= j < |names| && keep[j] :: names[j] != names[i]
    ensures At(Filled(names, keep), names[i]) == NOTHING
  {
    FindMeaning(Filled(names, keep).fields, names[i]);
  }

  /** A fresh name is in the filled map and not in any map of the names. */
  lemma FilledIsNotFound(names: seq<string>, values: seq<Value>, keep: seq<bool>, k: nat)
    requires |keep| == |values| == |names| && k < |names| && !keep[k]
    ensures !Equal(Filled(names, keep), MapValue(FieldsOf(names, values)))
  {
    var v, w := MapValue(FieldsOf(names, values)), Filled(names, keep);
    FindMeaning(v.fields, w.fields[k].name);
    assert At(v, w.fields[k].name) == NOTHING;
    assert !Equal(w.fields[k].value, At(v, w.fields[k].name));
  }

  // ----- repeated names

  function Firsts(names: seq<string>): (r: seq<bool>)
    ensures |r| == |names| && forall i | 0 <= i < |r| :: r[i] == (names[i] !in names[..i])
  {
    seq(|names|, i requires 0 <= i < |names| => names[i] !in names[..i])
  }

  lemma {:induction false} FirstOf(names: seq<string>, i: nat) returns (j: nat)
    requires i < |names|
    ensures j <= i && names[j] == names[i] && Firsts(names)[j]
    decreases i
  {
    if names[i] in names[..i] {
      var k :| 0 <= k < i && names[..i][k] == names[i];
      j := FirstOf(names, k);
    } else {
      j := i;
    }
  }

  lemma RepeatedIsNotSymmetric(names: seq<string>, k: nat)
    requires k < |names| && !Firsts(names)[k]
    ensures !Symmetric(MapValue(FieldsOf(names, Ones(|names|))))
  {
    var keep := Firsts(names);
    var v, w := MapValue(FieldsOf(names, Ones(|names|))), Filled(names, keep);
    assert KeepsDistinct(names, keep) by {
      forall i, j | 0 <= i < j < |names| && keep[i] && keep[j] ensures names[i] != names[j] {
        assert names[..j][i] == names[i];
      }
    }
    FilledIsTidy(names, keep);
    forall i | 0 <= i < |names| ensures Equal(v.fields[i].value, At(w, v.fields[i].name)) {
      var j := FirstOf(names, i);
      FilledReads(names, keep, i, j);
    }
    assert Equal(v, w);
    FilledIsNotFound(names, Ones(|names|), keep, k);
  }

  predicate AllTidy(values: seq<Value>) {
    forall i | 0 <= i < |values| :: Present(values[i]) && Tidy(values[i])
  }

  /**
   Maps of these names compare the same way round with every tidy value, whatever
   tidy values they hold, if and only if no name repeats.
   */
  lemma SymmetricExactly(names: seq<string>)
    ensures Distinct(names) <==>
      forall values: seq<Value> | |values| == |names| && AllTidy(values) :: Symmetric(MapValue(FieldsOf(names, values)))
  {
    if Distinct(names) {
      forall values: seq<Value> | |values| == |names|
        && AllTidy(values) ensures Symmetric(MapValue(FieldsOf(names, values))) {
        TidyMap(names, values);
        TidyIsSymmetric(MapValue(FieldsOf(names, values)));
      }
    } else {
      var i, k :| 0 <= i < k < |names| && names[i] == names[k];
      assert names[..k][i] == names[k];
      RepeatedIsNotSymmetric(names, k);
      assert Tidy(ONE) && AllTidy(Ones(|names|));
    }
  }

  // ----- absent fields

  /** Tidy values where one is present, nothing elsewhere. */
  predicate Fill(present: seq<bool>, values: seq<Value>) {
    && |values| == |present|
    && forall i | 0 <= i < |present| ::
      if present[i] then Present(values[i]) && Tidy(values[i]) else values[i] == NOTHING
  }

  function OnesWhere(present: seq<bool>): (r: seq<Value>)
    ensures |r| == |present| && forall i | 0 <= i < |r| :: r[i] == if present[i] then ONE else NOTHING
  {
    seq(|present|, i requires 0 <= i < |present| => if present[i] then ONE else NOTHING)
  }

  lemma AbsentIsNotSymmetric(names: seq<string>, present: seq<bool>, k: nat)
    requires Distinct(names) && |present| == |names| && k < |names| && !present[k]
    ensures !Symmetric(MapValue(FieldsOf(names, OnesWhere(present))))
  {
    var v, w := MapValue(FieldsOf(names, OnesWhere(present))), Filled(names, present);
    FilledIsTidy(names, present);
    forall i | 0 <= i < |names| ensures Equal(v.fields[i].value, At(w, v.fields[i].name)) {
      if present[i] {
        FilledReads(names, present, i, i);
      } else {
        FilledMisses(names, present, i);
      }
    }
    assert Equal(v, w);
    FilledIsNotFound(names, OnesWhere(present), present, k);
  }

  /** With distinct names, maps are so compared if and only if no field is absent. */
  lemma PresentExactly(names: seq<string>, present: seq<bool>)
    requires Distinct(names) && |present| == |names|
    ensures (forall i | 0 <= i < |present| :: present[i]) <==>
      forall values: seq<Value> | Fill(present, values) :: Symmetric(MapValue(FieldsOf(names, values)))
  {
    if forall i | 0 <= i < |present| :: present[i] {
      forall values: seq<Value> | Fill(present, values) ensures Symmetric(MapValue(FieldsOf(names, values))) {
        TidyMap(names, values);
        TidyIsSymmetric(MapValue(FieldsOf(names, values)));
      }
    } else {
      var k :| 0 <= k < |present| && !present[k];
      AbsentIsNotSymmetric(names, present, k);
      assert Tidy(ONE) && Fill(present, OnesWhere(present));
    }
  }
}
