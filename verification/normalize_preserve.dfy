/** What add-on normalization keeps of what was authored, and exactly when it keeps all of it. */
module AddonPreserve {
  import opened Common
  import opened ApiValue
  import opened StableSort
  import opened AddonNormalize

  // ----- the law

  /** Where in the spec a value stands, as far as normalization treats it differently. */
  datatype Place = InSpec | InOperator | InCatalog | InImage | InSteps | InStep | InShuffled | Elsewhere

  function Child(at: Place, name: string): Place {
    match at
    case InSpec =>
      if name == "provides" || name == "requires" || name == "inputs" then InShuffled
      else if name == "olm" then InOperator
      else if name == "steps" then InSteps
      else Elsewhere
    case InOperator => if name == "catalogSource" then InCatalog else Elsewhere
    case InCatalog => if name == "image" then InImage else Elsewhere
    case InStep => if name == "secretRefs" then InShuffled else Elsewhere
    case _ => Elsewhere
  }

  function Item(at: Place): Place {
    if at == InSteps then InStep else Elsewhere
  }

  /**
   Nothing authored is lost or changed: the same type, text and flag but for the
   case of the catalog image's digest; every field that has a value still there
   and its value preserved, with room for defaults behind them; and every item
   preserved, in its place or, in the lists that are sorted, in another.
   */
  ghost predicate Preserves(lower: Lower, at: Place, v: Value, w: Value)
    decreases v, 1
  {
    && w.kind == v.kind && w.flag == v.flag
    && (w.text == v.text || (at == InImage && w.text == CanonicalImage(lower, v.text)))
    && |v.fields| <= |w.fields|
    && (forall i | 0 <= i < |v.fields| ::
          && w.fields[i].name == v.fields[i].name
          && (Present(v.fields[i].value) ==>
                Preserves(lower, Child(at, v.fields[i].name), v.fields[i].value, w.fields[i].value)))
    && if at == InShuffled then exists mid {:trigger Reordered(mid, w.items)} ::
           Reordered(mid, w.items) && ItemsPreserved(lower, at, v, mid)
       else ItemsPreserved(lower, at, v, w.items)
  }

  predicate Reordered(a: seq<Value>, b: seq<Value>) {
    multiset(a) == multiset(b)
  }

  ghost predicate ItemsPreserved(lower: Lower, at: Place, v: Value, items: seq<Value>)
    decreases v, 0
  {
    |items| == |v.items| && forall i | 0 <= i < |v.items| :: Preserves(lower, Item(at), v.items[i], items[i])
  }

  lemma {:induction false} Self(lower: Lower, at: Place, v: Value)
    ensures Preserves(lower, at, v, v)
    decreases v
  {
    forall i | 0 <= i < |v.fields|
      ensures Preserves(lower, Child(at, v.fields[i].name), v.fields[i].value, v.fields[i].value)
    {
      Self(lower, Child(at, v.fields[i].name), v.fields[i].value);
    }
    forall i | 0 <= i < |v.items| ensures Preserves(lower, Item(at), v.items[i], v.items[i]) {
      Self(lower, Item(at), v.items[i]);
    }
    assert ItemsPreserved(lower, at, v, v.items) && Reordered(v.items, v.items);
  }

  // ----- values rewritten field by field

  predicate FirstAt(fields: seq<Field>, i: nat)
    requires i < |fields|
  {
    forall j | 0 <= j < i :: fields[j].name != fields[i].name
  }

  /** The same names in the same places, more behind them, and no value changed but the first of its name. */
  predicate Grown(v: seq<Field>, w: seq<Field>) {
    && |v| <= |w|
    && forall i | 0 <= i < |v| :: w[i].name == v[i].name && (!FirstAt(v, i) ==> w[i].value == v[i].value)
  }

  lemma {:induction false} FirstIsFound(fields: seq<Field>, i: nat)
    requires i < |fields| && FirstAt(fields, i)
    ensures Find(fields, fields[i].name) == fields[i].value
  {
    if i > 0 {
      assert fields[0].name != fields[i].name;
      forall j | 0 <= j < i - 1 ensures fields[1..][j].name != fields[1..][i - 1].name {
        assert fields[j + 1].name != fields[i].name;
      }
      FirstIsFound(fields[1..], i - 1);
    }
  }

  lemma {:induction false} FoundIsFirst(fields: seq<Field>, name: string) returns (i: nat)
    requires Present(Find(fields, name))
    ensures i < |fields| && FirstAt(fields, i) && fields[i].name == name && fields[i].value == Find(fields, name)
  {
    if fields[0].name == name {
      i := 0;
    } else {
      var j := FoundIsFirst(fields[1..], name);
      i := j + 1;
      forall k | 0 <= k < i ensures fields[k].name != name {
        if k > 0 {
          assert fields[1..][k - 1].name != fields[1..][j].name;
        }
      }
    }
  }

  lemma {:induction false} PutAt(fields: seq<Field>, name: string, value: Value, i: nat)
    requires i < |fields|
    ensures |fields| <= |Put(fields, name, value)|
    ensures Put(fields, name, value)[i] ==
      if fields[i].name == name && FirstAt(fields, i) then Field(name, value) else fields[i]
  {
    if fields[0].name != name {
      if i > 0 {
        PutAt(fields[1..], name, value, i - 1);
        assert FirstAt(fields[1..], i - 1) && fields[i].name == name ==> FirstAt(fields, i) by {
          if FirstAt(fields[1..], i - 1) && fields[i].name == name {
            forall j | 0 <= j < i ensures fields[j].name != fields[i].name {
              assert j > 0 ==> fields[1..][j - 1] == fields[j];
            }
          }
        }
        assert FirstAt(fields, i) ==> FirstAt(fields[1..], i - 1) by {
          if FirstAt(fields, i) {
            forall j | 0 <= j < i - 1 ensures fields[1..][j].name != fields[1..][i - 1].name {
              assert fields[j + 1].name != fields[i].name;
            }
          }
        }
      } else if |fields| > 1 {
        PutAt(fields[1..], name, value, 0);
      }
    }
  }

  lemma PutGrows(v: seq<Field>, w: seq<Field>, name: string, value: Value)
    requires Grown(v, w)
    ensures Grown(v, Put(w, name, value))
  {
    if |v| > 0 {
      PutAt(w, name, value, 0);
    }
    forall i | 0 <= i < |v|
      ensures Put(w, name, value)[i].name == v[i].name
        && (!FirstAt(v, i) ==> Put(w, name, value)[i].value == v[i].value)
    {
      PutAt(w, name, value, i);
      if !FirstAt(v, i) {
        var j :| 0 <= j < i && v[j].name == v[i].name;
        assert w[j].name == w[i].name;
      }
    }
  }

  ghost predicate FieldsPreserved(lower: Lower, at: Place, v: Value, w: Value) {
    forall f | Has(v, f) :: Preserves(lower, Child(at, f), At(v, f), At(w, f))
  }

  /** A map written anew is preserved if and only if it was a plain map and each of its fields is. */
  lemma BuiltPreserves(lower: Lower, at: Place, v: Value, w: Value)
    requires Grown(v.fields, w.fields) && Clean(w) && at != InImage && at != InShuffled
    ensures Preserves(lower, at, v, w) <==> Clean(v) && FieldsPreserved(lower, at, v, w)
  {
    forall i | 0 <= i < |v.fields| && FirstAt(v.fields, i)
      ensures At(v, v.fields[i].name) == v.fields[i].value && At(w, v.fields[i].name) == w.fields[i].value
    {
      FirstIsFound(v.fields, i);
      assert FirstAt(w.fields, i);
      FirstIsFound(w.fields, i);
    }
    if Preserves(lower, at, v, w) {
      forall f | Has(v, f) ensures Preserves(lower, Child(at, f), At(v, f), At(w, f)) {
        var i := FoundIsFirst(v.fields, f);
        assert Present(v.fields[i].value);
      }
    }
    if Clean(v) && FieldsPreserved(lower, at, v, w) {
      forall i | 0 <= i < |v.fields| && Present(v.fields[i].value)
        ensures Preserves(lower, Child(at, v.fields[i].name), v.fields[i].value, w.fields[i].value)
      {
        if FirstAt(v.fields, i) {
          assert Has(v, v.fields[i].name);
        } else {
          Self(lower, Child(at, v.fields[i].name), v.fields[i].value);
        }
      }
      assert ItemsPreserved(lower, at, v, w.items);
    }
  }

  // ----- values that only gain defaults

  lemma KeptPreserves(lower: Lower, v: Value, w: Value)
    requires Grown(v.fields, w.fields) && Clean(w) && Keeps(v, w)
    ensures Preserves(lower, Elsewhere, v, w) <==> Clean(v)
  {
    BuiltPreserves(lower, Elsewhere, v, w);
    forall f | Has(v, f) ensures Preserves(lower, Elsewhere, At(v, f), At(w, f)) {
      Self(lower, Elsewhere, At(v, f));
    }
  }

  lemma DefaultGrows(v: Value, w: Value, name: string, value: Value)
    requires Grown(v.fields, w.fields)
    ensures Grown(v.fields, Default(w, name, value).fields)
  {
    PutGrows(v.fields, w.fields, name, value);
  }

  lemma NamespaceExactly(lower: Lower, n: Value)
    requires Present(n)
    ensures Preserves(lower, Elsewhere, n, Namespace(n)) <==> Has(n, "management") || Clean(n)
  {
    Self(lower, Elsewhere, n);
    if !Has(n, "management") {
      DefaultGrows(n, n, "management", StringValue("managed"));
      DefaultKeeps(n, "management", StringValue("managed"));
      KeptPreserves(lower, n, Namespace(n));
    }
  }

  lemma GroupExactly(lower: Lower, namespace: string, g: Value)
    requires Present(g)
    ensures Preserves(lower, Elsewhere, g, Group(namespace, g)) <==>
      namespace == "" || (Has(g, "name") && Has(g, "targetNamespaces")) || Clean(g)
  {
    Self(lower, Elsewhere, g);
    var named := Default(g, "name", StringValue(namespace));
    AtDefault(g, "name", StringValue(namespace), "targetNamespaces");
    if namespace != "" && !(Has(g, "name") && Has(g, "targetNamespaces")) {
      DefaultGrows(g, g, "name", StringValue(namespace));
      DefaultGrows(g, named, "targetNamespaces", ListValue([StringValue(namespace)]));
      GroupKeeps(namespace, g);
      KeptPreserves(lower, g, Group(namespace, g));
    }
  }

  /** The subscription has all that would be defaulted. */
  predicate Subscribed(source: string, s: Value) {
    && (At(s, "package").text == "" || Has(s, "name"))
    && (source == "" || Has(s, "source"))
    && Has(s, "sourceNamespace")
  }

  lemma SubscriptionGrows(source: string, s: Value)
    requires Present(s)
    ensures Grown(s.fields, Subscription(source, s).fields)
    ensures if Subscribed(source, s) then Subscription(source, s) == s else Clean(Subscription(source, s))
  {
    var package := At(s, "package").text;
    var named := if package != "" then Default(s, "name", StringValue(package)) else s;
    var sourced := if source != "" then Default(named, "source", StringValue(source)) else named;
    DefaultGrows(s, s, "name", StringValue(package));
    DefaultGrows(s, named, "source", StringValue(source));
    DefaultGrows(s, sourced, "sourceNamespace", StringValue("openshift-marketplace"));
    AtDefault(s, "name", StringValue(package), "source");
    AtDefault(s, "name", StringValue(package), "sourceNamespace");
    AtDefault(named, "source", StringValue(source), "sourceNamespace");
  }

  lemma SubscriptionExactly(lower: Lower, source: string, s: Value)
    requires Present(s)
    ensures Preserves(lower, Elsewhere, s, Subscription(source, s)) <==> Subscribed(source, s) || Clean(s)
  {
    SubscriptionGrows(source, s);
    if Subscribed(source, s) {
      Self(lower, Elsewhere, s);
    } else {
      SubscriptionKeeps(source, s);
      KeptPreserves(lower, s, Subscription(source, s));
    }
  }

  lemma ReadinessExactly(lower: Lower, s: Value)
    requires Has(s, "readiness")
    ensures var r := At(s, "readiness");
      Preserves(lower, Elsewhere, r, Readiness(s)) <==> (Has(r, "timeout") && Has(r, "checks")) || Clean(r)
  {
    var r := At(s, "readiness");
    Self(lower, Elsewhere, r);
    var timed := Default(r, "timeout", StringValue("30m"));
    AtDefault(r, "timeout", StringValue("30m"), "checks");
    if !(Has(r, "timeout") && Has(r, "checks")) {
      DefaultGrows(r, r, "timeout", StringValue("30m"));
      PutGrows(r.fields, timed.fields, "checks", Checks(s));
      ReadinessKeeps(s);
      KeptPreserves(lower, r, Readiness(s));
    }
  }

  // ----- the operator section

  predicate PlainText(v: Value) {
    v == StringValue(v.text)
  }

  lemma ImageExactly(lower: Lower, v: Value)
    ensures Preserves(lower, InImage, v, StringValue(CanonicalImage(lower, v.text))) <==> PlainText(v)
  {
    var w := StringValue(CanonicalImage(lower, v.text));
    if PlainText(v) {
      assert ItemsPreserved(lower, InImage, v, w.items);
    }
  }

  predicate CatalogShaped(c: Value) {
    && (Has(c, "image") ==> PlainText(At(c, "image")))
    && ((!Has(c, "image") && Has(c, "securityContextConfig")) || Clean(c))
  }

  lemma CatalogFieldExactly(lower: Lower, c: Value, f: string)
    requires Has(c, f)
    ensures Preserves(lower, Child(InCatalog, f), At(c, f), At(Catalog(lower, c), f)) <==>
      (f == "image" ==> PlainText(At(c, f)))
  {
    CatalogKeeps(lower, c);
    if f == "image" {
      ImageExactly(lower, At(c, f));
    } else {
      Self(lower, Elsewhere, At(c, f));
    }
  }

  lemma CatalogFieldsExactly(lower: Lower, c: Value)
    ensures FieldsPreserved(lower, InCatalog, c, Catalog(lower, c)) <==> (Has(c, "image") ==> PlainText(At(c, "image")))
  {
    forall f | Has(c, f)
      ensures Preserves(lower, Child(InCatalog, f), At(c, f), At(Catalog(lower, c), f)) <==>
        (f == "image" ==> PlainText(At(c, f)))
    {
      CatalogFieldExactly(lower, c, f);
    }
  }

  lemma CatalogGrows(lower: Lower, c: Value)
    requires Has(c, "image") || !Has(c, "securityContextConfig")
    ensures Grown(c.fields, Catalog(lower, c).fields) && (Present(c) ==> Clean(Catalog(lower, c)))
  {
    var image := Image(lower, c);
    PutGrows(c.fields, c.fields, "image", StringValue(CanonicalImage(lower, At(c, "image").text)));
    DefaultGrows(c, image, "securityContextConfig", StringValue("restricted"));
  }

  lemma CatalogExactly(lower: Lower, c: Value)
    requires Present(c)
    ensures Preserves(lower, InCatalog, c, Catalog(lower, c)) <==> CatalogShaped(c)
  {
    if Has(c, "image") || !Has(c, "securityContextConfig") {
      CatalogGrows(lower, c);
      BuiltPreserves(lower, InCatalog, c, Catalog(lower, c));
      CatalogFieldsExactly(lower, c);
    } else {
      Self(lower, InCatalog, c);
    }
  }

  lemma SetGrows(v: Value, w: Value, applies: bool, name: string, value: Value)
    requires Grown(v.fields, w.fields)
    ensures Grown(v.fields, Set(w, applies, name, value).fields)
  {
    PutGrows(v.fields, w.fields, name, value);
  }

  lemma OlmGrows(lower: Lower, o: Value)
    ensures Grown(o.fields, OlmFields(lower, o).fields)
  {
    var c, n, g, s := At(o, "catalogSource"), At(o, "namespace"), At(o, "operatorGroup"), At(o, "subscription");
    var namespace, source := At(n, "name").text, At(c, "name").text;
    var a := Set(o, Present(Image(lower, c)), "catalogSource", Catalog(lower, c));
    var b := Set(a, Present(n), "namespace", Namespace(n));
    var d := Set(b, Present(g) && namespace != "", "operatorGroup", Group(namespace, g));
    SetGrows(o, o, Present(Image(lower, c)), "catalogSource", Catalog(lower, c));
    SetGrows(o, a, Present(n), "namespace", Namespace(n));
    SetGrows(o, b, Present(g) && namespace != "", "operatorGroup", Group(namespace, g));
    SetGrows(o, d, Present(s), "subscription", Subscription(source, s));
  }

  /** Some part of the operator section is written anew. */
  predicate Rewritten(o: Value) {
    || Has(o, "catalogSource") || Has(At(o, "catalogSource"), "image") || Has(o, "namespace") || Has(o, "subscription")
    || (Has(o, "operatorGroup") && At(At(o, "namespace"), "name").text != "")
  }

  /** Each part of the operator section is a map where a default is to be set in it, and the image is a text. */
  predicate PartShaped(o: Value, f: string) {
    var v := At(o, f);
    if f == "catalogSource" then CatalogShaped(v)
    else if f == "namespace" then Has(v, "management") || Clean(v)
    else if f == "operatorGroup" then
      At(At(o, "namespace"), "name").text == "" || (Has(v, "name") && Has(v, "targetNamespaces")) || Clean(v)
    else if f == "subscription" then Subscribed(At(At(o, "catalogSource"), "name").text, v) || Clean(v)
    else true
  }

  predicate PartsShaped(o: Value) {
    && (Has(o, "catalogSource") ==> PartShaped(o, "catalogSource"))
    && (Has(o, "namespace") ==> PartShaped(o, "namespace"))
    && (Has(o, "operatorGroup") ==> PartShaped(o, "operatorGroup"))
    && (Has(o, "subscription") ==> PartShaped(o, "subscription"))
  }

  predicate OlmShaped(o: Value) {
    (Rewritten(o) ==> Clean(o)) && PartsShaped(o)
  }

  lemma PartExactly(lower: Lower, o: Value, f: string)
    requires Has(o, f)
    ensures Preserves(lower, Child(InOperator, f), At(o, f), At(OlmFields(lower, o), f)) <==> PartShaped(o, f)
  {
    OlmReads(lower, o, f);
    var v := At(o, f);
    if f == "catalogSource" {
      CatalogExactly(lower, v);
    } else if f == "namespace" {
      NamespaceExactly(lower, v);
    } else if f == "operatorGroup" {
      GroupExactly(lower, At(At(o, "namespace"), "name").text, v);
    } else if f == "subscription" {
      SubscriptionExactly(lower, At(At(o, "catalogSource"), "name").text, v);
    } else {
      Self(lower, Elsewhere, v);
    }
  }

  lemma PartNeeded(lower: Lower, o: Value, f: string)
    requires FieldsPreserved(lower, InOperator, o, OlmFields(lower, o))
    ensures Has(o, f) ==> PartShaped(o, f)
  {
    if Has(o, f) {
      assert Preserves(lower, Child(InOperator, f), At(o, f), At(OlmFields(lower, o), f));
      PartExactly(lower, o, f);
    }
  }

  lemma PartKept(lower: Lower, o: Value, f: string)
    requires PartsShaped(o) && Has(o, f)
    ensures Preserves(lower, Child(InOperator, f), At(o, f), At(OlmFields(lower, o), f))
  {
    assert PartShaped(o, f);
    PartExactly(lower, o, f);
  }

  lemma PartsExactly(lower: Lower, o: Value)
    ensures FieldsPreserved(lower, InOperator, o, OlmFields(lower, o)) <==> PartsShaped(o)
  {
    if FieldsPreserved(lower, InOperator, o, OlmFields(lower, o)) {
      PartNeeded(lower, o, "catalogSource");
      PartNeeded(lower, o, "namespace");
      PartNeeded(lower, o, "operatorGroup");
      PartNeeded(lower, o, "subscription");
    } else if PartsShaped(o) {
      var f :| Has(o, f) && !Preserves(lower, Child(InOperator, f), At(o, f), At(OlmFields(lower, o), f));
      PartKept(lower, o, f);
    }
  }

  /** The operator section keeps all that was authored if and only if it has this shape. */
  lemma OlmExactly(lower: Lower, o: Value)
    ensures Preserves(lower, InOperator, o, Olm(lower, o)) <==> OlmShaped(o)
  {
    OlmIsFields(lower, o);
    if Rewritten(o) {
      OlmClean(lower, o);
      OlmGrows(lower, o);
      BuiltPreserves(lower, InOperator, o, OlmFields(lower, o));
      PartsExactly(lower, o);
    } else {
      assert OlmFields(lower, o) == o;
      Self(lower, InOperator, o);
    }
  }

  // ----- the lists

  /** A list and nothing else. */
  predicate PlainList(v: Value) {
    v.kind == Sequence && v.text == "" && !v.flag && v.fields == []
  }

  predicate TextList(v: Value) {
    PlainList(v) && forall i | 0 <= i < |v.items| :: PlainText(v.items[i])
  }

  lemma TextPreserved(lower: Lower, v: Value, t: string)
    ensures Preserves(lower, Elsewhere, v, StringValue(t)) <==> v == StringValue(t)
  {
    if v == StringValue(t) {
      Self(lower, Elsewhere, v);
    }
  }

  /** A list is kept in another order if and only if it is a list and its items are kept. */
  lemma ShuffledExactly(lower: Lower, v: Value, items: seq<Value>)
    ensures Preserves(lower, InShuffled, v, ListValue(items)) <==>
      PlainList(v) && exists mid {:trigger Reordered(mid, items)} ::
        Reordered(mid, items) && ItemsPreserved(lower, InShuffled, v, mid)
  {
  }

  lemma TextsPreserved(lower: Lower, v: Value, mid: seq<Value>, i: nat)
    requires Reordered(mid, Sort(ByText, Texts(v.items))) && ItemsPreserved(lower, InShuffled, v, mid) && i < |v.items|
    ensures PlainText(v.items[i])
  {
    assert mid[i] in multiset(mid) && mid[i] in multiset(Texts(v.items));
    var k :| 0 <= k < |v.items| && Texts(v.items)[k] == mid[i];
    TextPreserved(lower, v.items[i], v.items[k].text);
  }

  /** A sorted list of texts keeps its items if and only if all of them are texts. */
  lemma SortedStringsExactly(lower: Lower, v: Value)
    ensures Preserves(lower, InShuffled, v, SortedStrings(v)) <==> TextList(v)
  {
    var items := Sort(ByText, Texts(v.items));
    ShuffledExactly(lower, v, items);
    forall mid | Reordered(mid, items) && ItemsPreserved(lower, InShuffled, v, mid)
      ensures TextList(v) || !PlainList(v)
    {
      forall i | 0 <= i < |v.items| ensures PlainText(v.items[i]) {
        TextsPreserved(lower, v, mid, i);
      }
    }
    if TextList(v) {
      forall i | 0 <= i < |v.items| ensures Preserves(lower, Elsewhere, v.items[i], Texts(v.items)[i]) {
        TextPreserved(lower, v.items[i], v.items[i].text);
      }
      assert Reordered(Texts(v.items), items) && ItemsPreserved(lower, InShuffled, v, Texts(v.items));
    }
  }

  /** How many of the values are not plain maps. */
  function Odd(s: seq<Value>): nat {
    if s == [] then 0 else Odd(s[..|s| - 1]) + if Clean(s[|s| - 1]) then 0 else 1
  }

  lemma {:induction false} OddSplits(a: seq<Value>, x: Value, b: seq<Value>)
    ensures Odd(a + [x] + b) == Odd(a + b) + if Clean(x) then 0 else 1
    decreases |b|
  {
    if b == [] {
      assert a + [x] + b == a + [x] && a + b == a && (a + [x])[..|a|] == a;
    } else {
      var n := |b| - 1;
      OddSplits(a, x, b[..n]);
      assert (a + [x] + b)[..|a| + 1 + n] == a + [x] + b[..n];
      assert (a + b)[..|a| + n] == a + b[..n];
    }
  }

  lemma Without(b: seq<Value>, k: nat)
    requires k < |b|
    ensures b == b[..k] + [b[k]] + b[k + 1..]
    ensures multiset(b) == multiset(b[..k] + b[k + 1..]) + multiset{b[k]}
  {
    assert b == b[..k] + [b[k]] + b[k + 1..];
  }

  lemma Cancel(a: multiset<Value>, b: multiset<Value>, x: Value)
    requires a + multiset{x} == b + multiset{x}
    ensures a == b
  {
    forall y ensures a[y] == b[y] {
      assert (a + multiset{x})[y] == (b + multiset{x})[y];
    }
  }

  lemma {:induction false} OddShuffled(a: seq<Value>, b: seq<Value>)
    requires multiset(a) == multiset(b)
    ensures Odd(a) == Odd(b)
    decreases |a|
  {
    if a == [] {
      assert |multiset(b)| == 0;
    } else {
      var n, x := |a| - 1, a[|a| - 1];
      assert a == a[..n] + [x] && x in multiset(b);
      var k :| 0 <= k < |b| && b[k] == x;
      Without(b, k);
      assert multiset(a) == multiset(a[..n]) + multiset{x};
      Cancel(multiset(a[..n]), multiset(b[..k] + b[k + 1..]), x);
      OddShuffled(a[..n], b[..k] + b[k + 1..]);
      OddSplits(b[..k], x, b[k + 1..]);
    }
  }

  predicate Complete(v: Value) {
    Has(v, "required") || Clean(v)
  }

  /** Where an odd value is given a default and becomes a map, there are fewer odd ones. */
  lemma {:induction false} OddRequired(s: seq<Value>)
    ensures Odd(Required(s)) <= Odd(s)
    ensures Odd(Required(s)) == Odd(s) ==> forall i | 0 <= i < |s| :: Complete(s[i])
    decreases |s|
  {
    if s != [] {
      var n := |s| - 1;
      OddRequired(s[..n]);
      var r := Required(s);
      assert r[..n] == Required(s[..n]);
      assert Odd(r) == Odd(r[..n]) + if Clean(r[n]) then 0 else 1;
      assert r[n] == Default(s[n], "required", BoolValue(true));
      assert Clean(s[n]) ==> Clean(r[n]);
      if Odd(r) == Odd(s) {
        assert Clean(s[n]) == Clean(r[n]);
        assert Complete(s[n]);
        forall i | 0 <= i < n ensures Complete(s[i]) {
          assert s[..n][i] == s[i];
        }
      }
    }
  }

  lemma {:induction false} OddPreserved(lower: Lower, s: seq<Value>, mid: seq<Value>)
    requires |s| == |mid| && forall i | 0 <= i < |s| :: Preserves(lower, Elsewhere, s[i], mid[i])
    ensures Odd(s) <= Odd(mid)
    decreases |s|
  {
    if s != [] {
      OddPreserved(lower, s[..|s| - 1], mid[..|s| - 1]);
      CleanPreserved(lower, s[|s| - 1], mid[|s| - 1]);
    }
  }

  lemma CleanPreserved(lower: Lower, v: Value, w: Value)
    requires Preserves(lower, Elsewhere, v, w)
    ensures Clean(w) ==> Clean(v)
  {
    assert ItemsPreserved(lower, Elsewhere, v, w.items);
  }

  predicate InputList(v: Value) {
    PlainList(v) && forall i | 0 <= i < |v.items| :: Complete(v.items[i])
  }

  lemma RequiredPreserved(lower: Lower, v: Value)
    requires Complete(v)
    ensures Preserves(lower, Elsewhere, v, Default(v, "required", BoolValue(true)))
  {
    if Has(v, "required") {
      Self(lower, Elsewhere, v);
    } else {
      DefaultGrows(v, v, "required", BoolValue(true));
      DefaultKeeps(v, "required", BoolValue(true));
      KeptPreserves(lower, v, Default(v, "required", BoolValue(true)));
    }
  }

  lemma InputsPreserved(lower: Lower, v: Value, mid: seq<Value>)
    requires Reordered(mid, Sort(ByField("name"), Required(v.items))) && ItemsPreserved(lower, InShuffled, v, mid)
    ensures forall i | 0 <= i < |v.items| :: Complete(v.items[i])
  {
    OddPreserved(lower, v.items, mid);
    OddShuffled(mid, Required(v.items));
    OddRequired(v.items);
  }

  /** The inputs keep their items if and only if each is a map or already says whether it is required. */
  lemma InputsExactly(lower: Lower, v: Value)
    ensures Preserves(lower, InShuffled, v, Inputs(v)) <==> InputList(v)
  {
    var items := Sort(ByField("name"), Required(v.items));
    ShuffledExactly(lower, v, items);
    forall mid | Reordered(mid, items) && ItemsPreserved(lower, InShuffled, v, mid)
      ensures InputList(v) || !PlainList(v)
    {
      InputsPreserved(lower, v, mid);
    }
    if InputList(v) {
      forall i | 0 <= i < |v.items| ensures Preserves(lower, Elsewhere, v.items[i], Required(v.items)[i]) {
        RequiredPreserved(lower, v.items[i]);
      }
      assert Reordered(Required(v.items), items) && ItemsPreserved(lower, InShuffled, v, Required(v.items));
    }
  }

  // ----- the steps

  predicate StepShaped(v: Value) {
    Has(v, "secretRefs") ==> Clean(v) && TextList(At(v, "secretRefs"))
  }

  lemma StepFieldsExactly(lower: Lower, v: Value)
    requires Has(v, "secretRefs")
    ensures FieldsPreserved(lower, InStep, v, Step(v)) <==> TextList(At(v, "secretRefs"))
  {
    if FieldsPreserved(lower, InStep, v, Step(v)) {
      assert Preserves(lower, Child(InStep, "secretRefs"), At(v, "secretRefs"), At(Step(v), "secretRefs"));
      StepFieldExactly(lower, v, "secretRefs");
    } else if TextList(At(v, "secretRefs")) {
      var f :| Has(v, f) && !Preserves(lower, Child(InStep, f), At(v, f), At(Step(v), f));
      StepFieldExactly(lower, v, f);
    }
  }

  lemma StepFieldExactly(lower: Lower, v: Value, f: string)
    requires Has(v, "secretRefs") && Has(v, f)
    ensures Preserves(lower, Child(InStep, f), At(v, f), At(Step(v), f)) <==> (f == "secretRefs" ==> TextList(At(v, f)))
  {
    var refs := SortedStrings(At(v, "secretRefs"));
    AtWith(v, "secretRefs", refs, f);
    if f == "secretRefs" {
      assert At(Step(v), f) == refs && Child(InStep, f) == InShuffled;
      SortedStringsExactly(lower, At(v, f));
    } else {
      assert At(Step(v), f) == At(v, f);
      Self(lower, Child(InStep, f), At(v, f));
    }
  }

  lemma StepExactly(lower: Lower, v: Value)
    ensures Preserves(lower, InStep, v, Step(v)) <==> StepShaped(v)
  {
    if Has(v, "secretRefs") {
      PutGrows(v.fields, v.fields, "secretRefs", SortedStrings(At(v, "secretRefs")));
      BuiltPreserves(lower, InStep, v, Step(v));
      StepFieldsExactly(lower, v);
    } else {
      Self(lower, InStep, v);
    }
  }

  predicate StepList(v: Value) {
    PlainList(v) && forall i | 0 <= i < |v.items| :: StepShaped(v.items[i])
  }

  lemma StepsExactly(lower: Lower, v: Value)
    ensures Preserves(lower, InSteps, v, Steps(v)) <==> StepList(v)
  {
    var w := Steps(v);
    forall i | 0 <= i < |v.items| ensures Preserves(lower, InStep, v.items[i], w.items[i]) <==> StepShaped(v.items[i]) {
      StepExactly(lower, v.items[i]);
    }
    assert Preserves(lower, InSteps, v, w) ==> ItemsPreserved(lower, InSteps, v, w.items);
    if StepList(v) {
      assert ItemsPreserved(lower, InSteps, v, w.items);
    }
  }

  // ----- the whole spec

  /** Each section has the shape in which normalization loses nothing of it. */
  predicate SectionShaped(s: Value, f: string) {
    var v := At(s, f);
    if f == "provides" || f == "requires" then TextList(v)
    else if f == "inputs" then InputList(v)
    else if f == "olm" then OlmShaped(v)
    else if f == "steps" then StepList(v)
    else if f == "readiness" then (Has(v, "timeout") && Has(v, "checks")) || Clean(v)
    else true
  }

  predicate SectionsShaped(s: Value) {
    && (Has(s, "provides") ==> SectionShaped(s, "provides"))
    && (Has(s, "requires") ==> SectionShaped(s, "requires"))
    && (Has(s, "inputs") ==> SectionShaped(s, "inputs"))
    && (Has(s, "olm") ==> SectionShaped(s, "olm"))
    && (Has(s, "steps") ==> SectionShaped(s, "steps"))
    && (Has(s, "readiness") ==> SectionShaped(s, "readiness"))
  }

  predicate Shaped(s: Value) {
    Clean(s) && SectionsShaped(s)
  }

  lemma SectionExactly(lower: Lower, s: Value, f: string)
    requires Has(s, f)
    ensures Preserves(lower, Child(InSpec, f), At(s, f), At(Addon(lower, s), f)) <==> SectionShaped(s, f)
  {
    AddonReads(lower, s, f);
    var v := At(s, f);
    if f == "provides" || f == "requires" {
      SortedStringsExactly(lower, v);
    } else if f == "inputs" {
      InputsExactly(lower, v);
    } else if f == "olm" {
      OlmExactly(lower, v);
    } else if f == "steps" {
      StepsExactly(lower, v);
    } else if f == "readiness" {
      var olm := Where(At(s, "olm"), Olm(lower, At(s, "olm")));
      AtWith(s, "olm", olm, "readiness");
      ReadinessExactly(lower, With(s, "olm", olm));
    } else {
      Self(lower, Elsewhere, v);
    }
  }

  lemma SectionNeeded(lower: Lower, s: Value, f: string)
    requires FieldsPreserved(lower, InSpec, s, Addon(lower, s))
    ensures Has(s, f) ==> SectionShaped(s, f)
  {
    if Has(s, f) {
      assert Preserves(lower, Child(InSpec, f), At(s, f), At(Addon(lower, s), f));
      SectionExactly(lower, s, f);
    }
  }

  lemma SectionKept(lower: Lower, s: Value, f: string)
    requires SectionsShaped(s) && Has(s, f)
    ensures Preserves(lower, Child(InSpec, f), At(s, f), At(Addon(lower, s), f))
  {
    SectionIsShaped(s, f);
    SectionExactly(lower, s, f);
  }

  lemma SectionsExactly(lower: Lower, s: Value)
    ensures FieldsPreserved(lower, InSpec, s, Addon(lower, s)) <==> SectionsShaped(s)
  {
    if FieldsPreserved(lower, InSpec, s, Addon(lower, s)) {
      SectionNeeded(lower, s, "provides");
      SectionNeeded(lower, s, "requires");
      SectionNeeded(lower, s, "inputs");
      SectionNeeded(lower, s, "olm");
      SectionNeeded(lower, s, "steps");
      SectionNeeded(lower, s, "readiness");
    } else if SectionsShaped(s) {
      var f :| Has(s, f) && !Preserves(lower, Child(InSpec, f), At(s, f), At(Addon(lower, s), f));
      SectionKept(lower, s, f);
    }
  }

  lemma SectionIsShaped(s: Value, f: string)
    requires SectionsShaped(s) && Has(s, f)
    ensures SectionShaped(s, f)
  {
  }

  lemma AddonGrows(lower: Lower, s: Value)
    ensures Grown(s.fields, Addon(lower, s).fields)
  {
    var s1 := Set(s, Has(s, "provides"), "provides", SortedStrings(At(s, "provides")));
    var s2 := Set(s1, Has(s1, "requires"), "requires", SortedStrings(At(s1, "requires")));
    var s3 := Set(s2, Has(s2, "inputs"), "inputs", Inputs(At(s2, "inputs")));
    var s4 := Set(s3, Has(s3, "olm"), "olm", Olm(lower, At(s3, "olm")));
    var s5 := With(s4, "readiness", Readiness(s4));
    SetGrows(s, s, Has(s, "provides"), "provides", SortedStrings(At(s, "provides")));
    SetGrows(s, s1, Has(s1, "requires"), "requires", SortedStrings(At(s1, "requires")));
    SetGrows(s, s2, Has(s2, "inputs"), "inputs", Inputs(At(s2, "inputs")));
    SetGrows(s, s3, Has(s3, "olm"), "olm", Olm(lower, At(s3, "olm")));
    SetGrows(s, s4, true, "readiness", Readiness(s4));
    SetGrows(s, s5, Has(s5, "steps"), "steps", Steps(At(s5, "steps")));
  }

  /**
   Normalization keeps all that was authored if and only if what it rewrites as a
   map is one, and what it rewrites as a list of texts is one.
   */
  lemma AddonPreservesExactly(lower: Lower, s: Value)
    ensures Preserves(lower, InSpec, s, Addon(lower, s)) <==> Shaped(s)
  {
    AddonReads(lower, s, "readiness");
    AddonGrows(lower, s);
    BuiltPreserves(lower, InSpec, s, Addon(lower, s));
    SectionsExactly(lower, s);
  }

  /** A capability that is not a text is lost. */
  lemma OddCapabilityIsLost(lower: Lower)
    ensures var s := MapValue([Field("provides", ListValue([MapValue([Field("a", StringValue("b"))])]))]);
      !Preserves(lower, InSpec, s, Addon(lower, s)) && At(Addon(lower, s), "provides") == ListValue([StringValue("")])
  {
    var odd := MapValue([Field("a", StringValue("b"))]);
    var v := ListValue([odd]);
    var s := MapValue([Field("provides", v)]);
    assert At(s, "provides") == v && !PlainText(v.items[0]);
    AddonPreservesExactly(lower, s);
    AddonReads(lower, s, "provides");
    assert Texts(v.items) == [StringValue("")] && [StringValue("")][..0] == [];
    assert Sort(ByText, [StringValue("")]) == [StringValue("")];
  }
}
