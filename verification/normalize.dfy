/** Add-on normalization: what it settles, that it settles it once, and what it leaves alone. */
module AddonNormalize {
  import opened Common
  import opened ApiValue
  import opened StableSort

  /** How the library lowercases one character; applying it twice changes nothing more. */
  type Lower = char -> char

  ghost predicate Settles(lower: Lower) {
    forall c :: lower(lower(c)) == lower(c)
  }

  // ----- image digests

  function LowerAll(lower: Lower, s: string): (r: string)
    ensures |r| == |s| && forall i | 0 <= i < |s| :: r[i] == lower(s[i])
  {
    seq(|s|, i requires 0 <= i < |s| => lower(s[i]))
  }

  /** Everything behind the first at sign is lowercased. */
  function CanonicalImage(lower: Lower, s: string): string {
    if s == [] then []
    else if s[0] == '@' then ['@'] + LowerAll(lower, s[1..])
    else [s[0]] + CanonicalImage(lower, s[1..])
  }

  lemma {:induction false} CanonicalTwice(lower: Lower, s: string)
    requires Settles(lower)
    ensures CanonicalImage(lower, CanonicalImage(lower, s)) == CanonicalImage(lower, s)
  {
    if s != [] {
      var r := CanonicalImage(lower, s);
      if s[0] == '@' {
        assert r[1..] == LowerAll(lower, s[1..]);
        assert LowerAll(lower, r[1..]) == r[1..];
      } else {
        CanonicalTwice(lower, s[1..]);
        assert r[1..] == CanonicalImage(lower, s[1..]);
      }
    }
  }

  // ----- lists

  function Texts(items: seq<Value>): (r: seq<Value>)
    ensures |r| == |items| && forall i | 0 <= i < |r| :: r[i] == StringValue(items[i].text)
  {
    seq(|items|, i requires 0 <= i < |items| => StringValue(items[i].text))
  }

  function SortedStrings(v: Value): Value {
    ListValue(Sort(ByText, Texts(v.items)))
  }

  function Required(items: seq<Value>): (r: seq<Value>)
    ensures |r| == |items| && forall i | 0 <= i < |r| :: r[i] == Default(items[i], "required", BoolValue(true))
  {
    seq(|items|, i requires 0 <= i < |items| => Default(items[i], "required", BoolValue(true)))
  }

  function Inputs(v: Value): Value {
    ListValue(Sort(ByField("name"), Required(v.items)))
  }

  function Step(v: Value): Value {
    if Has(v, "secretRefs") then With(v, "secretRefs", SortedStrings(At(v, "secretRefs"))) else v
  }

  function Steps(v: Value): (r: Value)
    ensures |r.items| == |v.items| && forall i | 0 <= i < |v.items| :: r.items[i] == Step(v.items[i])
  {
    ListValue(seq(|v.items|, i requires 0 <= i < |v.items| => Step(v.items[i])))
  }

  lemma {:induction false} InSort(key: Key, s: seq<Value>, i: nat)
    requires i < |Sort(key, s)|
    ensures |Sort(key, s)| == |s| && Sort(key, s)[i] in s
  {
    assert |multiset(Sort(key, s))| == |multiset(s)|;
    assert Sort(key, s)[i] in multiset(Sort(key, s));
  }

  lemma SortedStringsTwice(v: Value)
    ensures SortedStrings(SortedStrings(v)) == SortedStrings(v)
  {
    var once := Sort(ByText, Texts(v.items));
    forall i | 0 <= i < |once| ensures Texts(once)[i] == once[i] {
      InSort(ByText, Texts(v.items), i);
    }
    assert Texts(once) == once;
    SortSorted(ByText, Texts(v.items));
    SortFixes(ByText, once);
  }

  lemma InputsTwice(v: Value)
    ensures Inputs(Inputs(v)) == Inputs(v)
  {
    var once := Sort(ByField("name"), Required(v.items));
    forall i | 0 <= i < |once| ensures Required(once)[i] == once[i] {
      InSort(ByField("name"), Required(v.items), i);
      var k :| 0 <= k < |v.items| && Required(v.items)[k] == once[i];
      AtDefault(v.items[k], "required", BoolValue(true), "required");
    }
    assert Required(once) == once;
    SortSorted(ByField("name"), Required(v.items));
    SortFixes(ByField("name"), once);
  }

  // ----- rewriting one field

  /** A value as the constructors make mappings. */
  predicate Clean(v: Value) {
    v.kind == Mapping && v.text == "" && !v.flag && v.items == []
  }

  predicate Named(fields: seq<Field>, name: string) {
    fields != [] && (fields[0].name == name || Named(fields[1..], name))
  }

  lemma {:induction false} PresentIsNamed(fields: seq<Field>, name: string)
    requires Present(Find(fields, name))
    ensures Named(fields, name)
  {
    if fields != [] && fields[0].name != name { PresentIsNamed(fields[1..], name); }
  }

  lemma {:induction false} PutNames(fields: seq<Field>, name: string, value: Value, other: string)
    ensures Named(Put(fields, name, value), other) <==> other == name || Named(fields, other)
  {
    if fields != [] {
      PutNames(fields[1..], name, value, other);
      assert ([fields[0]] + Put(fields[1..], name, value))[1..] == Put(fields[1..], name, value);
      assert ([Field(name, value)] + fields[1..])[1..] == fields[1..];
    }
  }

  lemma {:induction false} PutSame(fields: seq<Field>, name: string)
    requires Named(fields, name)
    ensures Put(fields, name, Find(fields, name)) == fields
  {
    if fields[0].name != name {
      PutSame(fields[1..], name);
      assert [fields[0]] + fields[1..] == fields;
    } else {
      assert [fields[0]] + fields[1..] == fields;
    }
  }

  lemma WithSame(v: Value, name: string)
    requires Clean(v) && Has(v, name)
    ensures With(v, name, At(v, name)) == v
  {
    PresentIsNamed(v.fields, name);
    PutSame(v.fields, name);
  }

  lemma {:induction false} PutTwice(fields: seq<Field>, name: string, a: Value, b: Value)
    ensures Put(Put(fields, name, a), name, b) == Put(fields, name, b)
  {
    if fields != [] && fields[0].name != name { PutTwice(fields[1..], name, a, b); }
  }

  lemma StepTwice(v: Value)
    ensures Step(Step(v)) == Step(v)
  {
    if Has(v, "secretRefs") {
      var sorted := SortedStrings(At(v, "secretRefs"));
      AtWith(v, "secretRefs", sorted, "secretRefs");
      SortedStringsTwice(At(v, "secretRefs"));
      WithSame(With(v, "secretRefs", sorted), "secretRefs");
    }
  }

  lemma StepsTwice(v: Value)
    ensures Steps(Steps(v)) == Steps(v)
  {
    forall i | 0 <= i < |v.items| ensures Steps(Steps(v)).items[i] == Steps(v).items[i] {
      StepTwice(v.items[i]);
    }
    assert Steps(Steps(v)).items == Steps(v).items;
  }

  // ----- the operator section

  function Image(lower: Lower, c: Value): Value {
    if Has(c, "image") then With(c, "image", StringValue(CanonicalImage(lower, At(c, "image").text))) else c
  }

  function Catalog(lower: Lower, c: Value): Value {
    var i := Image(lower, c);
    if Present(i) then Default(i, "securityContextConfig", StringValue("restricted")) else i
  }

  function Namespace(n: Value): Value {
    if Present(n) then Default(n, "management", StringValue("managed")) else n
  }

  function Group(namespace: string, g: Value): Value {
    if Present(g) && namespace != "" then
      Default(Default(g, "name", StringValue(namespace)), "targetNamespaces", ListValue([StringValue(namespace)]))
    else g
  }

  function Subscription(source: string, s: Value): Value {
    if !Present(s) then s
    else
      var package := At(s, "package").text;
      var named := if package != "" then Default(s, "name", StringValue(package)) else s;
      var sourced := if source != "" then Default(named, "source", StringValue(source)) else named;
      Default(sourced, "sourceNamespace", StringValue("openshift-marketplace"))
  }

  /** The operator section step by step, as the source rewrites it. */
  function Olm(lower: Lower, o: Value): Value {
    var image := PathValue(o, ["catalogSource", "image"]);
    var o1 := if Present(image) then WithPath(o, StringValue(CanonicalImage(lower, image.text)),
      ["catalogSource", "image"]) else o;
    var catalog := At(o1, "catalogSource");
    var o2 := if Present(catalog) then With(o1, "catalogSource",
      Default(catalog, "securityContextConfig", StringValue("restricted"))) else o1;
    var ns := At(o2, "namespace");
    var o3 := if Present(ns) then With(o2, "namespace", Default(ns, "management", StringValue("managed"))) else o2;
    var namespace := PathValue(o3, ["namespace", "name"]).text;
    var group := At(o3, "operatorGroup");
    var o4 := if Present(group) && namespace != "" then With(o3, "operatorGroup", Group(namespace, group)) else o3;
    var sub := At(o4, "subscription");
    if Present(sub) then With(o4, "subscription", Subscription(PathValue(o4, ["catalogSource", "name"]).text, sub))
      else o4
  }

  /** A field replaced where a condition holds. */
  function Set(v: Value, applies: bool, name: string, value: Value): Value {
    if applies then With(v, name, value) else v
  }

  /** The same section as four independent replacements. */
  function OlmFields(lower: Lower, o: Value): Value {
    var c, n, g, s := At(o, "catalogSource"), At(o, "namespace"), At(o, "operatorGroup"), At(o, "subscription");
    var namespace, source := At(n, "name").text, At(c, "name").text;
    var a := Set(o, Present(Image(lower, c)), "catalogSource", Catalog(lower, c));
    var b := Set(a, Present(n), "namespace", Namespace(n));
    var d := Set(b, Present(g) && namespace != "", "operatorGroup", Group(namespace, g));
    Set(d, Present(s), "subscription", Subscription(source, s))
  }

  lemma AtSet(v: Value, applies: bool, name: string, value: Value, other: string)
    ensures At(Set(v, applies, name, value), other) == if applies && other == name then value else At(v, other)
  {
    AtWith(v, name, value, other);
  }

  lemma CatalogKeepsName(lower: Lower, c: Value)
    ensures At(Catalog(lower, c), "name") == At(c, "name")
  {
    var i := Image(lower, c);
    AtWith(c, "image", StringValue(CanonicalImage(lower, At(c, "image").text)), "name");
    AtDefault(i, "securityContextConfig", StringValue("restricted"), "name");
  }

  lemma OlmCatalog(lower: Lower, o: Value)
    ensures var c := At(o, "catalogSource");
            var image := PathValue(o, ["catalogSource", "image"]);
            var o1 := if Present(image) then WithPath(o, StringValue(CanonicalImage(lower, image.text)),
              ["catalogSource", "image"]) else o;
            At(o1, "catalogSource") == Image(lower, c) &&
            Set(o1, Present(Image(lower, c)), "catalogSource",
              Default(Image(lower, c), "securityContextConfig", StringValue("restricted")))
            == Set(o, Present(Image(lower, c)), "catalogSource", Catalog(lower, c))
  {
    var c := At(o, "catalogSource");
    var path := ["catalogSource", "image"];
    assert path[1..] == ["image"] && path[1..][1..] == [];
    assert PathValue(o, path) == At(c, "image");
    if Has(c, "image") {
      var value := StringValue(CanonicalImage(lower, At(c, "image").text));
      assert WithPath(c, value, path[1..]) == With(c, "image", value);
      assert WithPath(o, value, path) == With(o, "catalogSource", Image(lower, c));
      AtWith(o, "catalogSource", Image(lower, c), "catalogSource");
      PutTwice(o.fields, "catalogSource", Image(lower, c), Catalog(lower, c));
    }
  }

  lemma OlmIsFields(lower: Lower, o: Value)
    ensures Olm(lower, o) == OlmFields(lower, o)
  {
    var c, n, g := At(o, "catalogSource"), At(o, "namespace"), At(o, "operatorGroup");
    var namespace := At(n, "name").text;
    OlmCatalog(lower, o);
    var a := Set(o, Present(Image(lower, c)), "catalogSource", Catalog(lower, c));
    AtSet(o, Present(Image(lower, c)), "catalogSource", Catalog(lower, c), "namespace");
    var b := Set(a, Present(n), "namespace", Namespace(n));
    NamespaceRead(lower, o, a, b);
    var d := Set(b, Present(g) && namespace != "", "operatorGroup", Group(namespace, g));
    SourceRead(lower, o, a, b, d);
  }

  lemma NamespaceRead(lower: Lower, o: Value, a: Value, b: Value)
    requires a == Set(o, Present(Image(lower, At(o, "catalogSource"))), "catalogSource",
      Catalog(lower, At(o, "catalogSource")))
    requires b == Set(a, Present(At(o, "namespace")), "namespace", Namespace(At(o, "namespace")))
    ensures PathValue(b, ["namespace", "name"]) == At(At(o, "namespace"), "name")
    ensures At(b, "operatorGroup") == At(o, "operatorGroup")
    ensures At(b, "catalogSource") == At(a, "catalogSource") && At(b, "subscription") == At(o, "subscription")
  {
    var c, n := At(o, "catalogSource"), At(o, "namespace");
    var path := ["namespace", "name"];
    assert path[1..] == ["name"] && path[1..][1..] == [];
    AtDefault(n, "management", StringValue("managed"), "name");
    AtSet(o, Present(Image(lower, c)), "catalogSource", Catalog(lower, c), "namespace");
    AtSet(o, Present(Image(lower, c)), "catalogSource", Catalog(lower, c), "operatorGroup");
    AtSet(o, Present(Image(lower, c)), "catalogSource", Catalog(lower, c), "subscription");
    AtSet(a, Present(n), "namespace", Namespace(n), "namespace");
    AtSet(a, Present(n), "namespace", Namespace(n), "operatorGroup");
    AtSet(a, Present(n), "namespace", Namespace(n), "catalogSource");
    AtSet(a, Present(n), "namespace", Namespace(n), "subscription");
    assert PathValue(b, path) == At(At(b, "namespace"), "name");
  }

  lemma SourceRead(lower: Lower, o: Value, a: Value, b: Value, d: Value)
    requires a == Set(o, Present(Image(lower, At(o, "catalogSource"))), "catalogSource",
      Catalog(lower, At(o, "catalogSource")))
    requires At(b, "catalogSource") == At(a, "catalogSource") && At(b, "subscription") == At(o, "subscription")
    requires exists applies, g :: d == Set(b, applies, "operatorGroup", g)
    ensures PathValue(d, ["catalogSource", "name"]) == At(At(o, "catalogSource"), "name")
    ensures At(d, "subscription") == At(o, "subscription")
  {
    var c := At(o, "catalogSource");
    var path := ["catalogSource", "name"];
    assert path[1..] == ["name"] && path[1..][1..] == [];
    var applies, g :| d == Set(b, applies, "operatorGroup", g);
    AtSet(b, applies, "operatorGroup", g, "catalogSource");
    AtSet(b, applies, "operatorGroup", g, "subscription");
    AtSet(o, Present(Image(lower, c)), "catalogSource", Catalog(lower, c), "catalogSource");
    CatalogKeepsName(lower, c);
    assert PathValue(d, path) == At(At(d, "catalogSource"), "name");
  }

  /** What each field of the section is after it. */
  function OlmAt(lower: Lower, o: Value, name: string): Value {
    var c, n := At(o, "catalogSource"), At(o, "namespace");
    if name == "catalogSource" then Catalog(lower, c)
    else if name == "namespace" then Namespace(n)
    else if name == "operatorGroup" then Group(At(n, "name").text, At(o, "operatorGroup"))
    else if name == "subscription" then Subscription(At(c, "name").text, At(o, "subscription"))
    else At(o, name)
  }

  lemma OlmReads(lower: Lower, o: Value, name: string)
    ensures At(OlmFields(lower, o), name) == OlmAt(lower, o, name)
  {
    var c, n, g, s := At(o, "catalogSource"), At(o, "namespace"), At(o, "operatorGroup"), At(o, "subscription");
    var namespace, source := At(n, "name").text, At(c, "name").text;
    var a := Set(o, Present(Image(lower, c)), "catalogSource", Catalog(lower, c));
    var b := Set(a, Present(n), "namespace", Namespace(n));
    var d := Set(b, Present(g) && namespace != "", "operatorGroup", Group(namespace, g));
    AtSet(o, Present(Image(lower, c)), "catalogSource", Catalog(lower, c), name);
    AtSet(a, Present(n), "namespace", Namespace(n), name);
    AtSet(b, Present(g) && namespace != "", "operatorGroup", Group(namespace, g), name);
    AtSet(d, Present(s), "subscription", Subscription(source, s), name);
  }

  // ----- each part settles

  lemma CatalogTwice(lower: Lower, c: Value)
    requires Settles(lower)
    ensures Catalog(lower, Catalog(lower, c)) == Catalog(lower, c)
    ensures Present(Image(lower, Catalog(lower, c))) == Present(Image(lower, c))
  {
    var i, r := Image(lower, c), Catalog(lower, c);
    AtDefault(i, "securityContextConfig", StringValue("restricted"), "securityContextConfig");
    AtDefault(i, "securityContextConfig", StringValue("restricted"), "image");
    if Has(c, "image") {
      var value := StringValue(CanonicalImage(lower, At(c, "image").text));
      AtWith(c, "image", value, "image");
      CanonicalTwice(lower, At(c, "image").text);
      WithSame(r, "image");
    }
  }

  lemma NamespaceTwice(n: Value)
    ensures Namespace(Namespace(n)) == Namespace(n) && At(Namespace(n), "name") == At(n, "name")
  {
    AtDefault(n, "management", StringValue("managed"), "management");
    AtDefault(n, "management", StringValue("managed"), "name");
  }

  lemma GroupTwice(namespace: string, g: Value)
    ensures Group(namespace, Group(namespace, g)) == Group(namespace, g)
  {
    var named := Default(g, "name", StringValue(namespace));
    var list := ListValue([StringValue(namespace)]);
    AtDefault(g, "name", StringValue(namespace), "name");
    AtDefault(named, "targetNamespaces", list, "name");
    AtDefault(named, "targetNamespaces", list, "targetNamespaces");
  }

  lemma SubscriptionReads(source: string, s: Value, name: string)
    requires Present(s)
    ensures At(Subscription(source, s), name) ==
      if Has(s, name) then At(s, name)
      else if name == "name" && At(s, "package").text != "" then StringValue(At(s, "package").text)
      else if name == "source" && source != "" then StringValue(source)
      else if name == "sourceNamespace" then StringValue("openshift-marketplace")
      else At(s, name)
  {
    var package := At(s, "package").text;
    var named := if package != "" then Default(s, "name", StringValue(package)) else s;
    var sourced := if source != "" then Default(named, "source", StringValue(source)) else named;
    forall f ensures At(named, f) == if package != "" && f == "name" && !Has(s, "name") then StringValue(package)
      else At(s, f) {
      AtDefault(s, "name", StringValue(package), f);
    }
    AtDefault(named, "source", StringValue(source), name);
    AtDefault(sourced, "sourceNamespace", StringValue("openshift-marketplace"), name);
    AtDefault(named, "source", StringValue(source), "sourceNamespace");
  }

  lemma SubscriptionTwice(source: string, s: Value)
    ensures Subscription(source, Subscription(source, s)) == Subscription(source, s)
  {
    if Present(s) {
      SubscriptionReads(source, s, "package");
      SubscriptionReads(source, s, "name");
      SubscriptionReads(source, s, "source");
      SubscriptionReads(source, s, "sourceNamespace");
    }
  }

  lemma SetSame(v: Value, applies: bool, name: string, value: Value)
    requires applies ==> Clean(v) && Has(v, name) && value == At(v, name)
    ensures Set(v, applies, name, value) == v
  {
    if applies { WithSame(v, name); }
  }

  lemma OlmClean(lower: Lower, o: Value)
    ensures var c, n, g, s := At(o, "catalogSource"), At(o, "namespace"), At(o, "operatorGroup"), At(o, "subscription");
            Present(Image(lower, c)) || Present(n) || (Present(g) && At(n, "name").text != "") || Present(s) ==>
              Clean(OlmFields(lower, o))
  {
  }

  lemma OlmTwice(lower: Lower, o: Value)
    requires Settles(lower)
    ensures Olm(lower, Olm(lower, o)) == Olm(lower, o)
    ensures Present(o) ==> Present(Olm(lower, o))
  {
    OlmIsFields(lower, o);
    var r := OlmFields(lower, o);
    OlmIsFields(lower, r);
    var c, n, g, s := At(o, "catalogSource"), At(o, "namespace"), At(o, "operatorGroup"), At(o, "subscription");
    OlmReads(lower, o, "catalogSource");
    OlmReads(lower, o, "namespace");
    OlmReads(lower, o, "operatorGroup");
    OlmReads(lower, o, "subscription");
    CatalogTwice(lower, c);
    CatalogKeepsName(lower, c);
    NamespaceTwice(n);
    GroupTwice(At(n, "name").text, g);
    SubscriptionTwice(At(c, "name").text, s);
    OlmClean(lower, o);
    SetSame(r, Present(Image(lower, At(r, "catalogSource"))), "catalogSource", Catalog(lower, At(r, "catalogSource")));
    SetSame(r, Present(At(r, "namespace")), "namespace", Namespace(At(r, "namespace")));
    var namespace, source := At(At(r, "namespace"), "name").text, At(At(r, "catalogSource"), "name").text;
    SetSame(r, Present(At(r, "operatorGroup"))
      && namespace != "", "operatorGroup", Group(namespace, At(r, "operatorGroup")));
    SetSame(r, Present(At(r, "subscription")), "subscription", Subscription(source, At(r, "subscription")));
  }

  // ----- readiness

  /** The check a complete operator section implies. */
  function Checks(s: Value): Value {
    var olm := At(s, "olm");
    var namespace, subscription := At(At(olm, "namespace"), "name"), At(At(olm, "subscription"), "name");
    if Present(olm) && namespace.text != "" && subscription.text != "" then
      ListValue([MapValue([Field("csvSucceeded",
        MapValue([Field("namespace", namespace), Field("subscription", subscription)]))])])
    else ListValue([])
  }

  function Readiness(s: Value): Value {
    var r := Default(At(s, "readiness"), "timeout", StringValue("30m"));
    if Has(r, "checks") then r else With(r, "checks", Checks(s))
  }

  lemma ReadinessReads(s: Value, name: string)
    ensures At(Readiness(s), name) ==
      if Has(At(s, "readiness"), name) then At(At(s, "readiness"), name)
      else if name == "timeout" then StringValue("30m")
      else if name == "checks" then Checks(s)
      else At(At(s, "readiness"), name)
  {
    var was := At(s, "readiness");
    var r := Default(was, "timeout", StringValue("30m"));
    AtDefault(was, "timeout", StringValue("30m"), name);
    AtDefault(was, "timeout", StringValue("30m"), "checks");
    AtWith(r, "checks", Checks(s), name);
  }

  lemma ReadinessFixed(s: Value)
    requires Has(At(s, "readiness"), "timeout") && Has(At(s, "readiness"), "checks")
    ensures Readiness(s) == At(s, "readiness")
  {
  }

  // ----- a whole add-on

  /** The spec of a ClusterAddon, normalized. */
  function Addon(lower: Lower, s: Value): Value {
    var s1 := Set(s, Has(s, "provides"), "provides", SortedStrings(At(s, "provides")));
    var s2 := Set(s1, Has(s1, "requires"), "requires", SortedStrings(At(s1, "requires")));
    var s3 := Set(s2, Has(s2, "inputs"), "inputs", Inputs(At(s2, "inputs")));
    var s4 := Set(s3, Has(s3, "olm"), "olm", Olm(lower, At(s3, "olm")));
    var s5 := With(s4, "readiness", Readiness(s4));
    Set(s5, Has(s5, "steps"), "steps", Steps(At(s5, "steps")))
  }

  /** A section where it is present. */
  function Where(v: Value, revised: Value): Value {
    if Present(v) then revised else v
  }

  /** What each field of the spec is after normalization. */
  function AddonAt(lower: Lower, s: Value, name: string): Value {
    var v := At(s, name);
    if name == "provides" || name == "requires" then Where(v, SortedStrings(v))
    else if name == "inputs" then Where(v, Inputs(v))
    else if name == "olm" then Where(v, Olm(lower, v))
    else if name == "steps" then Where(v, Steps(v))
    else if name == "readiness" then Readiness(With(s, "olm", Where(At(s, "olm"), Olm(lower, At(s, "olm")))))
    else v
  }

  lemma ReadinessDepends(s: Value, t: Value)
    requires At(s, "readiness") == At(t, "readiness") && At(s, "olm") == At(t, "olm")
    ensures Readiness(s) == Readiness(t)
  {
  }

  /** One more section set: what it reads elsewhere is what was read before. */
  lemma SetReads(s: Value, t: Value, name: string, value: Value, f: string)
    requires t == Set(s, Has(s, name), name, value)
    ensures At(t, f) == if f == name then Where(At(s, name), value) else At(s, f)
  {
    AtSet(s, Has(s, name), name, value, f);
  }

  lemma AddonReads(lower: Lower, s: Value, name: string)
    ensures At(Addon(lower, s), name) == AddonAt(lower, s, name) && Clean(Addon(lower, s))
  {
    var s1 := Set(s, Has(s, "provides"), "provides", SortedStrings(At(s, "provides")));
    var s2 := Set(s1, Has(s1, "requires"), "requires", SortedStrings(At(s1, "requires")));
    var s3 := Set(s2, Has(s2, "inputs"), "inputs", Inputs(At(s2, "inputs")));
    var s4 := Set(s3, Has(s3, "olm"), "olm", Olm(lower, At(s3, "olm")));
    var s5 := With(s4, "readiness", Readiness(s4));
    ListsRead(s, s1, s2, s3, name);
    ListsRead(s, s1, s2, s3, "olm");
    ListsRead(s, s1, s2, s3, "readiness");
    ListsRead(s, s1, s2, s3, "steps");
    SetReads(s3, s4, "olm", Olm(lower, At(s3, "olm")), name);
    SetReads(s3, s4, "olm", Olm(lower, At(s3, "olm")), "olm");
    SetReads(s3, s4, "olm", Olm(lower, At(s3, "olm")), "readiness");
    SetReads(s3, s4, "olm", Olm(lower, At(s3, "olm")), "steps");
    AtWith(s4, "readiness", Readiness(s4), name);
    AtWith(s4, "readiness", Readiness(s4), "steps");
    SetReads(s5, Addon(lower, s), "steps", Steps(At(s5, "steps")), name);
    var put := With(s, "olm", Where(At(s, "olm"), Olm(lower, At(s, "olm"))));
    AtWith(s, "olm", Where(At(s, "olm"), Olm(lower, At(s, "olm"))), "olm");
    AtWith(s, "olm", Where(At(s, "olm"), Olm(lower, At(s, "olm"))), "readiness");
    ReadinessDepends(s4, put);
  }

  lemma ListsRead(s: Value, s1: Value, s2: Value, s3: Value, name: string)
    requires s1 == Set(s, Has(s, "provides"), "provides", SortedStrings(At(s, "provides")))
    requires s2 == Set(s1, Has(s1, "requires"), "requires", SortedStrings(At(s1, "requires")))
    requires s3 == Set(s2, Has(s2, "inputs"), "inputs", Inputs(At(s2, "inputs")))
    ensures var v := At(s, name);
            At(s3, name) == if name == "provides" || name == "requires" then Where(v, SortedStrings(v))
                            else if name == "inputs" then Where(v, Inputs(v)) else v
  {
    SetReads(s, s1, "provides", SortedStrings(At(s, "provides")), name);
    SetReads(s, s1, "provides", SortedStrings(At(s, "provides")), "requires");
    SetReads(s, s1, "provides", SortedStrings(At(s, "provides")), "inputs");
    SetReads(s1, s2, "requires", SortedStrings(At(s1, "requires")), name);
    SetReads(s1, s2, "requires", SortedStrings(At(s1, "requires")), "inputs");
    SetReads(s2, s3, "inputs", Inputs(At(s2, "inputs")), name);
  }

  /** Every list of a normalized spec is as its own rewriting leaves it. */
  lemma ListsSettled(lower: Lower, s: Value, f: string)
    requires f == "provides" || f == "requires"
    ensures var r := Addon(lower, s); Has(r, f) ==> SortedStrings(At(r, f)) == At(r, f)
  {
    AddonReads(lower, s, f);
    SortedStringsTwice(At(s, f));
  }

  lemma InputsSettled(lower: Lower, s: Value)
    ensures var r := Addon(lower, s); Has(r, "inputs") ==> Inputs(At(r, "inputs")) == At(r, "inputs")
  {
    AddonReads(lower, s, "inputs");
    InputsTwice(At(s, "inputs"));
  }

  lemma StepsSettled(lower: Lower, s: Value)
    ensures var r := Addon(lower, s); Has(r, "steps") ==> Steps(At(r, "steps")) == At(r, "steps")
  {
    AddonReads(lower, s, "steps");
    StepsTwice(At(s, "steps"));
  }

  lemma OlmSettled(lower: Lower, s: Value)
    requires Settles(lower)
    ensures var r := Addon(lower, s); Clean(r) && (Has(r, "olm") ==> Olm(lower, At(r, "olm")) == At(r, "olm"))
  {
    AddonReads(lower, s, "olm");
    OlmTwice(lower, At(s, "olm"));
  }

  lemma ReadinessSettled(lower: Lower, s: Value)
    ensures var r := Addon(lower, s); Readiness(r) == At(r, "readiness") && Named(r.fields, "readiness")
  {
    var r := Addon(lower, s);
    AddonReads(lower, s, "readiness");
    var put := With(s, "olm", Where(At(s, "olm"), Olm(lower, At(s, "olm"))));
    ReadinessReads(put, "timeout");
    ReadinessReads(put, "checks");
    ReadinessFixed(r);
    var s1 := Set(s, Has(s, "provides"), "provides", SortedStrings(At(s, "provides")));
    var s2 := Set(s1, Has(s1, "requires"), "requires", SortedStrings(At(s1, "requires")));
    var s3 := Set(s2, Has(s2, "inputs"), "inputs", Inputs(At(s2, "inputs")));
    var s4 := Set(s3, Has(s3, "olm"), "olm", Olm(lower, At(s3, "olm")));
    var s5 := With(s4, "readiness", Readiness(s4));
    PutNames(s4.fields, "readiness", Readiness(s4), "readiness");
    PutNames(s5.fields, "steps", Steps(At(s5, "steps")), "readiness");
  }

  /** Normalizing a normalized add-on changes nothing. */
  lemma AddonTwice(lower: Lower, s: Value)
    requires Settles(lower)
    ensures Addon(lower, Addon(lower, s)) == Addon(lower, s)
  {
    var r := Addon(lower, s);
    ListsSettled(lower, s, "provides");
    ListsSettled(lower, s, "requires");
    InputsSettled(lower, s);
    StepsSettled(lower, s);
    OlmSettled(lower, s);
    ReadinessSettled(lower, s);
    SetSame(r, Has(r, "provides"), "provides", SortedStrings(At(r, "provides")));
    SetSame(r, Has(r, "requires"), "requires", SortedStrings(At(r, "requires")));
    SetSame(r, Has(r, "inputs"), "inputs", Inputs(At(r, "inputs")));
    SetSame(r, Has(r, "olm"), "olm", Olm(lower, At(r, "olm")));
    PutSame(r.fields, "readiness");
    SetSame(r, Has(r, "steps"), "steps", Steps(At(r, "steps")));
  }

  // ----- what normalization leaves alone

  /** Every field with a value keeps exactly that value. */
  ghost predicate Keeps(v: Value, w: Value) {
    forall f :: Has(v, f) ==> At(w, f) == At(v, f)
  }

  lemma DefaultKeeps(v: Value, name: string, value: Value)
    ensures Keeps(v, Default(v, name, value))
  {
    forall f | Has(v, f) ensures At(Default(v, name, value), f) == At(v, f) { AtDefault(v, name, value, f); }
  }

  /** The catalog keeps everything but the case of its image's digest. */
  ghost predicate KeepsCatalog(lower: Lower, c: Value, d: Value) {
    forall f :: Has(c, f) ==>
      At(d, f) == if f == "image" then StringValue(CanonicalImage(lower, At(c, "image").text)) else At(c, f)
  }

  lemma CatalogKeeps(lower: Lower, c: Value)
    ensures KeepsCatalog(lower, c, Catalog(lower, c))
  {
    forall f | Has(c, f) ensures At(Catalog(lower, c), f) == if f ==
      "image" then StringValue(CanonicalImage(lower, At(c, "image").text)) else At(c, f) {
      AtWith(c, "image", StringValue(CanonicalImage(lower, At(c, "image").text)), f);
      AtDefault(Image(lower, c), "securityContextConfig", StringValue("restricted"), f);
    }
  }

  /** Each part of the operator section keeps what it had, and the rest of the section is untouched. */
  lemma OlmKeeps(lower: Lower, o: Value, name: string)
    ensures var v, w := At(o, name), At(Olm(lower, o), name);
            if name == "catalogSource" then KeepsCatalog(lower, v, w)
            else if name == "namespace" || name == "operatorGroup" || name == "subscription" then Keeps(v, w)
            else w == v
  {
    OlmIsFields(lower, o);
    OlmReads(lower, o, name);
    if name == "catalogSource" {
      CatalogKeeps(lower, At(o, name));
    } else if name == "namespace" {
      DefaultKeeps(At(o, name), "management", StringValue("managed"));
    } else if name == "operatorGroup" {
      GroupKeeps(At(At(o, "namespace"), "name").text, At(o, name));
    } else if name == "subscription" {
      SubscriptionKeeps(At(At(o, "catalogSource"), "name").text, At(o, name));
    }
  }

  lemma GroupKeeps(namespace: string, g: Value)
    ensures Keeps(g, Group(namespace, g))
  {
    var named := Default(g, "name", StringValue(namespace));
    DefaultKeeps(g, "name", StringValue(namespace));
    DefaultKeeps(named, "targetNamespaces", ListValue([StringValue(namespace)]));
  }

  lemma SubscriptionKeeps(source: string, s: Value)
    ensures Keeps(s, Subscription(source, s))
  {
    if Present(s) {
      forall f | Has(s, f) ensures At(Subscription(source, s), f) == At(s, f) { SubscriptionReads(source, s, f); }
    }
  }

  lemma ReadinessKeeps(s: Value)
    ensures Keeps(At(s, "readiness"), Readiness(s))
  {
    forall f | Has(At(s, "readiness"), f) ensures At(Readiness(s), f) ==
      At(At(s, "readiness"), f) { ReadinessReads(s, f); }
  }

  // ----- a whole binding

  function Config(v: Value): Value {
    if Has(v, "inputs") then With(v, "inputs", ListValue(Sort(ByField("name"), At(v, "inputs").items))) else v
  }

  function Configs(items: seq<Value>): (r: seq<Value>)
    ensures |r| == |items| && forall i | 0 <= i < |r| :: r[i] == Config(items[i])
  {
    seq(|items|, i requires 0 <= i < |items| => Config(items[i]))
  }

  /** The spec of a ClusterAddonBinding, normalized. */
  function Binding(s: Value): Value {
    Set(s, Has(s, "addonConfigs"), "addonConfigs",
      ListValue(Sort(ByField("addonRef"), Configs(At(s, "addonConfigs").items))))
  }

  lemma ConfigTwice(v: Value)
    ensures Config(Config(v)) == Config(v)
  {
    if Has(v, "inputs") {
      var items := At(v, "inputs").items;
      var sorted := ListValue(Sort(ByField("name"), items));
      AtWith(v, "inputs", sorted, "inputs");
      SortSorted(ByField("name"), items);
      SortFixes(ByField("name"), sorted.items);
      WithSame(With(v, "inputs", sorted), "inputs");
    }
  }

  /** Normalizing a normalized binding changes nothing. */
  lemma BindingTwice(s: Value)
    ensures Binding(Binding(s)) == Binding(s)
  {
    if Has(s, "addonConfigs") {
      var items := Configs(At(s, "addonConfigs").items);
      var once := Sort(ByField("addonRef"), items);
      AtWith(s, "addonConfigs", ListValue(once), "addonConfigs");
      forall i | 0 <= i < |once| ensures Configs(once)[i] == once[i] {
        InSort(ByField("addonRef"), items, i);
        var k :| 0 <= k < |items| && items[k] == once[i];
        ConfigTwice(At(s, "addonConfigs").items[k]);
      }
      assert Configs(once) == once;
      SortSorted(ByField("addonRef"), items);
      SortFixes(ByField("addonRef"), once);
      WithSame(Binding(s), "addonConfigs");
    }
  }
}
