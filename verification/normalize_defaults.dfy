/** What add-on normalization writes: each default, each order and each check, from what was authored. */
module AddonDefaults {
  import opened Common
  import opened ApiValue
  import opened StableSort
  import opened AddonNormalize

  // ----- the image

  lemma {:induction false} CanonicalPlain(lower: Lower, base: string)
    requires '@' !in base
    ensures CanonicalImage(lower, base) == base
  {
    if base != [] {
      assert base[0] in base;
      CanonicalPlain(lower, base[1..]);
    }
  }

  /** An image keeps all up to the first at sign, and what is behind it is lowercased. */
  lemma {:induction false} CanonicalDigest(lower: Lower, base: string, digest: string)
    requires '@' !in base
    ensures CanonicalImage(lower, base + ['@'] + digest) == base + ['@'] + LowerAll(lower, digest)
  {
    var s := base + ['@'] + digest;
    if base == [] {
      assert s[0] == '@' && s[1..] == digest;
    } else {
      assert base[0] in base;
      CanonicalDigest(lower, base[1..], digest);
      assert s[0] == base[0] && s[1..] == base[1..] + ['@'] + digest;
      assert base + ['@'] + LowerAll(lower, digest) == [base[0]] + (base[1..] + ['@'] + LowerAll(lower, digest));
    }
  }

  // ----- the lists

  /** The capabilities and the inputs end in order. */
  lemma AddonSorts(lower: Lower, s: Value)
    ensures Has(s, "provides") ==> Sorted(ByText, At(Addon(lower, s), "provides").items)
    ensures Has(s, "requires") ==> Sorted(ByText, At(Addon(lower, s), "requires").items)
    ensures Has(s, "inputs") ==> Sorted(ByField("name"), At(Addon(lower, s), "inputs").items)
  {
    AddonReads(lower, s, "provides");
    AddonReads(lower, s, "requires");
    AddonReads(lower, s, "inputs");
    SortSorted(ByText, Texts(At(s, "provides").items));
    SortSorted(ByText, Texts(At(s, "requires").items));
    SortSorted(ByField("name"), AddonNormalize.Required(At(s, "inputs").items));
  }

  /** A step's secret references end in order. */
  lemma StepSorts(v: Value)
    requires Has(v, "secretRefs")
    ensures Sorted(ByText, At(Step(v), "secretRefs").items)
  {
    AtWith(v, "secretRefs", SortedStrings(At(v, "secretRefs")), "secretRefs");
    SortSorted(ByText, Texts(At(v, "secretRefs").items));
  }

  // ----- the operator

  function Or(v: Value, name: string, value: Value): Value {
    if Has(v, name) then At(v, name) else value
  }

  /** Each part that is there gains its default where it lacks one. */
  lemma OlmDefaults(lower: Lower, o: Value)
    ensures var w, namespace := Olm(lower, o), At(At(o, "namespace"), "name").text;
      && (Has(o, "catalogSource") ==>
            At(At(w, "catalogSource"), "securityContextConfig")
            == Or(At(o, "catalogSource"), "securityContextConfig", StringValue("restricted")))
      && (Has(o, "namespace") ==>
            At(At(w, "namespace"), "management") == Or(At(o, "namespace"), "management", StringValue("managed")))
      && (Has(o, "operatorGroup") && namespace != "" ==>
            && At(At(w, "operatorGroup"), "name") == Or(At(o, "operatorGroup"), "name", StringValue(namespace))
            && At(At(w, "operatorGroup"), "targetNamespaces")
               == Or(At(o, "operatorGroup"), "targetNamespaces", ListValue([StringValue(namespace)])))
  {
    OlmIsFields(lower, o);
    OlmReads(lower, o, "catalogSource");
    OlmReads(lower, o, "namespace");
    OlmReads(lower, o, "operatorGroup");
    CatalogDefault(lower, At(o, "catalogSource"));
    AtDefault(At(o, "namespace"), "management", StringValue("managed"), "management");
    GroupDefaults(At(At(o, "namespace"), "name").text, At(o, "operatorGroup"));
  }

  lemma CatalogDefault(lower: Lower, c: Value)
    ensures Present(c) ==>
      At(Catalog(lower, c), "securityContextConfig") == Or(c, "securityContextConfig", StringValue("restricted"))
  {
    var i := Image(lower, c);
    AtWith(c, "image", StringValue(CanonicalImage(lower, At(c, "image").text)), "securityContextConfig");
    AtDefault(i, "securityContextConfig", StringValue("restricted"), "securityContextConfig");
  }

  lemma GroupDefaults(namespace: string, g: Value)
    ensures Present(g) && namespace != "" ==>
      && At(Group(namespace, g), "name") == Or(g, "name", StringValue(namespace))
      && At(Group(namespace, g), "targetNamespaces") == Or(g, "targetNamespaces", ListValue([StringValue(namespace)]))
  {
    var named, targets := Default(g, "name", StringValue(namespace)), ListValue([StringValue(namespace)]);
    AtDefault(g, "name", StringValue(namespace), "name");
    AtDefault(g, "name", StringValue(namespace), "targetNamespaces");
    AtDefault(named, "targetNamespaces", targets, "name");
    AtDefault(named, "targetNamespaces", targets, "targetNamespaces");
  }

  /** A subscription is named after its package, drawn from the catalog, and sought in the marketplace. */
  lemma SubscriptionDefaults(lower: Lower, o: Value)
    requires Has(o, "subscription")
    ensures var s, w := At(o, "subscription"), At(Olm(lower, o), "subscription");
      var package, source := At(s, "package").text, At(At(o, "catalogSource"), "name").text;
      && At(w, "name") == Or(s, "name", if package != "" then StringValue(package) else At(s, "name"))
      && At(w, "source") == Or(s, "source", if source != "" then StringValue(source) else At(s, "source"))
      && At(w, "sourceNamespace") == Or(s, "sourceNamespace", StringValue("openshift-marketplace"))
  {
    OlmIsFields(lower, o);
    OlmReads(lower, o, "subscription");
    var s, source := At(o, "subscription"), At(At(o, "catalogSource"), "name").text;
    SubscriptionReads(source, s, "name");
    SubscriptionReads(source, s, "source");
    SubscriptionReads(source, s, "sourceNamespace");
  }

  // ----- readiness

  /** One check, that the subscription of that name in that namespace succeeded. */
  predicate ChecksFor(checks: Value, namespace: Value, subscription: Value) {
    && |checks.items| == 1
    && At(At(checks.items[0], "csvSucceeded"), "namespace") == namespace
    && At(At(checks.items[0], "csvSucceeded"), "subscription") == subscription
  }

  /** The section's own namespace and, after its defaults, its subscription's name. */
  function NamespaceOf(s: Value): Value {
    At(At(At(s, "olm"), "namespace"), "name")
  }

  function SubscriptionOf(lower: Lower, s: Value): Value {
    At(At(Olm(lower, At(s, "olm")), "subscription"), "name")
  }

  lemma NamespaceStays(lower: Lower, o: Value)
    ensures At(At(Olm(lower, o), "namespace"), "name") == At(At(o, "namespace"), "name")
  {
    OlmIsFields(lower, o);
    OlmReads(lower, o, "namespace");
    AtDefault(At(o, "namespace"), "management", StringValue("managed"), "name");
  }

  /** Where no checks were authored, the operator's subscription is checked if it and its namespace have names. */
  lemma ReadinessDefaults(lower: Lower, s: Value)
    ensures var r, w := At(s, "readiness"), At(Addon(lower, s), "readiness");
      && At(w, "timeout") == Or(r, "timeout", StringValue("30m"))
      && (Has(r, "checks") ==> At(w, "checks") == At(r, "checks"))
      && (!Has(r, "checks") ==>
            if Has(s, "olm") && NamespaceOf(s).text != "" && SubscriptionOf(lower, s).text != ""
            then ChecksFor(At(w, "checks"), NamespaceOf(s), SubscriptionOf(lower, s))
            else At(w, "checks") == ListValue([]))
  {
    AddonReads(lower, s, "readiness");
    var olm := Where(At(s, "olm"), Olm(lower, At(s, "olm")));
    var t := With(s, "olm", olm);
    AtWith(s, "olm", olm, "readiness");
    AtWith(s, "olm", olm, "olm");
    ReadinessReads(t, "timeout");
    ReadinessReads(t, "checks");
    NamespaceStays(lower, At(s, "olm"));
    OlmPresent(lower, At(s, "olm"));
    CheckReads(NamespaceOf(s), SubscriptionOf(lower, s));
  }

  lemma OlmPresent(lower: Lower, o: Value)
    ensures Present(o) ==> Present(Olm(lower, o))
  {
    OlmIsFields(lower, o);
  }

  lemma CheckReads(namespace: Value, subscription: Value)
    ensures var inner := MapValue([Field("namespace", namespace), Field("subscription", subscription)]);
      ChecksFor(ListValue([MapValue([Field("csvSucceeded", inner)])]), namespace, subscription)
  {
    var fields := [Field("namespace", namespace), Field("subscription", subscription)];
    assert fields[1..] == [Field("subscription", subscription)];
    assert Find(fields, "namespace") == namespace;
    assert Find(fields, "subscription") == Find(fields[1..], "subscription") == subscription;
    var check := MapValue([Field("csvSucceeded", MapValue(fields))]);
    assert At(check, "csvSucceeded") == MapValue(fields);
  }

  // ----- a binding

  /** A binding's configurations and their inputs are put in order, and nothing else changes. */
  lemma BindingSorts(s: Value, f: string)
    ensures f != "addonConfigs" ==> At(Binding(s), f) == At(s, f)
    ensures Has(s, "addonConfigs") ==>
      var items := At(Binding(s), "addonConfigs").items;
      && Sorted(ByField("addonRef"), items)
      && multiset(items) == multiset(Configs(At(s, "addonConfigs").items))
  {
    if Has(s, "addonConfigs") {
      var sorted := ListValue(Sort(ByField("addonRef"), Configs(At(s, "addonConfigs").items)));
      AtWith(s, "addonConfigs", sorted, f);
      AtWith(s, "addonConfigs", sorted, "addonConfigs");
      SortSorted(ByField("addonRef"), Configs(At(s, "addonConfigs").items));
    }
  }

  lemma ConfigSorts(v: Value, f: string)
    ensures f != "inputs" ==> At(Config(v), f) == At(v, f)
    ensures Has(v, "inputs") ==>
      var items := At(Config(v), "inputs").items;
      Sorted(ByField("name"), items) && multiset(items) == multiset(At(v, "inputs").items)
  {
    if Has(v, "inputs") {
      var sorted := ListValue(Sort(ByField("name"), At(v, "inputs").items));
      AtWith(v, "inputs", sorted, f);
      AtWith(v, "inputs", sorted, "inputs");
      SortSorted(ByField("name"), At(v, "inputs").items);
    }
  }
}
