/** The authored order of a cluster's bindings: its graph, its cycles and the entry a cycle is reported at. */
module BindingOrder {
  import opened Common
  import opened Graph
  import opened AddonOrder
  import opened AddonBlame

  datatype Binding = Binding(name: string, afterRefs: seq<string>)

  datatype CycleIssue = CycleIssue(first: string, at: int, listed: seq<string>)

  function Names(bindings: seq<Binding>): (r: seq<string>)
    ensures |r| == |bindings| && forall i | 0 <= i < |r| :: r[i] == bindings[i].name
  {
    seq(|bindings|, i requires 0 <= i < |bindings| => bindings[i].name)
  }

  function Filtered(refs: seq<string>, names: seq<string>): (r: seq<string>)
    ensures forall x :: x in r <==> x in refs && x in names
  {
    if refs == [] then []
    else Filtered(refs[..|refs| - 1], names) + (if refs[|refs| - 1] in names then [refs[|refs| - 1]] else [])
  }

  /** The references of every binding of one name that name a binding of the cluster. */
  function Kept(bindings: seq<Binding>, names: seq<string>, name: string): (r: seq<string>)
    ensures forall x :: x in r <==>
      x in names && exists i :: 0 <= i < |bindings| && bindings[i].name == name && x in bindings[i].afterRefs
  {
    if bindings == [] then []
    else
      var last := bindings[|bindings| - 1];
      var rest := Kept(bindings[..|bindings| - 1], names, name);
      if last.name == name then rest + Filtered(last.afterRefs, names) else rest
  }

  function OrderGraph(bindings: seq<Binding>): Adjacency<string> {
    var names := Names(bindings);
    map n | n in names :: Kept(bindings, names, n)
  }

  ghost predicate Follows(bindings: seq<Binding>, a: string, b: string) {
    b in Names(bindings) && exists i :: 0 <= i < |bindings| && bindings[i].name == a && b in bindings[i].afterRefs
  }

  lemma GraphFollows(bindings: seq<Binding>, a: string, b: string)
    ensures Edge(OrderGraph(bindings), a, b) <==> Follows(bindings, a, b)
  {
    if Follows(bindings, a, b) {
      var i :| 0 <= i < |bindings| && bindings[i].name == a && b in bindings[i].afterRefs;
      assert Names(bindings)[i] == a;
    }
  }

  /** The map holds for each name the entries of its bindings that name a binding. */
  ghost predicate Mirrors(bindings: seq<Binding>, after: After) {
    forall n :: Successors(after, n) == Kept(bindings, Names(bindings), n)
  }

  method BuildAfter(bindings: seq<Binding>) returns (after: After)
    ensures Mirrors(bindings, after)
  {
    var names := Names(bindings);
    after := map[];
    for i := 0 to |bindings|
      invariant forall n :: Successors(after, n) == Kept(bindings[..i], names, n)
    {
      var b := bindings[i];
      assert bindings[..i + 1][..i] == bindings[..i];
      var refs := Filtered(b.afterRefs, names);
      if refs != [] {
        after := after[b.name := Successors(after, b.name) + refs];
      }
    }
    assert bindings[..|bindings|] == bindings;
  }

  lemma SameWalks(a: Adjacency<string>, b: Adjacency<string>, x: string, y: string)
    requires forall n :: Successors(a, n) == Successors(b, n)
    ensures Reaches(a, x, y) ==> Reaches(b, x, y)
  {
    if Reaches(a, x, y) {
      var p :| Walk(a, p, x, y);
      forall i | 0 <= i < |p| - 1 ensures Edge(b, p[i], p[i + 1]) {
        assert Edge(a, p[i], p[i + 1]);
        assert Successors(a, p[i]) == Successors(b, p[i]);
      }
      assert Walk(b, p, x, y);
    }
  }

  lemma EmptyOrNot(s: seq<string>)
    ensures s == [] || exists x :: x in s
  {
    if s != [] { assert s[0] in s; }
  }

  lemma GraphIsKept(bindings: seq<Binding>, n: string)
    ensures Successors(OrderGraph(bindings), n) == Kept(bindings, Names(bindings), n)
  {
    if n !in Names(bindings) {
      var k := Kept(bindings, Names(bindings), n);
      assert forall i | 0 <= i < |bindings| :: Names(bindings)[i] != n;
      assert forall x :: x !in k;
      EmptyOrNot(k);
    }
  }

  lemma OrderBounds(bindings: seq<Binding>, after: After, start: string)
    requires Mirrors(bindings, after)
    ensures Bounds(after, Nodes(Names(bindings)), start)
  {
    forall x, y | Edge(after, x, y) ensures y in Nodes(Names(bindings)) {
      assert y in Successors(after, x);
    }
  }

  method ReachesIn(bindings: seq<Binding>, after: After, a: string, b: string) returns (found: bool)
    requires Mirrors(bindings, after)
    ensures found <==> Reaches(OrderGraph(bindings), a, b)
  {
    OrderBounds(bindings, after, a);
    found := Search<string>(after, a, b, Nodes(Names(bindings)));
    forall n ensures Successors(after, n) == Successors(OrderGraph(bindings), n) { GraphIsKept(bindings, n); }
    SameWalks(after, OrderGraph(bindings), a, b);
    SameWalks(OrderGraph(bindings), after, a, b);
  }

  /** A reference by which the binding comes after itself. */
  ghost predicate Returns(bindings: seq<Binding>, first: string, ref: string) {
    ref == first || Reaches(OrderGraph(bindings), ref, first)
  }

  /** The first entry of the binding that leads back to it, if one does. */
  ghost predicate IsFirstReturning(bindings: seq<Binding>, b: Binding, at: int) {
    && -1 <= at < |b.afterRefs|
    && (at >= 0 ==> Returns(bindings, b.name, b.afterRefs[at]))
    && forall k | 0 <= k < |b.afterRefs| && (at < 0 || k < at) :: !Returns(bindings, b.name, b.afterRefs[k])
  }

  method FindReturning(bindings: seq<Binding>, after: After, b: Binding) returns (at: int)
    requires Mirrors(bindings, after)
    ensures IsFirstReturning(bindings, b, at)
    ensures at < 0 ==> forall ref | ref in b.afterRefs :: !Returns(bindings, b.name, ref)
  {
    for k := 0 to |b.afterRefs|
      invariant forall m | 0 <= m < k :: !Returns(bindings, b.name, b.afterRefs[m])
    {
      var back := ReachesIn(bindings, after, b.afterRefs[k], b.name);
      if b.afterRefs[k] == b.name || back {
        return k;
      }
    }
    at := -1;
  }

  ghost predicate FirstOnCycle(bindings: seq<Binding>, i: nat) {
    && i < |bindings| && OnCycle(OrderGraph(bindings), bindings[i].name)
    && forall k | 0 <= k < i :: !OnCycle(OrderGraph(bindings), bindings[k].name)
  }

  /** The reported binding has an entry to report the cycle at. */
  ghost predicate Reportable(bindings: seq<Binding>) {
    forall i: nat | FirstOnCycle(bindings, i) :: exists ref | ref in bindings[i].afterRefs ::
      Returns(bindings, bindings[i].name, ref)
  }

  ghost predicate Together(bindings: seq<Binding>, a: string, b: string) {
    Reaches(OrderGraph(bindings), a, b) && Reaches(OrderGraph(bindings), b, a)
  }

  /** The names that share a cycle with the first, in their order and as often as they stand. */
  ghost function Sharing(bindings: seq<Binding>, first: string, names: seq<string>): (r: seq<string>)
    ensures forall n :: n in r <==> n in names && (n == first || Together(bindings, first, n))
  {
    if names == [] then []
    else
      var n := names[|names| - 1];
      Sharing(bindings, first, names[..|names| - 1]) + if n == first || Together(bindings, first, n) then [n] else []
  }

  method Mutual(bindings: seq<Binding>, after: After, first: string) returns (listed: seq<string>)
    requires Mirrors(bindings, after)
    ensures listed == Sharing(bindings, first, Names(bindings))
  {
    var names := Names(bindings);
    listed := [];
    for i := 0 to |names|
      invariant listed == Sharing(bindings, first, names[..i])
    {
      var there := ReachesIn(bindings, after, first, names[i]);
      var back := ReachesIn(bindings, after, names[i], first);
      assert names[..i + 1][..i] == names[..i];
      if names[i] == first || (there && back) {
        listed := listed + [names[i]];
      }
    }
    assert names[..|names|] == names;
  }

  /** A cycle is reported exactly when the authored references form one. */
  method AuthoredOrder(bindings: seq<Binding>) returns (after: After, cycle: Option<CycleIssue>)
    ensures cycle.None? <==> forall n :: n in Names(bindings) ==> !OnCycle(OrderGraph(bindings), n)
    ensures cycle.None? ==> Mirrors(bindings, after)
    ensures cycle.Some? ==> after == map[]
    ensures cycle.Some? ==> exists i: nat ::
      && FirstOnCycle(bindings, i) && cycle.value.first == bindings[i].name
      && IsFirstReturning(bindings, bindings[i], cycle.value.at)
    ensures cycle.Some? ==> cycle.value.listed == Sharing(bindings, cycle.value.first, Names(bindings))
    ensures cycle.Some? ==> (cycle.value.at >= 0 <==> Reportable(bindings))
  {
    after := BuildAfter(bindings);
    for i := 0 to |bindings|
      invariant forall k | 0 <= k < i :: !OnCycle(OrderGraph(bindings), bindings[k].name)
    {
      var b := bindings[i];
      var around := ReachesIn(bindings, after, b.name, b.name);
      if around {
        var listed := Mutual(bindings, after, b.name);
        var at := FindReturning(bindings, after, b);
        assert Names(bindings)[i] == b.name;
        FieldIsReportable(bindings, i, at);
        return map[], Some(CycleIssue(b.name, at, listed));
      }
    }
    cycle := None;
  }

  // ----- when the reported entry exists

  lemma OnlyFirst(bindings: seq<Binding>, i: nat, k: nat)
    requires FirstOnCycle(bindings, i) && FirstOnCycle(bindings, k)
    ensures i == k
  {
  }

  lemma FieldIsReportable(bindings: seq<Binding>, i: nat, at: int)
    requires FirstOnCycle(bindings, i) && -1 <= at < |bindings[i].afterRefs|
    requires at >= 0 ==> Returns(bindings, bindings[i].name, bindings[i].afterRefs[at])
    requires at < 0 ==> forall ref | ref in bindings[i].afterRefs :: !Returns(bindings, bindings[i].name, ref)
    ensures at >= 0 <==> Reportable(bindings)
  {
    forall k: nat | FirstOnCycle(bindings, k) ensures k == i {
      OnlyFirst(bindings, k, i);
    }
    if at >= 0 {
      assert bindings[i].afterRefs[at] in bindings[i].afterRefs;
    }
  }

  lemma OwnEntry(bindings: seq<Binding>, i: nat, ref: string)
    requires Distinct(Names(bindings)) && i < |bindings| && Edge(OrderGraph(bindings), bindings[i].name, ref)
    ensures ref in bindings[i].afterRefs
  {
    var names, name := Names(bindings), bindings[i].name;
    GraphFollows(bindings, name, ref);
    var k :| 0 <= k < |bindings| && bindings[k].name == name && ref in bindings[k].afterRefs;
    SameName(names, i, k);
  }

  lemma SameName(names: seq<string>, i: nat, k: nat)
    requires Distinct(names) && i < |names| && k < |names| && names[i] == names[k]
    ensures i == k
  {
  }

  /** A binding on a cycle has an edge back to itself, and alone of its name the edge is its own. */
  lemma OwnReturningEntry(bindings: seq<Binding>, i: nat) returns (ref: string)
    requires Distinct(Names(bindings)) && i < |bindings| && OnCycle(OrderGraph(bindings), bindings[i].name)
    ensures ref in bindings[i].afterRefs && Returns(bindings, bindings[i].name, ref)
  {
    ref := ReachesFirst(OrderGraph(bindings), bindings[i].name, bindings[i].name);
    OwnEntry(bindings, i, ref);
  }

  lemma DistinctIsReportable(bindings: seq<Binding>)
    requires Distinct(Names(bindings))
    ensures Reportable(bindings)
  {
    forall i: nat | FirstOnCycle(bindings, i) ensures exists ref | ref in bindings[i].afterRefs ::
      Returns(bindings, bindings[i].name, ref) {
      var ref := OwnReturningEntry(bindings, i);
    }
  }

  function Bind(names: seq<string>, refs: seq<seq<string>>): (r: seq<Binding>)
    requires |names| == |refs|
    ensures |r| == |names| && forall i | 0 <= i < |r| :: r[i] == Binding(names[i], refs[i])
    ensures Names(r) == names
  {
    seq(|names|, i requires 0 <= i < |names| => Binding(names[i], refs[i]))
  }

  /** Two bindings of one name, of which only the later one names itself. */
  lemma RepeatedIsNotReportable(names: seq<string>, i: nat, j: nat) returns (refs: seq<seq<string>>)
    requires i < j < |names| && names[i] == names[j] && forall k | 0 <= k < i :: names[k] != names[i]
    ensures |refs| == |names| && !Reportable(Bind(names, refs))
  {
    refs := seq(|names|, k => if k == j then [names[j]] else []);
    var bindings, name := Bind(names, refs), names[i];
    assert bindings[j].name == name && name in bindings[j].afterRefs && names[j] in names;
    GraphFollows(bindings, name, name);
    EdgeReaches(OrderGraph(bindings), name, name);
    forall k | 0 <= k < i ensures !OnCycle(OrderGraph(bindings), bindings[k].name) {
      if OnCycle(OrderGraph(bindings), bindings[k].name) {
        var b := ReachesFirst(OrderGraph(bindings), names[k], names[k]);
        GraphFollows(bindings, names[k], b);
      }
    }
    assert FirstOnCycle(bindings, i) && bindings[i].afterRefs == [];
  }

  /**
   The reported index is valid whatever the references say exactly when no two
   bindings of the cluster share a name.
   */
  lemma ReportableExactly(names: seq<string>)
    ensures Distinct(names) <==> forall refs: seq<seq<string>> | |refs| == |names| :: Reportable(Bind(names, refs))
  {
    if Distinct(names) {
      forall refs: seq<seq<string>> | |refs| == |names| ensures Reportable(Bind(names, refs)) {
        DistinctIsReportable(Bind(names, refs));
      }
    } else {
      var a, j :| 0 <= a < j < |names| && names[a] == names[j];
      var i := IndexOf(names, names[j]);
      forall k | 0 <= k < i ensures names[k] != names[i] {
        assert names[k] in names[..i];
      }
      var refs := RepeatedIsNotReportable(names, i, j);
    }
  }

  /** Members that carry their binding's own references back every edge the order was built from. */
  lemma DistinctIsBacked(bindings: seq<Binding>, after: After, members: seq<Member>)
    requires Distinct(Names(bindings))
    requires Mirrors(bindings, after)
    requires forall m | m in members :: Binding(m.binding, m.afterRefs) in bindings
    ensures Backed(members, after)
  {
    forall i: nat, ref | i < |members|
      && ref in Successors(after, members[i].binding) ensures ref in members[i].afterRefs {
      var m := members[i];
      var k :| 0 <= k < |bindings| && bindings[k].name == m.binding && ref in bindings[k].afterRefs;
      var j :| 0 <= j < |bindings| && bindings[j] == Binding(m.binding, m.afterRefs);
      assert Names(bindings)[k] == Names(bindings)[j];
    }
  }
}
