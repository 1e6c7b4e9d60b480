/** Ordering the members selected for one cluster: dependencies, the scheduler and what its order means. */
module AddonOrder {
  import opened Common
  import opened Graph

  datatype Member = Member(
    binding: string, name: string, offers: seq<string>, needs: seq<string>,
    afterRefs: seq<string>, last: bool, packaged: bool, authored: bool)

  function Subject(m: Member): string {
    if m.packaged && !m.authored then "package " + m.name else "ClusterAddon/" + m.name
  }

  type After = map<string, seq<string>>

  // ----- dependencies

  predicate Supplies(p: Member, m: Member) {
    exists t | t in m.needs :: t in p.offers
  }

  /** What a member runs after for its capabilities, or because it runs last. */
  function DerivedDeps(members: seq<Member>, i: nat): set<nat>
    requires i < |members|
  {
    set j: nat | j < |members| && j != i && (members[i].last || Supplies(members[j], members[i]))
  }

  /** What it runs after only because its binding says so. */
  function AuthoredDeps(members: seq<Member>, after: After, i: nat): set<nat>
    requires i < |members|
  {
    set j: nat | j < |members| && j != i && j !in DerivedDeps(members, i)
                 && members[j].binding in Successors(after, members[i].binding)
  }

  /** No other member provides the token. */
  predicate Unmet(members: seq<Member>, i: nat, token: string) {
    forall j: nat | j < |members| && j != i :: token !in members[j].offers
  }

  /** The tokens of a list that are unmet, in its order and as often as it names them. */
  function UnmetOf(members: seq<Member>, i: nat, needs: seq<string>): (r: seq<string>)
    ensures forall t :: t in r <==> t in needs && Unmet(members, i, t)
  {
    if needs == [] then []
    else
      var last := needs[|needs| - 1];
      UnmetOf(members, i, needs[..|needs| - 1]) + if Unmet(members, i, last) then [last] else []
  }

  /** The members that provide one token, and whether there is any. */
  method Providers(members: seq<Member>, i: nat, token: string) returns (found: set<nat>)
    requires i < |members|
    ensures found == ProvidersOf(members, i, token)
  {
    found := {};
    for j := 0 to |members|
      invariant found == set k: nat | k < j && k != i && token in members[k].offers
    {
      if i != j && token in members[j].offers {
        found := found + {j};
      }
    }
  }

  function ProvidersOf(members: seq<Member>, i: nat, token: string): set<nat> {
    set j: nat | j < |members| && j != i && token in members[j].offers
  }

  lemma NoProvider(members: seq<Member>, i: nat, token: string)
    ensures ProvidersOf(members, i, token) == {} <==> Unmet(members, i, token)
  {
    if ProvidersOf(members, i, token) == {} {
      forall j: nat | j < |members| && j != i ensures token !in members[j].offers {
        assert j !in ProvidersOf(members, i, token);
      }
    }
  }

  /** The members that provide some token of a list. */
  function SuppliersOf(members: seq<Member>, i: nat, needs: seq<string>): set<nat> {
    set j: nat | j < |members| && j != i && exists t | t in needs :: t in members[j].offers
  }

  lemma SuppliersSnoc(members: seq<Member>, i: nat, needs: seq<string>, k: nat)
    requires k < |needs|
    ensures SuppliersOf(members, i, needs[..k + 1]) ==
      SuppliersOf(members, i, needs[..k]) + ProvidersOf(members, i, needs[k])
    ensures UnmetOf(members, i, needs[..k + 1])
         == UnmetOf(members, i, needs[..k]) + if ProvidersOf(members, i, needs[k]) == {} then [needs[k]] else []
  {
    assert needs[..k + 1] == needs[..k] + [needs[k]] && needs[..k + 1][..k] == needs[..k];
    NoProvider(members, i, needs[k]);
  }

  method Required(members: seq<Member>, i: nat) returns (deps: set<nat>, missing: seq<string>)
    requires i < |members|
    ensures deps == SuppliersOf(members, i, members[i].needs)
    ensures missing == UnmetOf(members, i, members[i].needs)
  {
    deps, missing := {}, [];
    var needs := members[i].needs;
    for k := 0 to |needs|
      invariant deps == SuppliersOf(members, i, needs[..k]) && missing == UnmetOf(members, i, needs[..k])
    {
      var found := Providers(members, i, needs[k]);
      SuppliersSnoc(members, i, needs, k);
      deps := deps + found;
      if found == {} {
        missing := missing + [needs[k]];
      }
    }
    assert needs[..|needs|] == needs;
  }

  method DerivedOf(members: seq<Member>, i: nat) returns (deps: set<nat>, missing: seq<string>)
    requires i < |members|
    ensures deps == DerivedDeps(members, i)
    ensures missing == UnmetOf(members, i, members[i].needs)
  {
    deps, missing := Required(members, i);
    if members[i].last {
      for j := 0 to |members|
        invariant deps == set k: nat | k < |members| && k != i && (k < j || Supplies(members[k], members[i]))
      {
        if j != i {
          deps := deps + {j};
        }
      }
    }
  }

  method DependenciesOf(members: seq<Member>, after: After, i: nat)

      returns (deps: set<nat>, authored: set<nat>, missing: seq<string>)
    requires i < |members|
    ensures authored == AuthoredDeps(members, after, i)
    ensures deps == DerivedDeps(members, i) + authored
    ensures missing == UnmetOf(members, i, members[i].needs)
  {
    deps, missing := DerivedOf(members, i);
    authored := {};
    for j := 0 to |members|
      invariant authored == set k | k in AuthoredDeps(members, after, i) && k < j
      invariant deps == DerivedDeps(members, i) + authored
    {
      if j != i && j !in deps && members[j].binding in Successors(after, members[i].binding) {
        deps, authored := deps + {j}, authored + {j};
      }
    }
  }

  type Dependencies = seq<set<nat>>

  /** Dependencies name other members only. */
  predicate Proper(deps: Dependencies) {
    forall i: nat, j: nat | i < |deps| && j in deps[i] :: j < |deps| && j != i
  }

  method AllDependencies(members: seq<Member>, after: After)

      returns (deps: Dependencies, authored: Dependencies, missing: seq<seq<string>>)
    ensures |deps| == |authored| == |missing| == |members| && Proper(deps)
    ensures forall i: nat | i < |members| ::
      && authored[i] == AuthoredDeps(members, after, i)
      && deps[i] == DerivedDeps(members, i) + authored[i]
      && missing[i] == UnmetOf(members, i, members[i].needs)
  {
    deps, authored, missing := [], [], [];
    for i := 0 to |members|
      invariant |deps| == |authored| == |missing| == i
      invariant forall k: nat | k < i ::
        && authored[k] == AuthoredDeps(members, after, k)
        && deps[k] == DerivedDeps(members, k) + authored[k]
        && missing[k] == UnmetOf(members, k, members[k].needs)
    {
      var d, a, m := DependenciesOf(members, after, i);
      deps, authored, missing := deps + [d], authored + [a], missing + [m];
    }
  }

  // ----- the graph of the dependencies

  /** The elements of a set below n, in ascending order. */
  function Listing(s: set<nat>, n: nat): (r: seq<nat>)
    ensures forall x: nat :: x in r <==> x in s && x < n
    ensures forall i, j | 0 <= i < j < |r| :: r[i] < r[j]
  {
    if n == 0 then []
    else
      var below := Listing(s, n - 1);
      assert forall i | 0 <= i < |below| :: below[i] in below;
      if n - 1 in s then below + [n - 1] else below
  }

  function GraphOf(deps: Dependencies): (adj: Adjacency<nat>)
    ensures forall i: nat, j: nat :: Edge(adj, i, j) <==> i < |deps| && j < |deps| && j in deps[i]
  {
    map i: nat | i < |deps| :: Listing(deps[i], |deps|)
  }

  // ----- what an order is

  predicate Ready(deps: Dependencies, past: set<nat>, x: nat) {
    x < |deps| && x !in past && deps[x] <= past
  }

  /** The scheduler's choice: the least ready member. */
  predicate IsNext(deps: Dependencies, past: set<nat>, x: nat) {
    Ready(deps, past, x) && forall y: nat | y < x :: !Ready(deps, past, y)
  }

  /** Every member of the order was the least ready one when it was chosen. */
  predicate Greedy(deps: Dependencies, order: seq<nat>) {
    order == [] ||
    (Greedy(deps, order[..|order| - 1]) && IsNext(deps, Nodes(order[..|order| - 1]), order[|order| - 1]))
  }

  /** Every member of the order was ready when it was chosen, so none is repeated. */
  predicate Respects(deps: Dependencies, order: seq<nat>) {
    forall k | 0 <= k < |order| :: Ready(deps, Nodes(order[..k]), order[k])
  }

  predicate NoneReady(deps: Dependencies, past: set<nat>) {
    forall x: nat | x < |deps| :: !Ready(deps, past, x)
  }

  predicate Stuck(deps: Dependencies, order: seq<nat>) {
    NoneReady(deps, Nodes(order))
  }

  lemma {:induction false} GreedyAt(deps: Dependencies, order: seq<nat>, k: nat)
    requires Greedy(deps, order) && k < |order|
    ensures IsNext(deps, Nodes(order[..k]), order[k])
  {
    if k < |order| - 1 {
      GreedyAt(deps, order[..|order| - 1], k);
      assert order[..|order| - 1][..k] == order[..k];
    }
  }

  lemma GreedyRespects(deps: Dependencies, order: seq<nat>)
    requires Greedy(deps, order)
    ensures Respects(deps, order)
  {
    forall k | 0 <= k < |order| ensures Ready(deps, Nodes(order[..k]), order[k]) {
      GreedyAt(deps, order, k);
    }
  }

  lemma RespectsDistinct(deps: Dependencies, order: seq<nat>, i: nat, j: nat)
    requires Respects(deps, order) && i < j < |order|
    ensures order[i] != order[j]
  {
    assert order[i] == order[..j][i];
    assert Ready(deps, Nodes(order[..j]), order[j]);
  }

  lemma RespectsSize(deps: Dependencies, order: seq<nat>)
    requires Respects(deps, order)
    ensures |Nodes(order)| == |order| <= |deps|
    ensures |order| == |deps| ==> Nodes(order) == Indices(|deps|)
  {
    forall i, j | 0 <= i < j < |order| ensures order[i] != order[j] {
      RespectsDistinct(deps, order, i, j);
    }
    NodesOfDistinct(order);
    assert Nodes(order) <= Indices(|deps|) by {
      forall x | x in order ensures x in Indices(|deps|) {
        var k :| 0 <= k < |order| && order[k] == x;
        assert Ready(deps, Nodes(order[..k]), order[k]);
      }
    }
    NotLarger(Nodes(order), Indices(|deps|));
    if |order| == |deps| {
      SameSize(Nodes(order), Indices(|deps|));
    }
  }

  function Indices(n: nat): (r: set<nat>)
    ensures forall x: nat :: x in r <==> x < n
    ensures |r| == n
  {
    if n == 0 then {} else Indices(n - 1) + {n - 1}
  }

  lemma {:induction false} FirstDifference(a: seq<nat>, b: seq<nat>) returns (k: nat)
    requires |a| == |b| && a != b
    ensures k < |a| && a[..k] == b[..k] && a[k] != b[k]
  {
    k := 0;
    while a[k] == b[k]
      invariant k < |a| && a[..k] == b[..k]
      decreases |a| - k
    {
      assert k + 1 == |a| ==> a == b;
      k := k + 1;
    }
  }

  /** Of all orders of every member that respect the dependencies, the greedy one is the least. */
  lemma GreedyIsLeast(deps: Dependencies, order: seq<nat>, other: seq<nat>)
    requires Greedy(deps, order) && |order| == |deps|
    requires Respects(deps, other) && |other| == |deps|
    ensures other == order || exists k :: 0 <= k < |order| && order[..k] == other[..k] && order[k] < other[k]
  {
    if other != order {
      var k := FirstDifference(order, other);
      assert Ready(deps, Nodes(other[..k]), other[k]);
      GreedyAt(deps, order, k);
    }
  }
}
