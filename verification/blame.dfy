/** Naming a cycle: which members it goes through, and which authored entry closes it. */
module AddonBlame {
  import opened Common
  import opened Graph
  import opened AddonOrder
  import opened AddonSchedule

  /** Left unscheduled and mutually reachable with first. */
  ghost predicate Listed(adj: Adjacency<nat>, done: seq<bool>, first: nat, k: nat) {
    k < |done| && !done[k] && Reaches(adj, first, k) && Reaches(adj, k, first)
  }

  ghost predicate OpenCycle(adj: Adjacency<nat>, done: seq<bool>, k: nat) {
    k < |done| && !done[k] && OnCycle(adj, k)
  }

  lemma GraphBounds(deps: Dependencies, i: nat)
    ensures Bounds(GraphOf(deps), Indices(|deps|), i)
  {
  }

  lemma ListedOnCycle(adj: Adjacency<nat>, done: seq<bool>, first: nat, k: nat)
    requires Listed(adj, done, first, k)
    ensures OpenCycle(adj, done, k)
  {
    ReachesTrans(adj, k, first, k);
  }

  /** The first open member on a cycle, or none, and the open members of its cycles. */
  method CycleMembers(deps: Dependencies, done: seq<bool>) returns (first: int, cycle: seq<nat>)
    requires |done| == |deps|
    ensures -1 <= first < |deps|
    ensures first < 0 ==> cycle == [] && forall k: nat :: !OpenCycle(GraphOf(deps), done, k)
    ensures first >= 0 ==> OpenCycle(GraphOf(deps), done, first)
    ensures first >= 0 ==> forall k: nat | k < first :: !OpenCycle(GraphOf(deps), done, k)
    ensures first >= 0 ==> forall k: nat :: k in cycle <==> Listed(GraphOf(deps), done, first, k)
    ensures Within(cycle, |deps|) && Ascending(cycle)
  {
    var adj := GraphOf(deps);
    first, cycle := -1, [];
    for i := 0 to |deps|
      invariant -1 <= first < i
      invariant first < 0 ==> cycle == [] && forall k: nat | k < i :: !OpenCycle(adj, done, k)
      invariant first >= 0 ==> OpenCycle(adj, done, first) && forall k: nat | k < first :: !OpenCycle(adj, done, k)
      invariant first >= 0 ==> forall k: nat :: k in cycle <==> k < i && Listed(adj, done, first, k)
      invariant Within(cycle, |deps|) && Within(cycle, i) && Ascending(cycle)
    {
      GraphBounds(deps, i);
      var around := Search<nat>(adj, i, i, Indices(|deps|));
      assert OpenCycle(adj, done, i) <==> !done[i] && around;
      if !done[i] && around {
        if first < 0 {
          first := i;
          forall k: nat | k < i ensures !Listed(adj, done, i, k) {
            if Listed(adj, done, i, k) { ListedOnCycle(adj, done, i, k); }
          }
        }
        GraphBounds(deps, first);
        var there := Search<nat>(adj, first, i, Indices(|deps|));
        var back := Search<nat>(adj, i, first, Indices(|deps|));
        assert Listed(adj, done, first, i) <==> there && back;
        if there && back {
          cycle := cycle + [i];
        }
      } else if first >= 0 && Listed(adj, done, first, i) {
        ListedOnCycle(adj, done, first, i);
      }
    }
  }

  // ----- the scheduler's complaint

  datatype Complaint =
    | CapabilityCycle(member: nat, cycle: seq<nat>)
    | OrderingCycle(member: nat, via: nat, field: int, cycle: seq<nat>)

  function Without(deps: Dependencies, authored: Dependencies): Dependencies
    requires |deps| == |authored|
  {
    seq(|deps|, i requires 0 <= i < |deps| => deps[i] - authored[i])
  }

  /** A walk with no authored edge is a walk of the derived graph. */
  lemma CycleHasAuthoredEdge(deps: Dependencies, authored: Dependencies, first: nat) returns (i: nat, j: nat)
    requires |deps| == |authored| && Proper(deps)
    requires OnCycle(GraphOf(deps), first) && !OnCycle(GraphOf(Without(deps, authored)), first)
    ensures i < |deps| && j in deps[i] && j in authored[i]
    ensures Reaches(GraphOf(deps), first, i) && Reaches(GraphOf(deps), i, first)
    ensures Reaches(GraphOf(deps), first, j) && Reaches(GraphOf(deps), j, first)
  {
    var adj, derived := GraphOf(deps), GraphOf(Without(deps, authored));
    var p :| Walk(adj, p, first, first);
    var k := 0;
    while k < |p| - 1 && Edge(derived, p[k], p[k + 1])
      invariant k < |p| && forall m | 0 <= m < k :: Edge(derived, p[m], p[m + 1])
    {
      k := k + 1;
    }
    assert k < |p| - 1 by {
      if k == |p| - 1 { assert Walk(derived, p, first, first); }
    }
    i, j := p[k], p[k + 1];
    assert Edge(adj, p[k], p[k + 1]);
    WalkParts(adj, p, first, first, k);
    WalkParts(adj, p, first, first, k + 1);
  }

  /** Every node of a closed walk reaches its ends and is reached from them. */
  lemma WalkParts<T(!new)>(adj: Adjacency<T>, p: seq<T>, a: T, b: T, k: nat)
    requires Walk(adj, p, a, b) && k < |p| && a == b
    ensures Reaches(adj, a, p[k]) && Reaches(adj, p[k], a)
  {
    if 0 < k < |p| - 1 {
      assert Walk(adj, p[..k + 1], a, p[k]);
      var q := p[k..];
      forall i | 0 <= i < |q| - 1 ensures Edge(adj, q[i], q[i + 1]) {
        assert Edge(adj, p[k + i], p[k + i + 1]);
      }
      assert Walk(adj, q, p[k], b);
    }
  }

  function IndexOf(refs: seq<string>, x: string): (at: int)
    ensures -1 <= at < |refs|
    ensures at >= 0 <==> x in refs
    ensures at >= 0 ==> refs[at] == x && x !in refs[..at]
  {
    if refs == [] then -1
    else if refs[0] == x then 0
    else
      var rest := IndexOf(refs[1..], x);
      if rest < 0 then -1 else 1 + rest
  }

  function Subjects(members: seq<Member>, cycle: seq<nat>): (r: seq<string>)
    requires Within(cycle, |members|)
    ensures |r| == |cycle| && forall k | 0 <= k < |cycle| :: r[k] == Subject(members[cycle[k]])
  {
    seq(|cycle|, k requires 0 <= k < |cycle| => Subject(members[cycle[k]]))
  }

  ghost predicate Blamable(members: seq<Member>, authored: Dependencies, named: seq<string>, i: nat, j: nat) {
    i < |members| == |authored| && j < |members| && j in authored[i]
    && Subject(members[i]) in named && Subject(members[j]) in named
  }

  /** No edge before it, row by row, is to blame. */
  ghost predicate FirstBlamable(members: seq<Member>, authored: Dependencies, named: seq<string>, i: nat, j: nat) {
    && Blamable(members, authored, named, i, j)
    && (forall a: nat, b: nat | a < i :: !Blamable(members, authored, named, a, b))
    && (forall b: nat | b < j :: !Blamable(members, authored, named, i, b))
  }

  /** The first authored edge, row by row, between members the list names. */
  method FindAuthored(members: seq<Member>, authored: Dependencies, named: seq<string>) returns (i: int, j: int)
    requires |authored| == |members|
    ensures i >= 0 ==> j >= 0 && FirstBlamable(members, authored, named, i, j)
    ensures i < 0 ==> forall a: nat, b: nat :: !Blamable(members, authored, named, a, b)
  {
    for a := 0 to |members|
      invariant forall x: nat, y: nat | x < a :: !Blamable(members, authored, named, x, y)
    {
      for b := 0 to |members|
        invariant forall y: nat | y < b :: !Blamable(members, authored, named, a, y)
      {
        if b in authored[a] && Subject(members[a]) in named && Subject(members[b]) in named {
          return a, b;
        }
      }
    }
    i, j := -1, -1;
  }

  /** Every reference the order was built from stands in the member's own list. */
  predicate Backed(members: seq<Member>, after: After) {
    forall i: nat, ref | i < |members| && ref in Successors(after, members[i].binding) :: ref in members[i].afterRefs
  }

  ghost predicate Left(deps: Dependencies, done: seq<bool>, order: seq<nat>) {
    && |done| == |deps| && |order| < |deps|
    && Proper(deps) && Respects(deps, order) && Stuck(deps, order)
    && Marked(Nodes(order), done)
  }

  lemma CycleIsOpen(deps: Dependencies, done: seq<bool>, order: seq<nat>, k: nat)
    requires Left(deps, done, order) && k < |deps| && ReachesCycle(GraphOf(deps), k)
    ensures !done[k]
  {
    ScheduledExactly(deps, order, k);
  }

  /** The member is the first on a cycle among those left, and listed are exactly those that share one with it. */
  ghost predicate Found(deps: Dependencies, done: seq<bool>, first: nat, cycle: seq<nat>) {
    && OpenCycle(GraphOf(deps), done, first)
    && (forall k: nat | k < first :: !OpenCycle(GraphOf(deps), done, k))
    && (forall k: nat :: k in cycle <==> Listed(GraphOf(deps), done, first, k))
    && Ascending(cycle)
  }

  /**
   A cycle of derived dependencies is blamed where there is one; only otherwise a
   cycle of all of them, at an authored edge between members that it names.
   */
  ghost predicate Diagnosed(members: seq<Member>, after: After, deps: Dependencies, authored: Dependencies,
      done: seq<bool>, c: Complaint)
    requires |deps| == |authored|
  {
    match c
    case CapabilityCycle(member, cycle) => Found(Without(deps, authored), done, member, cycle)
    case OrderingCycle(member, via, field, cycle) =>
      && (forall k: nat :: !OpenCycle(GraphOf(Without(deps, authored)), done, k))
      && (exists first: nat :: Found(deps, done, first, cycle))
      && Within(cycle, |members|)
      && FirstBlamable(members, authored, Subjects(members, cycle), member, via)
      && member < |members| && via < |members|
      && field == IndexOf(members[member].afterRefs, members[via].binding)
      && (Backed(members, after) ==> field >= 0)
  }

  /**
   What the scheduler reports when nothing is ready: a cycle of the derived
   dependencies if there is one, and otherwise an authored entry of a cycle.
   */
  method Diagnose(members: seq<Member>, after: After, deps: Dependencies, authored: Dependencies, done: seq<bool>,
      ghost order: seq<nat>)
    returns (c: Complaint)
    requires |deps| == |authored| == |members| && Left(deps, done, order)
    requires forall i: nat | i < |members| :: authored[i] == AuthoredDeps(members, after, i)
    ensures Diagnosed(members, after, deps, authored, done, c)
  {
    var first, cycle := CycleMembers(Without(deps, authored), done);
    if first >= 0 {
      return CapabilityCycle(first, cycle);
    }
    first, cycle := CycleMembers(deps, done);
    assert first >= 0 by {
      var x := LeftHasCycle(deps, order);
      assert OpenCycle(GraphOf(deps), done, x);
    }
    assert Found(deps, done, first, cycle);
    var named := Subjects(members, cycle);
    var i, j := FindAuthored(members, authored, named);
    assert i >= 0 by {
      AuthoredEdgeIsNamed(members, deps, authored, done, order, first, cycle);
    }
    c := OrderingCycle(i, j, IndexOf(members[i].afterRefs, members[j].binding), cycle);
  }

  lemma AuthoredEdgeIsNamed(members: seq<Member>, deps: Dependencies, authored: Dependencies, done: seq<bool>,
      order: seq<nat>, first: nat, cycle: seq<nat>)
    requires |deps| == |authored| == |members| && Left(deps, done, order) && Within(cycle, |members|)
    requires OpenCycle(GraphOf(deps), done, first) && !OpenCycle(GraphOf(Without(deps, authored)), done, first)
    requires forall k: nat :: k in cycle <==> Listed(GraphOf(deps), done, first, k)
    ensures exists i: nat, j: nat :: Blamable(members, authored, Subjects(members, cycle), i, j)
  {
    var i, j := CycleHasAuthoredEdge(deps, authored, first);
    CycleIsOpen(deps, done, order, i);
    CycleIsOpen(deps, done, order, j);
    assert i in cycle && j in cycle;
    var a :| 0 <= a < |cycle| && cycle[a] == i;
    var b :| 0 <= b < |cycle| && cycle[b] == j;
    var named := Subjects(members, cycle);
    assert named[a] == Subject(members[i]) && named[b] == Subject(members[j]);
    assert Blamable(members, authored, named, i, j);
  }

  /** The member offers what another needs, or that one runs last, or its binding was authored to come after. */
  predicate Precedes(members: seq<Member>, after: After, j: nat, i: nat)
    requires i < |members| && j < |members|
  {
    || members[i].last
    || (exists t :: t in members[i].needs && t in members[j].offers)
    || members[j].binding in Successors(after, members[i].binding)
  }

  /** An instance lists exactly the other members that precede it. */
  predicate Provided(members: seq<Member>, after: After, result: seq<Instance>) {
    forall r, j: nat | r in result && r.member < |members| && j < |members| && j != r.member ::
      j in r.providers <==> Precedes(members, after, j, r.member)
  }

  lemma ProvidersListed(members: seq<Member>, after: After, deps: Dependencies, order: seq<nat>, result: seq<Instance>)
    requires |deps| == |members| && Instanced(members, deps, order, result)
    requires forall i: nat | i < |members| :: deps[i] == DerivedDeps(members, i) + AuthoredDeps(members, after, i)
    ensures Provided(members, after, result)
  {
    forall r, j: nat | r in result && r.member < |members| && j < |members| && j != r.member
      ensures j in r.providers <==> Precedes(members, after, j, r.member)
    {
      var i := r.member;
      assert deps[i] == DerivedDeps(members, i) + AuthoredDeps(members, after, i);
      assert Supplies(members[j], members[i]) <==> exists t :: t in members[i].needs && t in members[j].offers;
    }
  }

  /** The whole of the source's ordering of one cluster's members. */
  method OrderMembers(members: seq<Member>, after: After)
    returns (result: seq<Instance>, complaint: Option<Complaint>, missing: seq<seq<string>>, deps: Dependencies,
        authored: Dependencies,
             done: seq<bool>, ghost order: seq<nat>)
    ensures |deps| == |authored| == |missing| == |members| && Proper(deps)
    ensures forall i: nat | i < |members| ::
      authored[i] == AuthoredDeps(members, after, i) && deps[i] == DerivedDeps(members, i) + authored[i]
    ensures forall i: nat | i < |members| :: missing[i] == UnmetOf(members, i, members[i].needs)
    ensures Greedy(deps, order) && Stuck(deps, order) && Within(order, |members|)
    ensures Instanced(members, deps, order, result) && Provided(members, after, result)
    ensures complaint.None? <==> Acyclic(deps)
    ensures |done| == |members| && Marked(Nodes(order), done)
    ensures complaint.Some? ==> Diagnosed(members, after, deps, authored, done, complaint.value)
  {
    deps, authored, missing := AllDependencies(members, after);
    order, result, done := ScheduleMarked(members, deps);
    GreedyRespects(deps, order);
    ScheduleIsTotal(deps, order);
    InstancesExactly(members, deps, order);
    ProvidersListed(members, after, deps, order, result);
    if exists i: nat :: i < |done| && !done[i] {
      LeftIsShort(deps, order, done);
      var c := Diagnose(members, after, deps, authored, done, order);
      complaint := Some(c);
    } else {
      AllDoneIsFull(deps, order, done);
      complaint := None;
    }
  }

  /** The scheduler's loop with the flags it leaves behind. */
  method ScheduleMarked(members: seq<Member>, deps: Dependencies)
      returns (ghost order: seq<nat>, result: seq<Instance>, done: seq<bool>)
    requires |deps| == |members|
    ensures Greedy(deps, order) && Stuck(deps, order) && Within(order, |members|)
    ensures result == InstancesOf(members, deps, order)
    ensures |done| == |deps| && Marked(Nodes(order), done)
  {
    var o, r, left := Schedule(members, deps);
    order, result := o, r;
    done := seq(|deps|, i requires 0 <= i < |deps| => i in o);
  }

  lemma LeftIsShort(deps: Dependencies, order: seq<nat>, done: seq<bool>)
    requires Respects(deps, order) && |done| == |deps| && Marked(Nodes(order), done)
    requires exists i: nat :: i < |done| && !done[i]
    ensures |order| < |deps|
  {
    RespectsSize(deps, order);
    var i: nat :| i < |done| && !done[i];
    assert i in Indices(|deps|) && i !in Nodes(order);
  }

  lemma AllDoneIsFull(deps: Dependencies, order: seq<nat>, done: seq<bool>)
    requires Respects(deps, order) && |done| == |deps| && Marked(Nodes(order), done)
    requires forall i: nat :: i < |done| ==> done[i]
    ensures |order| == |deps|
  {
    RespectsSize(deps, order);
    assert Indices(|deps|) <= Nodes(order);
    NotLarger(Indices(|deps|), Nodes(order));
  }
}
