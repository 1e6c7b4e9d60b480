/** The counting scheduler, and the diagnosis it gives when no member is ready. */
module AddonSchedule {
  import opened Common
  import opened Graph
  import opened AddonOrder

  /** An instance runs at its place in the order and records what it depended on. */
  datatype Instance = Instance(member: nat, providers: seq<nat>)

  predicate Within(order: seq<nat>, n: nat) {
    forall k | 0 <= k < |order| :: order[k] < n
  }

  function InstancesOf(members: seq<Member>, deps: Dependencies, order: seq<nat>): seq<Instance>
    requires |deps| == |members| && Within(order, |members|)
  {
    if order == [] then []
    else
      InstancesOf(members, deps, order[..|order| - 1]) + Emitted(members, deps, order[|order| - 1])
  }

  /** A member without a package only orders others. */
  function Emitted(members: seq<Member>, deps: Dependencies, x: nat): seq<Instance>
    requires x < |deps| == |members|
  {
    if members[x].packaged then [Instance(x, Listing(deps[x], |deps|))] else []
  }

  // ----- what the instances are

  predicate Ascending(s: seq<nat>) {
    forall i, j | 0 <= i < j < |s| :: s[i] < s[j]
  }

  ghost predicate Earlier(order: seq<nat>, a: nat, b: nat) {
    exists p, q :: 0 <= p < q < |order| && order[p] == a && order[q] == b
  }

  /**
   The instances are those of the scheduled members that have a package, each once
   and in the order's order, and each lists in ascending order exactly the members
   it depends on.
   */
  ghost predicate Instanced(members: seq<Member>, deps: Dependencies, order: seq<nat>, result: seq<Instance>) {
    && (forall r | r in result :: r.member in order && r.member < |members| == |deps| && members[r.member].packaged)
    && (forall x | x in order && x < |members| && members[x].packaged :: exists r :: r in result && r.member == x)
    && (forall i, j | 0 <= i < j < |result| :: Earlier(order, result[i].member, result[j].member))
    && (forall r | r in result && r.member < |deps| ::
          Ascending(r.providers) && forall k: nat :: k in r.providers <==> k in deps[r.member])
  }

  lemma EarlierGrows(order: seq<nat>, x: nat, a: nat, b: nat)
    requires Earlier(order, a, b)
    ensures Earlier(order + [x], a, b)
  {
    var p, q :| 0 <= p < q < |order| && order[p] == a && order[q] == b;
    assert (order + [x])[p] == a && (order + [x])[q] == b;
  }

  lemma EarlierLast(order: seq<nat>, x: nat, a: nat)
    requires a in order
    ensures Earlier(order + [x], a, x)
  {
    var p :| 0 <= p < |order| && order[p] == a;
    assert (order + [x])[p] == a && (order + [x])[|order|] == x;
  }

  /** One member more: its instance is last, and only where it has a package. */
  lemma InstancedSnoc(members: seq<Member>, deps: Dependencies, front: seq<nat>, x: nat, was: seq<Instance>)
    requires |deps| == |members| && Proper(deps) && x < |members| && Instanced(members, deps, front, was)
    ensures Instanced(members, deps, front + [x], was + Emitted(members, deps, x))
  {
    var order, result := front + [x], was + Emitted(members, deps, x);
    forall i, j | 0 <= i < j < |result| ensures Earlier(order, result[i].member, result[j].member) {
      assert was[i] in was;
      if j < |was| {
        EarlierGrows(front, x, was[i].member, was[j].member);
      } else {
        EarlierLast(front, x, was[i].member);
      }
    }
    forall y | y in order && y < |members| && members[y].packaged ensures exists r :: r in result && r.member == y {
      if y in front {
        var r :| r in was && r.member == y;
        assert r in result;
      } else {
        assert Instance(x, Listing(deps[x], |deps|)) in Emitted(members, deps, x);
      }
    }
  }

  lemma {:induction false} InstancesExactly(members: seq<Member>, deps: Dependencies, order: seq<nat>)
    requires |deps| == |members| && Proper(deps) && Within(order, |members|)
    ensures Instanced(members, deps, order, InstancesOf(members, deps, order))
    decreases |order|
  {
    if order != [] {
      var front, x := order[..|order| - 1], order[|order| - 1];
      InstancesExactly(members, deps, front);
      InstancedSnoc(members, deps, front, x, InstancesOf(members, deps, front));
      assert order == front + [x];
    }
  }

  /** How many dependencies of each member are unscheduled. */
  predicate Counted(deps: Dependencies, past: set<nat>, remaining: seq<int>) {
    |remaining| == |deps| && forall i | 0 <= i < |deps| :: remaining[i] == |deps[i] - past|
  }

  predicate Marked(past: set<nat>, done: seq<bool>) {
    forall i: nat | i < |done| :: done[i] <==> i in past
  }

  lemma ReadyCounts(deps: Dependencies, past: set<nat>, remaining: seq<int>, x: nat)
    requires Counted(deps, past, remaining) && x < |deps|
    ensures remaining[x] == 0 <==> deps[x] <= past
  {
    var open := deps[x] - past;
    assert forall y | y in deps[x] && y !in past :: y in open;
    assert open == {} <==> |open| == 0;
  }

  method FindReady(deps: Dependencies, ghost past: set<nat>, remaining: array<int>,
      done: array<bool>) returns (next: int)
    requires remaining.Length == done.Length == |deps|
    requires Counted(deps, past, remaining[..]) && Marked(past, done[..])
    ensures next < 0 ==> NoneReady(deps, past)
    ensures next >= 0 ==> IsNext(deps, past, next)
  {
    for i := 0 to |deps|
      invariant forall y: nat | y < i :: !Ready(deps, past, y)
    {
      ReadyCounts(deps, past, remaining[..], i);
      assert done[i] == done[..][i] && remaining[i] == remaining[..][i];
      if !done[i] && remaining[i] == 0 {
        return i;
      }
    }
    next := -1;
  }

  method Settle(deps: Dependencies, ghost past: set<nat>, remaining: array<int>, next: nat)
    requires remaining.Length == |deps| && next !in past
    requires Counted(deps, past, remaining[..])
    modifies remaining
    ensures Counted(deps, past + {next}, remaining[..])
  {
    for i := 0 to |deps|
      invariant forall k | 0 <= k < i :: remaining[k] == |deps[k] - (past + {next})|
      invariant forall k | i <= k < |deps| :: remaining[k] == |deps[k] - past|
    {
      assert deps[i] - (past + {next}) == (deps[i] - past) - {next};
      if next in deps[i] {
        remaining[i] := remaining[i] - 1;
      } else {
        assert deps[i] - (past + {next}) == deps[i] - past;
      }
    }
  }

  method Begin(deps: Dependencies) returns (remaining: array<int>, done: array<bool>)
    ensures fresh(remaining) && fresh(done) && remaining.Length == done.Length == |deps|
    ensures Counted(deps, {}, remaining[..]) && Marked({}, done[..])
  {
    remaining := new int[|deps|];
    done := new bool[|deps|];
    for i := 0 to |deps|
      invariant forall k: nat | k < i :: remaining[k] == |deps[k] - {}| && !done[k]
    {
      assert deps[i] - {} == deps[i];
      remaining[i], done[i] := |deps[i]|, false;
    }
  }

  /** One turn of the scheduler: choose the least ready member and settle its dependents. */
  method Choose(deps: Dependencies, ghost past: set<nat>, remaining: array<int>, done: array<bool>) returns (next: int)
    requires remaining.Length == done.Length == |deps|
    requires Counted(deps, past, remaining[..]) && Marked(past, done[..])
    modifies remaining, done
    ensures next < 0 ==> remaining[..] == old(remaining[..]) && NoneReady(deps, past)
    ensures next >= 0 ==> IsNext(deps, past, next)
    ensures next >= 0 ==> Counted(deps, past + {next}, remaining[..]) && Marked(past + {next}, done[..])
  {
    next := FindReady(deps, past, remaining, done);
    if next < 0 {
      return;
    }
    ghost var was := done[..];
    done[next] := true;
    assert done[..] == was[next := true];
    Settle(deps, past, remaining, next);
  }

  /** The order so far is greedy and the result is what it emitted. */
  predicate Progress(members: seq<Member>, deps: Dependencies, order: seq<nat>, result: seq<Instance>) {
    |deps| == |members| && Greedy(deps, order) && Within(order, |members|)
      && result == InstancesOf(members, deps, order)
  }

  lemma ProgressInstanced(members: seq<Member>, deps: Dependencies, order: seq<nat>, result: seq<Instance>)
    requires Progress(members, deps, order, result)
    ensures Proper(deps) ==> Instanced(members, deps, order, result)
  {
    if Proper(deps) {
      InstancesExactly(members, deps, order);
    }
  }

  lemma ProgressSnoc(members: seq<Member>, deps: Dependencies, order: seq<nat>, result: seq<Instance>, next: nat)
    requires Progress(members, deps, order, result) && IsNext(deps, Nodes(order), next)
    ensures Progress(members, deps, order + [next], result + Emitted(members, deps, next))
    ensures Nodes(order + [next]) == Nodes(order) + {next}
  {
    assert (order + [next])[..|order|] == order;
  }

  /** The scheduler's loop. It stops early exactly when nothing is ready. */
  method Schedule(members: seq<Member>, deps: Dependencies)
    returns (order: seq<nat>, result: seq<Instance>, left: seq<int>)
    requires |deps| == |members|
    ensures Progress(members, deps, order, result)
    ensures Stuck(deps, order)
    ensures Counted(deps, Nodes(order), left)
    ensures Proper(deps) ==> Instanced(members, deps, order, result)
  {
    var remaining, done := Begin(deps);
    order, result := [], [];
    ghost var past: set<nat> := {};
    for count := 0 to |members|
      invariant |order| == count && past == Nodes(order)
      invariant Progress(members, deps, order, result)
      invariant Counted(deps, past, remaining[..]) && Marked(past, done[..])
    {
      var next := Choose(deps, past, remaining, done);
      if next < 0 {
        left := remaining[..];
        ProgressInstanced(members, deps, order, result);
        return;
      }
      var chosen: nat := next;
      ProgressSnoc(members, deps, order, result, chosen);
      order, result := order + [chosen], result + Emitted(members, deps, chosen);
      past := past + {chosen};
    }
    FullIsStuck(deps, order);
    left := remaining[..];
    ProgressInstanced(members, deps, order, result);
  }

  lemma FullIsStuck(deps: Dependencies, order: seq<nat>)
    requires Greedy(deps, order) && |order| == |deps|
    ensures Stuck(deps, order)
  {
    GreedyRespects(deps, order);
    RespectsSize(deps, order);
  }

  // ----- which members are scheduled

  /** What a scheduled member reaches was scheduled before it, so it reaches no cycle. */
  lemma {:induction false} ScheduledReach(deps: Dependencies, order: seq<nat>, k: nat, y: nat)
    requires Proper(deps) && Respects(deps, order) && k < |order| && Reaches(GraphOf(deps), order[k], y)
    ensures y in order[..k]
  {
    var adj, past := GraphOf(deps), Nodes(order[..k]);
    assert Ready(deps, past, order[k]);
    forall a, b | a in past && Edge(adj, a, b) ensures b in past {
      var i :| 0 <= i < k && order[i] == a;
      assert Ready(deps, Nodes(order[..i]), order[i]);
      assert b in order[..i];
      assert order[..i] <= order[..k];
    }
    ClosedHoldsReached(adj, past, order[k], y);
  }

  lemma ScheduledIsAcyclic(deps: Dependencies, order: seq<nat>, x: nat)
    requires Proper(deps) && Respects(deps, order) && x in order
    ensures !ReachesCycle(GraphOf(deps), x)
  {
    var adj := GraphOf(deps);
    var k :| 0 <= k < |order| && order[k] == x;
    forall c | c == x || Reaches(adj, x, c) ensures !OnCycle(adj, c) {
      if c != x { ScheduledReach(deps, order, k, c); }
      var i := if c == x then k else var j :| 0 <= j < k && order[j] == c; j;
      assert Ready(deps, Nodes(order[..i]), order[i]);
      if OnCycle(adj, c) {
        ScheduledReach(deps, order, i, c);
      }
    }
  }

  /** A member left when nothing is ready depends on another one left. */
  lemma LeftIsEndless(deps: Dependencies, order: seq<nat>)
    requires Proper(deps) && Stuck(deps, order)
    ensures Endless(GraphOf(deps), Indices(|deps|) - Nodes(order))
  {
    var adj, left := GraphOf(deps), Indices(|deps|) - Nodes(order);
    forall u | u in left ensures HasNext(adj, left, u) {
      assert !Ready(deps, Nodes(order), u);
      var v :| v in deps[u] && v !in order;
      assert v in left && Edge(adj, u, v);
    }
  }

  /** The scheduler leaves exactly the members that reach a cycle, a member on one included. */
  lemma ScheduledExactly(deps: Dependencies, order: seq<nat>, x: nat)
    requires Proper(deps) && Respects(deps, order) && Stuck(deps, order) && x < |deps|
    ensures x in order <==> !ReachesCycle(GraphOf(deps), x)
  {
    if x in order {
      ScheduledIsAcyclic(deps, order, x);
    } else {
      LeftIsEndless(deps, order);
      var c := EndlessSetHasCycle(GraphOf(deps), Indices(|deps|) - Nodes(order), x);
    }
  }

  /**
   Without a cycle every member is scheduled exactly once; with one, some member
   is left. GreedyIsLeast says which of the possible orders it is.
   */
  lemma ScheduleIsTotal(deps: Dependencies, order: seq<nat>)
    requires Proper(deps) && Respects(deps, order) && Stuck(deps, order)
    ensures |order| == |deps| <==> Acyclic(deps)
    ensures |order| == |deps| ==> Nodes(order) == Indices(|deps|)
  {
    RespectsSize(deps, order);
    if |order| == |deps| {
      forall x: nat | x < |deps| ensures !OnCycle(GraphOf(deps), x) {
        assert x in Nodes(order);
        ScheduledIsAcyclic(deps, order, x);
      }
    } else {
      var c := LeftHasCycle(deps, order);
    }
  }

  ghost predicate Acyclic(deps: Dependencies) {
    forall x: nat | x < |deps| :: !OnCycle(GraphOf(deps), x)
  }

  lemma LeftHasCycle(deps: Dependencies, order: seq<nat>) returns (c: nat)
    requires Proper(deps) && Stuck(deps, order) && |order| < |deps|
    ensures c < |deps| && c !in order && OnCycle(GraphOf(deps), c)
  {
    var left := Indices(|deps|) - Nodes(order);
    NodesNotLarger(order);
    assert left != {} by {
      if Indices(|deps|) <= Nodes(order) { NotLarger(Indices(|deps|), Nodes(order)); }
    }
    var x :| x in left;
    LeftIsEndless(deps, order);
    c := EndlessSetHasCycle(GraphOf(deps), left, x);
  }

  lemma {:induction false} NodesNotLarger(s: seq<nat>)
    ensures |Nodes(s)| <= |s|
  {
    if s != [] {
      NodesNotLarger(s[..|s| - 1]);
      assert s == s[..|s| - 1] + [s[|s| - 1]];
      assert Nodes(s) == Nodes(s[..|s| - 1]) + {s[|s| - 1]};
    }
  }
}
