/** Reachability by one or more edges in a finite directed graph given by successor lists. */
module Graph {
  import opened Common

  type Adjacency<T> = map<T, seq<T>>

  predicate Edge<T(==)>(adj: Adjacency<T>, a: T, b: T) {
    a in adj && b in adj[a]
  }

  /** A walk takes at least one edge. */
  predicate Walk<T(==)>(adj: Adjacency<T>, p: seq<T>, a: T, b: T) {
    |p| >= 2 && p[0] == a && p[|p| - 1] == b && forall i | 0 <= i < |p| - 1 :: Edge(adj, p[i], p[i + 1])
  }

  ghost predicate Reaches<T(!new)>(adj: Adjacency<T>, a: T, b: T) {
    exists p :: Walk(adj, p, a, b)
  }

  ghost predicate OnCycle<T(!new)>(adj: Adjacency<T>, a: T) {
    Reaches(adj, a, a)
  }

  ghost predicate ReachesCycle<T(!new)>(adj: Adjacency<T>, a: T) {
    exists c :: (c == a || Reaches(adj, a, c)) && OnCycle(adj, c)
  }

  lemma EdgeReaches<T(!new)>(adj: Adjacency<T>, a: T, b: T)
    requires Edge(adj, a, b)
    ensures Reaches(adj, a, b)
  {
    assert Walk(adj, [a, b], a, b);
  }

  lemma ReachesTrans<T(!new)>(adj: Adjacency<T>, a: T, b: T, c: T)
    requires Reaches(adj, a, b) && Reaches(adj, b, c)
    ensures Reaches(adj, a, c)
  {
    var p :| Walk(adj, p, a, b);
    var q :| Walk(adj, q, b, c);
    var r := p + q[1..];
    forall i | 0 <= i < |r| - 1 ensures Edge(adj, r[i], r[i + 1]) {
      if i >= |p| - 1 {
        assert r[i] == q[i - (|p| - 1)] && r[i + 1] == q[i + 1 - (|p| - 1)];
      }
    }
    assert Walk(adj, r, a, c);
  }

  /** A walk starts with an edge. */
  lemma ReachesFirst<T(!new)>(adj: Adjacency<T>, a: T, c: T) returns (b: T)
    requires Reaches(adj, a, c)
    ensures Edge(adj, a, b) && (b == c || Reaches(adj, b, c))
  {
    var p :| Walk(adj, p, a, c);
    b := p[1];
    assert Edge(adj, p[0], p[1]);
    if |p| > 2 {
      var q := p[1..];
      forall i | 0 <= i < |q| - 1 ensures Edge(adj, q[i], q[i + 1]) {
        assert Edge(adj, p[i + 1], p[i + 2]);
      }
      assert Walk(adj, q, b, c);
    }
  }

  /** A set closed under edges that holds every successor of a holds all that a reaches. */
  lemma ClosedHoldsReached<T(!new)>(adj: Adjacency<T>, s: set<T>, a: T, b: T)
    requires forall y :: Edge(adj, a, y) ==> y in s
    requires forall x, y :: x in s && Edge(adj, x, y) ==> y in s
    requires Reaches(adj, a, b)
    ensures b in s
  {
    var p :| Walk(adj, p, a, b);
    var i := 1;
    assert Edge(adj, p[0], p[1]);
    while i < |p| - 1
      invariant 1 <= i < |p| && p[i] in s
    {
      assert Edge(adj, p[i], p[i + 1]);
      i := i + 1;
    }
  }

  ghost predicate HasNext<T(!new)>(adj: Adjacency<T>, s: set<T>, u: T) {
    exists v :: v in s && Edge(adj, u, v)
  }

  ghost predicate Endless<T(!new)>(adj: Adjacency<T>, s: set<T>) {
    forall u {:trigger HasNext(adj, s, u)} :: u in s ==> HasNext(adj, s, u)
  }

  ghost function Reached<T(!new)>(adj: Adjacency<T>, s: set<T>, x: T): set<T> {
    set y | y in s && Reaches(adj, x, y)
  }

  lemma NextReached<T(!new)>(adj: Adjacency<T>, s: set<T>, x: T, u: T) returns (v: T)
    requires u == x || Reaches(adj, x, u)
    requires HasNext(adj, s, u)
    ensures v in Reached(adj, s, x) && Edge(adj, u, v)
  {
    v :| v in s && Edge(adj, u, v);
    EdgeReaches(adj, u, v);
    if u != x { ReachesTrans(adj, x, u, v); }
  }

  lemma ReachedIsEndless<T(!new)>(adj: Adjacency<T>, s: set<T>, x: T)
    requires Endless(adj, s)
    ensures Endless(adj, Reached(adj, s, x))
  {
    forall u | u in Reached(adj, s, x) ensures HasNext(adj, Reached(adj, s, x), u) {
      var v := NextReached(adj, s, x, u);
    }
  }

  /** Where every node of a set has a successor in the set, each of them reaches a cycle. */
  lemma {:induction false} EndlessSetHasCycle<T(!new)>(adj: Adjacency<T>, s: set<T>, x: T) returns (c: T)
    requires x in s && Endless(adj, s)
    ensures c in s && OnCycle(adj, c) && (c == x || Reaches(adj, x, c))
    decreases |s|
  {
    if OnCycle(adj, x) {
      return x;
    }
    var next := NextReached(adj, s, x, x);
    ReachedIsEndless(adj, s, x);
    var reached := Reached(adj, s, x);
    assert reached <= s && x !in reached;
    Smaller(reached, s);
    c := EndlessSetHasCycle(adj, reached, next);
  }

  function Nodes<T>(s: seq<T>): set<T> {
    set x | x in s
  }

  lemma {:induction false} NodesOfDistinct<T>(s: seq<T>)
    requires forall i, j | 0 <= i < j < |s| :: s[i] != s[j]
    ensures |Nodes(s)| == |s|
  {
    if s != [] {
      var front, x := s[..|s| - 1], s[|s| - 1];
      NodesOfDistinct(front);
      assert s == front + [x];
      assert Nodes(s) == Nodes(front) + {x};
      assert x !in front;
    }
  }

  /** The nodes a search may meet. */
  ghost predicate Bounds<T(!new)>(adj: Adjacency<T>, nodes: set<T>, start: T) {
    forall x, y :: Edge(adj, x, y) && (x == start || x in nodes) ==> y in nodes
  }

  /** Everything waiting or seen was reached, and what was seen has all its successors waiting or seen. */
  ghost predicate Sound<T(!new)>(adj: Adjacency<T>, start: T, nodes: set<T>, seen: set<T>, queue: seq<T>) {
    && (forall y | y in queue :: y in nodes && Reaches(adj, start, y))
    && (forall y | y in seen :: y in nodes && Reaches(adj, start, y))
  }

  ghost predicate Covered<T(!new)>(adj: Adjacency<T>, start: T, seen: set<T>, queue: seq<T>) {
    && (forall y :: Edge(adj, start, y) ==> y in seen || y in queue)
    && (forall x, y :: x in seen && Edge(adj, x, y) ==> y in seen || y in queue)
  }

  function Successors<T(==)>(adj: Adjacency<T>, x: T): seq<T> {
    if x in adj then adj[x] else []
  }

  lemma SearchStarts<T(!new)>(adj: Adjacency<T>, start: T, nodes: set<T>)
    requires Bounds(adj, nodes, start)
    ensures Sound(adj, start, nodes, {}, Successors(adj, start)) && Covered(adj, start, {}, Successors(adj, start))
  {
    forall y | y in Successors(adj, start) ensures y in nodes && Reaches(adj, start, y) {
      assert Edge(adj, start, y);
      EdgeReaches(adj, start, y);
    }
  }

  lemma SearchExpands<T(!new)>(adj: Adjacency<T>, start: T, nodes: set<T>, seen: set<T>, current: T, rest: seq<T>)
    requires Bounds(adj, nodes, start)
    requires Sound(adj, start, nodes, seen, [current] + rest) && Covered(adj, start, seen, [current] + rest)
    ensures var queue := rest + Successors(adj, current);
            Sound(adj, start, nodes, seen + {current}, queue) && Covered(adj, start, seen + {current}, queue)
  {
    assert current in [current] + rest;
    forall y | y in Successors(adj, current) ensures y in nodes && Reaches(adj, start, y) {
      assert Edge(adj, current, y);
      EdgeReaches(adj, current, y);
      ReachesTrans(adj, start, current, y);
    }
  }

  /** The source's queue search: does a walk of one or more edges lead from start to target? */
  method Search<T(!new, ==)>(adj: Adjacency<T>, start: T, target: T, ghost nodes: set<T>) returns (found: bool)
    requires Bounds(adj, nodes, start)
    ensures found <==> Reaches(adj, start, target)
  {
    var seen: set<T> := {};
    var queue := Successors(adj, start);
    SearchStarts(adj, start, nodes);
    while queue != []
      invariant Sound(adj, start, nodes, seen, queue)
      invariant Covered(adj, start, seen, queue)
      invariant target !in seen
      decreases |nodes - seen|, |queue|
    {
      var current, rest := queue[0], queue[1..];
      assert queue == [current] + rest;
      if current == target {
        return true;
      }
      if current in seen {
        queue := rest;
      } else {
        SearchExpands(adj, start, nodes, seen, current, rest);
        Smaller(nodes - (seen + {current}), nodes - seen);
        seen := seen + {current};
        queue := rest + Successors(adj, current);
      }
    }
    if Reaches(adj, start, target) {
      ClosedHoldsReached(adj, seen, start, target);
    }
    found := false;
  }
}
