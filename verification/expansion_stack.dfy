/** The stack of the depth-first expansion: what it still owes, and what it has established. */
module ExpansionStack {
  import opened Common
  import opened Graph
  import opened ExpansionSpec

  datatype Frame = Frame(obj: Object, refs: seq<string>, next: nat, root: int)

  function Below(stack: seq<Frame>): seq<Frame>
    requires stack != []
  {
    stack[..|stack| - 1]
  }

  function Top(stack: seq<Frame>): Frame
    requires stack != []
  {
    stack[|stack| - 1]
  }

  function ActiveOf(stack: seq<Frame>): set<string> {
    if stack == [] then {} else ActiveOf(Below(stack)) + Start(Top(stack).obj)
  }

  /** A frame stands on its parent's last reference, and on no profile already on the stack. */
  predicate TopStands(owner: Object, profiles: Index, below: seq<Frame>, f: Frame) {
    && f.refs == f.obj.profileRefs && f.next <= |f.refs|
    && if below == [] then f.obj == owner && f.root == -1
       else
         && f.obj.name in profiles && profiles[f.obj.name] == f.obj && f.obj.kind == ProfileKind
         && f.obj.name !in ActiveOf(below)
         && 0 <= f.root < |owner.profileRefs|
         && 0 < Top(below).next <= |Top(below).refs| && Top(below).refs[Top(below).next - 1] == f.obj.name
  }

  predicate Stacked(owner: Object, profiles: Index, stack: seq<Frame>) {
    stack == [] || (Stacked(owner, profiles, Below(stack)) && TopStands(owner, profiles, Below(stack), Top(stack)))
  }

  /** The names the stack has still to yield. */
  function Owed(owner: Object, profiles: Index, stack: seq<Frame>): seq<string>
    requires Stacked(owner, profiles, stack)
  {
    if stack == [] then []
    else
      var f := Top(stack);
      Names(profiles, ActiveOf(stack), f.refs[f.next..]) + f.obj.addonRefs + Owed(owner, profiles, Below(stack))
  }

  /** The stack once its top frame has taken its next reference. */
  function Taken(stack: seq<Frame>): seq<Frame>
    requires stack != []
  {
    Below(stack) + [Top(stack).(next := Top(stack).next + 1)]
  }

  lemma TakenStands(owner: Object, profiles: Index, stack: seq<Frame>)
    requires Stacked(owner, profiles, stack) && stack != [] && Top(stack).next < |Top(stack).refs|
    ensures Stacked(owner, profiles, Taken(stack)) && ActiveOf(Taken(stack)) == ActiveOf(stack)
    ensures Below(Taken(stack)) == Below(stack) && Top(Taken(stack)) == Top(stack).(next := Top(stack).next + 1)
    ensures var f := Top(stack);
            Owed(owner, profiles, stack) ==
              Visit(profiles, ActiveOf(stack), f.refs[f.next]) + Owed(owner, profiles, Taken(stack))
  {
    var f := Top(stack);
    assert Below(Taken(stack)) == Below(stack);
    assert f.refs[f.next..][1..] == f.refs[f.next + 1..];
  }

  lemma PushedStands(owner: Object, profiles: Index, stack: seq<Frame>, name: string, root: int)
    requires Indexed(profiles, ProfileKind) && name in profiles && name !in ActiveOf(stack)
    requires Stacked(owner, profiles, stack) && stack != [] && 0 <= root < |owner.profileRefs|
    requires 0 < Top(stack).next && Top(stack).refs[Top(stack).next - 1] == name
    ensures var pushed := stack + [Frame(profiles[name], profiles[name].profileRefs, 0, root)];
            && Stacked(owner, profiles, pushed) && ActiveOf(pushed) == ActiveOf(stack) + {name}
            && Below(pushed) == stack
            && Owed(owner, profiles, pushed) == Visit(profiles, ActiveOf(stack), name) + Owed(owner, profiles, stack)
  {
    var pushed := stack + [Frame(profiles[name], profiles[name].profileRefs, 0, root)];
    assert Below(pushed) == stack;
    assert profiles[name].profileRefs[0..] == profiles[name].profileRefs;
  }

  lemma PoppedActive(owner: Object, profiles: Index, stack: seq<Frame>)
    requires Stacked(owner, profiles, stack) && stack != []
    ensures ActiveOf(Below(stack)) == ActiveOf(stack) - Start(Top(stack).obj)
  {
  }

  // ----- profiles already expanded

  /** A done profile's references were all met, and its add-ons seen. */
  predicate Settled(profiles: Index, done: set<string>, met: set<string>, seen: set<string>) {
    forall p | p in done :: SettledProfile(profiles, met, seen, p)
  }

  predicate SettledProfile(profiles: Index, met: set<string>, seen: set<string>, p: string) {
    && p in profiles
    && (forall r | r in profiles[p].profileRefs :: r in met || r !in profiles)
    && (forall a | a in profiles[p].addonRefs :: a in seen)
  }

  predicate MetBefore(profiles: Index, met: set<string>, f: Frame) {
    f.next <= |f.refs| && forall i | 0 <= i < f.next :: f.refs[i] in met || f.refs[i] !in profiles
  }

  predicate AllMet(profiles: Index, met: set<string>, stack: seq<Frame>) {
    forall f | f in stack :: MetBefore(profiles, met, f)
  }

  /** Visiting a done profile again would yield nothing new. */
  lemma {:induction false} DoneYieldsSeen(profiles: Index, active: set<string>, done: set<string>, seen: set<string>,
      reach: set<string>, name: string)
    requires Settled(profiles, done, done + active, seen) && active <= reach && name in done
    ensures forall a | a in Visit(profiles, reach, name) :: a in seen
    decreases profiles.Keys - reach, 0
  {
    if name !in reach {
      assert SettledProfile(profiles, done + active, seen, name);
      DoneNamesSeen(profiles, active, done, seen, reach + {name}, profiles[name].profileRefs);
    }
  }

  lemma {:induction false} DoneNamesSeen(profiles: Index, active: set<string>, done: set<string>, seen: set<string>,
      reach: set<string>, refs: seq<string>)
    requires Settled(profiles, done, done + active, seen) && active <= reach
    requires forall r | r in refs :: r in done + active || r !in profiles
    ensures forall a | a in Names(profiles, reach, refs) :: a in seen
    decreases profiles.Keys - reach, |refs|
  {
    if refs != [] {
      assert refs[0] in refs;
      if refs[0] in done { DoneYieldsSeen(profiles, active, done, seen, reach, refs[0]); }
      DoneNamesSeen(profiles, active, done, seen, reach, refs[1..]);
    }
  }

  // ----- where the stack is in the graph

  function FrameNode(below: seq<Frame>, f: Frame): Node {
    if below == [] then Root else Prof(f.obj.name)
  }

  lemma TopNode(owner: Object, profiles: Index, stack: seq<Frame>)
    requires Stacked(owner, profiles, stack) && stack != []
    ensures var n := FrameNode(Below(stack), Top(stack));
            && Resolves(owner, profiles, n) && ObjectOf(owner, profiles, n) == Top(stack).obj
            && (|stack| > 1 ==> NodeOf(owner, Top(stack).obj.name) == n)
  {
    if |stack| > 1 { OwnerActive(owner, profiles, Below(stack)); }
  }

  lemma {:induction false} OwnerActive(owner: Object, profiles: Index, stack: seq<Frame>)
    requires Stacked(owner, profiles, stack) && stack != []
    ensures Start(owner) <= ActiveOf(stack)
  {
    if |stack| > 1 { OwnerActive(owner, profiles, Below(stack)); }
  }

  lemma {:induction false} StackEdge(owner: Object, profiles: Index, stack: seq<Frame>)
    requires Stacked(owner, profiles, stack) && |stack| > 1
    ensures var below := Below(stack);
            Edge(ProfileGraph(owner, profiles), FrameNode(Below(below), Top(below)), FrameNode(below, Top(stack)))
  {
    var below := Below(stack);
    var parent := Top(below);
    TopNode(owner, profiles, below);
    TopNode(owner, profiles, stack);
    ProfileEdge(owner, profiles, FrameNode(Below(below), parent), FrameNode(below, Top(stack)));
    assert parent.refs[parent.next - 1] in parent.refs;
  }

  lemma {:induction false} StackInReach(owner: Object, profiles: Index, stack: seq<Frame>)
    requires Stacked(owner, profiles, stack) && stack != []
    ensures InReach(owner, profiles, FrameNode(Below(stack), Top(stack)))
  {
    if |stack| > 1 {
      var adj, below := ProfileGraph(owner, profiles), Below(stack);
      var up, here := FrameNode(Below(below), Top(below)), FrameNode(below, Top(stack));
      StackInReach(owner, profiles, below);
      StackEdge(owner, profiles, stack);
      EdgeReaches(adj, up, here);
      if up != Root { ReachesTrans(adj, Root, up, here); }
    }
  }

  /** Every active profile is the top of the stack or leads to it. */
  lemma {:induction false} ActiveLeadsToTop(owner: Object, profiles: Index, stack: seq<Frame>, name: string)
    requires Stacked(owner, profiles, stack) && name in ActiveOf(stack)
    ensures stack != []
    ensures var n, top := NodeOf(owner, name), FrameNode(Below(stack), Top(stack));
            InReach(owner, profiles, n) && (n == top || Reaches(ProfileGraph(owner, profiles), n, top))
  {
    var adj, below := ProfileGraph(owner, profiles), Below(stack);
    var n, top := NodeOf(owner, name), FrameNode(below, Top(stack));
    if name in Start(Top(stack).obj) {
      TopNode(owner, profiles, stack);
      StackInReach(owner, profiles, stack);
    } else {
      ActiveLeadsToTop(owner, profiles, below, name);
      var up := FrameNode(Below(below), Top(below));
      StackEdge(owner, profiles, stack);
      EdgeReaches(adj, up, top);
      if n != up { ReachesTrans(adj, n, up, top); }
    }
  }

  // ----- when the expansion is not whole

  /** What the top frame names is in reach, and on a cycle where it is active. */
  lemma ReferenceFollows(owner: Object, profiles: Index, stack: seq<Frame>, name: string)
    requires Stacked(owner, profiles, stack) && stack != [] && name in Top(stack).refs
    ensures InReach(owner, profiles, NodeOf(owner, name))
    ensures name in ActiveOf(stack) ==> OnCycle(ProfileGraph(owner, profiles), NodeOf(owner, name))
  {
    var adj, top, n := ProfileGraph(owner, profiles), FrameNode(Below(stack), Top(stack)), NodeOf(owner, name);
    TopNode(owner, profiles, stack);
    StackInReach(owner, profiles, stack);
    ProfileEdge(owner, profiles, top, n);
    EdgeReaches(adj, top, n);
    if top != Root { ReachesTrans(adj, Root, top, n); }
    if name in ActiveOf(stack) {
      ActiveLeadsToTop(owner, profiles, stack, name);
      if n != top { ReachesTrans(adj, n, top, n); }
    }
  }

  lemma ReferenceInReach(owner: Object, profiles: Index, definitions: Index, stack: seq<Frame>, name: string)
    requires Stacked(owner, profiles, stack) && stack != [] && name in Top(stack).refs
    requires name in ActiveOf(stack) || !Resolves(owner, profiles, NodeOf(owner, name))
    ensures !Whole(owner, profiles, definitions)
  {
    ReferenceFollows(owner, profiles, stack, name);
  }

  lemma AddonInReach(owner: Object, profiles: Index, definitions: Index, stack: seq<Frame>, name: string)
    requires Stacked(owner, profiles, stack) && stack != [] && name in Top(stack).obj.addonRefs && name !in definitions
    ensures !Whole(owner, profiles, definitions)
  {
    TopNode(owner, profiles, stack);
    StackInReach(owner, profiles, stack);
  }

  // ----- when it is

  /** Each node resolves everything it names, and every profile it names stands before it. */
  ghost predicate RankedNode(owner: Object, profiles: Index, definitions: Index, before: seq<Node>, node: Node) {
    && Resolves(owner, profiles, node)
    && AllResolve(owner, profiles, definitions, ObjectOf(owner, profiles, node))
    && forall r | r in ObjectOf(owner, profiles, node).profileRefs :: NodeOf(owner, r) in before
  }

  ghost predicate Ranked(owner: Object, profiles: Index, definitions: Index, finished: seq<Node>) {
    forall i | 0 <= i < |finished| :: RankedNode(owner, profiles, definitions, finished[..i], finished[i])
  }

  lemma RankedSnoc(owner: Object, profiles: Index, definitions: Index, finished: seq<Node>, node: Node)
    requires Ranked(owner, profiles, definitions, finished) && RankedNode(owner, profiles, definitions, finished, node)
    ensures Ranked(owner, profiles, definitions, finished + [node])
  {
    var longer := finished + [node];
    forall i | 0 <= i < |longer| ensures RankedNode(owner, profiles, definitions, longer[..i], longer[i]) {
      if i < |finished| {
        assert longer[..i] == finished[..i];
      } else {
        assert longer[..i] == finished;
      }
    }
  }

  lemma RankedReach(owner: Object, profiles: Index, definitions: Index, finished: seq<Node>, k: nat, y: Node)
    requires Ranked(owner, profiles, definitions, finished) && k < |finished|
    requires Reaches(ProfileGraph(owner, profiles), finished[k], y)
    ensures y in finished[..k]
  {
    var adj, past := ProfileGraph(owner, profiles), Nodes(finished[..k]);
    forall a, b | (a == finished[k] || a in past) && Edge(adj, a, b) ensures b in past {
      var i :| 0 <= i <= k && finished[i] == a;
      ProfileEdge(owner, profiles, a, b);
      assert RankedNode(owner, profiles, definitions, finished[..i], a);
      assert b in finished[..i];
      assert finished[..i] <= finished[..k];
    }
    ClosedHoldsReached(adj, past, finished[k], y);
  }

  lemma {:induction false} RankedAcyclic(owner: Object, profiles: Index, definitions: Index, finished: seq<Node>,
      k: nat)
    requires Ranked(owner, profiles, definitions, finished) && k < |finished|
    ensures !OnCycle(ProfileGraph(owner, profiles), finished[k])
    decreases k
  {
    if OnCycle(ProfileGraph(owner, profiles), finished[k]) {
      RankedReach(owner, profiles, definitions, finished, k, finished[k]);
      var i :| 0 <= i < k && finished[i] == finished[k];
      RankedAcyclic(owner, profiles, definitions, finished, i);
    }
  }

  lemma RankedIsWhole(owner: Object, profiles: Index, definitions: Index, finished: seq<Node>)
    requires Ranked(owner, profiles, definitions, finished) && Root in finished
    ensures Whole(owner, profiles, definitions)
  {
    var k :| 0 <= k < |finished| && finished[k] == Root;
    forall node | InReach(owner, profiles, node)
      ensures Resolves(owner, profiles, node)
      ensures AllResolve(owner, profiles, definitions, ObjectOf(owner, profiles, node))
      ensures !OnCycle(ProfileGraph(owner, profiles), node)
    {
      if node != Root {
        RankedReach(owner, profiles, definitions, finished, k, node);
      }
      var i :| 0 <= i < |finished| && finished[i] == node;
      assert RankedNode(owner, profiles, definitions, finished[..i], node);
      RankedAcyclic(owner, profiles, definitions, finished, i);
    }
  }

  /** The references a frame has dealt with; below the top, the last one is still being expanded. */
  predicate FrameClean(owner: Object, profiles: Index, finished: seq<Node>, f: Frame, slack: nat) {
    forall i | 0 <= i < f.next - slack && i < |f.refs| ::
      NodeOf(owner, f.refs[i]) in finished && Resolves(owner, profiles, NodeOf(owner, f.refs[i]))
  }

  predicate StackClean(owner: Object, profiles: Index, finished: seq<Node>, stack: seq<Frame>, slack: nat) {
    stack == [] ||
    (FrameClean(owner, profiles, finished, Top(stack), slack) && StackClean(owner, profiles, finished, Below(stack), 1))
  }

  lemma {:induction false} CleanGrows(owner: Object, profiles: Index, finished: seq<Node>, node: Node,
      stack: seq<Frame>, slack: nat)
    requires StackClean(owner, profiles, finished, stack, slack)
    ensures StackClean(owner, profiles, finished + [node], stack, slack)
  {
    if stack != [] { CleanGrows(owner, profiles, finished, node, Below(stack), 1); }
  }
}
