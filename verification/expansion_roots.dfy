/** Which entry of the owner an issue points at: the first that leads to where the fault is named. */
module ExpansionRoots {
  import opened Common
  import opened Graph
  import opened ExpansionSpec
  import opened ExpansionStack

  /** The profile graph without the ways back through the owner. */
  function Inner(owner: Object, profiles: Index): Adjacency<Node> {
    ProfileGraph(owner, profiles) - {Root}
  }

  /** The entry is the profile, or leads to it. */
  ghost predicate Under(owner: Object, profiles: Index, k: nat, p: string) {
    && k < |owner.profileRefs|
    && var n := NodeOf(owner, owner.profileRefs[k]); n == Prof(p) || Reaches(Inner(owner, profiles), n, Prof(p))
  }

  ghost predicate FirstUnder(owner: Object, profiles: Index, k: int, p: string) {
    k >= 0 && Under(owner, profiles, k, p) && forall j: nat | j < k :: !Under(owner, profiles, j, p)
  }

  /** A profile that refers to the name, and the first entry that leads to it. */
  ghost predicate ProfileNames(owner: Object, profiles: Index, root: int, name: string) {
    exists p :: FirstUnder(owner, profiles, root, p) && p in profiles && name in profiles[p].profileRefs
  }

  ghost predicate AddonNames(owner: Object, profiles: Index, root: int, name: string) {
    exists p :: FirstUnder(owner, profiles, root, p) && p in profiles && name in profiles[p].addonRefs
  }

  /** No profile that an earlier entry leads to names the add-on. */
  ghost predicate NotEarlier(owner: Object, profiles: Index, root: int, name: string) {
    forall j: nat, p | j < root && p in profiles && Under(owner, profiles, j, p) :: name !in profiles[p].addonRefs
  }

  /**
   An issue points at the first entry of the owner that leads to the profile which
   names what it complains of; of an add-on, at the first that leads to any such
   profile. Only a cycle may be named by the entry itself.
   */
  ghost predicate Pointed(owner: Object, profiles: Index, i: Issue) {
    match i.kind
    case SelectsNothing => true
    case ReturnsTo =>
      || (0 <= i.root < |owner.profileRefs| && owner.profileRefs[i.root] == i.name)
      || ProfileNames(owner, profiles, i.root, i.name)
    case MissingProfile => ProfileNames(owner, profiles, i.root, i.name)
    case MissingAddon =>
      AddonNames(owner, profiles, i.root, i.name) && NotEarlier(owner, profiles, i.root, i.name)
  }

  ghost predicate AllPointed(owner: Object, profiles: Index, issues: seq<Issue>) {
    forall i | i in issues :: Pointed(owner, profiles, i)
  }

  // ----- what was walked before the current entry

  predicate Known(owner: Object, profiles: Index, base: set<string>, name: string) {
    name in base || name in Start(owner) || name !in profiles
  }

  predicate BaseClosed(owner: Object, profiles: Index, base: set<string>) {
    forall p | p in base :: p in profiles && forall r | r in profiles[p].profileRefs :: Known(owner, profiles, base, r)
  }

  /** Every frame above the owner's stands under the current entry, and on nothing that was walked before it. */
  ghost predicate FrameBased(owner: Object, profiles: Index, base: set<string>, k: int, f: Frame) {
    && f.root == k && f.obj.name !in base && f.obj.name in profiles && profiles[f.obj.name] == f.obj
    && k >= 0 && Under(owner, profiles, k, f.obj.name)
  }

  predicate BaseHolds(owner: Object, profiles: Index, base: set<string>, k: int) {
    forall j | 0 <= j < k && j < |owner.profileRefs| :: Known(owner, profiles, base, owner.profileRefs[j])
  }

  ghost predicate Based(owner: Object, profiles: Index, stack: seq<Frame>, base: set<string>) {
    |stack| > 1 ==>
      && BaseClosed(owner, profiles, base) && BaseHolds(owner, profiles, base, stack[1].root)
      && forall i | 1 <= i < |stack| :: FrameBased(owner, profiles, base, stack[1].root, stack[i])
  }

  predicate Behind(profiles: Index, base: set<string>, n: Node) {
    n.Root? || n.name in base || n.name !in profiles
  }

  lemma KnownIsBehind(owner: Object, profiles: Index, base: set<string>, name: string)
    requires Known(owner, profiles, base, name)
    ensures Behind(profiles, base, NodeOf(owner, name))
  {
  }

  lemma InnerEdge(owner: Object, profiles: Index, a: Node, b: Node)
    ensures Edge(Inner(owner, profiles), a, b) <==> a != Root && Edge(ProfileGraph(owner, profiles), a, b)
  {
  }

  lemma BehindEdge(owner: Object, profiles: Index, base: set<string>, a: Node, b: Node)
    requires BaseClosed(owner, profiles, base) && Behind(profiles, base, a) && Edge(Inner(owner, profiles), a, b)
    ensures Behind(profiles, base, b)
  {
    InnerEdge(owner, profiles, a, b);
    ProfileEdge(owner, profiles, a, b);
    var r :| r in profiles[a.name].profileRefs && NodeOf(owner, r) == b;
    KnownIsBehind(owner, profiles, base, r);
  }

  lemma BehindReaches(owner: Object, profiles: Index, base: set<string>, a: Node, b: Node)
    requires BaseClosed(owner, profiles, base) && Behind(profiles, base, a) && Reaches(Inner(owner, profiles), a, b)
    ensures Behind(profiles, base, b)
  {
    var p :| Graph.Walk(Inner(owner, profiles), p, a, b);
    var i := 0;
    while i < |p| - 1
      invariant 0 <= i < |p| && Behind(profiles, base, p[i])
    {
      BehindEdge(owner, profiles, base, p[i], p[i + 1]);
      i := i + 1;
    }
  }

  /** What an earlier entry leads to was walked before. */
  lemma EarlierIsBase(owner: Object, profiles: Index, base: set<string>, k: int, j: nat, p: string)
    requires BaseClosed(owner, profiles, base) && BaseHolds(owner, profiles, base, k)
    requires j < k && Under(owner, profiles, j, p) && p in profiles
    ensures p in base
  {
    var n := NodeOf(owner, owner.profileRefs[j]);
    KnownIsBehind(owner, profiles, base, owner.profileRefs[j]);
    if n != Prof(p) {
      BehindReaches(owner, profiles, base, n, Prof(p));
    }
  }

  lemma FrameIsFirst(owner: Object, profiles: Index, base: set<string>, k: int, f: Frame)
    requires BaseClosed(owner, profiles, base) && BaseHolds(owner, profiles, base, k)
      && FrameBased(owner, profiles, base, k, f)
    ensures FirstUnder(owner, profiles, k, f.obj.name)
  {
    forall j: nat | j < k ensures !Under(owner, profiles, j, f.obj.name) {
      if Under(owner, profiles, j, f.obj.name) {
        EarlierIsBase(owner, profiles, base, k, j, f.obj.name);
      }
    }
  }

  lemma UnderGoesOn(owner: Object, profiles: Index, k: nat, p: string, name: string)
    requires Under(owner, profiles, k, p) && p in profiles && name in profiles[p].profileRefs && name !in Start(owner)
    ensures Under(owner, profiles, k, name)
  {
    var adj, n := Inner(owner, profiles), NodeOf(owner, owner.profileRefs[k]);
    ProfileEdge(owner, profiles, Prof(p), Prof(name));
    InnerEdge(owner, profiles, Prof(p), Prof(name));
    EdgeReaches(adj, Prof(p), Prof(name));
    if n != Prof(p) {
      ReachesTrans(adj, n, Prof(p), Prof(name));
    }
  }

  // ----- the stack as it moves

  lemma BasedTaken(owner: Object, profiles: Index, stack: seq<Frame>, base: set<string>)
    requires stack != [] && Based(owner, profiles, stack, base)
    ensures Based(owner, profiles, Taken(stack), base)
  {
    var taken := Taken(stack);
    if |taken| > 1 {
      assert taken[1].root == stack[1].root;
      forall i | 1 <= i < |taken| ensures FrameBased(owner, profiles, base, stack[1].root, taken[i]) {
        assert FrameBased(owner, profiles, base, stack[1].root, stack[i]);
      }
    }
  }

  lemma BasedBelow(owner: Object, profiles: Index, stack: seq<Frame>, base: set<string>)
    requires stack != [] && Based(owner, profiles, stack, base)
    ensures Based(owner, profiles, Below(stack), base)
  {
    if |stack| > 2 {
      assert Below(stack)[1] == stack[1];
    }
  }

  /** A profile under the current entry. */
  lemma BasedPush(owner: Object, profiles: Index, stack: seq<Frame>, base: set<string>, name: string)
    requires |stack| > 1 && Based(owner, profiles, stack, base) && Indexed(profiles, ProfileKind)
    requires name in profiles && name !in base && name !in Start(owner) && name in Top(stack).obj.profileRefs
    ensures Based(owner, profiles, stack + [Frame(profiles[name], profiles[name].profileRefs, 0, Top(stack).root)],
      base)
  {
    var f := Top(stack);
    assert FrameBased(owner, profiles, base, stack[1].root, stack[|stack| - 1]);
    UnderGoesOn(owner, profiles, f.root, f.obj.name, name);
    var pushed := stack + [Frame(profiles[name], profiles[name].profileRefs, 0, f.root)];
    assert pushed[1] == stack[1];
    forall i | 1 <= i < |pushed| ensures FrameBased(owner, profiles, base, stack[1].root, pushed[i]) {
      if i < |stack| {
        assert FrameBased(owner, profiles, base, stack[1].root, stack[i]);
      }
    }
  }

  /** The profile an entry of the owner names, on what the earlier entries led to. */
  lemma BasedEntry(owner: Object, profiles: Index, stack: seq<Frame>, done: set<string>, k: nat, name: string)
    requires |stack| == 1 && Indexed(profiles, ProfileKind) && k < |owner.profileRefs| && owner.profileRefs[k] == name
    requires BaseClosed(owner, profiles, done) && BaseHolds(owner, profiles, done, k)
    requires name in profiles && name !in done && name !in Start(owner)
    ensures Based(owner, profiles, stack + [Frame(profiles[name], profiles[name].profileRefs, 0, k)], done)
  {
    assert Under(owner, profiles, k, name);
  }

  // ----- new issues

  lemma TopPoints(owner: Object, profiles: Index, stack: seq<Frame>, base: set<string>, name: string)
    requires |stack| > 1 && Based(owner, profiles, stack, base)
    ensures name in Top(stack).obj.profileRefs ==> ProfileNames(owner, profiles, Top(stack).root, name)
    ensures name in Top(stack).obj.addonRefs ==> AddonNames(owner, profiles, Top(stack).root, name)
  {
    var f := Top(stack);
    assert FrameBased(owner, profiles, base, stack[1].root, stack[|stack| - 1]);
    FrameIsFirst(owner, profiles, base, f.root, f);
  }

  lemma UnseenIsNotEarlier(owner: Object, profiles: Index, stack: seq<Frame>, base: set<string>, seen: set<string>,
      name: string)
    requires |stack| > 1 && Based(owner, profiles, stack, base) && name !in seen
    requires forall p, a | p in base && p in profiles && a in profiles[p].addonRefs :: a in seen
    ensures NotEarlier(owner, profiles, Top(stack).root, name)
  {
    var k := Top(stack).root;
    assert FrameBased(owner, profiles, base, stack[1].root, stack[|stack| - 1]);
    forall j: nat, p | j < k && p in profiles && Under(owner, profiles, j, p) ensures name !in profiles[p].addonRefs {
      EarlierIsBase(owner, profiles, base, k, j, p);
    }
  }
}
