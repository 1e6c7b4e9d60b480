/** What selecting add-ons through profiles means: a recursive expansion, its duplicates dropped. */
module ExpansionSpec {
  import opened Common
  import opened Graph

  datatype Kind = BindingKind | ProfileKind | AddonKind

  datatype Object = Object(kind: Kind, name: string, profileRefs: seq<string>, addonRefs: seq<string>, packages: nat)

  type Index = map<string, Object>

  /** An index keeps each object under its own name. */
  predicate Indexed(index: Index, kind: Kind) {
    forall n | n in index :: index[n].name == n && index[n].kind == kind
  }

  datatype IssueKind = SelectsNothing | ReturnsTo | MissingProfile | MissingAddon

  /** An issue points at an entry of the owner's profileRefs, or at the owner itself. */
  datatype Issue = Issue(kind: IssueKind, root: int, name: string)

  /** The documents that failed decoding, which raise no issue of their own. */
  datatype Undecodable = Undecodable(profiles: set<string>, addons: set<string>)

  // ----- the recursive expansion

  /** The add-ons one profile reference stands for, profiles first; a reference to an active profile stands for none. */
  function Visit(profiles: Index, active: set<string>, name: string): seq<string>
    decreases profiles.Keys - active, 0
  {
    if name in active || name !in profiles then []
    else Names(profiles, active + {name}, profiles[name].profileRefs) + profiles[name].addonRefs
  }

  function Names(profiles: Index, active: set<string>, refs: seq<string>): seq<string>
    decreases profiles.Keys - active, |refs|
  {
    if refs == [] then [] else Visit(profiles, active, refs[0]) + Names(profiles, active, refs[1..])
  }

  function Start(owner: Object): set<string> {
    if owner.kind == ProfileKind then {owner.name} else {}
  }

  function Expansion(owner: Object, profiles: Index): seq<string> {
    Names(profiles, Start(owner), owner.profileRefs) + owner.addonRefs
  }

  // ----- first occurrences

  function Dedup(s: seq<string>): (r: seq<string>)
    ensures forall x :: x in r <==> x in s
  {
    if s == [] then []
    else
      var front, last := s[..|s| - 1], s[|s| - 1];
      assert s == front + [last];
      if last in front then Dedup(front) else Dedup(front) + [last]
  }

  lemma DedupSnoc(s: seq<string>, x: string)
    ensures Dedup(s + [x]) == if x in s then Dedup(s) else Dedup(s) + [x]
  {
    assert (s + [x])[..|s|] == s;
  }

  /** What already occurred may be dropped from what follows. */
  lemma {:induction false} DedupDrops(a: seq<string>, x: seq<string>, b: seq<string>)
    requires forall e | e in x :: e in a
    ensures Dedup(a + x + b) == Dedup(a + b)
  {
    if b != [] {
      var front, last := b[..|b| - 1], b[|b| - 1];
      DedupDrops(a, x, front);
      assert a + x + b == (a + x + front) + [last] && a + b == (a + front) + [last];
      DedupSnoc(a + x + front, last);
      DedupSnoc(a + front, last);
      assert last in a + x + front <==> last in a + front;
    } else {
      DedupDropsTail(a, x);
      assert a + x + b == a + x && a + b == a;
    }
  }

  lemma {:induction false} DedupDropsTail(a: seq<string>, x: seq<string>)
    requires forall e | e in x :: e in a
    ensures Dedup(a + x) == Dedup(a)
  {
    if x != [] {
      var front, last := x[..|x| - 1], x[|x| - 1];
      assert x == front + [last];
      assert last in x && forall e | e in front :: e in x;
      DedupDropsTail(a, front);
      assert a + x == (a + front) + [last];
      DedupSnoc(a + front, last);
    } else {
      assert a + x == a;
    }
  }

  lemma {:induction false} DedupDistinct(s: seq<string>)
    requires Distinct(s)
    ensures Dedup(s) == s
  {
    if s != [] {
      var front := s[..|s| - 1];
      DedupDistinct(front);
      assert s == front + [s[|s| - 1]];
      assert s[|s| - 1] !in front;
    }
  }

  lemma {:induction false} DedupPrefix(a: seq<string>, b: seq<string>)
    requires Distinct(a)
    ensures a <= Dedup(a + b)
  {
    if b == [] {
      assert a + b == a;
      DedupDistinct(a);
    } else {
      var front, last := b[..|b| - 1], b[|b| - 1];
      DedupPrefix(a, front);
      assert a + b == (a + front) + [last];
      DedupSnoc(a + front, last);
    }
  }

  // ----- looking the names up

  function Found(definitions: Index, names: seq<string>): seq<Object> {
    if names == [] then []
    else
      var front, last := names[..|names| - 1], names[|names| - 1];
      Found(definitions, front) + (if last in definitions then [definitions[last]] else [])
  }

  lemma FoundSnoc(definitions: Index, names: seq<string>, x: string)
    ensures Found(definitions, names + [x]) ==
      Found(definitions, names) + (if x in definitions then [definitions[x]] else [])
  {
    assert (names + [x])[..|names|] == names;
  }

  lemma {:induction false} FoundPrefix(definitions: Index, a: seq<string>, b: seq<string>)
    requires a <= b
    ensures Found(definitions, a) <= Found(definitions, b)
  {
    if a == b {
    } else {
      var front := b[..|b| - 1];
      assert a <= front;
      FoundPrefix(definitions, a, front);
      assert b == front + [b[|b| - 1]];
      FoundSnoc(definitions, front, b[|b| - 1]);
    }
  }

  /** What a selection selects. */
  function Selection(owner: Object, profiles: Index, definitions: Index): seq<Object> {
    Found(definitions, Dedup(Expansion(owner, profiles)))
  }

  // ----- the profile graph

  /** The owner, or a profile by name. An owner that is a profile is what its own name leads to. */
  datatype Node = Root | Prof(name: string)

  function NodeOf(owner: Object, name: string): Node {
    if owner.kind == ProfileKind && name == owner.name then Root else Prof(name)
  }

  function NodesOf(owner: Object, refs: seq<string>): (r: seq<Node>)
    ensures |r| == |refs| && forall i | 0 <= i < |r| :: r[i] == NodeOf(owner, refs[i])
  {
    seq(|refs|, i requires 0 <= i < |refs| => NodeOf(owner, refs[i]))
  }

  predicate Resolves(owner: Object, profiles: Index, node: Node) {
    node.Root? || node.name in profiles
  }

  function ObjectOf(owner: Object, profiles: Index, node: Node): Object
    requires Resolves(owner, profiles, node)
  {
    match node case Root => owner case Prof(n) => profiles[n]
  }

  function ProfileGraph(owner: Object, profiles: Index): Adjacency<Node> {
    map n | n in {Root} + (set p | p in profiles :: Prof(p)) ::
      if n.Root? then NodesOf(owner, owner.profileRefs)
      else if n.name in profiles then NodesOf(owner, profiles[n.name].profileRefs) else []
  }

  lemma ProfileEdge(owner: Object, profiles: Index, a: Node, b: Node)
    ensures Edge(ProfileGraph(owner, profiles), a, b) <==>
            Resolves(owner, profiles, a) && exists r | r in ObjectOf(owner, profiles, a).profileRefs ::
              NodeOf(owner, r) == b
  {
    if Resolves(owner, profiles, a) {
      var refs := ObjectOf(owner, profiles, a).profileRefs;
      assert b in NodesOf(owner, refs) <==> exists r | r in refs :: NodeOf(owner, r) == b by {
        forall r | r in refs && NodeOf(owner, r) == b ensures b in NodesOf(owner, refs) {
          var i :| 0 <= i < |refs| && refs[i] == r;
          assert NodesOf(owner, refs)[i] == b;
        }
      }
    }
  }

  ghost predicate InReach(owner: Object, profiles: Index, node: Node) {
    node == Root || Reaches(ProfileGraph(owner, profiles), Root, node)
  }

  /** Every reference of the object resolves. */
  predicate AllResolve(owner: Object, profiles: Index, definitions: Index, o: Object) {
    && (forall r | r in o.profileRefs :: Resolves(owner, profiles, NodeOf(owner, r)))
    && (forall a | a in o.addonRefs :: a in definitions)
  }

  /** Nothing in reach is unresolved and nothing in reach is on a cycle. */
  ghost predicate Whole(owner: Object, profiles: Index, definitions: Index) {
    forall node | InReach(owner, profiles, node) ::
      && Resolves(owner, profiles, node)
      && AllResolve(owner, profiles, definitions, ObjectOf(owner, profiles, node))
      && !OnCycle(ProfileGraph(owner, profiles), node)
  }
}
