/** The explicit-stack expansion, proved to select what the recursive one does. */
module AddonExpansion {
  import opened Common
  import opened Graph
  import opened ExpansionSpec
  import opened ExpansionStack
  import opened ExpansionWalk
  import opened ExpansionRoots

  const MAX_ISSUES := 999

  /** The names that occur once, with their objects. */
  method UniqueObjects(objects: seq<Object>) returns (unique: Index)
    ensures forall n :: n in unique <==> exists i :: 0 <= i < |objects| && objects[i].name == n && Alone(objects, i)
    ensures forall n | n in unique :: unique[n] in objects && unique[n].name == n
  {
    unique := map[];
    var duplicates: set<string> := {};
    for i := 0 to |objects|
      invariant forall n | n in unique :: unique[n] in objects && unique[n].name == n
      invariant forall n :: n in unique <==> exists k :: 0 <= k < i && objects[k].name == n
      invariant forall n :: n in duplicates <==>
        exists k, m :: 0 <= k < m < i && objects[k].name == n && objects[m].name == n
    {
      if objects[i].name in unique {
        duplicates := duplicates + {objects[i].name};
      }
      unique := unique[objects[i].name := objects[i]];
    }
    unique := unique - duplicates;
  }

  predicate Alone(objects: seq<Object>, i: nat)
    requires i < |objects|
  {
    forall k | 0 <= k < |objects| && k != i :: objects[k].name != objects[i].name
  }

  /** What the expansion has put out so far. */
  datatype Output = Output(seen: set<string>, result: seq<Object>, issues: seq<Issue>, complete: bool)

  predicate RootsValid(owner: Object, issues: seq<Issue>) {
    forall i | i in issues :: 0 <= i.root < |owner.profileRefs|
  }

  ghost predicate Tells(owner: Object, definitions: Index, log: seq<string>, out: Output) {
    && Distinct(log) && out.seen == Nodes(log) && out.result == Found(definitions, log)
    && |out.issues| <= MAX_ISSUES && (out.issues != [] ==> !out.complete) && RootsValid(owner, out.issues)
    && (out.complete ==> Defined(definitions, log))
  }

  predicate Defined(definitions: Index, names: seq<string>) {
    forall a | a in names :: a in definitions
  }

  lemma DefinedSnoc(definitions: Index, names: seq<string>, k: nat)
    requires k < |names|
    ensures Defined(definitions, names[..k + 1]) <==> Defined(definitions, names[..k]) && names[k] in definitions
    ensures Defined(definitions, names) ==> names[k] in definitions
  {
    assert names[..k + 1] == names[..k] + [names[k]];
  }

  // ----- one frame's own add-ons

  lemma LogGrows(owner: Object, definitions: Index, log: seq<string>, out: Output, name: string)
    requires Tells(owner, definitions, log, out) && name !in out.seen
    ensures Distinct(log + [name]) && Nodes(log + [name]) == out.seen + {name}
    ensures Found(definitions, log + [name]) == out.result + (if name in definitions then [definitions[name]] else [])
  {
    FoundSnoc(definitions, log, name);
  }

  lemma {:induction false} DedupIdem(a: seq<string>, b: seq<string>)
    ensures Dedup(Dedup(a) + b) == Dedup(a + b)
    decreases |b|
  {
    if b == [] {
      assert Dedup(a) + b == Dedup(a) && a + b == a;
      DedupIsDistinct(a);
      DedupDistinct(Dedup(a));
    } else {
      var front, last := b[..|b| - 1], b[|b| - 1];
      DedupIdem(a, front);
      assert Dedup(a) + b == (Dedup(a) + front) + [last] && a + b == (a + front) + [last];
      DedupSnoc(Dedup(a) + front, last);
      DedupSnoc(a + front, last);
    }
  }

  lemma {:induction false} DedupIsDistinct(s: seq<string>)
    ensures Distinct(Dedup(s))
  {
    if s != [] { DedupIsDistinct(s[..|s| - 1]); }
  }

  /** What holds once k of a frame's own add-ons are dealt with. */
  ghost predicate EmittedTo(owner: Object, definitions: Index, names: seq<string>, log: seq<string>, before: Output,
      k: nat, out: Output, grown: seq<string>) {
    && k <= |names| && grown == Dedup(log + names[..k])
    && Tells(owner, definitions, grown, out)
    && (out.complete ==> before.complete && Defined(definitions, names[..k]))
    && (before.complete && !out.complete ==> !Defined(definitions, names))
  }

  lemma EmittedNone(owner: Object, definitions: Index, names: seq<string>, log: seq<string>, before: Output)
    requires Tells(owner, definitions, log, before)
    ensures EmittedTo(owner, definitions, names, log, before, 0, before, log)
  {
    assert log + names[..0] == log;
    DedupDistinct(log);
  }

  lemma EmittedNext(owner: Object, definitions: Index, bad: Undecodable, f: Frame, log: seq<string>, before: Output,
      k: nat, out: Output, grown: seq<string>)
    requires EmittedTo(owner, definitions, f.obj.addonRefs, log, before, k, out, grown) && k < |f.obj.addonRefs|
    requires |out.issues| < MAX_ISSUES && (f.root >= 0 ==> f.root < |owner.profileRefs|)
    ensures var name := f.obj.addonRefs[k];
            if name in out.seen then EmittedTo(owner, definitions, f.obj.addonRefs, log, before, k + 1, out, grown)
            else EmittedTo(owner, definitions, f.obj.addonRefs, log, before, k + 1,
              Emit(owner, definitions, bad, f, out, grown, name), grown + [name])
  {
    EmitStep(definitions, log, f.obj.addonRefs, k);
  }

  predicate MissesAddon(definitions: Index, bad: Undecodable, name: string) {
    name !in definitions && name !in bad.addons
  }

  /** Every issue is an earlier one or of an add-on the frame names in vain, first of all, under its entry. */
  predicate IssuesAdded(definitions: Index, bad: Undecodable, f: Frame, before: Output, after: seq<Issue>) {
    forall i | i in after :: i in before.issues || AddedBy(definitions, bad, f, before.seen, i)
  }

  predicate AddedBy(definitions: Index, bad: Undecodable, f: Frame, seen: set<string>, i: Issue) {
    && i.kind == MissingAddon && i.root == f.root >= 0
    && i.name in f.obj.addonRefs && i.name !in seen && MissesAddon(definitions, bad, i.name)
  }

  /** What a walk of the names adds is what was put out. */
  predicate WalkedTo(input: Input, f: Frame, before: Output, k: nat, out: Output) {
    && k <= |f.obj.addonRefs| && before.seen <= out.seen
    && Walked({}, out.seen, out.issues)
       == WalkAddons(input, f.root, Walked({}, before.seen, before.issues), f.obj.addonRefs[..k])
  }

  lemma WalkedNext(input: Input, f: Frame, before: Output, k: nat, out: Output, log: seq<string>)
    requires WalkedTo(input, f, before, k, out) && k < |f.obj.addonRefs|
    requires Tells(input.owner, input.definitions, log, out) && |out.issues| < MAX_ISSUES
    requires f.root >= 0 ==> f.root < |input.owner.profileRefs|
    ensures var name := f.obj.addonRefs[k];
      if name in out.seen then WalkedTo(input, f, before, k + 1, out)
      else WalkedTo(input, f, before, k + 1, Emit(input.owner, input.definitions, input.bad, f, out, log, name))
  {
    var names, name := f.obj.addonRefs, f.obj.addonRefs[k];
    var w := Walked({}, before.seen, before.issues);
    assert names[..k + 1][..k] == names[..k] && names[..k + 1][k] == name;
    assert WalkAddons(input, f.root, w, names[..k + 1])
        == WalkAddon(input, f.root, WalkAddons(input, f.root, w, names[..k]), name);
  }

  /** Puts out the add-ons a frame names itself, up to the cap on issues. */
  method EmitAddons(input: Input, f: Frame, before: Output, ghost log: seq<string>)
    returns (out: Output, k: nat, ghost grown: seq<string>)
    requires Tells(input.owner, input.definitions, log, before) && (f.root >= 0 ==> f.root < |input.owner.profileRefs|)
    ensures EmittedTo(input.owner, input.definitions, f.obj.addonRefs, log, before, k, out, grown)
    ensures k < |f.obj.addonRefs| ==> |out.issues| == MAX_ISSUES
    ensures IssuesAdded(input.definitions, input.bad, f, before, out.issues)
    ensures WalkedTo(input, f, before, k, out)
  {
    out, k, grown := before, 0, log;
    EmittedNone(input.owner, input.definitions, f.obj.addonRefs, log, before);
    while k < |f.obj.addonRefs|
      invariant EmittedTo(input.owner, input.definitions, f.obj.addonRefs, log, before, k, out, grown)
      invariant IssuesAdded(input.definitions, input.bad, f, before, out.issues)
      invariant WalkedTo(input, f, before, k, out)
    {
      if |out.issues| >= MAX_ISSUES {
        return;
      }
      var name := f.obj.addonRefs[k];
      EmittedNext(input.owner, input.definitions, input.bad, f, log, before, k, out, grown);
      WalkedNext(input, f, before, k, out, grown);
      if name !in out.seen {
        out, grown := Emit(input.owner, input.definitions, input.bad, f, out, grown, name), grown + [name];
      }
      k := k + 1;
    }
  }

  lemma EmitStep(definitions: Index, log: seq<string>, names: seq<string>, k: nat)
    requires k < |names|
    ensures Dedup(log + names[..k + 1]) ==
            if names[k] in Dedup(log + names[..k]) then Dedup(log + names[..k])
            else Dedup(log + names[..k]) + [names[k]]
    ensures Defined(definitions, names[..k + 1]) <==> Defined(definitions, names[..k]) && names[k] in definitions
    ensures Defined(definitions, names) ==> names[k] in definitions
  {
    assert log + names[..k + 1] == (log + names[..k]) + [names[k]];
    DedupSnoc(log + names[..k], names[k]);
    DefinedSnoc(definitions, names, k);
  }

  function Emit(owner: Object, definitions: Index, bad: Undecodable, f: Frame, out: Output, ghost log: seq<string>,
      name: string): (r: Output)
    requires Tells(owner, definitions, log, out) && name !in out.seen && |out.issues| < MAX_ISSUES
    requires f.root >= 0 ==> f.root < |owner.profileRefs|
    ensures Tells(owner, definitions, log + [name], r)
    ensures r.complete == (out.complete && name in definitions)
    ensures r.seen == out.seen + {name}
    ensures forall i | i in r.issues ::
      i in out.issues || (i == Issue(MissingAddon, f.root, name) && f.root >= 0 && MissesAddon(definitions, bad, name))
  {
    LogGrows(owner, definitions, log, out, name);
    var marked := out.(seen := out.seen + {name});
    if name in definitions then marked.(result := out.result + [definitions[name]])
    else
      var left := marked.(complete := false);
      if name in bad.addons || f.root < 0 then left
      else left.(issues := out.issues + [Issue(MissingAddon, f.root, name)])
  }

  // ----- one profile reference

  /** Takes a reference that opens no profile. */
  function Refuse(owner: Object, bad: Undecodable, f: Frame, root: int, active: set<string>, out: Output,
      name: string): Output {
    if name in active then
      out.(complete := false, issues := out.issues + [Issue(ReturnsTo, root, name)])
    else if name in bad.profiles || f.obj.name == owner.name then
      out.(complete := false)
    else
      out.(complete := false, issues := out.issues + [Issue(MissingProfile, root, name)])
  }

  lemma RefuseTells(owner: Object, definitions: Index, bad: Undecodable, f: Frame, root: int, active: set<string>,
      log: seq<string>, out: Output, name: string)
    requires Tells(owner, definitions, log, out) && |out.issues| < MAX_ISSUES && 0 <= root < |owner.profileRefs|
    ensures Tells(owner, definitions, log, Refuse(owner, bad, f, root, active, out, name))
    ensures !Refuse(owner, bad, f, root, active, out, name).complete
  {
  }

  // ----- the loop's invariant

  ghost predicate Owes(owner: Object, profiles: Index, stack: seq<Frame>, log: seq<string>) {
    Stacked(owner, profiles, stack) && Dedup(log + Owed(owner, profiles, stack)) == Dedup(Expansion(owner, profiles))
  }

  ghost predicate Expanded(profiles: Index, stack: seq<Frame>, active: set<string>, done: set<string>,
      seen: set<string>) {
    && active == ActiveOf(stack)
    && AllMet(profiles, done + active, stack)
    && (stack != [] ==> Settled(profiles, done, done + active, seen))
  }

  /** What a complete flag stands for, both ways. */
  ghost predicate Judges(owner: Object, profiles: Index, definitions: Index, stack: seq<Frame>, done: set<string>,
      finished: seq<Node>, complete: bool) {
    && (!complete ==> !Whole(owner, profiles, definitions))
    && (complete ==> Ranked(owner, profiles, definitions, finished) && StackClean(owner, profiles, finished, stack, 0))
    && (complete && stack != [] ==> forall n | n in done :: NodeOf(owner, n) in finished)
    && (complete && stack == [] ==> Root in finished)
  }

  lemma OwesStart(owner: Object, profiles: Index)
    ensures Owes(owner, profiles, [Frame(owner, owner.profileRefs, 0, -1)], [])
    ensures ActiveOf([Frame(owner, owner.profileRefs, 0, -1)]) == Start(owner)
  {
    var stack := [Frame(owner, owner.profileRefs, 0, -1)];
    assert ActiveOf([]) == {};
    assert Below(stack) == [] && Top(stack) == Frame(owner, owner.profileRefs, 0, -1);
    assert Stacked(owner, profiles, []) && TopStands(owner, profiles, [], Top(stack));
    assert owner.profileRefs[0..] == owner.profileRefs;
    assert ActiveOf(stack) == Start(owner);
    assert Owed(owner, profiles, []) == [];
    var names := Names(profiles, Start(owner), owner.profileRefs);
    assert Owed(owner, profiles, stack) == names + owner.addonRefs + [];
    assert [] + Owed(owner, profiles, stack) == Expansion(owner, profiles);
  }

  lemma OwesTaken(owner: Object, profiles: Index, stack: seq<Frame>, active: set<string>, done: set<string>,
      seen: set<string>, log: seq<string>)
    requires Owes(owner, profiles, stack, log) && Expanded(profiles, stack, active, done, seen) && seen == Nodes(log)
    requires stack != [] && Top(stack).next < |Top(stack).refs|
    requires var name := Top(stack).refs[Top(stack).next]; name in active || name in done || name !in profiles
    ensures Owes(owner, profiles, Taken(stack), log)
  {
    var f := Top(stack);
    var name := f.refs[f.next];
    TakenStands(owner, profiles, stack);
    if name in done { DoneYieldsSeen(profiles, active, done, seen, active, name); }
    var visit, owed := Visit(profiles, active, name), Owed(owner, profiles, Taken(stack));
    DedupDrops(log, visit, owed);
    assert log + (visit + owed) == log + visit + owed;
  }

  lemma ExpandedTaken(profiles: Index, stack: seq<Frame>, active: set<string>, done: set<string>, seen: set<string>,
      met: set<string>)
    requires Expanded(profiles, stack, active, done, seen) && stack != [] && Top(stack).next < |Top(stack).refs|
    requires done + active <= met
    requires var name := Top(stack).refs[Top(stack).next]; name in met || name !in profiles
    ensures AllMet(profiles, met, Taken(stack)) && Settled(profiles, done, met, seen)
  {
    forall f | f in Taken(stack) ensures MetBefore(profiles, met, f) {
      var g := if f in Below(stack) then f else Top(stack);
      assert g in stack;
      assert MetBefore(profiles, done + active, g);
    }
    forall p | p in done ensures SettledProfile(profiles, met, seen, p) {
      assert SettledProfile(profiles, done + active, seen, p);
    }
  }

  /** A reference already expanded changes nothing. */
  lemma SkipJudges(owner: Object, profiles: Index, definitions: Index, stack: seq<Frame>, done: set<string>,
      finished: seq<Node>, complete: bool)
    requires Judges(owner, profiles, definitions, stack, done, finished, complete)
    requires stack != [] && Top(stack).next < |Top(stack).refs|
    requires var name := Top(stack).refs[Top(stack).next]; name in done && name in profiles
    ensures Judges(owner, profiles, definitions, Taken(stack), done, finished, complete)
  {
    assert Below(Taken(stack)) == Below(stack);
  }

  /** A reference to an active or an unknown profile proves the selection is not whole. */
  lemma RefuseJudges(owner: Object, profiles: Index, definitions: Index, stack: seq<Frame>, done: set<string>,
      finished: seq<Node>)
    requires Stacked(owner, profiles, stack) && stack != [] && Top(stack).next < |Top(stack).refs|
    requires var name := Top(stack).refs[Top(stack).next]; name in ActiveOf(stack) || name !in profiles
    ensures Judges(owner, profiles, definitions, Taken(stack), done, finished, false)
  {
    var name := Top(stack).refs[Top(stack).next];
    OwnerActive(owner, profiles, stack);
    assert name in Top(stack).refs;
    ReferenceInReach(owner, profiles, definitions, stack, name);
  }

  lemma PushKeeps(owner: Object, profiles: Index, definitions: Index, stack: seq<Frame>, active: set<string>,
      done: set<string>, seen: set<string>,
                  log: seq<string>, finished: seq<Node>, complete: bool, root: int)
    requires Indexed(profiles, ProfileKind) && Owes(owner, profiles, stack, log)
      && Expanded(profiles, stack, active, done, seen)
    requires Judges(owner, profiles, definitions, stack, done, finished, complete)
    requires stack != [] && Top(stack).next < |Top(stack).refs| && 0 <= root < |owner.profileRefs|
    requires var name := Top(stack).refs[Top(stack).next]; name !in active && name in profiles
    ensures var name := Top(stack).refs[Top(stack).next];
            var pushed := Taken(stack) + [Frame(profiles[name], profiles[name].profileRefs, 0, root)];
            && Owes(owner, profiles, pushed, log)
            && Expanded(profiles, pushed, active + {name}, done, seen)
            && Judges(owner, profiles, definitions, pushed, done, finished, complete)
  {
    var name := Top(stack).refs[Top(stack).next];
    TakenStands(owner, profiles, stack);
    PushedStands(owner, profiles, Taken(stack), name, root);
    ExpandedTaken(profiles, stack, active, done, seen, done + (active + {name}));
    assert Below(Taken(stack)) == Below(stack);
  }

  // ----- leaving a frame

  ghost predicate Leaving(owner: Object, profiles: Index, stack: seq<Frame>) {
    Stacked(owner, profiles, stack) && stack != [] && Top(stack).next == |Top(stack).refs|
  }

  lemma PopOwes(owner: Object, profiles: Index, stack: seq<Frame>, log: seq<string>, k: nat)
    requires Owes(owner, profiles, stack, log) && Leaving(owner, profiles, stack) && k <= |Top(stack).obj.addonRefs|
    ensures var own := Top(stack).obj.addonRefs;
            Dedup(Dedup(log + own[..k]) + (own[k..] + Owed(owner, profiles, Below(stack)))) ==
              Dedup(Expansion(owner, profiles))
  {
    var own, rest := Top(stack).obj.addonRefs, Owed(owner, profiles, Below(stack));
    LeavingOwes(owner, profiles, stack);
    DedupIdem(log + own[..k], own[k..] + rest);
    Regroup(log, own, rest, k);
  }

  lemma LeavingOwes(owner: Object, profiles: Index, stack: seq<Frame>)
    requires Leaving(owner, profiles, stack)
    ensures Owed(owner, profiles, stack) == Top(stack).obj.addonRefs + Owed(owner, profiles, Below(stack))
  {
    var f := Top(stack);
    assert f.refs[f.next..] == [];
    var own, rest := f.obj.addonRefs, Owed(owner, profiles, Below(stack));
    assert Owed(owner, profiles, stack) == [] + own + rest;
    assert [] + own == own;
  }

  lemma Regroup(a: seq<string>, b: seq<string>, c: seq<string>, k: nat)
    requires k <= |b|
    ensures (a + b[..k]) + (b[k..] + c) == a + (b + c)
  {
    assert b[..k] + b[k..] == b;
    assert (a + b[..k]) + (b[k..] + c) == a + (b[..k] + b[k..]) + c;
  }

  lemma PopExpanded(owner: Object, profiles: Index, stack: seq<Frame>, active: set<string>, done: set<string>,
      seen: set<string>, grown: set<string>)
    requires Leaving(owner, profiles, stack) && Expanded(profiles, stack, active, done, seen)
    requires seen <= grown && forall a | a in Top(stack).obj.addonRefs :: a in grown
    ensures Expanded(profiles, Below(stack), active - Start(Top(stack).obj), done + Start(Top(stack).obj), grown)
  {
    var f, gone := Top(stack), Start(Top(stack).obj);
    PoppedActive(owner, profiles, stack);
    assert (done + gone) + (active - gone) == done + active;
    assert AllMet(profiles, done + active, Below(stack));
    if Below(stack) != [] {
      forall p | p in done + gone ensures SettledProfile(profiles, done + active, grown, p) {
        if p in done {
          assert SettledProfile(profiles, done + active, seen, p);
        } else {
          assert f in stack && MetBefore(profiles, done + active, f);
        }
      }
    }
  }

  lemma PopRanks(owner: Object, profiles: Index, definitions: Index, stack: seq<Frame>, finished: seq<Node>)
    requires Leaving(owner, profiles, stack) && StackClean(owner, profiles, finished, stack, 0)
    requires Ranked(owner, profiles, definitions, finished) && Defined(definitions, Top(stack).obj.addonRefs)
    ensures Ranked(owner, profiles, definitions, finished + [FrameNode(Below(stack), Top(stack))])
  {
    var f, node := Top(stack), FrameNode(Below(stack), Top(stack));
    TopNode(owner, profiles, stack);
    assert RankedNode(owner, profiles, definitions, finished, node) by {
      forall r | r in f.obj.profileRefs ensures NodeOf(owner, r) in finished
        && Resolves(owner, profiles, NodeOf(owner, r)) {
        var i :| 0 <= i < |f.refs| && f.refs[i] == r;
      }
    }
    RankedSnoc(owner, profiles, definitions, finished, node);
  }

  lemma PopClean(owner: Object, profiles: Index, stack: seq<Frame>, finished: seq<Node>)
    requires Leaving(owner, profiles, stack) && StackClean(owner, profiles, finished, stack, 0)
    ensures StackClean(owner, profiles, finished + [FrameNode(Below(stack), Top(stack))], Below(stack), 0)
  {
    var below, node := Below(stack), FrameNode(Below(stack), Top(stack));
    if below != [] {
      CleanGrows(owner, profiles, finished, node, below, 1);
      TopNode(owner, profiles, stack);
    }
  }

  lemma PopJudges(owner: Object, profiles: Index, definitions: Index, stack: seq<Frame>, done: set<string>,
      finished: seq<Node>, was: bool, complete: bool)
    requires Leaving(owner, profiles, stack) && Judges(owner, profiles, definitions, stack, done, finished, was)
    requires complete ==> was && Defined(definitions, Top(stack).obj.addonRefs)
    requires was && !complete ==> !Defined(definitions, Top(stack).obj.addonRefs)
    ensures Judges(owner, profiles, definitions, Below(stack), done + Start(Top(stack).obj),
      finished + [FrameNode(Below(stack), Top(stack))], complete)
  {
    if complete {
      PopRanks(owner, profiles, definitions, stack, finished);
      PopClean(owner, profiles, stack, finished);
      TopNode(owner, profiles, stack);
    } else if was {
      var a :| a in Top(stack).obj.addonRefs && a !in definitions;
      AddonInReach(owner, profiles, definitions, stack, a);
    }
  }

  // ----- what an issue says is so

  ghost predicate NamedInVain(owner: Object, profiles: Index, name: string) {
    exists node :: InReach(owner, profiles, node) && Resolves(owner, profiles, node)
      && name in ObjectOf(owner, profiles, node).addonRefs
  }

  /**
   The profile an issue names is in reach and on a cycle or unknown, the add-on it
   names is named in reach and unknown.
   */
  ghost predicate Truthful(owner: Object, profiles: Index, definitions: Index, bad: Undecodable, i: Issue) {
    match i.kind
    case SelectsNothing => SelectsNone(owner)
    case ReturnsTo =>
      InReach(owner, profiles, NodeOf(owner, i.name)) && OnCycle(ProfileGraph(owner, profiles), NodeOf(owner, i.name))
    case MissingProfile =>
      i.name !in profiles && i.name !in bad.profiles && InReach(owner, profiles, NodeOf(owner, i.name))
    case MissingAddon => MissesAddon(definitions, bad, i.name) && NamedInVain(owner, profiles, i.name)
  }

  ghost predicate AllTruthful(owner: Object, profiles: Index, definitions: Index, bad: Undecodable,
      issues: seq<Issue>) {
    forall i | i in issues :: Truthful(owner, profiles, definitions, bad, i)
  }

  lemma RefuseIsTruthful(owner: Object, profiles: Index, definitions: Index, bad: Undecodable, stack: seq<Frame>,
      root: int, out: Output)
    requires Stacked(owner, profiles, stack) && stack != [] && Top(stack).next < |Top(stack).refs|
    requires var name := Top(stack).refs[Top(stack).next]; name in ActiveOf(stack) || name !in profiles
    requires AllTruthful(owner, profiles, definitions, bad, out.issues)
    ensures var f := Top(stack);
      AllTruthful(owner, profiles, definitions, bad,
        Refuse(owner, bad, f, root, ActiveOf(stack), out, f.refs[f.next]).issues)
  {
    var f := Top(stack);
    ReferenceFollows(owner, profiles, stack, f.refs[f.next]);
  }

  lemma EmitIsTruthful(owner: Object, profiles: Index, definitions: Index, bad: Undecodable, stack: seq<Frame>,
      before: Output, after: seq<Issue>)
    requires Stacked(owner, profiles, stack) && stack != []
    requires AllTruthful(owner, profiles, definitions, bad, before.issues)
    requires IssuesAdded(definitions, bad, Top(stack), before, after)
    ensures AllTruthful(owner, profiles, definitions, bad, after)
  {
    TopNode(owner, profiles, stack);
    StackInReach(owner, profiles, stack);
    var node := FrameNode(Below(stack), Top(stack));
    forall i | i in after ensures Truthful(owner, profiles, definitions, bad, i) {
      if i !in before.issues {
        assert i.name in ObjectOf(owner, profiles, node).addonRefs;
      }
    }
  }

  // ----- where an issue points, and which there are

  ghost predicate Sure(input: Input, stack: seq<Frame>, done: set<string>, out: Output, base: set<string>) {
    && AllTruthful(input.owner, input.profiles, input.definitions, input.bad, out.issues)
    && AllPointed(input.owner, input.profiles, out.issues)
    && Based(input.owner, input.profiles, stack, base) && base <= done
    && Finish(input, stack, Walked(done, out.seen, out.issues)) == ExpansionWalk.Walk(input)
  }

  lemma SureStart(input: Input)
    ensures Sure(input, [Frame(input.owner, input.owner.profileRefs, 0, -1)], {}, Output({}, [], [], true), {})
  {
    FinishStart(input);
  }

  /** The owner is at the bottom, and its name is taken. */
  lemma OwnerBelow(owner: Object, profiles: Index, stack: seq<Frame>, name: string)
    requires Stacked(owner, profiles, stack) && stack != [] && name !in ActiveOf(stack)
    ensures name !in Start(owner)
  {
    OwnerActive(owner, profiles, stack);
  }

  lemma BottomBase(owner: Object, profiles: Index, stack: seq<Frame>, done: set<string>, seen: set<string>)
    requires Stacked(owner, profiles, stack) && |stack| == 1 && Expanded(profiles, stack, ActiveOf(stack), done, seen)
    ensures BaseClosed(owner, profiles, done) && BaseHolds(owner, profiles, done, Top(stack).next)
    ensures Top(stack).refs == owner.profileRefs && Top(stack).root == -1 && ActiveOf(stack) == Start(owner)
  {
    assert Below(stack) == [] && ActiveOf([]) == {};
    assert ActiveOf(stack) == Start(owner);
    forall p | p in done ensures p in profiles && forall r | r in profiles[p].profileRefs ::
      Known(owner, profiles, done, r) {
      assert SettledProfile(profiles, done + ActiveOf(stack), seen, p);
    }
    assert MetBefore(profiles, done + ActiveOf(stack), stack[0]);
  }

  lemma SurePush(input: Input, stack: seq<Frame>, active: set<string>, done: set<string>, out: Output,
      base: set<string>)
      returns (next: set<string>)
    requires Sure(input, stack, done, out, base) && Indexed(input.profiles, ProfileKind)
    requires Stacked(input.owner, input.profiles, stack) && Expanded(input.profiles, stack, active, done, out.seen)
    requires stack != [] && Top(stack).next < |Top(stack).refs|
    requires var name := Top(stack).refs[Top(stack).next]; name !in active && name !in done && name in input.profiles
    ensures var f := Top(stack);
      var p := input.profiles[f.refs[f.next]];
      Sure(input, Taken(stack) + [Frame(p, p.profileRefs, 0, EntryOf(f))], done, out, next)
  {
    var f := Top(stack);
    var name := f.refs[f.next];
    var w, taken := Walked(done, out.seen, out.issues), Taken(stack);
    TakenStands(input.owner, input.profiles, stack);
    OwnerBelow(input.owner, input.profiles, stack, name);
    TopRoot(input.owner, input.profiles, stack);
    FinishTakes(input, stack, w);
    FinishPushes(input, taken, w, f.obj.name, EntryOf(f), name);
    if |stack| == 1 {
      next := done;
      BottomBase(input.owner, input.profiles, stack, done, out.seen);
      BasedEntry(input.owner, input.profiles, taken, done, f.next, name);
    } else {
      next := base;
      BasedTaken(input.owner, input.profiles, stack, base);
      assert FrameBased(input.owner, input.profiles, base, stack[1].root, stack[|stack| - 1]);
      BasedPush(input.owner, input.profiles, taken, base, name);
    }
  }

  lemma SureRefuse(input: Input, stack: seq<Frame>, done: set<string>, out: Output, base: set<string>)
    requires Sure(input, stack, done, out, base) && Stacked(input.owner, input.profiles, stack)
    requires stack != [] && Top(stack).next < |Top(stack).refs|
    requires var name := Top(stack).refs[Top(stack).next];
      name in ActiveOf(stack) || (name !in done && name !in input.profiles)
    ensures var f := Top(stack);
      Sure(input, Taken(stack), done,
           Refuse(input.owner, input.bad, f, EntryOf(f), ActiveOf(stack), out, f.refs[f.next]), base)
  {
    var f := Top(stack);
    var name := f.refs[f.next];
    TakenStands(input.owner, input.profiles, stack);
    FinishTakes(input, stack, Walked(done, out.seen, out.issues));
    BasedTaken(input.owner, input.profiles, stack, base);
    RefuseIsTruthful(input.owner, input.profiles, input.definitions, input.bad, stack, EntryOf(f), out);
    TopRoot(input.owner, input.profiles, stack);
    if |stack| == 1 {
      assert f.obj == input.owner by { assert Below(stack) == []; }
    } else {
      assert FrameBased(input.owner, input.profiles, base, stack[1].root, stack[|stack| - 1]);
      TopPoints(input.owner, input.profiles, stack, base, name);
    }
  }

  lemma SureSkip(input: Input, stack: seq<Frame>, done: set<string>, out: Output, base: set<string>)
    requires Sure(input, stack, done, out, base)
    requires stack != [] && Top(stack).next < |Top(stack).refs|
    requires var name := Top(stack).refs[Top(stack).next]; name !in ActiveOf(stack) && name in done
    ensures Sure(input, Taken(stack), done, out, base)
  {
    FinishTakes(input, stack, Walked(done, out.seen, out.issues));
    BasedTaken(input.owner, input.profiles, stack, base);
  }

  lemma EmitIsPointed(input: Input, stack: seq<Frame>, done: set<string>, out: Output, base: set<string>,
      after: seq<Issue>)
    requires Sure(input, stack, done, out, base) && Stacked(input.owner, input.profiles, stack) && stack != []
    requires Settled(input.profiles, done, done + ActiveOf(stack), out.seen)
    requires IssuesAdded(input.definitions, input.bad, Top(stack), out, after)
    ensures AllPointed(input.owner, input.profiles, after)
  {
    TopRoot(input.owner, input.profiles, stack);
    forall i | i in after ensures Pointed(input.owner, input.profiles, i) {
      if i !in out.issues {
        assert |stack| > 1;
        TopPoints(input.owner, input.profiles, stack, base, i.name);
        forall p, a | p in base && p in input.profiles && a in input.profiles[p].addonRefs ensures a in out.seen {
          assert SettledProfile(input.profiles, done + ActiveOf(stack), out.seen, p);
        }
        UnseenIsNotEarlier(input.owner, input.profiles, stack, base, out.seen, i.name);
      }
    }
  }

  // ----- the expansion

  predicate SelectsNone(owner: Object) {
    |owner.profileRefs| + |owner.addonRefs| + owner.packages == 0
  }

  ghost predicate Answers(owner: Object, profiles: Index, definitions: Index, result: seq<Object>, issues: seq<Issue>,
      complete: bool) {
    && (complete <==> Whole(owner, profiles, definitions))
    && result <= Selection(owner, profiles, definitions)
    && (|issues| < MAX_ISSUES ==> result == Selection(owner, profiles, definitions))
    && |issues| <= MAX_ISSUES && RootsValid(owner, issues)
  }

  lemma Capped(owner: Object, profiles: Index, definitions: Index, log: seq<string>, rest: seq<string>, out: Output)
    requires Tells(owner, definitions, log, out) && |out.issues| == MAX_ISSUES && !Whole(owner, profiles, definitions)
    requires Dedup(log + rest) == Dedup(Expansion(owner, profiles))
    ensures Answers(owner, profiles, definitions, out.result, out.issues, false)
  {
    DedupPrefix(log, rest);
    FoundPrefix(definitions, log, Dedup(Expansion(owner, profiles)));
  }

  lemma Uncapped(owner: Object, profiles: Index, definitions: Index, log: seq<string>, done: set<string>,
      finished: seq<Node>, out: Output)
    requires Tells(owner, definitions, log, out) && Owes(owner, profiles, [], log)
    requires Judges(owner, profiles, definitions, [], done, finished, out.complete)
    ensures Answers(owner, profiles, definitions, out.result, out.issues, out.complete)
  {
    assert log + Owed(owner, profiles, []) == log;
    DedupDistinct(log);
    if out.complete { RankedIsWhole(owner, profiles, definitions, finished); }
  }

  /** The loop's invariant. */
  ghost predicate Running(owner: Object, profiles: Index, definitions: Index, stack: seq<Frame>, active: set<string>,
      done: set<string>,
                          out: Output, log: seq<string>, finished: seq<Node>) {
    && Indexed(profiles, ProfileKind)
    && Owes(owner, profiles, stack, log) && Tells(owner, definitions, log, out)
    && Expanded(profiles, stack, active, done, out.seen)
    && Judges(owner, profiles, definitions, stack, done, finished, out.complete)
  }

  lemma RunningStart(owner: Object, profiles: Index, definitions: Index)
    requires Indexed(profiles, ProfileKind)
    ensures Running(owner, profiles, definitions, [Frame(owner, owner.profileRefs, 0, -1)], Start(owner), {},
      Output({}, [], [], true), [], [])
  {
    var stack := [Frame(owner, owner.profileRefs, 0, -1)];
    OwesStart(owner, profiles);
    assert Below(stack) == [];
  }

  lemma RunningRefuses(owner: Object, profiles: Index, definitions: Index, bad: Undecodable, stack: seq<Frame>,
      active: set<string>, done: set<string>,
                       out: Output, log: seq<string>, finished: seq<Node>, root: int)
    requires Running(owner, profiles, definitions, stack, active, done, out, log, finished) && |out.issues| < MAX_ISSUES
    requires stack != [] && Top(stack).next < |Top(stack).refs| && 0 <= root < |owner.profileRefs|
    requires var name := Top(stack).refs[Top(stack).next]; name in active || name !in profiles
    ensures var name := Top(stack).refs[Top(stack).next];
            Running(owner, profiles, definitions, Taken(stack), active, done,
              Refuse(owner, bad, Top(stack), root, active, out, name), log, finished)
  {
    TakenStands(owner, profiles, stack);
    OwesTaken(owner, profiles, stack, active, done, out.seen, log);
    ExpandedTaken(profiles, stack, active, done, out.seen, done + active);
    RefuseJudges(owner, profiles, definitions, stack, done, finished);
    RefuseTells(owner, definitions, bad, Top(stack), root, active, log, out, Top(stack).refs[Top(stack).next]);
  }

  lemma RunningSkips(owner: Object, profiles: Index, definitions: Index, stack: seq<Frame>, active: set<string>,
      done: set<string>,
                     out: Output, log: seq<string>, finished: seq<Node>)
    requires Running(owner, profiles, definitions, stack, active, done, out, log, finished)
    requires stack != [] && Top(stack).next < |Top(stack).refs| && Top(stack).refs[Top(stack).next] in done
    ensures Running(owner, profiles, definitions, Taken(stack), active, done, out, log, finished)
  {
    assert SettledProfile(profiles, done + active, out.seen, Top(stack).refs[Top(stack).next]);
    TakenStands(owner, profiles, stack);
    OwesTaken(owner, profiles, stack, active, done, out.seen, log);
    ExpandedTaken(profiles, stack, active, done, out.seen, done + active);
    SkipJudges(owner, profiles, definitions, stack, done, finished, out.complete);
  }

  lemma RunningLeaves(owner: Object, profiles: Index, definitions: Index, stack: seq<Frame>, active: set<string>,
      done: set<string>,
                      out: Output, log: seq<string>, finished: seq<Node>, next: Output, grown: seq<string>)
    requires Running(owner, profiles, definitions, stack, active, done, out, log, finished)
      && Leaving(owner, profiles, stack)
    requires EmittedTo(owner, definitions, Top(stack).obj.addonRefs, log, out, |Top(stack).obj.addonRefs|, next, grown)
    ensures var f := Top(stack);
            Running(owner, profiles, definitions, Below(stack), active - Start(f.obj), done + Start(f.obj), next, grown,
                    finished + [FrameNode(Below(stack), f)])
  {
    var own, rest := Top(stack).obj.addonRefs, Owed(owner, profiles, Below(stack));
    PopOwes(owner, profiles, stack, log, |own|);
    assert own[..|own|] == own && own[|own|..] + rest == rest;
    assert forall x :: x in log + own <==> x in log || x in own;
    PopExpanded(owner, profiles, stack, active, done, out.seen, next.seen);
    PopJudges(owner, profiles, definitions, stack, done, finished, out.complete, next.complete);
  }

  /** Cut short at the cap while leaving a frame. */
  lemma RunningCapped(owner: Object, profiles: Index, definitions: Index, stack: seq<Frame>, active: set<string>,
      done: set<string>,
                      out: Output, log: seq<string>, finished: seq<Node>, next: Output, k: nat, grown: seq<string>)
    requires Running(owner, profiles, definitions, stack, active, done, out, log, finished)
      && Leaving(owner, profiles, stack)
    requires EmittedTo(owner, definitions, Top(stack).obj.addonRefs, log, out, k, next, grown)
      && |next.issues| == MAX_ISSUES
    ensures Answers(owner, profiles, definitions, next.result, next.issues, false)
  {
    PopOwes(owner, profiles, stack, log, k);
    PopJudgesEarly(owner, profiles, definitions, stack, done, finished, out.complete, next.complete);
    Capped(owner, profiles, definitions, grown, Top(stack).obj.addonRefs[k..] + Owed(owner, profiles, Below(stack)),
      next);
  }

  /** The issues are those a recursive walk raises, in its order, cut at the cap. */
  predicate IssuesExact(input: Input, issues: seq<Issue>) {
    var all := ExpansionWalk.Walk(input).issues;
    issues <= all && |issues| == if |all| < MAX_ISSUES then |all| else MAX_ISSUES
  }

  /** All that is said of the issues. */
  ghost predicate IssuesSaid(input: Input, issues: seq<Issue>) {
    && AllTruthful(input.owner, input.profiles, input.definitions, input.bad, issues)
    && AllPointed(input.owner, input.profiles, issues)
    && IssuesExact(input, issues)
  }

  lemma SureCapped(input: Input, stack: seq<Frame>, done: set<string>, out: Output, base: set<string>)
    requires Sure(input, stack, done, out, base) && |out.issues| == MAX_ISSUES
    ensures IssuesSaid(input, out.issues)
  {
    FinishAdds(input, stack, Walked(done, out.seen, out.issues));
  }

  lemma SureEnds(input: Input, done: set<string>, out: Output, base: set<string>)
    requires Sure(input, [], done, out, base) && |out.issues| <= MAX_ISSUES
    ensures IssuesSaid(input, out.issues)
  {
  }

  /** What was walked of a frame's add-ons continues to the whole. */
  lemma LeavingWalks(input: Input, stack: seq<Frame>, done: set<string>, out: Output, base: set<string>, k: nat,
      next: Output)
    requires Sure(input, stack, done, out, base) && Leaving(input.owner, input.profiles, stack)
    requires WalkedTo(input, Top(stack), out, k, next)
    ensures next.issues <= ExpansionWalk.Walk(input).issues
    ensures k == |Top(stack).obj.addonRefs| ==>
      Finish(input, Below(stack), Walked(done + Start(Top(stack).obj), next.seen, next.issues)) ==
        ExpansionWalk.Walk(input)
  {
    var f, w := Top(stack), Walked(done, out.seen, out.issues);
    var names := f.obj.addonRefs;
    var v := Walked({}, out.seen, out.issues);
    FinishLeaves(input, stack, w);
    AddonsPrefix(input, f.root, w, names, k);
    assert v.(done := done) == w;
    AddonsDone(input, f.root, v, names[..k], done);
    var all := WalkAddons(input, f.root, w, names);
    FinishAdds(input, Below(stack), all.(done := all.done + Start(f.obj)));
    assert names[..|names|] == names;
  }

  predicate Looked(at: nat) {
    true
  }

  /** The loop's invariant whole; it is carried as one, and looked into by lemma only. */
  ghost predicate Going(input: Input, stack: seq<Frame>, active: set<string>, done: set<string>, out: Output,
      log: seq<string>, finished: seq<Node>, base: set<string>) {
    forall at: nat {:trigger Looked(at)} :: Looked(at) ==>
      && Running(input.owner, input.profiles, input.definitions, stack, active, done, out, log, finished)
      && Sure(input, stack, done, out, base)
  }

  lemma LookInto(input: Input, stack: seq<Frame>, active: set<string>, done: set<string>, out: Output, log: seq<string>,
      finished: seq<Node>, base: set<string>)
    requires Going(input, stack, active, done, out, log, finished, base)
    ensures Running(input.owner, input.profiles, input.definitions, stack, active, done, out, log, finished)
    ensures Sure(input, stack, done, out, base)
  {
    assert Looked(0);
  }

  /** What the loop itself goes by. */
  lemma GoesBy(input: Input, stack: seq<Frame>, active: set<string>, done: set<string>, out: Output, log: seq<string>,
      finished: seq<Node>, base: set<string>)
    requires Going(input, stack, active, done, out, log, finished, base) && stack != []
    ensures Top(stack).next <= |Top(stack).refs| && |out.issues| <= MAX_ISSUES && Start(Top(stack).obj) <= active
    ensures Top(stack).next == |Top(stack).refs| ==> Leaving(input.owner, input.profiles, stack)
  {
    LookInto(input, stack, active, done, out, log, finished, base);
  }

  lemma GoesCapped(input: Input, stack: seq<Frame>, active: set<string>, done: set<string>, out: Output,
      log: seq<string>,
      finished: seq<Node>, base: set<string>)
    requires Going(input, stack, active, done, out, log, finished, base) && |out.issues| == MAX_ISSUES
    ensures Answers(input.owner, input.profiles, input.definitions, out.result, out.issues, false)
    ensures IssuesSaid(input, out.issues)
  {
    LookInto(input, stack, active, done, out, log, finished, base);
    Capped(input.owner, input.profiles, input.definitions, log, Owed(input.owner, input.profiles, stack), out);
    SureCapped(input, stack, done, out, base);
  }

  lemma GoesEnd(input: Input, active: set<string>, done: set<string>, out: Output, log: seq<string>,
      finished: seq<Node>, base: set<string>)
    requires Going(input, [], active, done, out, log, finished, base)
    ensures Answers(input.owner, input.profiles, input.definitions, out.result, out.issues, out.complete)
    ensures IssuesSaid(input, out.issues)
  {
    LookInto(input, [], active, done, out, log, finished, base);
    Uncapped(input.owner, input.profiles, input.definitions, log, done, finished, out);
    SureEnds(input, done, out, base);
  }

  lemma GoesStart(input: Input)
    requires Indexed(input.profiles, ProfileKind)
    ensures Going(input, [Frame(input.owner, input.owner.profileRefs, 0, -1)], Start(input.owner), {},
      Output({}, [], [], true),
                  [], [], {})
  {
    RunningStart(input.owner, input.profiles, input.definitions);
    SureStart(input);
  }

  lemma GoesDown(input: Input, stack: seq<Frame>, active: set<string>, done: set<string>, out: Output, log: seq<string>,
      finished: seq<Node>, base: set<string>)
      returns (next: set<string>)
    requires Going(input, stack, active, done, out, log, finished, base) && stack != []
      && Top(stack).next < |Top(stack).refs|
    requires var name := Top(stack).refs[Top(stack).next]; name !in active && name !in done && name in input.profiles
    ensures var f := Top(stack);
      var name := f.refs[f.next];
      Going(input, Taken(stack) + [Frame(input.profiles[name], input.profiles[name].profileRefs, 0, EntryOf(f))],
            active + {name}, done, out, log, finished, next)
  {
    LookInto(input, stack, active, done, out, log, finished, base);
    TopRoot(input.owner, input.profiles, stack);
    PushKeeps(input.owner, input.profiles, input.definitions, stack, active, done, out.seen, log, finished,
      out.complete,
              EntryOf(Top(stack)));
    next := SurePush(input, stack, active, done, out, base);
  }

  lemma GoesOn(input: Input, stack: seq<Frame>, active: set<string>, done: set<string>, out: Output, log: seq<string>,
      finished: seq<Node>, base: set<string>)
    requires Going(input, stack, active, done, out, log, finished, base) && stack != []
      && Top(stack).next < |Top(stack).refs|
    requires |out.issues| < MAX_ISSUES
    requires var name := Top(stack).refs[Top(stack).next]; name in active || name in done || name !in input.profiles
    ensures var f := Top(stack);
      var name := f.refs[f.next];
      Going(input, Taken(stack), active, done,
            if name in active || name !in done
            then Refuse(input.owner, input.bad, f, EntryOf(f), active, out, name) else out,
            log, finished, base)
  {
    var name := Top(stack).refs[Top(stack).next];
    LookInto(input, stack, active, done, out, log, finished, base);
    TopRoot(input.owner, input.profiles, stack);
    if name in active || name !in done {
      SureRefuse(input, stack, done, out, base);
      RunningRefuses(input.owner, input.profiles, input.definitions, input.bad, stack, active, done, out, log, finished,
                     EntryOf(Top(stack)));
    } else {
      SureSkip(input, stack, done, out, base);
      RunningSkips(input.owner, input.profiles, input.definitions, stack, active, done, out, log, finished);
    }
  }

  /**
   Puts out the add-ons of a frame whose references are all taken; not whole where
   the cap on issues cuts it short.
   */
  method LeaveFrame(input: Input, stack: seq<Frame>, ghost active: set<string>, ghost done: set<string>, out: Output,
                    ghost log: seq<string>, ghost finished: seq<Node>, ghost base: set<string>)
    returns (next: Output, whole: bool, ghost grown: seq<string>)
    requires Going(input, stack, active, done, out, log, finished, base) && Leaving(input.owner, input.profiles, stack)
    ensures !whole ==>
      && Answers(input.owner, input.profiles, input.definitions, next.result, next.issues, false)
      && IssuesSaid(input, next.issues)
    ensures whole ==>
      var f := Top(stack);
      Going(input, Below(stack), active - Start(f.obj), done + Start(f.obj), next, grown,
            finished + [FrameNode(Below(stack), f)], base)
  {
    var f, k := Top(stack), 0;
    LookInto(input, stack, active, done, out, log, finished, base);
    TopRoot(input.owner, input.profiles, stack);
    next, k, grown := EmitAddons(input, f, out, log);
    EmitIsTruthful(input.owner, input.profiles, input.definitions, input.bad, stack, out, next.issues);
    EmitIsPointed(input, stack, done, out, base, next.issues);
    LeavingWalks(input, stack, done, out, base, k, next);
    whole := k == |f.obj.addonRefs|;
    if whole {
      BasedBelow(input.owner, input.profiles, stack, base);
      RunningLeaves(input.owner, input.profiles, input.definitions, stack, active, done, out, log, finished, next,
        grown);
    } else {
      RunningCapped(input.owner, input.profiles, input.definitions, stack, active, done, out, log, finished, next, k,
        grown);
    }
  }

  /** Takes the top frame's next profile reference: opens the profile, skips it or refuses it. */
  method TakeReference(input: Input, stack: seq<Frame>, active: set<string>, done: set<string>, out: Output,
                       ghost log: seq<string>, ghost finished: seq<Node>, ghost base: set<string>)
    returns (next: seq<Frame>, opening: set<string>, told: Output, ghost under: set<string>)
    requires Going(input, stack, active, done, out, log, finished, base) && |out.issues| < MAX_ISSUES
    requires stack != [] && Top(stack).next < |Top(stack).refs|
    ensures Going(input, next, opening, done, told, log, finished, under) && next != []
    ensures if opening == active
            then Below(next) == Below(stack) && Top(next) == Top(stack).(next := Top(stack).next + 1)
            else input.profiles.Keys - (done + opening) < input.profiles.Keys - (done + active)
  {
    var f := Top(stack);
    var name, root := f.refs[f.next], if f.root < 0 then f.next else f.root;
    next, opening, told, under := Taken(stack), active, out, base;
    if name !in active && name !in done && name in input.profiles {
      under := GoesDown(input, stack, active, done, out, log, finished, base);
      var p := input.profiles[name];
      next, opening := next + [Frame(p, p.profileRefs, 0, root)], active + {name};
      assert name in input.profiles.Keys - (done + active);
    } else {
      GoesOn(input, stack, active, done, out, log, finished, base);
      if name in active || name !in done {
        told := Refuse(input.owner, input.bad, f, root, active, out, name);
      }
    }
  }

  /**
   The expansion is complete exactly when nothing in reach is unresolved or on a
   cycle. Below the cap on issues it selects what the recursive expansion does,
   and at the cap a prefix of it. Its issues are those the recursive walk raises, up
   to the cap; each is so, and points at the first of the owner's entries that leads
   to it.
   */
  method ExpandIndexed(input: Input) returns (result: seq<Object>, issues: seq<Issue>, complete: bool)
    requires Indexed(input.profiles, ProfileKind)
    ensures SelectsNone(input.owner) ==> result == [] && issues == [Issue(SelectsNothing, -1, "")] && !complete
    ensures !SelectsNone(input.owner) ==>
      && Answers(input.owner, input.profiles, input.definitions, result, issues, complete)
      && IssuesSaid(input, issues)
  {
    var owner := input.owner;
    if SelectsNone(owner) {
      return [], [Issue(SelectsNothing, -1, "")], false;
    }
    var stack := [Frame(owner, owner.profileRefs, 0, -1)];
    var active, done := Start(owner), {};
    var out := Output({}, [], [], true);
    ghost var log: seq<string>, finished: seq<Node>, base: set<string> := [], [], {};
    GoesStart(input);
    while stack != []
      invariant Going(input, stack, active, done, out, log, finished, base)
      decreases input.profiles.Keys - (done + active), |stack|, if stack == [] then 0
        else |Top(stack).refs| - Top(stack).next
    {
      GoesBy(input, stack, active, done, out, log, finished, base);
      if |out.issues| >= MAX_ISSUES {
        GoesCapped(input, stack, active, done, out, log, finished, base);
        return out.result, out.issues, false;
      }
      var f := Top(stack);
      if f.next < |f.refs| {
        stack, active, out, base := TakeReference(input, stack, active, done, out, log, finished, base);
      } else {
        var next, whole;
        ghost var grown;
        next, whole, grown := LeaveFrame(input, stack, active, done, out, log, finished, base);
        if !whole {
          return next.result, next.issues, false;
        }
        finished := finished + [FrameNode(Below(stack), f)];
        active, done := active - Start(f.obj), done + Start(f.obj);
        stack, out, log := Below(stack), next, grown;
      }
    }
    GoesEnd(input, active, done, out, log, finished, base);
    result, issues, complete := out.result, out.issues, out.complete;
  }

  lemma TopRoot(owner: Object, profiles: Index, stack: seq<Frame>)
    requires Stacked(owner, profiles, stack) && stack != []
    ensures Top(stack).root >= 0 ==> Top(stack).root < |owner.profileRefs|
    ensures Top(stack).root < 0 ==> Top(stack).refs == owner.profileRefs
  {
  }

  lemma PopJudgesEarly(owner: Object, profiles: Index, definitions: Index, stack: seq<Frame>, done: set<string>,
      finished: seq<Node>, was: bool, complete: bool)
    requires Leaving(owner, profiles, stack) && Judges(owner, profiles, definitions, stack, done, finished, was)
      && !complete
    requires was && !complete ==> !Defined(definitions, Top(stack).obj.addonRefs)
    ensures !Whole(owner, profiles, definitions)
  {
    PopJudges(owner, profiles, definitions, stack, done, finished, was, complete);
  }
}
