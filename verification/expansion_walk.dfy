/**
 The issues of an expansion as a recursive walk raises them: every fault it meets, at
 the entry of the owner that led there, each profile walked once.
 */
module ExpansionWalk {
  import opened Common
  import opened ExpansionSpec
  import opened ExpansionStack

  /** What the walk is given. */
  datatype Input = Input(owner: Object, profiles: Index, definitions: Index, bad: Undecodable)

  /** The profiles walked, the add-ons named and the issues raised so far. */
  datatype Walked = Walked(done: set<string>, seen: set<string>, issues: seq<Issue>)

  function Raised(w: Walked, kind: IssueKind, root: int, name: string): Walked {
    w.(issues := w.issues + [Issue(kind, root, name)])
  }

  /** One add-on reference, dealt with once; only a profile's is reported here. */
  function WalkAddon(input: Input, root: int, w: Walked, name: string): Walked {
    if name in w.seen then w
    else
      var named := w.(seen := w.seen + {name});
      if name in input.definitions || name in input.bad.addons || root < 0 then named
      else Raised(named, MissingAddon, root, name)
  }

  function WalkAddons(input: Input, root: int, w: Walked, names: seq<string>): Walked {
    if names == [] then w
    else WalkAddon(input, root, WalkAddons(input, root, w, names[..|names| - 1]), names[|names| - 1])
  }

  /** One profile reference of a parent, under an entry of the owner. */
  function WalkRef(input: Input, active: set<string>, parent: string, entry: int, w: Walked, name: string): Walked
    decreases input.profiles.Keys - active, 0, 0
  {
    if name in active then Raised(w, ReturnsTo, entry, name)
    else if name in w.done then w
    else if name !in input.profiles then
      if name in input.bad.profiles || parent == input.owner.name then w else Raised(w, MissingProfile, entry, name)
    else
      var p := input.profiles[name];
      var refs := WalkRefs(input, active + {name}, p.name, entry, w, p.profileRefs, 0);
      var addons := WalkAddons(input, entry, refs, p.addonRefs);
      addons.(done := addons.done + Start(p))
  }

  /** A parent's profile references from an index on; the owner's own each start an entry. */
  function WalkRefs(input: Input, active: set<string>, parent: string, root: int, w: Walked, refs: seq<string>,
      from: nat): Walked
    decreases input.profiles.Keys - active, 1, |refs| - from
  {
    if from >= |refs| then w
    else
      var entry := if root < 0 then from else root;
      WalkRefs(input, active, parent, root, WalkRef(input, active, parent, entry, w, refs[from]), refs, from + 1)
  }

  /** The whole selection: the owner's profiles in order, then its own add-ons. */
  function Walk(input: Input): Walked {
    var o := input.owner;
    var refs := WalkRefs(input, Start(o), o.name, -1, Walked({}, {}, []), o.profileRefs, 0);
    var addons := WalkAddons(input, -1, refs, o.addonRefs);
    addons.(done := addons.done + Start(o))
  }

  // ----- what a stack has still to walk

  function Finish(input: Input, stack: seq<Frame>, w: Walked): Walked {
    if stack == [] then w
    else
      var f := Top(stack);
      var refs := WalkRefs(input, ActiveOf(stack), f.obj.name, f.root, w, f.refs, f.next);
      var addons := WalkAddons(input, f.root, refs, f.obj.addonRefs);
      Finish(input, Below(stack), addons.(done := addons.done + Start(f.obj)))
  }

  lemma FinishStart(input: Input)
    ensures Finish(input, [Frame(input.owner, input.owner.profileRefs, 0, -1)], Walked({}, {}, [])) == Walk(input)
  {
    var stack := [Frame(input.owner, input.owner.profileRefs, 0, -1)];
    assert Below(stack) == [] && ActiveOf([]) == {} && ActiveOf(stack) == Start(input.owner);
  }

  function EntryOf(f: Frame): int {
    if f.root < 0 then f.next else f.root
  }

  /** Taking the next reference walks it first. */
  lemma FinishTakes(input: Input, stack: seq<Frame>, w: Walked)
    requires stack != [] && Top(stack).next < |Top(stack).refs|
    ensures var f := Top(stack);
      Finish(input, stack, w)
      == Finish(input, Taken(stack), WalkRef(input, ActiveOf(stack), f.obj.name, EntryOf(f), w, f.refs[f.next]))
  {
    var f := Top(stack);
    assert Below(Taken(stack)) == Below(stack) && Top(Taken(stack)) == f.(next := f.next + 1);
    assert ActiveOf(Taken(stack)) == ActiveOf(stack);
  }

  /** A profile pushed on the stack is walked before what is below it goes on. */
  lemma FinishPushes(input: Input, stack: seq<Frame>, w: Walked, parent: string, entry: int, name: string)
    requires Indexed(input.profiles, ProfileKind) && name in input.profiles && name !in ActiveOf(stack)
      && name !in w.done
    requires entry >= 0
    ensures var p := input.profiles[name];
      Finish(input, stack + [Frame(p, p.profileRefs, 0, entry)], w)
      == Finish(input, stack, WalkRef(input, ActiveOf(stack), parent, entry, w, name))
  {
    var p := input.profiles[name];
    var pushed := stack + [Frame(p, p.profileRefs, 0, entry)];
    assert Below(pushed) == stack && Top(pushed) == Frame(p, p.profileRefs, 0, entry);
    assert ActiveOf(pushed) == ActiveOf(stack) + {name};
  }

  /** A frame whose references are all taken has its add-ons left. */
  lemma FinishLeaves(input: Input, stack: seq<Frame>, w: Walked)
    requires stack != [] && Top(stack).next == |Top(stack).refs|
    ensures var f := Top(stack);
      var addons := WalkAddons(input, f.root, w, f.obj.addonRefs);
      Finish(input, stack, w) == Finish(input, Below(stack), addons.(done := addons.done + Start(f.obj)))
  {
  }

  // ----- issues are only added

  lemma {:induction false} AddonsAdd(input: Input, root: int, w: Walked, names: seq<string>)
    ensures w.issues <= WalkAddons(input, root, w, names).issues
  {
    if names != [] {
      AddonsAdd(input, root, w, names[..|names| - 1]);
    }
  }

  lemma {:induction false} RefAdds(input: Input, active: set<string>, parent: string, entry: int, w: Walked,
      name: string)
    ensures w.issues <= WalkRef(input, active, parent, entry, w, name).issues
    decreases input.profiles.Keys - active, 0, 0
  {
    if name !in active && name !in w.done && name in input.profiles {
      var p := input.profiles[name];
      RefsAdd(input, active + {name}, p.name, entry, w, p.profileRefs, 0);
      AddonsAdd(input, entry, WalkRefs(input, active + {name}, p.name, entry, w, p.profileRefs, 0), p.addonRefs);
    }
  }

  lemma {:induction false} RefsAdd(input: Input, active: set<string>, parent: string, root: int, w: Walked,
      refs: seq<string>, from: nat)
    ensures w.issues <= WalkRefs(input, active, parent, root, w, refs, from).issues
    decreases input.profiles.Keys - active, 1, |refs| - from
  {
    if from < |refs| {
      var entry := if root < 0 then from else root;
      RefAdds(input, active, parent, entry, w, refs[from]);
      RefsAdd(input, active, parent, root, WalkRef(input, active, parent, entry, w, refs[from]), refs, from + 1);
    }
  }

  lemma {:induction false} FinishAdds(input: Input, stack: seq<Frame>, w: Walked)
    ensures w.issues <= Finish(input, stack, w).issues
    decreases |stack|
  {
    if stack != [] {
      var f := Top(stack);
      var refs := WalkRefs(input, ActiveOf(stack), f.obj.name, f.root, w, f.refs, f.next);
      var addons := WalkAddons(input, f.root, refs, f.obj.addonRefs);
      RefsAdd(input, ActiveOf(stack), f.obj.name, f.root, w, f.refs, f.next);
      AddonsAdd(input, f.root, refs, f.obj.addonRefs);
      FinishAdds(input, Below(stack), addons.(done := addons.done + Start(f.obj)));
    }
  }

  lemma {:induction false} AddonsPrefix(input: Input, root: int, w: Walked, names: seq<string>, k: nat)
    requires k <= |names|
    ensures WalkAddons(input, root, w, names[..k]).issues <= WalkAddons(input, root, w, names).issues
    decreases |names|
  {
    if k < |names| {
      var front := names[..|names| - 1];
      AddonsPrefix(input, root, w, front, k);
      assert front[..k] == names[..k];
    } else {
      assert names[..k] == names;
    }
  }

  /** Add-ons do not touch which profiles were walked. */
  lemma {:induction false} AddonsDone(input: Input, root: int, w: Walked, names: seq<string>, done: set<string>)
    ensures WalkAddons(input, root, w.(done := done), names) == WalkAddons(input, root, w, names).(done := done)
  {
    if names != [] {
      AddonsDone(input, root, w, names[..|names| - 1], done);
    }
  }
}
