/**
 A running step as the calls alone describe it: when it was first reported, and what
 the reports since then said of it. The steps the presenter keeps are exactly these.
 */
module ProgressLife {
  import opened Common
  import opened Screen
  import opened ProgressSteps
  import opened ProgressPresenter
  import opened ProgressScene

  /** What identifies a step: what it is and where it sits in its total. */
  datatype Key = Key(title: string, position: int, total: int)

  datatype Life = Life(identity: string, detail: string, completed: int, declared: int, ctx: nat,
                       started: int, reported: int, note: string)

  function EventKey(e: Event): Key {
    Key(e.title, e.position, e.total)
  }

  /** The last heading a report named. */
  function HeadingAt(setting: Setting, heading: string, calls: seq<Call>): string {
    if calls == [] then heading
    else
      var call := calls[|calls| - 1];
      if call.Report? && HeardIn(setting, call) && call.event.heading != "" then call.event.heading
      else HeadingAt(setting, heading, calls[..|calls| - 1])
  }

  /** The report opens a heading, under which no step runs yet. */
  predicate OpensAt(setting: Setting, heading: string, front: seq<Call>, call: Call)
    requires call.Report?
  {
    call.event.heading != "" && call.event.heading != HeadingAt(setting, heading, front)
  }

  /** The step's life as the report finds it: a new one where there is none. */
  function LifeBefore(prev: Option<Life>, call: Call): Life
    requires call.Report?
  {
    if prev.Some? then prev.value else Life("", "", 0, 0, call.ctx, call.now, call.now, "")
  }

  /** What a report says of its step. */
  function LifeAfter(setting: Setting, prev: Option<Life>, call: Call): Option<Life>
    requires call.Report?
  {
    var e, was := call.event, LifeBefore(prev, call);
    var now := was.(identity := e.identity, ctx := call.ctx,
                    completed := if e.declared > 0 then e.completed else was.completed,
                    declared := if e.declared > 0 then e.declared else was.declared);
    if e.nested && e.status != "running" then Some(now)
    else if e.nested || e.status == "running" then Some(now.(detail := e.detail, note := "", reported := call.now))
    else if e.status == "" then Some(now.(detail := e.detail, note := setting.wording.elapsed(call.now - was.started)))
    else None
  }

  /** What one more call makes of the life of a key's step. */
  function LifeBy(setting: Setting, heading: string, front: seq<Call>, call: Call, key: Key,
      prev: Option<Life>): Option<Life> {
    match call
    case Field(_, _) => None
    case Heartbeat(live, now, _) =>
      if prev.None? || prev.value.ctx !in live then prev
      else if setting.columns > 0 then
        Some(prev.value.(note := "still running, " + setting.wording.elapsed(now - prev.value.started)))
      else if now - prev.value.reported >= 10_000_000_000 then Some(prev.value.(reported := now))
      else prev
    case Report(e, _, _, _, _) =>
      if !HeardIn(setting, call) then prev
      else
        var base := if OpensAt(setting, heading, front, call) then None else prev;
        if EventKey(e) == key then LifeAfter(setting, base, call) else base
  }

  /** The life of the step of a key that runs after the calls, if one does. */
  function LifeOf(setting: Setting, heading: string, calls: seq<Call>, key: Key): Option<Life> {
    if calls == [] then None
    else
      var front := calls[..|calls| - 1];
      LifeBy(setting, heading, front, calls[|calls| - 1], key, LifeOf(setting, heading, front, key))
  }

  // ----- the steps that are kept

  function StepKey(s: Step): Key {
    Key(s.subject.title, s.subject.position, s.subject.total)
  }

  function SubjectOf(key: Key, l: Life): Subject {
    Subject(key.title, l.identity, key.position, key.total, l.detail, l.completed, l.declared)
  }

  /** The step is as its life says; when it last wrote a row counts in appended output only. */
  predicate Lives(columns: nat, s: Step, l: Life) {
    && s.subject == SubjectOf(StepKey(s), l) && s.ctx == l.ctx && s.started == l.started && s.note == l.note
    && (columns == 0 ==> s.reported == l.reported)
  }

  predicate Alive(s: Step, key: Key) {
    s.settled == "" && StepKey(s) == key
  }

  /** Of a key with a life exactly one step runs, and it is as the life says; of any other, none. */
  predicate Tracks(columns: nat, steps: seq<Step>, key: Key, l: Option<Life>) {
    && (forall s | s in steps && Alive(s, key) :: l.Some? && Lives(columns, s, l.value))
    && (l.Some? ==> exists s :: s in steps && Alive(s, key))
  }

  /** No two running steps share a key. */
  predicate Unique(steps: seq<Step>) {
    forall i, j | 0 <= i < j < |steps| && steps[i].settled == "" && steps[j].settled == "" ::
      StepKey(steps[i]) != StepKey(steps[j])
  }

  // ----- entering

  /** The report's step is found or placed, all others are left alone. */
  lemma EnterUnique(was: seq<Step>, e: Event, ctx: nat, now: int)
    requires Unique(was)
    ensures Unique(Enter(was, e, ctx, now, EntryOf(was, e)))
  {
    var i := EntryOf(was, e);
    var steps := Enter(was, e, ctx, now, i);
    if exists s | s in was :: Matches(s, e) {
      assert steps == was[i := Touched(was[i], e, ctx)];
    } else {
      forall a, b | 0 <= a < b < |steps| && steps[a].settled == "" && steps[b].settled == ""
        ensures StepKey(steps[a]) != StepKey(steps[b])
      {
        var x := if a < i then a else a - 1;
        var y := if b < i then b else b - 1;
        if a != i { assert steps[a] == was[x]; assert was[x] in was; assert !Matches(was[x], e); }
        if b != i { assert steps[b] == was[y]; assert was[y] in was; assert !Matches(was[y], e); }
      }
    }
  }

  /** The life a report leaves before it says whether its step runs on. */
  function Met(prev: Option<Life>, call: Call): Life
    requires call.Report?
  {
    var e, was := call.event, LifeBefore(prev, call);
    Life(e.identity, was.detail, if e.declared > 0 then e.completed else was.completed,
         if e.declared > 0 then e.declared else was.declared, call.ctx, was.started, was.reported, was.note)
  }

  lemma EnterMeets(columns: nat, was: seq<Step>, call: Call, l: Option<Life>)
    requires call.Report? && Unique(was) && Tracks(columns, was, EventKey(call.event), l)
    ensures var e := call.event;
      var s := Enter(was, e, call.ctx, call.now, EntryOf(was, e))[EntryOf(was, e)];
      Alive(s, EventKey(e)) && Lives(columns, s, Met(l, call))
  {
    var e := call.event;
    var i := EntryOf(was, e);
    if exists s | s in was :: Matches(s, e) {
      assert was[i] in was && Alive(was[i], EventKey(e));
    } else {
      forall s | s in was ensures !Alive(s, EventKey(e)) {
        assert !Matches(s, e);
      }
    }
  }

  lemma EnterKeepsOthers(columns: nat, was: seq<Step>, call: Call, key: Key, l: Option<Life>)
    requires call.Report? && EventKey(call.event) != key && Tracks(columns, was, key, l)
    ensures Tracks(columns, Enter(was, call.event, call.ctx, call.now, EntryOf(was, call.event)), key, l)
  {
    var e := call.event;
    var i := EntryOf(was, e);
    var steps := Enter(was, e, call.ctx, call.now, i);
    if exists s | s in was :: Matches(s, e) {
      UpdateKeepsOthers(columns, was, i, Touched(was[i], e, call.ctx), key, l);
    } else {
      var fresh' := Touched(NewStep(e, call.now), e, call.ctx);
      assert forall s :: s in steps <==> s in was || s == fresh' by {
        assert was == was[..i] + was[i..];
      }
    }
  }

  // ----- changing one step

  lemma UpdateKeepsOthers(columns: nat, steps: seq<Step>, i: nat, s: Step, key: Key, l: Option<Life>)
    requires i < |steps| && StepKey(steps[i]) != key && StepKey(s) != key && Tracks(columns, steps, key, l)
    ensures Tracks(columns, steps[i := s], key, l)
  {
    var after := steps[i := s];
    forall x | x in after && Alive(x, key) ensures x in steps {
      var j :| 0 <= j < |after| && after[j] == x;
      assert j != i && steps[j] == x;
    }
    if l.Some? {
      var x :| x in steps && Alive(x, key);
      var j :| 0 <= j < |steps| && steps[j] == x;
      assert j != i && after[j] == x;
    }
  }

  lemma UpdateUnique(steps: seq<Step>, i: nat, s: Step)
    requires Unique(steps) && i < |steps| && steps[i].settled == "" && StepKey(s) == StepKey(steps[i])
    ensures Unique(steps[i := s])
  {
  }

  lemma OnlyAlive(steps: seq<Step>, i: nat, j: nat, key: Key)
    requires Unique(steps) && i < |steps| && j < |steps| && Alive(steps[i], key)
    ensures Alive(steps[j], key) ==> i == j
  {
    assert i < j ==> steps[j].settled != "" || StepKey(steps[i]) != StepKey(steps[j]);
    assert j < i ==> steps[j].settled != "" || StepKey(steps[j]) != StepKey(steps[i]);
  }

  /** The one step of a key becomes what its new life says, or settles. */
  lemma UpdateTracks(columns: nat, steps: seq<Step>, i: nat, s: Step, key: Key, l: Option<Life>)
    requires Unique(steps) && i < |steps| && Alive(steps[i], key) && StepKey(s) == key
    requires if l.Some? then s.settled == "" && Lives(columns, s, l.value) else s.settled != ""
    ensures Tracks(columns, steps[i := s], key, l)
  {
    var after := steps[i := s];
    forall x | x in after && Alive(x, key) ensures x == s {
      var j :| 0 <= j < |after| && after[j] == x;
      OnlyAlive(steps, i, j, key);
    }
    assert after[i] == s;
  }

  // ----- releasing, stamping and noting

  lemma {:induction false} PickedUnique(all: seq<Step>, steps: seq<Step>, live: set<nat>, free: bool)
    requires Unique(steps)
    ensures Unique(Picked(all, steps, live, free))
  {
    if steps != [] {
      var front, last := steps[..|steps| - 1], steps[|steps| - 1];
      PickedUnique(all, front, live, free);
      var p := Picked(all, front, live, free);
      forall i | 0 <= i < |p| && p[i].settled == "" && last.settled == "" ensures StepKey(p[i]) != StepKey(last) {
        assert p[i] in front;
        var k :| 0 <= k < |front| && front[k] == p[i];
        assert steps[k] == front[k];
      }
    }
  }

  lemma KeptTracks(columns: nat, steps: seq<Step>, live: set<nat>, key: Key, l: Option<Life>)
    requires Tracks(columns, steps, key, l)
    ensures Tracks(columns, Kept(steps, live), key, l)
  {
    if l.Some? {
      var s :| s in steps && Alive(s, key);
      assert s in Kept(steps, live);
    }
  }

  /** The same steps run, each as its new life says. */
  lemma MappedTracks(columns: nat, a: seq<Step>, b: seq<Step>, key: Key, l: Option<Life>, m: Option<Life>)
    requires |a| == |b| && Tracks(columns, a, key, l) && l.Some? == m.Some?
    requires forall i | 0 <= i < |a| :: Alive(a[i], key) == Alive(b[i], key)
    requires forall i | 0 <= i < |a| && Alive(a[i], key) :: m.Some? && Lives(columns, b[i], m.value)
    ensures Tracks(columns, b, key, m)
  {
    forall s | s in b && Alive(s, key) ensures m.Some? && Lives(columns, s, m.value) {
      var i :| 0 <= i < |b| && b[i] == s;
      assert Alive(a[i], key);
    }
    if l.Some? {
      var s :| s in a && Alive(s, key);
      var i :| 0 <= i < |a| && a[i] == s;
      assert b[i] in b && Alive(b[i], key);
    }
  }

  lemma MappedUnique(a: seq<Step>, b: seq<Step>)
    requires |a| == |b| && Unique(a)
    requires forall i | 0 <= i < |a| :: StepKey(a[i]) == StepKey(b[i]) && (a[i].settled == "" <==> b[i].settled == "")
    ensures Unique(b)
  {
  }

  lemma StampedTracks(columns: nat, steps: seq<Step>, now: int, key: Key, l: Option<Life>)
    requires columns > 0 && Tracks(columns, steps, key, l)
    ensures Tracks(columns, Stamped(steps, now), key, l)
  {
    var b := Stamped(steps, now);
    forall i | 0 <= i < |steps| ensures Alive(steps[i], key) == Alive(b[i], key) {
    }
    forall i | 0 <= i < |steps| && Alive(steps[i], key) ensures l.Some? && Lives(columns, b[i], l.value) {
      assert steps[i] in steps;
    }
    MappedTracks(columns, steps, b, key, l, l);
  }

  // ----- one call

  /** The one step a report speaks of, as it leaves it. */
  function Changed(setting: Setting, s: Step, call: Call): Step
    requires call.Report?
  {
    var e := call.event;
    if Silent(e) then s
    else if Runs(e) then
      var r := RunningStep(s, e.detail);
      if setting.columns == 0 then r.(reported := call.now) else r
    else SettledStep(setting.wording, s, e.status, e.detail, call.now)
  }

  lemma ChangedLives(setting: Setting, s: Step, call: Call, l: Option<Life>)
    requires call.Report? && Alive(s, EventKey(call.event)) && Lives(setting.columns, s, Met(l, call))
    ensures var t, m := Changed(setting, s, call), LifeAfter(setting, l, call);
      && StepKey(t) == EventKey(call.event)
      && if m.Some? then t.settled == "" && Lives(setting.columns, t, m.value) else t.settled != ""
  {
  }

  /** The block after a report is the one it entered with that step changed, released and stamped. */
  function Arranged(setting: Setting, steps: seq<Step>, call: Call): seq<Step>
    requires call.Report?
  {
    var e := call.event;
    var left := if Silent(e) || Runs(e) then steps else Kept(steps, call.live);
    if setting.columns == 0 || Silent(e) then left else Stamped(left, call.now)
  }

  lemma StepsArranged(setting: Setting, steps: seq<Step>, i: nat, call: Call)
    requires call.Report? && i < |steps|
    ensures StepsAfter(setting.columns, setting.wording, steps, i, call.event, call.live, call.now)
         == Arranged(setting, steps[i := Changed(setting, steps[i], call)], call)
  {
    assert steps[i := steps[i]] == steps;
    if Runs(call.event) && !Silent(call.event) && setting.columns == 0 {
      var d := Detailed(steps, i, call.event);
      assert d[i := d[i].(reported := call.now)] == steps[i := Changed(setting, steps[i], call)];
    }
  }

  lemma ArrangedTracks(setting: Setting, steps: seq<Step>, call: Call, key: Key, l: Option<Life>)
    requires call.Report? && Tracks(setting.columns, steps, key, l)
    ensures Tracks(setting.columns, Arranged(setting, steps, call), key, l)
  {
    KeptTracks(setting.columns, steps, call.live, key, l);
    var left := if Silent(call.event) || Runs(call.event) then steps else Kept(steps, call.live);
    if setting.columns > 0 {
      StampedTracks(setting.columns, left, call.now, key, l);
    }
  }

  lemma ArrangedUnique(setting: Setting, steps: seq<Step>, call: Call)
    requires call.Report? && Unique(steps)
    ensures Unique(Arranged(setting, steps, call))
  {
    PickedUnique(steps, steps, call.live, false);
    var left := if Silent(call.event) || Runs(call.event) then steps else Kept(steps, call.live);
    MappedUnique(left, Stamped(left, call.now));
  }

  lemma TellTracks(setting: Setting, base: seq<Step>, call: Call, key: Key, l: Option<Life>)
    requires call.Report? && Unique(base) && Tracks(setting.columns, base, key, l)
    ensures var e, i := call.event, EntryOf(base, call.event);
      Tracks(setting.columns, StepsAfter(setting.columns, setting.wording, Enter(base, e, call.ctx, call.now, i), i, e,
                                         call.live, call.now),
             key, if EventKey(e) == key then LifeAfter(setting, l, call) else l)
  {
    var e, i := call.event, EntryOf(base, call.event);
    var entered := Enter(base, e, call.ctx, call.now, i);
    EnterUnique(base, e, call.ctx, call.now);
    var s := entered[i];
    var t := Changed(setting, s, call);
    StepsArranged(setting, entered, i, call);
    if EventKey(e) == key {
      EnterMeets(setting.columns, base, call, l);
      ChangedLives(setting, s, call, l);
      UpdateTracks(setting.columns, entered, i, t, key, LifeAfter(setting, l, call));
      ArrangedTracks(setting, entered[i := t], call, key, LifeAfter(setting, l, call));
    } else {
      EnterKeepsOthers(setting.columns, base, call, key, l);
      EnterKey(base, call);
      UpdateKeepsOthers(setting.columns, entered, i, t, key, l);
      ArrangedTracks(setting, entered[i := t], call, key, l);
    }
  }

  lemma EnterKey(base: seq<Step>, call: Call)
    requires call.Report?
    ensures var s := Enter(base, call.event, call.ctx, call.now, EntryOf(base, call.event))[EntryOf(base, call.event)];
      Alive(s, EventKey(call.event))
  {
  }

  lemma TellUnique(setting: Setting, base: seq<Step>, call: Call)
    requires call.Report? && Unique(base)
    ensures var e, i := call.event, EntryOf(base, call.event);
      Unique(StepsAfter(setting.columns, setting.wording, Enter(base, e, call.ctx, call.now, i), i, e, call.live,
        call.now))
  {
    var e, i := call.event, EntryOf(base, call.event);
    var entered := Enter(base, e, call.ctx, call.now, i);
    EnterUnique(base, e, call.ctx, call.now);
    EnterKey(base, call);
    StepsArranged(setting, entered, i, call);
    UpdateUnique(entered, i, Changed(setting, entered[i], call));
    ArrangedUnique(setting, entered[i := Changed(setting, entered[i], call)], call);
  }

  // ----- all calls

  /** The heading and the running steps are what the calls say, key by key. */
  ghost predicate Tracked(setting: Setting, heading: string, calls: seq<Call>, scene: Scene) {
    && scene.heading == HeadingAt(setting, heading, calls)
    && Unique(scene.steps)
    && forall key :: Tracks(setting.columns, scene.steps, key, LifeOf(setting, heading, calls, key))
  }

  lemma LifeSnoc(setting: Setting, heading: string, front: seq<Call>, call: Call, key: Key)
    ensures LifeOf(setting, heading, front + [call], key)
         == LifeBy(setting, heading, front, call, key, LifeOf(setting, heading, front, key))
  {
    assert (front + [call])[..|front|] == front;
  }

  lemma ReportTracked(setting: Setting, heading: string, front: seq<Call>, call: Call, scene: Scene)
    requires Tracked(setting, heading, front, scene) && call.Report?
    ensures Tracked(setting, heading, front + [call], After(setting, scene, call))
  {
    assert (front + [call])[..|front|] == front;
    if HeardIn(setting, call) {
      var base := StepsUnder(scene.heading, call.event.heading, scene.steps);
      TellUnique(setting, base, call);
      forall key
        ensures Tracks(setting.columns, After(setting, scene, call).steps, key,
          LifeOf(setting, heading, front + [call], key))
      {
        LifeSnoc(setting, heading, front, call, key);
        var l := if OpensAt(setting, heading, front, call) then None else LifeOf(setting, heading, front, key);
        assert Tracks(setting.columns, base, key, l);
        TellTracks(setting, base, call, key, l);
      }
    } else {
      forall key ensures LifeOf(setting, heading, front + [call], key) == LifeOf(setting, heading, front, key) {
        LifeSnoc(setting, heading, front, call, key);
      }
    }
  }

  lemma BeatTracks(setting: Setting, heading: string, front: seq<Call>, call: Call, scene: Scene, key: Key)
    requires Tracked(setting, heading, front, scene) && call.Heartbeat?
    ensures Tracks(setting.columns, After(setting, scene, call).steps, key,
      LifeOf(setting, heading, front + [call], key))
  {
    LifeSnoc(setting, heading, front, call, key);
    var l, m := LifeOf(setting, heading, front, key), LifeOf(setting, heading, front + [call], key);
    var a := scene.steps;
    assert Tracks(setting.columns, a, key, l);
    if setting.columns == 0 {
      RepeatedTracks(a, call.live, call.now, key, l);
    } else if AnyActive(a, call.live) {
      NotedTracks(setting, a, call.live, call.now, key, l);
      StampedTracks(setting.columns, Noted(setting.wording, a, call.live, call.now), call.now, key, m);
    } else if l.Some? {
      var s :| s in a && Alive(s, key);
      assert !Active(s, call.live);
    }
  }

  lemma RepeatedTracks(a: seq<Step>, live: set<nat>, now: int, key: Key, l: Option<Life>)
    requires Tracks(0, a, key, l)
    ensures Tracks(0, Repeated(a, live, now), key,
                   if l.Some? && l.value.ctx in live && now - l.value.reported >= 10_000_000_000
                   then Some(l.value.(reported := now)) else l)
  {
    var b := Repeated(a, live, now);
    var m := if l.Some? && l.value.ctx in live && now - l.value.reported >= 10_000_000_000
             then Some(l.value.(reported := now)) else l;
    forall i | 0 <= i < |a| ensures Alive(a[i], key) == Alive(b[i], key) {
    }
    forall i | 0 <= i < |a| && Alive(a[i], key) ensures m.Some? && Lives(0, b[i], m.value) {
      assert a[i] in a;
    }
    MappedTracks(0, a, b, key, l, m);
  }

  lemma NotedTracks(setting: Setting, a: seq<Step>, live: set<nat>, now: int, key: Key, l: Option<Life>)
    requires setting.columns > 0 && Tracks(setting.columns, a, key, l)
    ensures Tracks(setting.columns, Noted(setting.wording, a, live, now), key,
                   if l.Some? && l.value.ctx in live
                   then Some(l.value.(note := "still running, " + setting.wording.elapsed(now - l.value.started)))
                     else l)
  {
    var b := Noted(setting.wording, a, live, now);
    var m := if l.Some? && l.value.ctx in live
             then Some(l.value.(note := "still running, " + setting.wording.elapsed(now - l.value.started))) else l;
    forall i | 0 <= i < |a| ensures Alive(a[i], key) == Alive(b[i], key) {
    }
    forall i | 0 <= i < |a| && Alive(a[i], key) ensures m.Some? && Lives(setting.columns, b[i], m.value) {
      assert a[i] in a;
    }
    MappedTracks(setting.columns, a, b, key, l, m);
  }

  lemma BeatTracked(setting: Setting, heading: string, front: seq<Call>, call: Call, scene: Scene)
    requires Tracked(setting, heading, front, scene) && call.Heartbeat?
    ensures Tracked(setting, heading, front + [call], After(setting, scene, call))
  {
    assert (front + [call])[..|front|] == front;
    var a := scene.steps;
    MappedUnique(a, Repeated(a, call.live, call.now));
    var noted := Noted(setting.wording, a, call.live, call.now);
    MappedUnique(a, Stamped(noted, call.now));
    forall key
      ensures Tracks(setting.columns, After(setting, scene, call).steps, key,
        LifeOf(setting, heading, front + [call], key))
    {
      BeatTracks(setting, heading, front, call, scene, key);
    }
  }

  /** From an empty block on, the running steps are what the calls say of each key. */
  lemma {:induction false} SceneIsTracked(setting: Setting, heading: string, calls: seq<Call>)
    ensures Tracked(setting, heading, calls, SceneOf(setting, Scene(heading, []), calls))
  {
    if calls != [] {
      var front, call := calls[..|calls| - 1], calls[|calls| - 1];
      var scene := SceneOf(setting, Scene(heading, []), front);
      assert calls == front + [call];
      SceneIsTracked(setting, heading, front);
      match call {
        case Report(_, _, _, _, _) => ReportTracked(setting, heading, front, call, scene);
        case Heartbeat(_, _, _) => BeatTracked(setting, heading, front, call, scene);
        case Field(_, _) =>
          forall key ensures LifeOf(setting, heading, calls, key).None? {
            LifeSnoc(setting, heading, front, call, key);
          }
      }
    }
  }

  // ----- the rows, from the calls alone

  /** A row: whole in appended output, fitted under the width of a terminal. */
  function RowText(setting: Setting, status: string, subject: Subject, suffix: string): Row {
    var w := setting.wording;
    if setting.columns == 0 then w.lead(status) + w.subject(subject) + w.tail(suffix)
    else FitTerminalRow(w.lead(status), w.subject(subject), w.tail(suffix), setting.columns)
  }

  /** The step's life when a report of it comes. */
  function FoundBy(setting: Setting, heading: string, front: seq<Call>, call: Call): Option<Life>
    requires call.Report?
  {
    if OpensAt(setting, heading, front, call) then None else LifeOf(setting, heading, front, EventKey(call.event))
  }

  /** What a row of a report names: the report's own words, and the completion last declared. */
  function SubjectBy(prev: Option<Life>, call: Call): Subject
    requires call.Report?
  {
    var e, was := call.event, LifeBefore(prev, call);
    Subject(e.title, e.identity, e.position, e.total, e.detail,
            if e.declared > 0 then e.completed else was.completed, if e.declared > 0 then e.declared else was.declared)
  }

  predicate Settles(setting: Setting, call: Call) {
    && call.Report? && HeardIn(setting, call)
    && !call.event.nested && call.event.status != "running" && call.event.status != ""
  }

  /** The outcome row of the step a call settles, with the time since its first report. */
  function OutcomeBy(setting: Setting, heading: string, front: seq<Call>, call: Call): multiset<Row> {
    if Settles(setting, call) then
      var prev := FoundBy(setting, heading, front, call);
      multiset{RowText(setting, call.event.status, SubjectBy(prev, call),
                       setting.wording.elapsed(call.now - LifeBefore(prev, call).started))}
    else multiset{}
  }

  function OutcomesOf(setting: Setting, heading: string, calls: seq<Call>): multiset<Row> {
    if calls == [] then multiset{}
    else
      var front := calls[..|calls| - 1];
      OutcomesOf(setting, heading, front) + OutcomeBy(setting, heading, front, calls[|calls| - 1])
  }

  /** A report finds its step as the calls before it left it. */
  lemma EnteredLives(setting: Setting, heading: string, front: seq<Call>, call: Call, scene: Scene)
    requires Tracked(setting, heading, front, scene) && call.Report?
    ensures var s := EnteredBy(scene, call)[EntryBy(scene, call)];
      && Alive(s, EventKey(call.event))
      && Lives(setting.columns, s, Met(FoundBy(setting, heading, front, call), call))
  {
    var base := StepsUnder(scene.heading, call.event.heading, scene.steps);
    var prev := FoundBy(setting, heading, front, call);
    assert Tracks(setting.columns, scene.steps, EventKey(call.event),
      LifeOf(setting, heading, front, EventKey(call.event)));
    assert Tracks(setting.columns, base, EventKey(call.event), prev);
    EnterMeets(setting.columns, base, call, prev);
  }

  lemma SettledByCalls(setting: Setting, heading: string, front: seq<Call>, call: Call, scene: Scene)
    requires Tracked(setting, heading, front, scene)
    ensures SettledBy(setting, scene, call) == OutcomeBy(setting, heading, front, call)
  {
    if call.Report? && HeardIn(setting, call) && !Silent(call.event) && !Runs(call.event) {
      EnteredLives(setting, heading, front, call, scene);
    }
  }

  /** The outcomes that are due are those the calls describe. */
  lemma {:induction false} ExpectedFromCalls(setting: Setting, heading: string, calls: seq<Call>)
    ensures Expected(setting, Scene(heading, []), calls) == OutcomesOf(setting, heading, calls)
  {
    if calls != [] {
      var front, call := calls[..|calls| - 1], calls[|calls| - 1];
      ExpectedFromCalls(setting, heading, front);
      SceneIsTracked(setting, heading, front);
      SettledByCalls(setting, heading, front, call, SceneOf(setting, Scene(heading, []), front));
    }
  }

  /** A running report's own row says what the report says. */
  lemma RunningRowFromCalls(setting: Setting, heading: string, front: seq<Call>, call: Call)
    requires call.Report? && HeardIn(setting, call)
    ensures var scene := SceneOf(setting, Scene(heading, []), front);
      Detailed(EnteredBy(scene, call), EntryBy(scene, call), call.event)[EntryBy(scene, call)].subject
      == SubjectBy(FoundBy(setting, heading, front, call), call)
  {
    SceneIsTracked(setting, heading, front);
    EnteredLives(setting, heading, front, call, SceneOf(setting, Scene(heading, []), front));
  }

  /** The row of a running step is what its life says. */
  lemma BlockRowFromCalls(setting: Setting, heading: string, calls: seq<Call>, s: Step)
    requires s in SceneOf(setting, Scene(heading, []), calls).steps && s.settled == ""
    ensures var l := LifeOf(setting, heading, calls, StepKey(s));
      && l.Some?
      && StepRow(setting.wording, setting.columns, s)
         == RowText(setting, "running", SubjectOf(StepKey(s), l.value), l.value.note)
  {
    SceneIsTracked(setting, heading, calls);
    assert Alive(s, StepKey(s));
    assert Tracks(setting.columns, SceneOf(setting, Scene(heading, []), calls).steps, StepKey(s),
                  LifeOf(setting, heading, calls, StepKey(s)));
  }

  /** Under the progress heading the block starts with the overview, and below it is one row for each step. */
  lemma BlockIs(w: Wording, columns: nat, heading: string, overview: seq<Row>, steps: seq<Step>)
    requires columns > 0
    ensures var block := BlockRows(w, columns, heading, overview, steps);
      var n := if heading == "Progress" then |overview| else 0;
      && |block| == n + |steps|
      && (forall i | 0 <= i < n && |overview[i]| < columns :: block[i] == overview[i])
      && (forall i | 0 <= i < |steps| :: block[n + i] == StepRow(w, columns, steps[i]))
  {
  }

  // ----- when a life began

  /** The call leaves the key's step running: it empties no block, opens no heading and settles no such step. */
  predicate Continues(setting: Setting, heading: string, calls: seq<Call>, i: nat, key: Key)
    requires i < |calls|
  {
    match calls[i]
    case Field(_, _) => false
    case Heartbeat(_, _, _) => true
    case Report(e, _, _, _, _) =>
      HeardIn(setting, calls[i]) ==>
        !OpensAt(setting, heading, calls[..i], calls[i]) && !(EventKey(e) == key && Settles(setting, calls[i]))
  }

  /** The call is the first report of a step of the key: there is none, or the report opens a heading. */
  predicate Places(setting: Setting, heading: string, calls: seq<Call>, b: nat, key: Key) {
    && b < |calls| && calls[b].Report? && HeardIn(setting, calls[b]) && EventKey(calls[b].event) == key
    && FoundBy(setting, heading, calls[..b], calls[b]).None?
  }

  /** A step that runs was placed by its first report, whose time is its start, and every call since left it running. */
  lemma {:induction false} LifeBegins(setting: Setting, heading: string, calls: seq<Call>, key: Key) returns (b: nat)
    requires LifeOf(setting, heading, calls, key).Some?
    ensures Places(setting, heading, calls, b, key)
    ensures LifeOf(setting, heading, calls, key).value.started == calls[b].now
    ensures forall i: nat | b < i < |calls| :: Continues(setting, heading, calls, i, key)
    decreases |calls|
  {
    var front, call := calls[..|calls| - 1], calls[|calls| - 1];
    assert calls == front + [call];
    LifeSnoc(setting, heading, front, call, key);
    if call.Report? && HeardIn(setting, call) && EventKey(call.event) == key
      && FoundBy(setting, heading, front, call).None? {
      b := |front|;
    } else {
      b := LifeBegins(setting, heading, front, key);
      assert front[..b] == calls[..b];
      forall i: nat | b < i < |calls| ensures Continues(setting, heading, calls, i, key) {
        if i < |front| {
          assert calls[..i] == front[..i] && calls[i] == front[i];
          assert Continues(setting, heading, front, i, key);
        }
      }
    }
  }

  /** A report of the key that declares how much of the step is proved. */
  predicate Declares(setting: Setting, call: Call, key: Key) {
    call.Report? && HeardIn(setting, call) && EventKey(call.event) == key && call.event.declared > 0
  }

  predicate NoneDeclares(setting: Setting, calls: seq<Call>, from: nat, key: Key) {
    forall i | from <= i < |calls| :: !Declares(setting, calls[i], key)
  }

  /** The completion is that of the last report from b on that declares one, and nothing where none does. */
  predicate CompletedBy(setting: Setting, calls: seq<Call>, key: Key, b: nat, last: Option<nat>, l: Life) {
    match last
    case None => l.completed == 0 && l.declared == 0 && NoneDeclares(setting, calls, b, key)
    case Some(j) =>
      && b <= j < |calls| && Declares(setting, calls[j], key)
      && l.completed == calls[j].event.completed && l.declared == calls[j].event.declared
      && NoneDeclares(setting, calls, j + 1, key)
  }

  lemma CompletedSnoc(setting: Setting, front: seq<Call>, call: Call, key: Key, b: nat, last: Option<nat>, l: Life,
      m: Life)
    requires b < |front| && CompletedBy(setting, front, key, b, last, l)
    requires if Declares(setting, call, key) then m.completed == call.event.completed
      && m.declared == call.event.declared
             else m.completed == l.completed && m.declared == l.declared
    ensures CompletedBy(setting, front + [call], key, b,
                        if Declares(setting, call, key) then Some(|front|) else last, m)
  {
    var calls := front + [call];
    assert calls[|front|] == call && forall i | 0 <= i < |front| :: calls[i] == front[i];
  }

  predicate Begins(setting: Setting, heading: string, front: seq<Call>, call: Call, key: Key) {
    && call.Report? && HeardIn(setting, call) && EventKey(call.event) == key
    && FoundBy(setting, heading, front, call).None?
  }

  lemma LifeGoesOn(setting: Setting, heading: string, front: seq<Call>, call: Call, key: Key)
    requires LifeOf(setting, heading, front + [call], key).Some? && !Begins(setting, heading, front, call, key)
    ensures LifeOf(setting, heading, front, key).Some?
    ensures var l, m := LifeOf(setting, heading, front, key).value, LifeOf(setting, heading, front + [call], key).value;
      if Declares(setting, call, key) then m.completed == call.event.completed && m.declared == call.event.declared
      else m.completed == l.completed && m.declared == l.declared
  {
    LifeSnoc(setting, heading, front, call, key);
  }

  /** The completion of a step that runs is that of the last report since its first that declared one. */
  lemma {:induction false} LifeCompletes(setting: Setting, heading: string, calls: seq<Call>, key: Key)
      returns (b: nat, last: Option<nat>)
    requires LifeOf(setting, heading, calls, key).Some?
    ensures Places(setting, heading, calls, b, key)
    ensures CompletedBy(setting, calls, key, b, last, LifeOf(setting, heading, calls, key).value)
    decreases |calls|
  {
    var front, call := calls[..|calls| - 1], calls[|calls| - 1];
    assert calls == front + [call];
    if Begins(setting, heading, front, call, key) {
      LifeSnoc(setting, heading, front, call, key);
      b, last := |front|, if Declares(setting, call, key) then Some(|front|) else None;
    } else {
      LifeGoesOn(setting, heading, front, call, key);
      b, last := LifeCompletes(setting, heading, front, key);
      assert front[..b] == calls[..b];
      CompletedSnoc(setting, front, call, key, b, last, LifeOf(setting, heading, front, key).value,
                    LifeOf(setting, heading, calls, key).value);
      last := if Declares(setting, call, key) then Some(|front|) else last;
    }
  }
}
