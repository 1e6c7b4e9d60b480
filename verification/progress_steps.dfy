/** The rows of the progress stream and the steps of its block (internal/cli/progress.go). */
module ProgressSteps {
  import opened Screen

  // ----- a row in a terminal's width

  const WRAP_GUARD: nat := 1
  const ELISION: Row := "..."

  /** A text cut to a width with the mark of elision, which is itself dropped where it does not fit. */
  function Fit(text: Row, width: nat): (r: Row)
    requires width > 0
    ensures |r| <= width && |r| <= |text|
    ensures r == text <==> |text| <= width
  {
    if |text| <= width then text
    else if width < |ELISION| then []
    else text[..width - |ELISION|] + ELISION
  }

  predicate EndsWith(row: Row, tail: Row) {
    |row| >= |tail| && row[|row| - |tail|..] == tail
  }

  /** The last column stays empty, the subject gives way first, and the note is kept while it fits. */
  function FitTerminalRow(lead: Row, subject: Row, tail: Row, columns: nat): (r: Row)
    ensures columns > 0 ==> |r| < columns
    ensures |lead + subject + tail| < columns ==> r == lead + subject + tail
    ensures |lead| + |tail| + WRAP_GUARD < columns ==> lead <= r && EndsWith(r, tail)
  {
    var row := lead + subject + tail;
    var width: int := columns - WRAP_GUARD;
    if width <= 0 then []
    else if |row| <= width then row
    else
      var room := width - |lead| - |tail|;
      if room <= 0 then Fit(row, width) else lead + Fit(subject, room) + tail
  }

  // ----- the steps

  datatype Subject = Subject(title: string, identity: string, position: int, total: int, detail: string, completed: int,
      declared: int)

  /** One step of the block; the context is named by a number, and settled is empty while the step runs. */
  datatype Step = Step(subject: Subject, ctx: nat, started: int, reported: int, note: string, settled: string)

  datatype Event = Event(heading: string, title: string, identity: string, detail: string, status: string,
                         position: int, total: int, completed: int, declared: int, nested: bool)

  /** The wording of a row: the status token, what the step is, its trailing note, and an elapsed time. */
  datatype Wording = Wording(lead: string -> Row, subject: Subject -> Row, tail: string -> Row, elapsed: int -> string)

  /** A row written whole into appended output (columns zero), fitted on a terminal. */
  function RowOf(w: Wording, columns: nat, status: string, subject: Subject, suffix: string): (r: Row)
    ensures columns > 0 ==> |r| < columns
  {
    if columns == 0 then w.lead(status) + w.subject(subject) + w.tail(suffix)
    else FitTerminalRow(w.lead(status), w.subject(subject), w.tail(suffix), columns)
  }

  const RUNNING := "running"

  function ShownStatus(s: Step): string {
    if s.settled == "" then RUNNING else s.settled
  }

  function StepRow(w: Wording, columns: nat, s: Step): (r: Row)
    ensures columns > 0 ==> |r| < columns
  {
    RowOf(w, columns, ShownStatus(s), s.subject, s.note)
  }

  function StepRows(w: Wording, columns: nat, steps: seq<Step>): (r: seq<Row>)
    ensures |r| == |steps|
    ensures forall i | 0 <= i < |r| :: r[i] == StepRow(w, columns, steps[i])
  {
    seq(|steps|, i requires 0 <= i < |steps| => StepRow(w, columns, steps[i]))
  }

  // ----- finding and placing

  predicate Matches(s: Step, e: Event) {
    s.settled == "" && s.subject.title == e.title && s.subject.position == e.position && s.subject.total == e.total
  }

  predicate IsFirstMatch(steps: seq<Step>, e: Event, i: nat) {
    && i <= |steps|
    && (i < |steps| ==> Matches(steps[i], e))
    && forall j | 0 <= j < i :: !Matches(steps[j], e)
  }

  /** The step an event belongs to; the count of steps when it is a new one. */
  method FindStep(steps: seq<Step>, e: Event) returns (i: nat)
    ensures IsFirstMatch(steps, e, i)
  {
    i := 0;
    while i < |steps| && !Matches(steps[i], e)
      invariant i <= |steps| && forall j | 0 <= j < i :: !Matches(steps[j], e)
    {
      i := i + 1;
    }
  }

  predicate IsFirstLater(steps: seq<Step>, position: int, i: nat) {
    && i <= |steps|
    && (i < |steps| ==> steps[i].subject.position > position)
    && forall j | 0 <= j < i :: steps[j].subject.position <= position
  }

  predicate IsPlace(steps: seq<Step>, position: int, i: nat) {
    if position > 0 then IsFirstLater(steps, position, i) else i == |steps|
  }

  /** Where a step goes: before the first later one, and last when it has no position. */
  method FindPlace(steps: seq<Step>, position: int) returns (i: nat)
    ensures IsPlace(steps, position, i)
  {
    if position <= 0 {
      return |steps|;
    }
    i := 0;
    while i < |steps| && steps[i].subject.position <= position
      invariant i <= |steps| && forall j | 0 <= j < i :: steps[j].subject.position <= position
    {
      i := i + 1;
    }
  }

  function Inserted(steps: seq<Step>, i: nat, s: Step): (r: seq<Step>)
    requires i <= |steps|
    ensures |r| == |steps| + 1 && r[i] == s
  {
    steps[..i] + [s] + steps[i..]
  }

  /** The positive positions ascend. */
  predicate InOrder(steps: seq<Step>) {
    forall i, j | 0 <= i < j < |steps| && steps[i].subject.position > 0 && steps[j].subject.position > 0 ::
      steps[i].subject.position <= steps[j].subject.position
  }

  lemma InsertKeepsOrder(steps: seq<Step>, i: nat, s: Step)
    requires InOrder(steps) && IsPlace(steps, s.subject.position, i)
    ensures InOrder(Inserted(steps, i, s))
  {
    var r := Inserted(steps, i, s);
    forall a, b | 0 <= a < b < |r| && r[a].subject.position > 0 && r[b].subject.position > 0
      ensures r[a].subject.position <= r[b].subject.position
    {
      var x := if a < i then a else a - 1;
      var y := if b < i then b else b - 1;
      assert a != i ==> r[a] == steps[x];
      assert b != i ==> r[b] == steps[y];
      if a == i {
        assert y >= i && (y > i ==> steps[i].subject.position <= steps[y].subject.position);
      }
    }
  }

  lemma UpdateKeepsOrder(steps: seq<Step>, i: nat, s: Step)
    requires InOrder(steps) && i < |steps| && s.subject.position == steps[i].subject.position
    ensures InOrder(steps[i := s])
  {
  }

  // ----- holding back and releasing

  predicate Active(s: Step, live: set<nat>) {
    s.settled == "" && s.ctx in live
  }

  /** An active step of an earlier position in the same total. */
  predicate Blocks(o: Step, s: Step, live: set<nat>) {
    Active(o, live) && 0 < o.subject.position < s.subject.position && o.subject.total == s.subject.total
  }

  predicate HeldBack(steps: seq<Step>, s: Step, live: set<nat>) {
    s.subject.position > 0 && exists o | o in steps :: Blocks(o, s, live)
  }

  predicate Free(steps: seq<Step>, s: Step, live: set<nat>) {
    s.settled != "" && !HeldBack(steps, s, live)
  }

  /** The steps of a list that are free, or that are not, in the list's order. */
  function Picked(all: seq<Step>, steps: seq<Step>, live: set<nat>, free: bool): (r: seq<Step>)
    ensures forall s :: s in r <==> s in steps && Free(all, s, live) == free
  {
    if steps == [] then [] else
      var last := steps[|steps| - 1];
      Picked(all, steps[..|steps| - 1], live, free) + if Free(all, last, live) == free then [last] else []
  }

  function Released(steps: seq<Step>, live: set<nat>): seq<Step> {
    Picked(steps, steps, live, true)
  }

  function Kept(steps: seq<Step>, live: set<nat>): seq<Step> {
    Picked(steps, steps, live, false)
  }

  lemma PickedSnoc(all: seq<Step>, steps: seq<Step>, live: set<nat>, free: bool, i: nat)
    requires i < |steps|
    ensures Picked(all, steps[..i + 1], live, free)
         == Picked(all, steps[..i], live, free) + if Free(all, steps[i], live) == free then [steps[i]] else []
  {
    assert steps[..i + 1][..i] == steps[..i];
  }

  method CollectFree(steps: seq<Step>, live: set<nat>) returns (released: seq<Step>)
    ensures released == Released(steps, live)
  {
    released := [];
    for i := 0 to |steps|
      invariant released == Picked(steps, steps[..i], live, true)
    {
      PickedSnoc(steps, steps, live, true, i);
      if Free(steps, steps[i], live) {
        released := released + [steps[i]];
      }
    }
    assert steps[..|steps|] == steps;
  }

  /** The steps whose outcome no earlier running step holds back, and the block without them. */
  method Release(steps: seq<Step>, live: set<nat>) returns (released: seq<Step>, kept: seq<Step>)
    ensures released == Released(steps, live) && kept == Kept(steps, live)
  {
    released := CollectFree(steps, live);
    kept := [];
    for i := 0 to |steps|
      invariant kept == Picked(steps, steps[..i], live, false)
    {
      PickedSnoc(steps, steps, live, false, i);
      if steps[i] !in released {
        kept := kept + [steps[i]];
      }
    }
    assert steps[..|steps|] == steps;
  }

  lemma {:induction false} PickedOrder(all: seq<Step>, steps: seq<Step>, live: set<nat>, free: bool)
    requires InOrder(steps)
    ensures InOrder(Picked(all, steps, live, free))
  {
    if steps != [] {
      var front, last := steps[..|steps| - 1], steps[|steps| - 1];
      PickedOrder(all, front, live, free);
      var p := Picked(all, front, live, free);
      forall i | 0 <= i < |p| && p[i].subject.position > 0 && last.subject.position > 0
        ensures p[i].subject.position <= last.subject.position
      {
        assert p[i] in front;
        var k :| 0 <= k < |front| && front[k] == p[i];
        assert steps[k] == front[k];
      }
    }
  }

  /**
   A settle releases, in position order, exactly the outcomes that no active
   step of an earlier position and the same total is still to precede: none of
   what is released is overtaken, and what settled and stays is held by a step
   that stays too.
   */
  lemma ReleaseIsOrderly(steps: seq<Step>, live: set<nat>)
    requires InOrder(steps)
    ensures InOrder(Released(steps, live)) && InOrder(Kept(steps, live))
    ensures forall s | s in steps && s.settled == "" :: s in Kept(steps, live)
    ensures forall s, o | s in Released(steps, live) && o in Kept(steps, live) && o.settled == "" && o.ctx in live ::
      !(0 < o.subject.position < s.subject.position && o.subject.total == s.subject.total)
    ensures forall s | s in Kept(steps, live) && s.settled != "" ::
      exists o ::
        && o in Kept(steps, live) && o.settled == "" && o.ctx in live
        && 0 < o.subject.position < s.subject.position && o.subject.total == s.subject.total
  {
    PickedOrder(steps, steps, live, true);
    PickedOrder(steps, steps, live, false);
    forall s, o | s in Released(steps, live) && o in Kept(steps, live) && o.settled == "" && o.ctx in live
      ensures !(0 < o.subject.position < s.subject.position && o.subject.total == s.subject.total)
    {
      assert Free(steps, s, live) && o in steps;
      assert !Blocks(o, s, live);
    }
    forall s | s in Kept(steps, live) && s.settled != ""
      ensures exists o ::
        && o in Kept(steps, live) && o.settled == "" && o.ctx in live
        && 0 < o.subject.position < s.subject.position && o.subject.total == s.subject.total
    {
      assert HeldBack(steps, s, live);
      var o :| o in steps && Blocks(o, s, live);
      assert o in Kept(steps, live);
    }
  }

  // ----- the outcomes that stand in the block

  function OutcomeOf(w: Wording, columns: nat, s: Step): multiset<Row> {
    if s.settled != "" then multiset{StepRow(w, columns, s)} else multiset{}
  }

  /** The outcomes that are settled and not yet released, as often as they are. */
  function Outcomes(w: Wording, columns: nat, steps: seq<Step>): multiset<Row> {
    if steps == [] then multiset{}
    else Outcomes(w, columns, steps[..|steps| - 1]) + OutcomeOf(w, columns, steps[|steps| - 1])
  }

  lemma Swap<T>(a: multiset<T>, b: multiset<T>, c: multiset<T>)
    ensures a + b + c == a + c + b
  {
  }

  lemma InsertedSnoc(steps: seq<Step>, i: nat, s: Step)
    requires i < |steps|
    ensures Inserted(steps, i, s) == Inserted(steps[..|steps| - 1], i, s) + [steps[|steps| - 1]]
  {
    var front := steps[..|steps| - 1];
    assert front[..i] == steps[..i] && steps[i..] == front[i..] + [steps[|steps| - 1]];
  }

  lemma OutcomesSnoc(w: Wording, columns: nat, steps: seq<Step>, s: Step)
    ensures Outcomes(w, columns, steps + [s]) == Outcomes(w, columns, steps) + OutcomeOf(w, columns, s)
  {
    assert (steps + [s])[..|steps|] == steps;
  }

  lemma {:induction false} OutcomesInsert(w: Wording, columns: nat, steps: seq<Step>, i: nat, s: Step)
    requires i <= |steps|
    ensures Outcomes(w, columns, Inserted(steps, i, s)) == Outcomes(w, columns, steps) + OutcomeOf(w, columns, s)
    decreases |steps|
  {
    if i == |steps| {
      assert Inserted(steps, i, s) == steps + [s];
      OutcomesSnoc(w, columns, steps, s);
    } else {
      var front, last := steps[..|steps| - 1], steps[|steps| - 1];
      OutcomesInsert(w, columns, front, i, s);
      OutcomesSnoc(w, columns, Inserted(front, i, s), last);
      InsertedSnoc(steps, i, s);
      Swap(Outcomes(w, columns, front), OutcomeOf(w, columns, s), OutcomeOf(w, columns, last));
    }
  }

  lemma {:induction false} OutcomesUpdate(w: Wording, columns: nat, steps: seq<Step>, i: nat, s: Step)
    requires i < |steps| && steps[i].settled == ""
    ensures Outcomes(w, columns, steps[i := s]) == Outcomes(w, columns, steps) + OutcomeOf(w, columns, s)
    decreases |steps|
  {
    var front, last := steps[..|steps| - 1], steps[|steps| - 1];
    if i == |front| {
      assert steps[i := s] == front + [s];
      OutcomesSnoc(w, columns, front, s);
      NoMore(Outcomes(w, columns, front));
    } else {
      OutcomesUpdate(w, columns, front, i, s);
      UpdatedSnoc(steps, i, s);
      OutcomesSnoc(w, columns, front[i := s], last);
      Swap(Outcomes(w, columns, front), OutcomeOf(w, columns, s), OutcomeOf(w, columns, last));
    }
  }

  lemma UpdatedSnoc(steps: seq<Step>, i: nat, s: Step)
    requires i < |steps| - 1
    ensures steps[i := s] == steps[..|steps| - 1][i := s] + [steps[|steps| - 1]]
  {
  }

  lemma NoMore<T>(a: multiset<T>)
    ensures a + multiset{} == a
  {
  }

  /** What is released and what is kept hold together the outcomes of the whole block. */
  lemma {:induction false} OutcomesPicked(w: Wording, columns: nat, all: seq<Step>, steps: seq<Step>, live: set<nat>)
    ensures Outcomes(w, columns, Picked(all, steps, live, true)) + Outcomes(w, columns, Picked(all, steps, live, false))
         == Outcomes(w, columns, steps)
    decreases |steps|
  {
    if steps != [] {
      var front, last := steps[..|steps| - 1], steps[|steps| - 1];
      OutcomesPicked(w, columns, all, front, live);
      var free := Free(all, last, live);
      var yes, no := Picked(all, front, live, true), Picked(all, front, live, false);
      if free {
        OutcomesSnoc(w, columns, yes, last);
        assert Picked(all, steps, live, false) == no;
      } else {
        OutcomesSnoc(w, columns, no, last);
        assert Picked(all, steps, live, true) == yes;
      }
    }
  }

  /** The outcomes of settled steps are their rows. */
  lemma {:induction false} SettledRows(w: Wording, columns: nat, steps: seq<Step>)
    requires forall s | s in steps :: s.settled != ""
    ensures Outcomes(w, columns, steps) == multiset(StepRows(w, columns, steps))
    decreases |steps|
  {
    if steps != [] {
      var front, last := steps[..|steps| - 1], steps[|steps| - 1];
      SettledRows(w, columns, front);
      var rows := StepRows(w, columns, front);
      assert StepRows(w, columns, steps) == rows + [StepRow(w, columns, last)];
      assert last in steps;
      assert multiset(rows + [StepRow(w, columns, last)]) == multiset(rows) + multiset{StepRow(w, columns, last)};
    }
  }

  lemma {:induction false} SameOutcomes(w: Wording, columns: nat, a: seq<Step>, b: seq<Step>)
    requires |a| == |b| && forall i | 0 <= i < |a| :: OutcomeOf(w, columns, a[i]) == OutcomeOf(w, columns, b[i])
    ensures Outcomes(w, columns, a) == Outcomes(w, columns, b)
    decreases |a|
  {
    if a != [] {
      SameOutcomes(w, columns, a[..|a| - 1], b[..|b| - 1]);
    }
  }

  /** A block of every step's row shows every outcome in it. */
  lemma {:induction false} OutcomesShown(w: Wording, columns: nat, steps: seq<Step>)
    ensures Outcomes(w, columns, steps) <= multiset(StepRows(w, columns, steps))
    decreases |steps|
  {
    if steps != [] {
      var front, last := steps[..|steps| - 1], steps[|steps| - 1];
      OutcomesShown(w, columns, front);
      var rows := StepRows(w, columns, front);
      assert StepRows(w, columns, steps) == rows + [StepRow(w, columns, last)];
      assert multiset(rows + [StepRow(w, columns, last)]) == multiset(rows) + multiset{StepRow(w, columns, last)};
    }
  }

  // ----- what an event makes of a step

  function NewStep(e: Event, now: int): Step {
    Step(Subject(e.title, "", e.position, e.total, "", 0, 0), 0, now, now, "", "")
  }

  function Touched(s: Step, e: Event, ctx: nat): Step {
    var subject := s.subject.(identity := e.identity);
    s.(ctx := ctx, subject := if e.declared > 0 then subject.(completed := e.completed, declared := e.declared)
      else subject)
  }

  /** The event's step is the one that stands at i, or a new one whose place is i. */
  predicate IsEntry(was: seq<Step>, e: Event, i: nat) {
    if exists s | s in was :: Matches(s, e) then i < |was| && IsFirstMatch(was, e, i) else IsPlace(was, e.position, i)
  }

  function Enter(was: seq<Step>, e: Event, ctx: nat, now: int, i: nat): (r: seq<Step>)
    requires IsEntry(was, e, i)
    ensures i < |r| <= |was| + 1 && r[i].settled == "" && r[i].subject.position == e.position
  {
    if exists s | s in was :: Matches(s, e) then was[i := Touched(was[i], e, ctx)]
    else Inserted(was, i, Touched(NewStep(e, now), e, ctx))
  }

  function FirstMatch(steps: seq<Step>, e: Event): (i: nat)
    ensures IsFirstMatch(steps, e, i)
  {
    if steps == [] then 0
    else
      var i := FirstMatch(steps[..|steps| - 1], e);
      if i < |steps| - 1 || Matches(steps[|steps| - 1], e) then i else |steps|
  }

  function FirstLater(steps: seq<Step>, position: int): (i: nat)
    ensures IsFirstLater(steps, position, i)
  {
    if steps == [] then 0
    else
      var i := FirstLater(steps[..|steps| - 1], position);
      if i < |steps| - 1 || steps[|steps| - 1].subject.position > position then i else |steps|
  }

  /** Where the event's step stands or is placed. */
  function EntryOf(steps: seq<Step>, e: Event): (i: nat)
    ensures IsEntry(steps, e, i)
  {
    var i := FirstMatch(steps, e);
    if i < |steps| then assert steps[i] in steps; i
    else if e.position > 0 then FirstLater(steps, e.position)
    else |steps|
  }

  lemma EntryIsUnique(steps: seq<Step>, e: Event, i: nat, j: nat)
    requires IsEntry(steps, e, i) && IsEntry(steps, e, j)
    ensures i == j
  {
  }

  /** Finds or places the event's step. */
  method EnterSteps(steps: seq<Step>, e: Event, ctx: nat, now: int) returns (i: nat, entered: seq<Step>)
    ensures IsEntry(steps, e, i) && entered == Enter(steps, e, ctx, now, i)
  {
    i := FindStep(steps, e);
    if i == |steps| {
      i := FindPlace(steps, e.position);
      var s := NewStep(e, now);
      entered := steps[..i] + [s] + steps[i..];
      entered := entered[i := Touched(s, e, ctx)];
    } else {
      assert steps[i] in steps;
      entered := steps[i := Touched(steps[i], e, ctx)];
    }
  }

  /** An event that finds or places its step moves no other and settles none. */
  lemma EnterKeeps(w: Wording, columns: nat, was: seq<Step>, e: Event, ctx: nat, now: int, i: nat)
    requires IsEntry(was, e, i) && InOrder(was)
    ensures InOrder(Enter(was, e, ctx, now, i))
    ensures Outcomes(w, columns, Enter(was, e, ctx, now, i)) == Outcomes(w, columns, was)
  {
    if exists s | s in was :: Matches(s, e) {
      UpdateKeepsOrder(was, i, Touched(was[i], e, ctx));
      OutcomesUpdate(w, columns, was, i, Touched(was[i], e, ctx));
    } else {
      InsertKeepsOrder(was, i, Touched(NewStep(e, now), e, ctx));
      OutcomesInsert(w, columns, was, i, Touched(NewStep(e, now), e, ctx));
    }
  }

  function RunningStep(s: Step, detail: string): Step {
    s.(subject := s.subject.(detail := detail), note := "")
  }

  function SettledStep(w: Wording, s: Step, status: string, detail: string, now: int): Step {
    s.(subject := s.subject.(detail := detail), note := w.elapsed(now - s.started), settled := status)
  }

  function Stamped(steps: seq<Step>, now: int): (r: seq<Step>)
    ensures |r| == |steps| && forall i | 0 <= i < |r| :: r[i] == steps[i].(reported := now)
  {
    seq(|steps|, i requires 0 <= i < |steps| => steps[i].(reported := now))
  }

  const HEARTBEAT: int := 10_000_000_000

  function Still(w: Wording, s: Step, now: int): string {
    "still running, " + w.elapsed(now - s.started)
  }

  predicate Quiet(s: Step, live: set<nat>, now: int) {
    Active(s, live) && now - s.reported >= HEARTBEAT
  }

  function Noted(w: Wording, steps: seq<Step>, live: set<nat>, now: int): (r: seq<Step>)
    ensures |r| == |steps|
    ensures forall i | 0 <= i < |r| ::
      r[i] == if Active(steps[i], live) then steps[i].(note := Still(w, steps[i], now)) else steps[i]
  {
    seq(|steps|, i requires 0 <= i < |steps| => if Active(steps[i], live) then steps[i].(note :=
      Still(w, steps[i], now)) else steps[i])
  }

  function Repeat(s: Step, live: set<nat>, now: int): Step {
    if Quiet(s, live, now) then s.(reported := now) else s
  }

  function Repeated(steps: seq<Step>, live: set<nat>, now: int): (r: seq<Step>)
    ensures |r| == |steps| && forall i | 0 <= i < |r| :: r[i] == Repeat(steps[i], live, now)
  {
    seq(|steps|, i requires 0 <= i < |steps| => Repeat(steps[i], live, now))
  }

  /** The same steps but for when they reported and what a running one notes. */
  predicate Alike(a: seq<Step>, b: seq<Step>) {
    |a| == |b| && forall i | 0 <= i < |a| ::
      a[i].subject == b[i].subject && a[i].settled == b[i].settled && (a[i].settled == "" || a[i].note == b[i].note)
  }

  lemma AlikeKeeps(w: Wording, columns: nat, a: seq<Step>, b: seq<Step>)
    requires Alike(a, b)
    ensures Outcomes(w, columns, a) == Outcomes(w, columns, b)
    ensures InOrder(a) ==> InOrder(b)
  {
    SameOutcomes(w, columns, a, b);
  }

  // ----- the block's rows

  const OVERVIEW_HEADING := "Progress"

  function FitRow(row: Row, columns: nat): (r: Row)
    ensures columns > 0 ==> |r| < columns
    ensures |row| < columns ==> r == row
  {
    if columns > WRAP_GUARD then Fit(row, columns - WRAP_GUARD) else []
  }

  function FitRows(rows: seq<Row>, columns: nat): (r: seq<Row>)
    ensures |r| == |rows| && forall i | 0 <= i < |r| :: r[i] == FitRow(rows[i], columns)
  {
    seq(|rows|, i requires 0 <= i < |rows| => FitRow(rows[i], columns))
  }

  function Above(heading: string, overview: seq<Row>): seq<Row> {
    if heading == OVERVIEW_HEADING then overview else []
  }

  /** One line for each row of the overview and one for each step. */
  function BlockRows(w: Wording, columns: nat, heading: string, overview: seq<Row>, steps: seq<Step>): (r: seq<Row>)
    ensures |r| <= |overview| + |steps|
    ensures columns > 0 ==> forall i | 0 <= i < |r| :: |r[i]| < columns
  {
    FitRows(Above(heading, overview), columns) + StepRows(w, columns, steps)
  }

  /** Fitting a step's row once more leaves it alone. */
  lemma RefitRows(w: Wording, columns: nat, heading: string, overview: seq<Row>, steps: seq<Step>)
    requires columns > 0
    ensures FitRows(Above(heading, overview) + StepRows(w, columns, steps), columns) ==
      BlockRows(w, columns, heading, overview, steps)
  {
  }
}
