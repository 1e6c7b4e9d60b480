/** The progress presenter (internal/cli/progress.go): what it writes, over every sequence of calls. */
module Progress {
  import opened Screen
  import opened ProgressSteps

  // ----- what appended output consists of

  /** One write into appended output. */
  datatype Entry = Outcome(row: Row) | News(row: Row) | Paragraph(row: Row)

  function EntryCmds(e: Entry): seq<Cmd> {
    match e
    case Outcome(row) => [Cells(row), Feed]
    case News(row) => [Cells(row), Feed]
    case Paragraph(row) => [Feed, Cells(row), Feed]
  }

  function Flatten(journal: seq<Entry>): seq<Cmd> {
    if journal == [] then [] else Flatten(journal[..|journal| - 1]) + EntryCmds(journal[|journal| - 1])
  }

  function EntryOutcome(e: Entry): multiset<Row> {
    if e.Outcome? then multiset{e.row} else multiset{}
  }

  /** The outcome rows a journal holds, as often as it does. */
  function Written(journal: seq<Entry>): multiset<Row> {
    if journal == [] then multiset{} else Written(journal[..|journal| - 1]) + EntryOutcome(journal[|journal| - 1])
  }

  lemma JournalSnoc(journal: seq<Entry>, e: Entry)
    ensures Flatten(journal + [e]) == Flatten(journal) + EntryCmds(e)
    ensures Written(journal + [e]) == Written(journal) + EntryOutcome(e)
  {
    assert (journal + [e])[..|journal|] == journal;
  }

  /** The entries of the outcomes that stand in a block, in its order. */
  function HeldEntries(w: Wording, steps: seq<Step>): seq<Entry> {
    if steps == [] then [] else
      var last := steps[|steps| - 1];
      HeldEntries(w, steps[..|steps| - 1]) + if last.settled != "" then [Outcome(StepRow(w, 0, last))] else []
  }

  lemma HeldEntriesNext(w: Wording, steps: seq<Step>, i: nat)
    requires i < |steps|
    ensures HeldEntries(w, steps[..i + 1])
         == HeldEntries(w, steps[..i]) + if steps[i].settled != "" then [Outcome(StepRow(w, 0, steps[i]))] else []
  {
    assert steps[..i + 1][..i] == steps[..i];
  }

  lemma Regroup<T>(a: multiset<T>, b: multiset<T>, c: multiset<T>)
    ensures a + b + c == a + (b + c)
  {
  }

  lemma RegroupCmds(a: seq<Cmd>, b: seq<Cmd>, c: seq<Cmd>)
    ensures a + b + c == a + (b + c)
  {
  }

  lemma {:induction false} FlattenAppend(a: seq<Entry>, b: seq<Entry>)
    ensures Flatten(a + b) == Flatten(a) + Flatten(b)
    decreases |b|
  {
    if b == [] {
      assert a + b == a;
    } else {
      var front, last := b[..|b| - 1], b[|b| - 1];
      FlattenAppend(a, front);
      assert (a + b)[..|a + b| - 1] == a + front && (a + b)[|a + b| - 1] == last;
      RegroupCmds(Flatten(a), Flatten(front), EntryCmds(last));
    }
  }

  lemma WrittenSnoc(journal: seq<Entry>, e: Entry)
    ensures Written(journal + [e]) == Written(journal) + EntryOutcome(e)
  {
    assert (journal + [e])[..|journal|] == journal;
  }

  lemma SnocAppend(a: seq<Entry>, front: seq<Entry>, last: Entry)
    ensures a + (front + [last]) == (a + front) + [last]
  {
  }

  lemma {:induction false} WrittenAppend(a: seq<Entry>, b: seq<Entry>)
    ensures Written(a + b) == Written(a) + Written(b)
    decreases |b|
  {
    if b == [] {
      assert a + b == a;
    } else {
      var front, last := b[..|b| - 1], b[|b| - 1];
      assert b == front + [last];
      WrittenAppend(a, front);
      SnocAppend(a, front, last);
      WrittenSnoc(a + front, last);
      WrittenSnoc(front, last);
      Regroup(Written(a), Written(front), EntryOutcome(last));
    }
  }

  lemma {:induction false} HeldWritten(w: Wording, steps: seq<Step>)
    ensures Written(HeldEntries(w, steps)) == Outcomes(w, 0, steps)
    decreases |steps|
  {
    if steps != [] {
      var front, last := steps[..|steps| - 1], steps[|steps| - 1];
      HeldWritten(w, front);
      if last.settled != "" {
        JournalSnoc(HeldEntries(w, front), Outcome(StepRow(w, 0, last)));
      } else {
        assert HeldEntries(w, steps) == HeldEntries(w, front);
      }
    }
  }

  /** The rows of the settled steps, in order. */
  method HeldCmds(w: Wording, steps: seq<Step>) returns (cmds: seq<Cmd>)
    ensures cmds == Flatten(HeldEntries(w, steps))
  {
    cmds := [];
    for i := 0 to |steps|
      invariant cmds == Flatten(HeldEntries(w, steps[..i]))
    {
      HeldEntriesNext(w, steps, i);
      if steps[i].settled != "" {
        var row := RowOf(w, 0, steps[i].settled, steps[i].subject, steps[i].note);
        JournalSnoc(HeldEntries(w, steps[..i]), Outcome(row));
        cmds := cmds + [Cells(row), Feed];
      } else {
        assert HeldEntries(w, steps[..i + 1]) == HeldEntries(w, steps[..i]);
      }
    }
    assert steps[..|steps|] == steps;
  }

  // ----- the terminal's text

  /** Everything shown before, and the cursor on a line of its own. */
  function Start(before: seq<Row>): (t: Terminal)
    ensures WellTerminal(t) && Painted(0, t, before, [], 0)
  {
    Terminal(before + [[]], |before|, 0)
  }

  method EraseCmds(drawn: nat) returns (cmds: seq<Cmd>)
    ensures cmds == EraseBlock(drawn)
  {
    cmds := [];
    if drawn == 0 {
      return;
    }
    cmds := [Return];
    if drawn > 1 {
      cmds := cmds + [Up(drawn - 1)];
    }
    ghost var first := cmds + [Erase];
    for index: nat := 0 to drawn
      invariant index == 0 ==> first == cmds + [Erase]
      invariant index > 0 ==> cmds == first + FeedErase(index - 1)
    {
      if index != 0 {
        cmds := cmds + [Feed];
        FeedEraseSnoc(index - 1);
      }
      cmds := cmds + [Erase];
    }
    if drawn > 1 {
      cmds := cmds + [Up(drawn - 1)];
    }
    assert first == [Return] + UpBy(drawn - 1) + [Erase];
  }

  lemma {:induction false} FeedEraseSnoc(n: nat)
    ensures FeedErase(n + 1) == FeedErase(n) + [Feed, Erase]
  {
    if n > 0 {
      FeedEraseSnoc(n - 1);
    }
  }

  lemma DrawSnoc(rows: seq<Row>, row: Row)
    ensures DrawRows(rows + [row]) == if rows == [] then [Cells(row)] else DrawRows(rows) + [Feed, Cells(row)]
  {
    assert (rows + [row])[..|rows|] == rows;
  }

  lemma FitSnoc(rows: seq<Row>, columns: nat, i: nat)
    requires i < |rows|
    ensures FitRows(rows[..i + 1], columns) == FitRows(rows[..i], columns) + [FitRow(rows[i], columns)]
  {
  }

  method DrawCmds(rows: seq<Row>, columns: nat) returns (cmds: seq<Cmd>)
    ensures cmds == DrawRows(FitRows(rows, columns))
  {
    cmds := [];
    for i := 0 to |rows|
      invariant cmds == DrawRows(FitRows(rows[..i], columns))
    {
      FitSnoc(rows, columns, i);
      DrawSnoc(FitRows(rows[..i], columns), FitRow(rows[i], columns));
      if i != 0 {
        cmds := cmds + [Feed];
      }
      cmds := cmds + [Cells(FitRow(rows[i], columns))];
    }
    assert rows[..|rows|] == rows;
  }

  method LineCmds(rows: seq<Row>) returns (cmds: seq<Cmd>)
    ensures cmds == Lines(rows)
  {
    cmds := [];
    for i := 0 to |rows|
      invariant cmds == Lines(rows[..i])
    {
      assert rows[..i + 1][..i] == rows[..i];
      cmds := cmds + [Cells(rows[i]), Feed];
    }
    assert rows[..|rows|] == rows;
  }

  // ----- the rows of the steps

  /** Every step's row, each step marked as having spoken. */
  method CollectRows(w: Wording, columns: nat, steps: seq<Step>, now: int) returns (rows: seq<Row>, stamped: seq<Step>)
    ensures rows == StepRows(w, columns, steps) && stamped == Stamped(steps, now)
  {
    rows, stamped := [], [];
    for i := 0 to |steps|
      invariant |rows| == i && forall j | 0 <= j < i :: rows[j] == StepRow(w, columns, steps[j])
      invariant |stamped| == i && forall j | 0 <= j < i :: stamped[j] == steps[j].(reported := now)
    {
      var status := if steps[i].settled == "" then RUNNING else steps[i].settled;
      rows := rows + [RowOf(w, columns, status, steps[i].subject, steps[i].note)];
      stamped := stamped + [steps[i].(reported := now)];
    }
  }

  /** The elapsed time on every active step, and whether there is one. */
  method NoteSteps(w: Wording, steps: seq<Step>, live: set<nat>, now: int) returns (noted: seq<Step>, any: bool)
    ensures noted == Noted(w, steps, live, now)
    ensures any <==> exists s | s in steps :: Active(s, live)
  {
    noted, any := [], false;
    for i := 0 to |steps|
      invariant noted == Noted(w, steps, live, now)[..i]
      invariant any <==> exists s | s in steps[..i] :: Active(s, live)
    {
      assert steps[..i + 1] == steps[..i] + [steps[i]];
      if Active(steps[i], live) {
        noted, any := noted + [steps[i].(note := Still(w, steps[i], now))], true;
      } else {
        noted := noted + [steps[i]];
      }
    }
    assert steps[..|steps|] == steps;
  }

  /** The repeated rows of the steps that have been quiet for the whole bound. */
  function QuietEntries(w: Wording, steps: seq<Step>, live: set<nat>, now: int): seq<Entry> {
    if steps == [] then [] else
      var s := steps[|steps| - 1];
      QuietEntries(w, steps[..|steps| - 1], live, now) +
      if Quiet(s, live, now) then [News(RowOf(w, 0, RUNNING, s.subject, Still(w, s, now)))] else []
  }

  lemma {:induction false} QuietSettlesNothing(w: Wording, steps: seq<Step>, live: set<nat>, now: int)
    ensures Written(QuietEntries(w, steps, live, now)) == multiset{}
    decreases |steps|
  {
    if steps != [] {
      var front, s := steps[..|steps| - 1], steps[|steps| - 1];
      QuietSettlesNothing(w, front, live, now);
      if Quiet(s, live, now) {
        JournalSnoc(QuietEntries(w, front, live, now), News(RowOf(w, 0, RUNNING, s.subject, Still(w, s, now))));
      } else {
        assert QuietEntries(w, steps, live, now) == QuietEntries(w, front, live, now);
      }
    }
  }

  lemma QuietNext(w: Wording, steps: seq<Step>, live: set<nat>, now: int, i: nat)
    requires i < |steps|
    ensures Flatten(QuietEntries(w, steps[..i + 1], live, now)) == Flatten(QuietEntries(w, steps[..i], live, now)) +
      if Quiet(steps[i], live, now) then [Cells(RowOf(w, 0, RUNNING, steps[i].subject, Still(w, steps[i], now))), Feed]
        else []
  {
    var front := QuietEntries(w, steps[..i], live, now);
    assert steps[..i + 1][..i] == steps[..i];
    if Quiet(steps[i], live, now) {
      JournalSnoc(front, News(RowOf(w, 0, RUNNING, steps[i].subject, Still(w, steps[i], now))));
    } else {
      assert QuietEntries(w, steps[..i + 1], live, now) == front;
    }
  }

  method QuietRows(w: Wording, steps: seq<Step>, live: set<nat>, now: int) returns (cmds: seq<Cmd>)
    ensures cmds == Flatten(QuietEntries(w, steps, live, now))
  {
    cmds := [];
    for i := 0 to |steps|
      invariant cmds == Flatten(QuietEntries(w, steps[..i], live, now))
    {
      QuietNext(w, steps, live, now, i);
      if Active(steps[i], live) && now - steps[i].reported >= HEARTBEAT {
        cmds := cmds + [Cells(RowOf(w, 0, RUNNING, steps[i].subject, Still(w, steps[i], now))), Feed];
      }
    }
    assert steps[..|steps|] == steps;
  }

  method MarkQuiet(steps: seq<Step>, live: set<nat>, now: int) returns (repeated: seq<Step>)
    ensures repeated == Repeated(steps, live, now)
  {
    repeated := [];
    for i := 0 to |steps|
      invariant |repeated| == i && forall j | 0 <= j < i :: repeated[j] == Repeat(steps[j], live, now)
    {
      if Active(steps[i], live) && now - steps[i].reported >= HEARTBEAT {
        repeated := repeated + [steps[i].(reported := now)];
      } else {
        repeated := repeated + [steps[i]];
      }
    }
  }

  function RedrawCmds(drawn: nat, block: seq<Row>): seq<Cmd> {
    EraseBlock(drawn) + DrawRows(block)
  }

  /** The writes of a redraw and the steps marked as having spoken. */
  method RedrawSteps(w: Wording, columns: nat, drawn: nat, heading: string, overview: seq<Row>, steps: seq<Step>,
      now: int)
      returns (cmds: seq<Cmd>, lines: nat, stamped: seq<Step>)
    requires columns > 0
    ensures var block := BlockRows(w, columns, heading, overview, steps);
      cmds == RedrawCmds(drawn, block) && lines == |block|
    ensures stamped == Stamped(steps, now)
  {
    var erase := EraseCmds(drawn);
    var rows;
    rows, stamped := CollectRows(w, columns, steps, now);
    rows := Above(heading, overview) + rows;
    var draw := DrawCmds(rows, columns);
    RefitRows(w, columns, heading, overview, steps);
    cmds, lines := erase + draw, |rows|;
  }
}
