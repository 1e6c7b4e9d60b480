/** What stands on the screen or in the appended output, and how each write changes it. */
module ProgressPicture {
  import opened Screen
  import opened ProgressSteps
  import opened Progress

  /** The terminal written to, which may be wider than the rows are kept, and the text it showed before. */
  datatype World = World(width: nat, height: nat, before: seq<Row>)

  /**
   What the writes so far amount to. On appended output the journal of them; on
   a terminal the lines above the block, the block's, and how many blank ones lie
   under it, as long as no block outgrew the terminal. Both count the outcomes
   settled so far.
   */
  datatype Picture = Picture(settlements: multiset<Row>, journal: seq<Entry>, log: seq<Row>, block: seq<Row>,
      below: nat, fits: bool)

  /** Every outcome settled so far is in the journal or waits in the block, none twice. */
  predicate Accounted(w: Wording, steps: seq<Step>, out: seq<Cmd>, g: Picture) {
    g.block == [] && out == Flatten(g.journal) && g.settlements == Written(g.journal) + Outcomes(w, 0, steps)
  }

  /** The text that was there, then the log, then the block, which is all still on the screen. */
  predicate Standing(world: World, out: seq<Cmd>, g: Picture) {
    OnScreen(world.width, world.height, Run(world.width, world.height, Start(world.before), out), world.before + g.log,
      g.block, g.below)
  }

  /** Every outcome settled so far is a line above the block or waits in the block. */
  predicate Covered(settlements: multiset<Row>, log: seq<Row>, waiting: multiset<Row>) {
    settlements <= multiset(log) + waiting
  }

  predicate Shows(block: seq<Row>, waiting: multiset<Row>) {
    waiting <= multiset(block)
  }

  predicate OnTerminal(columns: nat, w: Wording, world: World, steps: seq<Step>, out: seq<Cmd>, g: Picture) {
    && columns <= world.width && world.height > 0
    && (g.fits ==> Standing(world, out, g))
    && Covered(g.settlements, g.log, Outcomes(w, columns, steps))
  }

  /** What also holds between the erasing of a block and the drawing of the next. */
  predicate Sound(columns: nat, w: Wording, world: World, steps: seq<Step>, drawn: nat, out: seq<Cmd>, g: Picture) {
    && InOrder(steps)
    && drawn == |g.block|
    && (columns == 0 ==> Accounted(w, steps, out, g))
    && (columns > 0 ==> OnTerminal(columns, w, world, steps, out, g))
  }

  /** And the outcomes that wait in the block are lines of it. */
  predicate Whole(columns: nat, w: Wording, world: World, steps: seq<Step>, drawn: nat, out: seq<Cmd>, g: Picture) {
    && Sound(columns, w, world, steps, drawn, out, g)
    && (columns > 0 ==> Shows(g.block, Outcomes(w, columns, steps)))
  }

  // ----- closing the block

  function Closed(columns: nat, w: Wording, steps: seq<Step>, g: Picture): Picture {
    if columns == 0 then g.(journal := g.journal + HeldEntries(w, steps))
    else g.(log := g.log + g.block, block := [], below := Less(g.below))
  }

  lemma CloseAppended(w: Wording, steps: seq<Step>, out: seq<Cmd>, g: Picture)
    requires Accounted(w, steps, out, g)
    ensures Accounted(w, [], out + Flatten(HeldEntries(w, steps)), Closed(0, w, steps, g))
  {
    FlattenAppend(g.journal, HeldEntries(w, steps));
    WrittenAppend(g.journal, HeldEntries(w, steps));
    HeldWritten(w, steps);
    assert Outcomes(w, 0, []) == multiset{};
  }

  lemma CloseCovered(settlements: multiset<Row>, log: seq<Row>, block: seq<Row>, waiting: multiset<Row>)
    requires Covered(settlements, log, waiting) && Shows(block, waiting)
    ensures Covered(settlements, log + block, multiset{})
  {
    assert multiset(log + block) == multiset(log) + multiset(block);
  }

  lemma CloseStanding(world: World, out: seq<Cmd>, g: Picture)
    requires Standing(world, out, g) && g.block != []
    ensures Standing(world, out + [Feed], g.(log := g.log + g.block, block := [], below := Less(g.below)))
  {
    var t := Run(world.width, world.height, Start(world.before), out);
    CloseAt(world.width, world.height, t, world.before + g.log, g.block, g.below);
    RunAppend(world.width, world.height, Start(world.before), out, [Feed]);
    assert world.before + g.log + g.block == world.before + (g.log + g.block);
  }

  lemma CloseTerminal(columns: nat, w: Wording, world: World, steps: seq<Step>, out: seq<Cmd>, g: Picture)
    requires OnTerminal(columns, w, world, steps, out, g) && g.block != []
      && Shows(g.block, Outcomes(w, columns, steps))
    ensures OnTerminal(columns, w, world, [], out + [Feed],
      g.(log := g.log + g.block, block := [], below := Less(g.below)))
  {
    if g.fits {
      CloseStanding(world, out, g);
    }
    CloseCovered(g.settlements, g.log, g.block, Outcomes(w, columns, steps));
  }

  lemma CloseEmpty(columns: nat, w: Wording, world: World, steps: seq<Step>, out: seq<Cmd>, g: Picture)
    requires OnTerminal(columns, w, world, steps, out, g) && g.block == []
      && Shows(g.block, Outcomes(w, columns, steps))
    ensures OnTerminal(columns, w, world, [], out, g)
  {
    CloseCovered(g.settlements, g.log, g.block, Outcomes(w, columns, steps));
    assert g.log + [] == g.log;
  }

  // ----- a heading or a field

  function ParagraphCmds(text: Row): seq<Cmd> {
    [Feed, Cells(text), Feed]
  }

  lemma ParagraphAppended(w: Wording, steps: seq<Step>, out: seq<Cmd>, g: Picture, text: Row)
    requires Accounted(w, steps, out, g)
    ensures Accounted(w, steps, out + ParagraphCmds(text), g.(journal := g.journal + [Paragraph(text)]))
  {
    JournalSnoc(g.journal, Paragraph(text));
  }

  lemma MoreCovered(settlements: multiset<Row>, log: seq<Row>, grown: seq<Row>, waiting: multiset<Row>)
    requires Covered(settlements, log, waiting) && log <= grown
    ensures Covered(settlements, grown, waiting)
  {
    assert grown == log + grown[|log|..];
    assert multiset(grown) == multiset(log) + multiset(grown[|log|..]);
  }

  lemma ParagraphTerminal(columns: nat, w: Wording, world: World, out: seq<Cmd>, g: Picture,
      text: Row) returns (h: Picture)
    requires OnTerminal(columns, w, world, [], out, g) && g.block == []
    ensures OnTerminal(columns, w, world, [], out + ParagraphCmds(text), h)
    ensures h == g.(log := h.log, below := h.below) && g.log <= h.log
  {
    h := g;
    if g.fits {
      var t := Run(world.width, world.height, Start(world.before), out);
      var all, left := ParagraphAt(world.width, world.height, t, world.before + g.log, g.below, text);
      RunAppend(world.width, world.height, Start(world.before), out, ParagraphCmds(text));
      var grown := all[|world.before|..];
      assert all == world.before + grown;
      MoreCovered(g.settlements, g.log, grown, Outcomes(w, columns, []));
      h := g.(log := grown, below := left);
    }
  }

  // ----- a settled step

  /** A step that settles is one more outcome waiting in the block. */
  lemma SettleWaits(columns: nat, w: Wording, world: World, steps: seq<Step>, out: seq<Cmd>, g: Picture, i: nat,
      s: Step)
    requires i < |steps| && steps[i].settled == ""
    ensures columns == 0 && Accounted(w, steps, out, g) ==>
      Accounted(w, steps[i := s], out, g.(settlements := g.settlements + OutcomeOf(w, columns, s)))
    ensures OnTerminal(columns, w, world, steps, out, g) ==>
      OnTerminal(columns, w, world, steps[i := s], out, g.(settlements := g.settlements + OutcomeOf(w, columns, s)))
  {
    OutcomesUpdate(w, columns, steps, i, s);
    if columns == 0 {
      Regroup(Written(g.journal), Outcomes(w, 0, steps), OutcomeOf(w, 0, s));
    }
    if Covered(g.settlements, g.log, Outcomes(w, columns, steps)) {
      SettleCovered(g.settlements, g.log, Outcomes(w, columns, steps), OutcomeOf(w, columns, s));
    }
  }

  lemma SettleCovered(settlements: multiset<Row>, log: seq<Row>, waiting: multiset<Row>, more: multiset<Row>)
    requires Covered(settlements, log, waiting)
    ensures Covered(settlements + more, log, waiting + more)
  {
  }

  lemma ReleaseAppended(w: Wording, steps: seq<Step>, live: set<nat>, out: seq<Cmd>, g: Picture)
    requires Accounted(w, steps, out, g)
    ensures Accounted(w, Kept(steps, live), out + Flatten(HeldEntries(w, Released(steps, live))),
                      g.(journal := g.journal + HeldEntries(w, Released(steps, live))))
  {
    var released := Released(steps, live);
    FlattenAppend(g.journal, HeldEntries(w, released));
    WrittenAppend(g.journal, HeldEntries(w, released));
    HeldWritten(w, released);
    OutcomesPicked(w, 0, steps, steps, live);
    Regroup(Written(g.journal), Outcomes(w, 0, released), Outcomes(w, 0, Kept(steps, live)));
  }

  lemma ReleaseCovered(settlements: multiset<Row>, log: seq<Row>, rows: seq<Row>, kept: multiset<Row>)
    requires Covered(settlements, log, multiset(rows) + kept)
    ensures Covered(settlements, log + rows, kept)
  {
    assert multiset(log + rows) == multiset(log) + multiset(rows);
  }

  // ----- clearing the block and drawing it

  lemma {:induction false} NarrowRows(w: Wording, columns: nat, steps: seq<Step>, width: nat)
    requires 0 < columns <= width
    ensures Narrow(width, StepRows(w, columns, steps))
  {
    forall i | 0 <= i < |steps| ensures |StepRows(w, columns, steps)[i]| < width {
      assert StepRows(w, columns, steps)[i] == StepRow(w, columns, steps[i]);
    }
  }

  lemma RepaintStanding(world: World, out: seq<Cmd>, g: Picture, settled: seq<Row>, rows: seq<Row>) returns (left: nat)
    requires Standing(world, out, g) && Narrow(world.width, settled) && Narrow(world.width, rows)
      && |rows| <= world.height
    ensures Standing(world, out + Repaint(|g.block|, settled, rows),
      g.(log := g.log + settled, block := rows, below := left))
  {
    var t := Run(world.width, world.height, Start(world.before), out);
    left := RepaintAt(world.width, world.height, t, world.before + g.log, g.block, g.below, settled, rows);
    RunAppend(world.width, world.height, Start(world.before), out, Repaint(|g.block|, settled, rows));
    assert world.before + g.log + settled == world.before + (g.log + settled);
  }

  lemma ReleaseWaiting(columns: nat, w: Wording, steps: seq<Step>, live: set<nat>, g: Picture)
    requires Covered(g.settlements, g.log, Outcomes(w, columns, steps))
    ensures Covered(g.settlements, g.log + StepRows(w, columns, Released(steps, live)),
      Outcomes(w, columns, Kept(steps, live)))
  {
    var released := Released(steps, live);
    SettledRows(w, columns, released);
    OutcomesPicked(w, columns, steps, steps, live);
    ReleaseCovered(g.settlements, g.log, StepRows(w, columns, released), Outcomes(w, columns, Kept(steps, live)));
  }

  function ClearCmds(drawn: nat, rows: seq<Row>): seq<Cmd> {
    EraseBlock(drawn) + Lines(rows)
  }

  lemma ClearStanding(world: World, out: seq<Cmd>, g: Picture, rows: seq<Row>) returns (h: Picture)
    requires Narrow(world.width, rows) && (g.fits ==> Standing(world, out, g))
    ensures h.fits ==> Standing(world, out + ClearCmds(|g.block|, rows), h)
    ensures h == g.(log := g.log + rows, block := [], below := h.below)
  {
    h := g.(log := g.log + rows, block := []);
    if g.fits {
      var left := RepaintStanding(world, out, g, rows, []);
      assert Repaint(|g.block|, rows, []) == ClearCmds(|g.block|, rows);
      h := h.(below := left);
    }
  }

  /** The released outcomes take the block's place, and become lines above it. */
  lemma ReleaseTerminal(columns: nat, w: Wording, world: World, steps: seq<Step>, live: set<nat>, out: seq<Cmd>,
      g: Picture) returns (h: Picture)
    requires columns > 0 && OnTerminal(columns, w, world, steps, out, g)
    ensures OnTerminal(columns, w, world, Kept(steps, live),
                       out + ClearCmds(|g.block|, StepRows(w, columns, Released(steps, live))), h)
    ensures h == g.(log := g.log + StepRows(w, columns, Released(steps, live)), block := [], below := h.below)
  {
    NarrowRows(w, columns, Released(steps, live), world.width);
    h := ClearStanding(world, out, g, StepRows(w, columns, Released(steps, live)));
    ReleaseWaiting(columns, w, steps, live, g);
  }

  lemma BlockShows(w: Wording, columns: nat, heading: string, overview: seq<Row>, steps: seq<Step>)
    ensures Shows(BlockRows(w, columns, heading, overview, steps), Outcomes(w, columns, steps))
  {
    var top, rows := FitRows(Above(heading, overview), columns), StepRows(w, columns, steps);
    OutcomesShown(w, columns, steps);
    assert multiset(top + rows) == multiset(top) + multiset(rows);
  }

  lemma RedrawStanding(world: World, out: seq<Cmd>, g: Picture, rows: seq<Row>) returns (h: Picture)
    requires Narrow(world.width, rows) && (g.fits ==> Standing(world, out, g))
    ensures h.fits ==> Standing(world, out + RedrawCmds(|g.block|, rows), h)
    ensures h == g.(block := rows, below := h.below, fits := g.fits && |rows| <= world.height)
  {
    h := g.(block := rows, fits := g.fits && |rows| <= world.height);
    if h.fits {
      var left := RepaintStanding(world, out, g, [], rows);
      assert Repaint(|g.block|, [], rows) == RedrawCmds(|g.block|, rows);
      assert g.log + [] == g.log;
      h := h.(below := left);
    }
  }

  /** The block is drawn anew in its own place. */
  lemma RedrawTerminal(columns: nat, w: Wording, world: World, steps: seq<Step>, out: seq<Cmd>, g: Picture,
      rows: seq<Row>) returns (h: Picture)
    requires 0 < columns && OnTerminal(columns, w, world, steps, out, g) && Narrow(columns, rows)
    ensures OnTerminal(columns, w, world, steps, out + RedrawCmds(|g.block|, rows), h)
    ensures h == g.(block := rows, below := h.below, fits := g.fits && |rows| <= world.height)
  {
    assert Narrow(world.width, rows);
    h := RedrawStanding(world, out, g, rows);
  }

  // ----- rows of running steps in appended output

  lemma NewsAppended(w: Wording, steps: seq<Step>, out: seq<Cmd>, g: Picture, entries: seq<Entry>)
    requires Accounted(w, steps, out, g) && Written(entries) == multiset{}
    ensures Accounted(w, steps, out + Flatten(entries), g.(journal := g.journal + entries))
  {
    FlattenAppend(g.journal, entries);
    WrittenAppend(g.journal, entries);
  }

  lemma OneNews(w: Wording, steps: seq<Step>, out: seq<Cmd>, g: Picture, row: Row)
    requires Accounted(w, steps, out, g)
    ensures Accounted(w, steps, out + [Cells(row), Feed], g.(journal := g.journal + [News(row)]))
  {
    JournalSnoc(g.journal, News(row));
  }

  // ----- what each operation makes of the picture

  /** The block alone changed, on a terminal tall enough for it. */
  predicate Redrawn(was: Picture, now: Picture, block: seq<Row>, height: nat) {
    now == was.(block := block, below := now.below, fits := was.fits && |block| <= height)
  }

  lemma RedrawStamped(columns: nat, w: Wording, world: World, steps: seq<Step>, out: seq<Cmd>, g: Picture,
      block: seq<Row>, now: int)
      returns (h: Picture)
    requires 0 < columns && Sound(columns, w, world, steps, |g.block|, out, g)
    requires Narrow(columns, block) && Shows(block, Outcomes(w, columns, steps))
    ensures Whole(columns, w, world, Stamped(steps, now), |block|, out + RedrawCmds(|g.block|, block), h)
    ensures Redrawn(g, h, block, world.height)
  {
    h := RedrawTerminal(columns, w, world, steps, out, g, block);
    AlikeKeeps(w, columns, steps, Stamped(steps, now));
  }

  lemma RunningKeeps(columns: nat, w: Wording, world: World, steps: seq<Step>, drawn: nat, out: seq<Cmd>, g: Picture,
      i: nat, s: Step)
    requires Whole(columns, w, world, steps, drawn, out, g)
    requires i < |steps| && steps[i].settled == "" == s.settled && s.subject.position == steps[i].subject.position
    ensures Whole(columns, w, world, steps[i := s], drawn, out, g)
  {
    OutcomesUpdate(w, columns, steps, i, s);
    NoMore(Outcomes(w, columns, steps));
    UpdateKeepsOrder(steps, i, s);
  }

  lemma RunAppended(w: Wording, world: World, steps: seq<Step>, drawn: nat, out: seq<Cmd>, g: Picture, row: Row)
    requires Whole(0, w, world, steps, drawn, out, g)
    ensures Whole(0, w, world, steps, drawn, out + [Cells(row), Feed], g.(journal := g.journal + [News(row)]))
  {
    OneNews(w, steps, out, g, row);
  }

  lemma EnterWhole(columns: nat, w: Wording, world: World, steps: seq<Step>, drawn: nat, out: seq<Cmd>, g: Picture,
      e: Event, ctx: nat, now: int, i: nat)
    requires Whole(columns, w, world, steps, drawn, out, g) && IsEntry(steps, e, i)
    ensures Whole(columns, w, world, Enter(steps, e, ctx, now, i), drawn, out, g)
  {
    EnterKeeps(w, columns, steps, e, ctx, now, i);
  }

  /** The picture with one more outcome settled. */
  function Counting(w: Wording, columns: nat, g: Picture, s: Step): Picture {
    g.(settlements := g.settlements + OutcomeOf(w, columns, s))
  }

  lemma SettleSound(columns: nat, w: Wording, world: World, steps: seq<Step>, drawn: nat, out: seq<Cmd>, g: Picture,
      i: nat, s: Step)
    requires Sound(columns, w, world, steps, drawn, out, g)
    requires i < |steps| && steps[i].settled == "" && s.subject.position == steps[i].subject.position
    ensures Sound(columns, w, world, steps[i := s], drawn, out, Counting(w, columns, g, s))
  {
    SettleWaits(columns, w, world, steps, out, g, i, s);
    UpdateKeepsOrder(steps, i, s);
  }

  /** What a release makes of the picture: the outcomes are written, on a terminal in the block's place. */
  predicate Freed(columns: nat, w: Wording, released: seq<Step>, was: Picture, now: Picture) {
    if columns == 0 then now == was.(journal := was.journal + HeldEntries(w, released))
    else now == was.(log := was.log + StepRows(w, columns, released), block := [], below := now.below)
  }

  function FreeCmds(columns: nat, w: Wording, drawn: nat, released: seq<Step>): seq<Cmd> {
    if columns == 0 then Flatten(HeldEntries(w, released)) else ClearCmds(drawn, StepRows(w, columns, released))
  }

  lemma ReleaseSound(columns: nat, w: Wording, world: World, steps: seq<Step>, live: set<nat>, out: seq<Cmd>,
      g: Picture) returns (h: Picture)
    requires Sound(columns, w, world, steps, |g.block|, out, g)
    ensures Sound(columns, w, world, Kept(steps, live), 0, out + FreeCmds(columns, w, |g.block|, Released(steps, live)),
      h)
    ensures Freed(columns, w, Released(steps, live), g, h)
  {
    PickedOrder(steps, steps, live, false);
    if columns == 0 {
      ReleaseAppended(w, steps, live, out, g);
      h := g.(journal := g.journal + HeldEntries(w, Released(steps, live)));
    } else {
      h := ReleaseTerminal(columns, w, world, steps, live, out, g);
    }
  }

  /** The writes that release every outcome nothing holds back, and the block without them. */
  method ReleaseAll(columns: nat, w: Wording, steps: seq<Step>, live: set<nat>, drawn: nat)
      returns (cmds: seq<Cmd>, kept: seq<Step>)
    ensures cmds == FreeCmds(columns, w, drawn, Released(steps, live)) && kept == Kept(steps, live)
  {
    var released;
    released, kept := Release(steps, live);
    if columns == 0 {
      cmds := HeldCmds(w, released);
    } else {
      var erase := EraseCmds(drawn);
      var rows, _ := CollectRows(w, columns, released, 0);
      var lines := LineCmds(rows);
      cmds := erase + lines;
    }
  }

  // ----- a heartbeat

  lemma BeatAppended(w: Wording, world: World, steps: seq<Step>, drawn: nat, out: seq<Cmd>, g: Picture, live: set<nat>,
      now: int)
    requires Whole(0, w, world, steps, drawn, out, g)
    ensures var entries := QuietEntries(w, steps, live, now);
      Whole(0, w, world, Repeated(steps, live, now), drawn, out + Flatten(entries), g.(journal := g.journal + entries))
  {
    var entries := QuietEntries(w, steps, live, now);
    QuietSettlesNothing(w, steps, live, now);
    NewsAppended(w, steps, out, g, entries);
    AlikeKeeps(w, 0, steps, Repeated(steps, live, now));
  }

  lemma NotedWhole(columns: nat, w: Wording, world: World, steps: seq<Step>, drawn: nat, out: seq<Cmd>, g: Picture,
      live: set<nat>, now: int)
    requires Whole(columns, w, world, steps, drawn, out, g)
    ensures Whole(columns, w, world, Noted(w, steps, live, now), drawn, out, g)
  {
    AlikeKeeps(w, columns, steps, Noted(w, steps, live, now));
  }
}
