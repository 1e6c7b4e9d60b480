/** The presenter's operations, each keeping what the whole stream promises. */
module ProgressPresenter {
  import opened Screen
  import opened ProgressSteps
  import opened Progress
  import opened ProgressPicture

  const INDENT: Row := "  "
  const GAP: Row := "  "

  class Presenter {
    /** The width the rows are kept under; zero means output is appended. */
    const columns: nat
    const wording: Wording
    const silent: bool
    var heading: string
    var steps: seq<Step>
    var drawn: nat
    var out: seq<Cmd>

    ghost const world: World
    ghost var picture: Picture

    ghost predicate Sound()
      reads this
    {
      ProgressPicture.Sound(columns, wording, world, steps, drawn, out, picture)
    }

    ghost predicate Valid()
      reads this
    {
      Whole(columns, wording, world, steps, drawn, out, picture)
    }

    constructor (columns: nat, wording: Wording, silent: bool, ghost world: World)
      requires columns > 0 ==> columns <= world.width && world.height > 0
      ensures Valid() && steps == []
      ensures picture == Picture(multiset{}, [], [], [], 0, true)
      ensures this.columns == columns && this.wording == wording && this.silent == silent && this.world == world
    {
      this.columns, this.wording, this.silent := columns, wording, silent;
      heading, steps, drawn, out := "", [], 0, [];
      this.world := world;
      picture := Picture(multiset{}, [], [], [], 0, true);
      new;
      assert world.before + [] == world.before;
      assert Painted(0, Start(world.before), world.before, [], 0);
    }

    /** Ends the block: its rows stay as text and its steps leave. */
    method CloseLine()
      requires Valid()
      modifies this`out, this`drawn, this`steps, this`picture
      ensures Valid() && steps == [] && drawn == 0
      ensures columns == 0 ==> picture == Closed(0, wording, old(steps), old(picture))
      ensures columns > 0 ==>
        picture == old(picture).(log := old(picture).log + old(picture).block, block := [], below := picture.below)
    {
      if columns == 0 {
        var cmds := HeldCmds(wording, steps);
        CloseAppended(wording, steps, out, picture);
        out := out + cmds;
        picture := Closed(0, wording, steps, picture);
      }
      if drawn != 0 {
        CloseTerminal(columns, wording, world, steps, out, picture);
        out := out + [Feed];
        drawn := 0;
        picture := Closed(columns, wording, steps, picture);
      } else if columns > 0 {
        CloseEmpty(columns, wording, world, steps, out, picture);
        assert picture.log + [] == picture.log;
      }
      steps := [];
    }

    /** A heading or a field: a blank line and a line of text under the closed block. */
    method WriteParagraph(text: Row)
      requires Valid() && steps == [] && drawn == 0
      modifies this`out, this`picture
      ensures Valid()
      ensures columns == 0 ==> picture == old(picture).(journal := old(picture).journal + [Paragraph(text)])
      ensures columns > 0 ==>
        picture == old(picture).(log := picture.log, below := picture.below) && old(picture).log <= picture.log
    {
      if columns == 0 {
        ParagraphAppended(wording, steps, out, picture, text);
        picture := picture.(journal := picture.journal + [Paragraph(text)]);
      } else {
        picture := ParagraphTerminal(columns, wording, world, out, picture, text);
      }
      out := out + [Feed, Cells(text), Feed];
    }

    /** A labeled line in the stream. */
    method Field(title: Row, value: Row)
      requires Valid()
      modifies this
      ensures Valid() && steps == [] && drawn == 0 && heading == old(heading)
      ensures columns == 0 ==> picture == old(picture).(journal :=
        old(picture).journal + HeldEntries(wording, old(steps)) + [Paragraph(INDENT + title + GAP + value)])
      ensures columns > 0 ==> Below(old(picture), picture)
    {
      CloseLine();
      WriteParagraph(INDENT + title + GAP + value);
    }

    method OpenHeading(h: string)
      requires Valid()
      modifies this
      ensures Valid()
      ensures !Opens(old(heading), h) ==> drawn == old(drawn) && out == old(out)
      ensures heading == HeadingAfter(old(heading), h) && steps == StepsUnder(old(heading), h, old(steps))
      ensures Headed(columns, wording, old(heading), h, old(steps), old(picture), picture)
    {
      if !Opens(heading, h) {
        return;
      }
      CloseLine();
      heading := h;
      WriteParagraph(INDENT + h);
    }

    /** Rewrites the whole block in place, one line for each row. */
    method Redraw(now: int, overview: seq<Row>)
      requires Sound() && columns > 0
      modifies this`steps, this`drawn, this`out, this`picture
      ensures Valid() && steps == Stamped(old(steps), now)
      ensures Redrawn(old(picture), picture, BlockRows(wording, columns, old(heading), overview, old(steps)),
        world.height)
    {
      var cmds, lines, stamped;
      cmds, lines, stamped, picture :=
        RedrawAll(columns, wording, world, heading, steps, drawn, out, picture, now, overview);
      out, drawn, steps := out + cmds, lines, stamped;
    }

    /** The row of a step that is still going. */
    method Running(i: nat, now: int, overview: seq<Row>)
      requires Valid() && i < |steps| && steps[i].settled == ""
      modifies this`steps, this`drawn, this`out, this`picture
      ensures Valid() && steps == Spoken(columns, old(steps), i, now)
      ensures columns == 0 ==> picture == old(picture).(journal :=
        old(picture).journal + [News(RowOf(wording, 0, RUNNING, old(steps)[i].subject, ""))])
      ensures columns > 0 ==>
        Redrawn(old(picture), picture, BlockRows(wording, columns, old(heading), overview, old(steps)), world.height)
    {
      if columns == 0 {
        Append(i, now);
      } else {
        Redraw(now, overview);
      }
    }

    /** What a report says of a running step. */
    method Detail(i: nat, detail: string)
      requires Valid() && i < |steps| && steps[i].settled == ""
      modifies this`steps
      ensures Valid() && steps == old(steps)[i := RunningStep(old(steps)[i], detail)]
    {
      var s := RunningStep(steps[i], detail);
      RunningKeeps(columns, wording, world, steps, drawn, out, picture, i, s);
      steps := steps[i := s];
    }

    /** One row of a running step into a stream that scrolls. */
    method Append(i: nat, now: int)
      requires Valid() && columns == 0 && i < |steps| && steps[i].settled == ""
      modifies this`steps, this`out, this`picture
      ensures Valid() && steps == old(steps)[i := old(steps)[i].(reported := now)]
      ensures picture == old(picture).(journal :=
        old(picture).journal + [News(RowOf(wording, 0, RUNNING, old(steps)[i].subject, ""))])
    {
      var row := RowOf(wording, columns, RUNNING, steps[i].subject, "");
      RunAppended(wording, world, steps, drawn, out, picture, row);
      out, picture := out + [Cells(row), Feed], picture.(journal := picture.journal + [News(row)]);
      var s := steps[i].(reported := now);
      RunningKeeps(columns, wording, world, steps, drawn, out, picture, i, s);
      steps := steps[i := s];
    }

    /** The step an event belongs to, found or placed, carries the event's context, identity and completion. */
    method EnterStep(e: Event, ctx: nat, now: int) returns (i: nat)
      requires Valid()
      modifies this`steps
      ensures Valid() && IsEntry(old(steps), e, i) && steps == Enter(old(steps), e, ctx, now, i)
    {
      var entered;
      i, entered := EnterSteps(steps, e, ctx, now);
      EnterWhole(columns, wording, world, steps, drawn, out, picture, e, ctx, now, i);
      steps := entered;
    }

    /** Settles a step and writes above the block, in position order, what no earlier running step holds back. */
    method Settle(i: nat, status: string, detail: string, live: set<nat>, now: int, overview: seq<Row>)
      requires Valid() && i < |steps| && steps[i].settled == ""
      modifies this`steps, this`picture, this`drawn, this`out
      ensures Valid()
      ensures var all := Settling(wording, old(steps), i, status, detail, now);
        && steps == Left(columns, all, live, now)
        && Settled(columns, wording, world.height, old(heading), overview, all, i, live, old(picture), picture)
    {
      out, drawn, steps, picture :=
        SettleAll(columns, wording, world, heading, steps, drawn, out, picture, i, status, detail, live, now, overview);
    }

    /** Takes one report; the step it belongs to and the picture under its heading are named for the contract alone. */
    method Report(e: Event, ctx: nat, live: set<nat>, now: int, overview: seq<Row>)
        returns (ghost at: nat, ghost under: Picture)
      requires Valid()
      modifies this
      ensures Valid()
      ensures !Heard(silent, e, ctx, live) ==>
        && heading == old(heading) && steps == old(steps) && drawn == old(drawn)
        && out == old(out) && picture == old(picture)
      ensures Heard(silent, e, ctx, live) ==>
        && heading == HeadingAfter(old(heading), e.heading)
        && Headed(columns, wording, old(heading), e.heading, old(steps), old(picture), under)
        && Reported(columns, wording, world.height, heading, overview, StepsUnder(old(heading), e.heading, old(steps)),
          at, e, ctx, live, now,
                    under, steps, picture)
    {
      at, under := 0, picture;
      if silent || ctx !in live || e.title == "" {
        return;
      }
      OpenHeading(e.heading);
      under := picture;
      at := Place(e, ctx, live, now, overview);
    }

    method Place(e: Event, ctx: nat, live: set<nat>, now: int, overview: seq<Row>) returns (ghost at: nat)
      requires Valid()
      modifies this`steps, this`drawn, this`out, this`picture
      ensures Valid()
      ensures Reported(columns, wording, world.height, old(heading), overview, old(steps), at, e, ctx, live, now,
        old(picture), steps, picture)
    {
      var i := EnterStep(e, ctx, now);
      at := i;
      Tell(i, e, live, now, overview);
    }

    /** What an event says of its step. */
    method Tell(i: nat, e: Event, live: set<nat>, now: int, overview: seq<Row>)
      requires Valid() && i < |steps| && steps[i].settled == ""
      modifies this`steps, this`drawn, this`out, this`picture
      ensures Valid() && steps == StepsAfter(columns, wording, old(steps), i, e, live, now)
      ensures Told(columns, wording, world.height, old(heading), overview, old(steps), i, e, live, now, old(picture),
        picture)
    {
      if e.nested && e.status != RUNNING {
        return;
      }
      if e.nested || e.status == RUNNING {
        Detail(i, e.detail);
        Running(i, now, overview);
        return;
      }
      Settle(i, e.status, e.detail, live, now, overview);
    }

    /** Ends the stream: the block stays as text. */
    method Finish()
      requires Valid()
      modifies this`out, this`drawn, this`steps, this`picture
      ensures Valid() && steps == [] && drawn == 0
      ensures columns == 0 ==> picture == Closed(0, wording, old(steps), old(picture))
      ensures columns > 0 ==>
        picture == old(picture).(log := old(picture).log + old(picture).block, block := [], below := picture.below)
    {
      CloseLine();
      steps := [];
    }

    /** A heartbeat: a terminal notes how long each step has run, appended output repeats what has been quiet. */
    method Beat(live: set<nat>, now: int, overview: seq<Row>)
      requires Valid()
      modifies this`steps, this`drawn, this`out, this`picture
      ensures Valid()
      ensures columns == 0 ==>
        && steps == Repeated(old(steps), live, now)
        && picture == old(picture).(journal := old(picture).journal + QuietEntries(wording, old(steps), live, now))
      ensures columns > 0 && (exists s | s in old(steps) :: Active(s, live)) ==>
        && steps == Stamped(Noted(wording, old(steps), live, now), now)
        && Redrawn(old(picture), picture,
          BlockRows(wording, columns, old(heading), overview, Noted(wording, old(steps), live, now)), world.height)
      ensures columns > 0 && !(exists s | s in old(steps) :: Active(s, live)) ==>
        steps == old(steps) && out == old(out) && picture == old(picture)
    {
      if columns > 0 {
        BeatBlock(live, now, overview);
      } else {
        BeatQuiet(live, now);
      }
    }

    method BeatBlock(live: set<nat>, now: int, overview: seq<Row>)
      requires Valid() && columns > 0
      modifies this`steps, this`drawn, this`out, this`picture
      ensures Valid()
      ensures (exists s | s in old(steps) :: Active(s, live)) ==>
        && steps == Stamped(Noted(wording, old(steps), live, now), now)
        && Redrawn(old(picture), picture,
          BlockRows(wording, columns, old(heading), overview, Noted(wording, old(steps), live, now)), world.height)
      ensures !(exists s | s in old(steps) :: Active(s, live)) ==>
        steps == old(steps) && out == old(out) && picture == old(picture)
    {
      var noted, any := NoteSteps(wording, steps, live, now);
      if any {
        NotedWhole(columns, wording, world, steps, drawn, out, picture, live, now);
        steps := noted;
        Redraw(now, overview);
      }
    }

    method BeatQuiet(live: set<nat>, now: int)
      requires Valid() && columns == 0
      modifies this`steps, this`out, this`picture
      ensures Valid()
      ensures steps == Repeated(old(steps), live, now)
      ensures picture == old(picture).(journal := old(picture).journal + QuietEntries(wording, old(steps), live, now))
    {
      var cmds := QuietRows(wording, steps, live, now);
      var repeated := MarkQuiet(steps, live, now);
      BeatAppended(wording, world, steps, drawn, out, picture, live, now);
      picture := picture.(journal := picture.journal + QuietEntries(wording, steps, live, now));
      out, steps := out + cmds, repeated;
    }
  }

  method RedrawAll(columns: nat, w: Wording, ghost world: World, heading: string, steps: seq<Step>, drawn: nat,
      ghost out: seq<Cmd>, ghost g: Picture,
                   now: int, overview: seq<Row>)
      returns (cmds: seq<Cmd>, lines: nat, stamped: seq<Step>, ghost h: Picture)
    requires columns > 0 && Sound(columns, w, world, steps, drawn, out, g)
    ensures stamped == Stamped(steps, now)
    ensures Whole(columns, w, world, stamped, lines, out + cmds, h)
    ensures Redrawn(g, h, BlockRows(w, columns, heading, overview, steps), world.height)
  {
    cmds, lines, stamped := RedrawSteps(w, columns, drawn, heading, overview, steps, now);
    ghost var block := BlockRows(w, columns, heading, overview, steps);
    BlockShows(w, columns, heading, overview, steps);
    h := RedrawStamped(columns, w, world, steps, out, g, block, now);
  }

  method SettleAll(columns: nat, w: Wording, ghost world: World, heading: string, steps: seq<Step>, drawn: nat,
      out: seq<Cmd>, ghost g: Picture,
                   i: nat, status: string, detail: string, live: set<nat>, now: int, overview: seq<Row>)
      returns (next: seq<Cmd>, lines: nat, after: seq<Step>, ghost h: Picture)
    requires Whole(columns, w, world, steps, drawn, out, g) && i < |steps| && steps[i].settled == ""
    ensures Whole(columns, w, world, after, lines, next, h)
    ensures var all := Settling(w, steps, i, status, detail, now);
      after == Left(columns, all, live, now) && Settled(columns, w, world.height, heading, overview, all, i, live, g, h)
  {
    var s := SettledStep(w, steps[i], status, detail, now);
    SettleSound(columns, w, world, steps, drawn, out, g, i, s);
    var all := Settling(w, steps, i, status, detail, now);
    ghost var counted := Counting(w, columns, g, s);
    var cmds, kept := ReleaseAll(columns, w, all, live, drawn);
    ghost var freed := ReleaseSound(columns, w, world, all, live, out, counted);
    next, lines, after, h := out + cmds, 0, kept, freed;
    if columns > 0 {
      var more;
      more, lines, after, h := RedrawAll(columns, w, world, heading, kept, 0, next, freed, now, overview);
      next := next + more;
    }
    SettledInSteps(columns, w, world.height, heading, overview, all, i, live, g, counted, freed, h);
  }

  function Settling(w: Wording, steps: seq<Step>, i: nat, status: string, detail: string, now: int): (r: seq<Step>)
    requires i < |steps|
    ensures |r| == |steps|
  {
    steps[i := SettledStep(w, steps[i], status, detail, now)]
  }

  function Left(columns: nat, all: seq<Step>, live: set<nat>, now: int): seq<Step> {
    if columns == 0 then Kept(all, live) else Stamped(Kept(all, live), now)
  }

  /** A row that was written marks its step; a block that was, every step. */
  function Spoken(columns: nat, steps: seq<Step>, i: nat, now: int): (r: seq<Step>)
    requires i < |steps|
    ensures |r| == |steps|
  {
    if columns == 0 then steps[i := steps[i].(reported := now)] else Stamped(steps, now)
  }

  predicate Opens(heading: string, h: string) {
    h != "" && heading != h
  }

  /** The block became text, and more text stands under it. */
  predicate Below(was: Picture, now: Picture) {
    was.log + was.block <= now.log && now == was.(log := now.log, block := [], below := now.below)
  }

  /** One more outcome counts, the released ones are written, and on a terminal the block is drawn again under them. */
  predicate Settled(columns: nat, w: Wording, height: nat, heading: string, overview: seq<Row>, all: seq<Step>, i: nat,
      live: set<nat>, was: Picture, now: Picture)
    requires i < |all|
  {
    var counted := Counting(w, columns, was, all[i]);
    if columns == 0 then now == counted.(journal := was.journal + HeldEntries(w, Released(all, live)))
    else
      var block := BlockRows(w, columns, heading, overview, Kept(all, live));
      now == counted.(log := was.log + StepRows(w, columns, Released(all, live)), block := block, below := now.below,
                      fits := was.fits && |block| <= height)
  }

  lemma SettledInSteps(columns: nat, w: Wording, height: nat, heading: string, overview: seq<Row>, all: seq<Step>,
      i: nat, live: set<nat>,
                       was: Picture, counted: Picture, freed: Picture, now: Picture)
    requires i < |all| && counted == Counting(w, columns, was, all[i])
      && Freed(columns, w, Released(all, live), counted, freed)
    requires if columns == 0 then now == freed
      else Redrawn(freed, now, BlockRows(w, columns, heading, overview, Kept(all, live)), height)
    ensures Settled(columns, w, height, heading, overview, all, i, live, was, now)
  {
  }

  // ----- a report

  predicate Heard(silent: bool, e: Event, ctx: nat, live: set<nat>) {
    !silent && ctx in live && e.title != ""
  }

  function HeadingAfter(heading: string, h: string): string {
    if Opens(heading, h) then h else heading
  }

  /** A heading owns its block. */
  function StepsUnder(heading: string, h: string, steps: seq<Step>): seq<Step> {
    if Opens(heading, h) then [] else steps
  }

  predicate Headed(columns: nat, w: Wording, heading: string, h: string, steps: seq<Step>, was: Picture, now: Picture) {
    if !Opens(heading, h) then now == was
    else if columns == 0 then now == was.(journal := was.journal + HeldEntries(w, steps) + [Paragraph(INDENT + h)])
    else Below(was, now)
  }

  predicate Silent(e: Event) {
    e.nested && e.status != RUNNING
  }

  predicate Runs(e: Event) {
    e.nested || e.status == RUNNING
  }

  function Detailed(steps: seq<Step>, i: nat, e: Event): (r: seq<Step>)
    requires i < |steps|
    ensures |r| == |steps|
  {
    steps[i := RunningStep(steps[i], e.detail)]
  }

  function StepsAfter(columns: nat, w: Wording, steps: seq<Step>, i: nat, e: Event, live: set<nat>, now: int): seq<Step>
    requires i < |steps|
  {
    if Silent(e) then steps
    else if Runs(e) then Spoken(columns, Detailed(steps, i, e), i, now)
    else Left(columns, Settling(w, steps, i, e.status, e.detail, now), live, now)
  }

  /** The event's step is found or placed among the steps, and told. */
  predicate Reported(columns: nat, w: Wording, height: nat, heading: string, overview: seq<Row>, base: seq<Step>,
      at: nat, e: Event, ctx: nat,
                     live: set<nat>, now: int, was: Picture, steps: seq<Step>, after: Picture)
  {
    && IsEntry(base, e, at)
    && steps == StepsAfter(columns, w, Enter(base, e, ctx, now, at), at, e, live, now)
    && Told(columns, w, height, heading, overview, Enter(base, e, ctx, now, at), at, e, live, now, was, after)
  }

  predicate Told(columns: nat, w: Wording, height: nat, heading: string, overview: seq<Row>, steps: seq<Step>, i: nat,
      e: Event,
                 live: set<nat>, now: int, was: Picture, after: Picture)
    requires i < |steps|
  {
    if Silent(e) then after == was
    else if Runs(e) then
      if columns == 0 then after ==
        was.(journal := was.journal + [News(RowOf(w, 0, RUNNING, Detailed(steps, i, e)[i].subject, ""))])
      else Redrawn(was, after, BlockRows(w, columns, heading, overview, Detailed(steps, i, e)), height)
    else Settled(columns, w, height, heading, overview, Settling(w, steps, i, e.status, e.detail, now), i, live, was,
      after)
  }
}
