/**
 What a run does for what it reads: exactly which acknowledgements it writes, and
 that a stop it owes is carried out.
 */
module SupervisorAnswers {
  import opened Common
  import opened Supervisor
  import opened SupervisorFinal
  import opened SupervisorProof
  import opened SupervisorDiscipline
  import opened SupervisorEndings

  // ----- the verdicts of the readings are the judge's

  function Judgments(r: seq<Reading>): seq<(Record, Verdict)> {
    if r == [] then []
    else
      var x := r[|r| - 1];
      Judgments(r[..|r| - 1]) + if x.event.Receive? then [(x.event.record, x.verdict)] else []
  }

  function Given(heard: seq<Judged>): (r: seq<(Record, Verdict)>)
    ensures |r| == |heard| && forall i | 0 <= i < |r| :: r[i] == (heard[i].record, heard[i].verdict)
  {
    seq(|heard|, i requires 0 <= i < |heard| => (heard[i].record, heard[i].verdict))
  }

  /** The readings carry the verdicts that the judge gave, in order. */
  lemma {:induction false} ReadingsAreHeard(cfg: Config, events: seq<Event>)
    ensures Judgments(Readings(cfg, events)) == Given(Run(cfg, events).book.heard)
  {
    if events != [] {
      var front, e := events[..|events| - 1], events[|events| - 1];
      var r := Readings(cfg, events);
      ReadingsAreHeard(cfg, front);
      StepHears(cfg, Run(cfg, front), e);
      assert r[..|r| - 1] == Readings(cfg, front);
    }
  }

  // ----- the acknowledgements

  /** The attempts to write an acknowledgement, in order. */
  function WritesIn(trace: seq<Mark>): seq<Mark> {
    if trace == [] then []
    else WritesIn(trace[..|trace| - 1]) + if trace[|trace| - 1].Wrote? then [trace[|trace| - 1]] else []
  }

  /** The attempts that are due: one for each record that asks, as long as nothing ended or canceled the run. */
  function Due(r: seq<Reading>): seq<Mark> {
    if r == [] then []
    else
      var front, x := r[..|r| - 1], r[|r| - 1];
      Due(front) +
      if !CanceledIn(r) && Endless(front) && Asks(x) && !Unreceived(front)
      then [Wrote(x.event.record, WriteOf(front, x))] else []
  }

  lemma WritesLog(t: Tree, m: Mark)
    ensures WritesIn(Log(t, m).trace) == WritesIn(t.trace) + if m.Wrote? then [m] else []
  {
    assert (t.trace + [m])[..|t.trace|] == t.trace;
  }

  lemma KillWritesNothing(t: Tree)
    ensures WritesIn(KillGroup(t).trace) == WritesIn(t.trace)
  {
    WritesLog(t, Killed);
  }

  lemma StopWritesNothing(t: Tree)
    ensures WritesIn(Stop(t).trace) == WritesIn(t.trace)
  {
    WritesLog(t, InputClosed);
    var c := CloseInput(t);
    WritesLog(c, Signaled);
    KillWritesNothing(Arm(Log(c, Signaled).(stopping := true)));
  }

  lemma BreachWritesNothing(cfg: Config, t: Tree)
    ensures WritesIn(Breach(cfg, t).trace) == WritesIn(t.trace)
  {
    WritesLog(t, InputClosed);
    StopWritesNothing(CloseInput(t));
  }

  lemma CancelWritesNothing(t: Tree, spared: bool)
    ensures WritesIn(CancelTree(t, spared).trace) == WritesIn(t.trace)
  {
    var c := Log(t, CanceledBy(spared));
    WritesLog(t, CanceledBy(spared));
    WritesLog(c, InputClosed);
    StopWritesNothing(c);
  }

  lemma DrainWritesNothing(t: Tree)
    ensures WritesIn(DrainTree(t).trace) == WritesIn(t.trace)
  {
    var d := Log(t, DrainFired).(draining := false);
    WritesLog(t, DrainFired);
    KillWritesNothing(d);
    WritesLog(KillGroup(d), OutputClosed);
  }

  lemma ReapWritesNothing(t: Tree, exit: Exit)
    ensures WritesIn(ReapTree(t, exit).trace) == WritesIn(t.trace)
  {
    WritesLog(t, Reaped(exit));
    KillWritesNothing(Log(t, Reaped(exit)).(running := false));
  }

  lemma EventWritesNothing(cfg: Config, s: State, e: Event)
    requires !e.Receive?
    ensures WritesIn(Step(cfg, s, e).tree.trace) == WritesIn(s.tree.trace)
  {
    match e {
      case Cancel(spare) =>
        assert Step(cfg, s, e) == CancelRun(cfg, s, spare);
        CancelWritesNothing(s.tree, !cfg.stopOnBreach && spare);
      case Drain =>
        assert Step(cfg, s, e).tree == DrainTree(s.tree);
        DrainWritesNothing(s.tree);
      case Reap(exit) =>
        assert Step(cfg, s, e).tree == ReapTree(s.tree, exit);
        ReapWritesNothing(s.tree, exit);
      case StreamEnd(err) =>
        assert Step(cfg, s, e).tree == ReadTree(cfg, s.tree, err);
        BreachWritesNothing(cfg, s.tree.(streaming := false));
    }
  }

  lemma AcknowledgeWrites(cfg: Config, s: State, record: Record, write: WriteResult)
    ensures WritesIn(Acknowledge(cfg, s, record, write).tree.trace)
         == WritesIn(s.tree.trace) + [Wrote(record, WriteFound(s.tree, write))]
  {
    var found := WriteFound(s.tree, write);
    var w := Log(s.tree, Wrote(record, found));
    WritesLog(s.tree, Wrote(record, found));
    WritesLog(w, Acknowledged(record));
    BreachWritesNothing(cfg, w);
  }

  /** The book lets the record's acknowledgement be written. */
  predicate MayWrite(b: Book, record: Record, verdict: Verdict) {
    && !(verdict.valid && record.phase == "refused")
    && !b.ended && !b.canceled && !b.undelivered && verdict.acknowledge
  }

  lemma RespondWrites(cfg: Config, s: State, record: Record, verdict: Verdict, write: WriteResult)
    ensures WritesIn(Respond(cfg, s, record, verdict, write).tree.trace) == WritesIn(s.tree.trace)
      + if MayWrite(s.book, record, verdict) then [Wrote(record, WriteFound(s.tree, write))] else []
  {
    var t := Respond(cfg, s, record, verdict, write);
    if verdict.valid && record.phase == "refused" {
      assert t.tree == CloseInput(s.tree);
      WritesLog(s.tree, InputClosed);
    } else if s.book.ended || s.book.canceled || s.book.undelivered {
      assert t.tree == Breach(cfg, s.tree);
      BreachWritesNothing(cfg, s.tree);
    } else if verdict.acknowledge {
      assert t == Acknowledge(cfg, s, record, write);
      AcknowledgeWrites(cfg, s, record, write);
    }
  }

  lemma RecordWrites(cfg: Config, s: State, r: seq<Reading>, x: Reading)
    requires Matches(s, r) && x.event.Receive? && x.verdict == VerdictOn(cfg, s.book, x.event.record)
    ensures WritesIn(Step(cfg, s, x.event).tree.trace) == WritesIn(s.tree.trace)
      + if !CanceledIn(r + [x]) && Endless(r) && Asks(x) && !Unreceived(r) then [Wrote(x.event.record, WriteOf(r, x))]
        else []
  {
    var e := x.event;
    var ruled := State(Rule(cfg, s.book, e.record), s.tree);
    var q := if e.done then CancelRun(cfg, ruled, e.spare) else ruled;
    CancelWritesNothing(s.tree, !cfg.stopOnBreach && e.spare);
    RespondWrites(cfg, q, e.record, x.verdict, e.write);
    assert Step(cfg, s, e) == Respond(cfg, q, e.record, x.verdict, e.write);
    MayWriteExactly(cfg, s, r, x);
  }

  lemma MayWriteExactly(cfg: Config, s: State, r: seq<Reading>, x: Reading)
    requires Matches(s, r) && x.event.Receive? && x.verdict == VerdictOn(cfg, s.book, x.event.record)
    ensures var ruled := State(Rule(cfg, s.book, x.event.record), s.tree);
      var q := if x.event.done then CancelRun(cfg, ruled, x.event.spare) else ruled;
      var due := !CanceledIn(r + [x]) && Endless(r) && Asks(x) && !Unreceived(r);
      && (MayWrite(q.book, x.event.record, x.verdict) <==> due)
      && (due ==> WriteFound(q.tree, x.event.write) == WriteOf(r, x))
  {
    PastSnoc(r, x);
    StandingDescribes(r);
    if !CanceledIn(r) && !StandingOf(r).Open? {
      var found := EndingAt(r).value;
      StandingExplains(r, found);
    }
  }

  /** A run writes exactly the acknowledgements that are due, each with what came of it. */
  lemma {:induction false} WritesExactly(cfg: Config, events: seq<Event>)
    requires NamesWhileOpen(cfg.judge)
    ensures WritesIn(Run(cfg, events).tree.trace) == Due(Readings(cfg, events))
  {
    if events != [] {
      var front, e := events[..|events| - 1], events[|events| - 1];
      var r, x := Readings(cfg, front), Readings(cfg, events)[|front|];
      WritesExactly(cfg, front);
      RunMatches(cfg, front);
      assert Readings(cfg, events) == r + [x] && (r + [x])[..|r|] == r;
      if e.Receive? {
        RecordWrites(cfg, Run(cfg, front), r, x);
      } else {
        EventWritesNothing(cfg, Run(cfg, front), e);
      }
    }
  }

  // ----- a stop is carried out

  /** A record was refused or the channel could not be read. */
  predicate Spoiled(r: seq<Reading>) {
    exists x | x in r :: ReadsInvalid(x) || ReadsUnclean(x)
  }

  /** What a tree owes once it is stopped. */
  predicate TreeCarried(t: Tree) {
    && (t.stopping ==> t.armed && !t.inputOpen)
    && (t.stopping && !t.running ==> t.groupKilled)
    && (CanceledBy(false) in t.trace ==> t.stopping)
  }

  predicate Carried(cfg: Config, s: State, spoiled: bool) {
    && TreeCarried(s.tree)
    && (s.book.canceled ==> s.tree.armed && !s.tree.inputOpen)
    && (spoiled ==> !s.tree.inputOpen && (cfg.stopOnBreach ==> s.tree.stopping))
  }

  /** One tree went on from another: nothing it owed is taken back. */
  predicate Further(t: Tree, u: Tree) {
    && (t.stopping ==> u.stopping) && (t.armed ==> u.armed) && (!t.inputOpen ==> !u.inputOpen)
  }

  lemma KillCarries(t: Tree)
    requires !t.running || !t.stopping || TreeCarried(t)
    requires (t.stopping ==> t.armed && !t.inputOpen) && (CanceledBy(false) in t.trace ==> t.stopping)
    ensures TreeCarried(KillGroup(t)) && Further(t, KillGroup(t)) && KillGroup(t).armed == t.armed
  {
  }

  lemma StopCarries(t: Tree)
    requires t.stopping ==> t.armed
    requires t.stopping && !t.running ==> t.groupKilled
    ensures TreeCarried(Stop(t)) && Further(t, Stop(t)) && Stop(t).stopping && Stop(t).armed
  {
    var c := CloseInput(t);
    if !c.stopping {
      var g := Arm(Log(c, Signaled).(stopping := true));
      KillCarries(g);
    }
  }

  lemma BreachCarries(cfg: Config, t: Tree)
    requires TreeCarried(t)
    ensures var u := Breach(cfg, t); TreeCarried(u) && Further(t, u) && (cfg.stopOnBreach ==> u.stopping)
  {
    StopCarries(CloseInput(t));
  }

  lemma CancelCarries(t: Tree, spared: bool)
    requires TreeCarried(t)
    ensures var u := CancelTree(t, spared); TreeCarried(u) && Further(t, u) && u.armed
  {
    StopCarries(Log(t, CanceledBy(spared)));
  }

  lemma DrainCarries(t: Tree)
    requires TreeCarried(t)
    ensures TreeCarried(DrainTree(t)) && Further(t, DrainTree(t)) && (t.stopping ==> DrainTree(t).groupKilled)
  {
    KillCarries(Log(t, DrainFired).(draining := false));
  }

  lemma ReapCarries(t: Tree, exit: Exit)
    requires TreeCarried(t)
    ensures TreeCarried(ReapTree(t, exit)) && Further(t, ReapTree(t, exit))
  {
    KillCarries(Log(t, Reaped(exit)).(running := false));
  }

  lemma RespondCarries(cfg: Config, s: State, record: Record, verdict: Verdict, write: WriteResult, spoiled: bool)
    requires Carried(cfg, s, spoiled)
    ensures var u := Respond(cfg, s, record, verdict, write); Carried(cfg, u, spoiled)
    ensures s.book.ended && !verdict.valid ==> Carried(cfg, Respond(cfg, s, record, verdict, write), true)
  {
    var t := s.tree;
    BreachCarries(cfg, t);
    BreachCarries(cfg, Log(t, Wrote(record, WriteFound(t, write))));
  }

  lemma ReceiveCarries(cfg: Config, s: State, x: Reading, spoiled: bool)
    requires Carried(cfg, s, spoiled) && x.event.Receive? && x.verdict == VerdictOn(cfg, s.book, x.event.record)
    ensures Carried(cfg, Step(cfg, s, x.event), spoiled || ReadsInvalid(x))
  {
    var e := x.event;
    var ruled := State(Rule(cfg, s.book, e.record), s.tree);
    var q := if e.done then CancelRun(cfg, ruled, e.spare) else ruled;
    CancelCarries(s.tree, !cfg.stopOnBreach && e.spare);
    assert Carried(cfg, q, spoiled);
    assert !x.verdict.valid ==> q.book.ended;
    RespondCarries(cfg, q, e.record, x.verdict, e.write, spoiled);
    assert Step(cfg, s, e) == Respond(cfg, q, e.record, x.verdict, e.write);
  }

  lemma EventCarries(cfg: Config, s: State, x: Reading, spoiled: bool)
    requires Carried(cfg, s, spoiled) && !x.event.Receive?
    ensures Carried(cfg, Step(cfg, s, x.event), spoiled || ReadsUnclean(x))
  {
    match x.event {
      case Cancel(spare) =>
        assert Step(cfg, s, x.event) == CancelRun(cfg, s, spare);
        CancelCarries(s.tree, !cfg.stopOnBreach && spare);
      case Drain =>
        assert Step(cfg, s, x.event) == Drained(s);
        DrainCarries(s.tree);
      case Reap(exit) =>
        assert Step(cfg, s, x.event) == ReapedWith(s, exit);
        ReapCarries(s.tree, exit);
      case StreamEnd(err) =>
        assert Step(cfg, s, x.event) == ReadEnded(cfg, s, err);
        BreachCarries(cfg, s.tree.(streaming := false));
    }
  }

  lemma {:induction false} RunCarries(cfg: Config, events: seq<Event>)
    ensures Carried(cfg, Run(cfg, events), Spoiled(Readings(cfg, events)))
  {
    if events != [] {
      var front, e := events[..|events| - 1], events[|events| - 1];
      var r, x := Readings(cfg, front), Readings(cfg, events)[|front|];
      RunCarries(cfg, front);
      assert Readings(cfg, events) == r + [x];
      assert forall y :: y in r + [x] <==> y in r || y == x;
      if e.Receive? {
        ReceiveCarries(cfg, Run(cfg, front), x, Spoiled(r));
      } else {
        EventCarries(cfg, Run(cfg, front), x, Spoiled(r));
      }
    }
  }

  /**
   Over every legal run: a cancellation that is not spared signals the adapter, and
   where a breach stops it so does a refused record or an unreadable channel; either
   way the acknowledgement channel is closed. An adapter that was signaled has its
   group killed once it is reaped. And a run that was canceled, signaled or reaped
   while the stream is open still has its drain ahead or has closed the output.
   */
  lemma StopIsCarriedOut(cfg: Config, events: seq<Event>)
    requires Legal(cfg, events)
    ensures var s := Run(cfg, events);
      var trace := s.tree.trace;
      && (CanceledBy(false) in trace ==> Signaled in trace)
      && (cfg.stopOnBreach && Spoiled(Readings(cfg, events)) ==> Signaled in trace)
      && (SawCancel(trace) || Spoiled(Readings(cfg, events)) ==> InputClosed in trace)
      && (Signaled in trace && SawReap(trace) ==> Killed in trace)
      && ((SawCancel(trace) || Signaled in trace || SawReap(trace)) && s.tree.streaming ==>
            Enabled(s, Drain) || !s.tree.outputOpen)
  {
    var s := Run(cfg, events);
    RunIsSound(cfg, events);
    RunCarries(cfg, events);
    ScanSees(s.tree.trace);
  }

  /** A drain that passes once the adapter was signaled kills its group. */
  lemma DrainKills(cfg: Config, events: seq<Event>)
    requires Legal(cfg, events + [Drain]) && Signaled in Run(cfg, events).tree.trace
    ensures Killed in Run(cfg, events + [Drain]).tree.trace
  {
    var s := Run(cfg, events);
    RunSnoc(cfg, events, Drain);
    RunIsSound(cfg, events);
    RunIsSound(cfg, events + [Drain]);
    ScanSees(s.tree.trace);
    ScanSees(Run(cfg, events + [Drain]).tree.trace);
    RunCarries(cfg, events);
    DrainCarries(s.tree);
  }
}
