/** What a Completed ending proves, over every run of the supervisor. */
module SupervisorProof {
  import opened Common
  import opened Supervisor

  predicate CleanEvent(e: Event) {
    match e
    case Cancel(_) => false
    case Drain => false
    case Reap(exit) => exit == Zero
    case StreamEnd(err) => err == Clean
    case Receive(_, done, _, _) => !done
  }

  predicate CleanRuling(j: Judged) {
    j.verdict.valid && j.verdict.failure.None?
  }

  predicate CleanWrites(trace: seq<Mark>) {
    forall m | m in trace :: m.Wrote? ==> m.write == Delivered
  }

  predicate CleanRulings(heard: seq<Judged>) {
    forall j | j in heard :: CleanRuling(j)
  }

  predicate CleanEvents(events: seq<Event>) {
    forall e | e in events :: CleanEvent(e)
  }

  /** The last record of phase completed the judge was given. */
  function LastCompleted(heard: seq<Judged>): Option<Record> {
    if heard == [] then None
    else if heard[|heard| - 1].record.phase == "completed" then Some(heard[|heard| - 1].record)
    else LastCompleted(heard[..|heard| - 1])
  }

  predicate Tainted(b: Book) {
    b.ended || b.canceled || b.undelivered
  }

  /** The book agrees with the evidence: it is tainted exactly when some piece of evidence is. */
  predicate Reflects(b: Book, clean: bool, last: Option<Record>) {
    && Tainted(b) == !clean
    && (b.exited ==> b.ended)
    && (clean ==> b.completed == last.Some?)
    && (clean && b.completed ==> last == Some(b.result))
    && b.ending.kind != Completed
  }

  predicate Evidence(s: State, clean: bool) {
    clean && CleanRulings(s.book.heard) && CleanWrites(s.tree.trace)
  }

  predicate ReflectsRun(s: State, clean: bool) {
    Reflects(s.book, Evidence(s, clean), LastCompleted(s.book.heard))
  }

  // ----- only an acknowledgement writes

  lemma LogWrites(t: Tree, m: Mark)
    ensures CleanWrites(Log(t, m).trace) <==> CleanWrites(t.trace) && (m.Wrote? ==> m.write == Delivered)
  {
    assert forall x :: x in t.trace + [m] <==> x in t.trace || x == m;
    assert m in t.trace + [m];
  }

  lemma KillWrites(t: Tree)
    ensures CleanWrites(KillGroup(t).trace) == CleanWrites(t.trace)
  {
    LogWrites(t, Killed);
  }

  lemma StopWrites(t: Tree)
    ensures CleanWrites(Stop(t).trace) == CleanWrites(t.trace)
  {
    var c := CloseInput(t);
    LogWrites(t, InputClosed);
    LogWrites(c, Signaled);
    KillWrites(Arm(Log(c, Signaled).(stopping := true)));
  }

  lemma BreachWrites(cfg: Config, t: Tree)
    ensures CleanWrites(Breach(cfg, t).trace) == CleanWrites(t.trace)
  {
    LogWrites(t, InputClosed);
    StopWrites(CloseInput(t));
  }

  lemma CancelWrites(t: Tree, spared: bool)
    ensures CleanWrites(CancelTree(t, spared).trace) == CleanWrites(t.trace)
  {
    var c := Log(t, CanceledBy(spared));
    LogWrites(t, CanceledBy(spared));
    LogWrites(c, InputClosed);
    StopWrites(c);
  }

  lemma DrainWrites(t: Tree)
    ensures CleanWrites(DrainTree(t).trace) == CleanWrites(t.trace)
  {
    var d := Log(t, DrainFired).(draining := false);
    LogWrites(t, DrainFired);
    KillWrites(d);
    LogWrites(KillGroup(d), OutputClosed);
  }

  lemma ReapWrites(t: Tree, exit: Exit)
    ensures CleanWrites(ReapTree(t, exit).trace) == CleanWrites(t.trace)
  {
    LogWrites(t, Reaped(exit));
    KillWrites(Log(t, Reaped(exit)).(running := false));
  }

  // ----- each step keeps the book and the evidence in agreement

  lemma HeardSnoc(heard: seq<Judged>, j: Judged)
    ensures CleanRulings(heard + [j]) <==> CleanRulings(heard) && CleanRuling(j)
    ensures LastCompleted(heard + [j]) == if j.record.phase == "completed" then Some(j.record) else LastCompleted(heard)
  {
    var h := heard + [j];
    assert h[..|h| - 1] == heard && h[|h| - 1] == j;
    assert forall x :: x in h <==> x in heard || x == j;
  }

  lemma RuleReflects(cfg: Config, b: Book, clean: bool, last: Option<Record>, record: Record)
    requires Reflects(b, clean, last)
    ensures var v := VerdictOn(cfg, b, record);
            Reflects(Rule(cfg, b, record), clean && v.valid && v.failure.None?,
                     if record.phase == "completed" then Some(record) else last)
  {
  }

  lemma RuledRun(cfg: Config, s: State, clean: bool, record: Record)
    requires ReflectsRun(s, clean)
    ensures ReflectsRun(State(Rule(cfg, s.book, record), s.tree), clean)
  {
    RuleReflects(cfg, s.book, Evidence(s, clean), LastCompleted(s.book.heard), record);
    var j := Judged(record, MomentOf(s.book), VerdictOn(cfg, s.book, record));
    HeardSnoc(s.book.heard, j);
    assert Rule(cfg, s.book, record).heard == s.book.heard + [j];
  }

  lemma CancelReflects(cfg: Config, s: State, clean: bool, spare: bool)
    requires ReflectsRun(s, clean)
    ensures ReflectsRun(CancelRun(cfg, s, spare), false)
  {
    CancelWrites(s.tree, !cfg.stopOnBreach && spare);
  }

  lemma RespondReflects(cfg: Config, s: State, clean: bool, record: Record, verdict: Verdict, write: WriteResult)
    requires ReflectsRun(s, clean)
    ensures ReflectsRun(Respond(cfg, s, record, verdict, write), clean)
  {
    var found := WriteFound(s.tree, write);
    var w := Log(s.tree, Wrote(record, found));
    LogWrites(s.tree, InputClosed);
    BreachWrites(cfg, s.tree);
    LogWrites(s.tree, Wrote(record, found));
    LogWrites(w, Acknowledged(record));
    BreachWrites(cfg, w);
  }

  lemma ReceiveReflects(cfg: Config, s: State, clean: bool, record: Record, done: bool, spare: bool, write: WriteResult)
    requires ReflectsRun(s, clean)
    ensures ReflectsRun(ReceiveRecord(cfg, s, record, done, spare, write), clean && !done)
  {
    RuledRun(cfg, s, clean, record);
    var ruled := State(Rule(cfg, s.book, record), s.tree);
    CancelReflects(cfg, ruled, clean, spare);
    var c := if done then CancelRun(cfg, ruled, spare) else ruled;
    RespondReflects(cfg, c, clean && !done, record, VerdictOn(cfg, s.book, record), write);
  }

  lemma StepReflects(cfg: Config, s: State, clean: bool, e: Event)
    requires ReflectsRun(s, clean)
    ensures ReflectsRun(Step(cfg, s, e), clean && CleanEvent(e))
  {
    match e {
      case Cancel(spare) => CancelReflects(cfg, s, clean, spare);
      case Drain => DrainWrites(s.tree);
      case Reap(exit) => ReapWrites(s.tree, exit);
      case StreamEnd(err) => BreachWrites(cfg, s.tree.(streaming := false));
      case Receive(record, done, spare, write) => ReceiveReflects(cfg, s, clean, record, done, spare, write);
    }
  }

  lemma EventsSnoc(front: seq<Event>, e: Event)
    ensures CleanEvents(front + [e]) <==> CleanEvents(front) && CleanEvent(e)
  {
    assert forall x :: x in front + [e] <==> x in front || x == e;
    assert e in front + [e];
  }

  lemma {:induction false} RunReflects(cfg: Config, events: seq<Event>)
    ensures ReflectsRun(Run(cfg, events), CleanEvents(events))
  {
    if events != [] {
      var front, e := events[..|events| - 1], events[|events| - 1];
      assert events == front + [e];
      RunReflects(cfg, front);
      EventsSnoc(front, e);
      StepReflects(cfg, Run(cfg, front), CleanEvents(front), e);
    }
  }

  // ----- both channels were consumed

  lemma StepChannels(cfg: Config, s: State, e: Event)
    ensures Step(cfg, s, e).tree.running == (s.tree.running && !e.Reap?)
    ensures Step(cfg, s, e).tree.streaming == (s.tree.streaming && !e.StreamEnd?)
  {
    match e {
      case Cancel(spare) => assert Step(cfg, s, e) == CancelRun(cfg, s, spare);
      case Drain => assert Step(cfg, s, e).tree == DrainTree(s.tree);
      case Reap(exit) => assert Step(cfg, s, e).tree == ReapTree(s.tree, exit);
      case StreamEnd(err) => assert Step(cfg, s, e) == ReadEnded(cfg, s, err);
      case Receive(record, done, spare, write) =>
        assert Step(cfg, s, e) == ReceiveRecord(cfg, s, record, done, spare, write);
    }
  }

  lemma {:induction false} FinishedChannels(cfg: Config, events: seq<Event>)
    ensures Run(cfg, events).tree.running <==> forall e | e in events :: !e.Reap?
    ensures Run(cfg, events).tree.streaming <==> forall e | e in events :: !e.StreamEnd?
  {
    if events != [] {
      var front, e := events[..|events| - 1], events[|events| - 1];
      FinishedChannels(cfg, front);
      StepChannels(cfg, Run(cfg, front), e);
      assert events == front + [e];
    }
  }

  // ----- every record was judged

  lemma AnswerHears(cfg: Config, s: State, record: Record, verdict: Verdict, done: bool, spare: bool,
      write: WriteResult)
    ensures Respond(cfg, if done then CancelRun(cfg, s, spare) else s, record, verdict, write).book.heard ==
      s.book.heard
  {
    RespondHears(cfg, if done then CancelRun(cfg, s, spare) else s, record, verdict, write);
  }

  lemma RespondHears(cfg: Config, s: State, record: Record, verdict: Verdict, write: WriteResult)
    ensures Respond(cfg, s, record, verdict, write).book.heard == s.book.heard
  {
  }

  lemma RuleHears(cfg: Config, b: Book, record: Record)
    ensures Rule(cfg, b, record).heard == b.heard + [Judged(record, MomentOf(b), VerdictOn(cfg, b, record))]
  {
  }

  lemma ReceiveHears(cfg: Config, s: State, record: Record, done: bool, spare: bool, write: WriteResult)
    ensures ReceiveRecord(cfg, s, record, done, spare, write).book.heard
         == s.book.heard + [Judged(record, MomentOf(s.book), VerdictOn(cfg, s.book, record))]
  {
    RuleHears(cfg, s.book, record);
    AnswerHears(cfg, State(Rule(cfg, s.book, record), s.tree), record, VerdictOn(cfg, s.book, record), done, spare,
      write);
  }

  lemma StepHears(cfg: Config, s: State, e: Event)
    ensures Step(cfg, s, e).book.heard ==
      if e.Receive? then s.book.heard + [Judged(e.record, MomentOf(s.book), VerdictOn(cfg, s.book, e.record))]
        else s.book.heard
  {
    match e {
      case Receive(record, done, spare, write) => ReceiveHears(cfg, s, record, done, spare, write);
      case Cancel(spare) => assert Step(cfg, s, e) == CancelRun(cfg, s, spare);
      case Drain => assert Step(cfg, s, e) == Drained(s);
      case Reap(exit) => assert Step(cfg, s, e) == ReapedWith(s, exit);
      case StreamEnd(err) => assert Step(cfg, s, e) == ReadEnded(cfg, s, err);
    }
  }

  /** The judge heard exactly the records that were read. */
  lemma {:induction false} HeardIsReceived(cfg: Config, events: seq<Event>)
    ensures Records(Run(cfg, events).book.heard) == Received(events)
  {
    if events != [] {
      HeardIsReceived(cfg, events[..|events| - 1]);
      StepHears(cfg, Run(cfg, events[..|events| - 1]), events[|events| - 1]);
    }
  }

  /**
   Nothing went wrong: the adapter exited zero with its output uncut, the stream
   ended without error, the run was never canceled, no drain fired, each of the
   records read was judged valid and named no failure, every acknowledgement
   written was delivered, and a completed record came.
   */
  predicate Proven(events: seq<Event>, heard: seq<Judged>, trace: seq<Mark>) {
    && Reap(Zero) in events && StreamEnd(Clean) in events && CleanEvents(events)
    && Records(heard) == Received(events) && CleanRulings(heard)
    && CleanWrites(trace)
    && LastCompleted(heard).Some?
  }

  function EndingWith(r: Record): Ending {
    Ending(Completed, None, r.outcome, r.evidence, r.warnings)
  }

  /** A finished run ends Completed exactly when nothing went wrong, and then carries the last completed record. */
  lemma CompletedIsProof(cfg: Config, events: seq<Event>)
    requires Finished(Run(cfg, events))
    ensures var s := Run(cfg, events); Outcome(s.book).kind == Completed <==> Proven(events, s.book.heard, s.tree.trace)
    ensures var s := Run(cfg, events);
            Outcome(s.book).kind == Completed ==> Outcome(s.book) == EndingWith(LastCompleted(s.book.heard).value)
  {
    RunReflects(cfg, events);
    HeardIsReceived(cfg, events);
    FinishedChannels(cfg, events);
    var x :| x in events && x.Reap?;
    var y :| y in events && y.StreamEnd?;
    assert CleanEvents(events) ==> CleanEvent(x) && CleanEvent(y);
  }
}
