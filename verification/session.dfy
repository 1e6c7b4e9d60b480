/** The session object: the handlers as they update its fields, each proved against the state machine. */
module SupervisorSession {
  import opened Common
  import opened Supervisor
  import opened SupervisorProof
  import opened SupervisorDiscipline
  import opened SupervisorFinal
  import opened SupervisorEndings
  import opened SupervisorAnswers

  class Session {
    const stopOnBreach: bool
    const judge: Judge
    var ended: bool
    var ending: Ending
    var exited: bool
    var undelivered: bool
    var canceled: bool
    var completed: bool
    var result: Record
    var heard: seq<Judged>
    var stopping: bool
    var groupKilled: bool
    var streaming: bool
    var running: bool
    var armed: bool
    var draining: bool
    var inputOpen: bool
    var outputOpen: bool
    ghost var trace: seq<Mark>

    function Cfg(): Config {
      Config(stopOnBreach, judge)
    }

    ghost function BookView(): Book
      reads this`ended, this`ending, this`exited, this`undelivered, this`canceled,
            this`completed, this`result, this`heard
    {
      Book(ended, ending, exited, undelivered, canceled, completed, result, heard)
    }

    ghost function TreeView(): Tree
      reads this`stopping, this`groupKilled, this`streaming, this`running, this`armed, this`draining,
            this`inputOpen, this`outputOpen, this`trace
    {
      Tree(stopping, groupKilled, streaming, running, armed, draining, inputOpen, outputOpen, trace)
    }

    ghost function View(): State
      reads this
    {
      State(BookView(), TreeView())
    }

    constructor (stopOnBreach: bool, judge: Judge)
      ensures View() == START
      ensures this.stopOnBreach == stopOnBreach && this.judge == judge
    {
      this.stopOnBreach, this.judge := stopOnBreach, judge;
      ended, ending, exited, undelivered, canceled := false, Plain(NoResult, None), false, false, false;
      completed, result, heard := false, NO_RECORD, [];
      stopping, groupKilled, streaming, running := false, false, true, true;
      armed, draining, inputOpen, outputOpen, trace := false, false, true, true, [];
    }

    method EndWith(kind: Kind, failure: Option<string>)
      modifies this`ended, this`ending
      ensures TreeView() == old(TreeView())
      ensures BookView() == End(old(BookView()), kind, failure)
    {
      ended, ending := true, Plain(kind, failure);
    }

    method ArmDrain()
      modifies this`armed, this`draining
      ensures BookView() == old(BookView())
      ensures TreeView() == Arm(old(TreeView()))
    {
      if !armed {
        armed, draining := true, true;
      }
    }

    method CloseIn()
      modifies this`inputOpen, this`trace
      ensures BookView() == old(BookView())
      ensures TreeView() == CloseInput(old(TreeView()))
    {
      inputOpen, trace := false, trace + [InputClosed];
    }

    method Kill()
      modifies this`groupKilled, this`trace
      ensures BookView() == old(BookView())
      ensures TreeView() == KillGroup(old(TreeView()))
    {
      if stopping && !groupKilled {
        groupKilled, trace := true, trace + [Killed];
      }
    }

    method StopTree()
      modifies this
      ensures BookView() == old(BookView())
      ensures TreeView() == Stop(old(TreeView()))
    {
      CloseIn();
      if stopping {
        return;
      }
      stopping, trace := true, trace + [Signaled];
      ArmDrain();
      if !running {
        Kill();
      }
    }

    method BreachProtocol()
      modifies this
      ensures BookView() == old(BookView())
      ensures TreeView() == Breach(Cfg(), old(TreeView()))
    {
      CloseIn();
      if stopOnBreach {
        StopTree();
      }
    }

    /** Cancellation as the processes and channels see it. */
    method CancelChannels(spare: bool)
      modifies this
      ensures BookView() == old(BookView())
      ensures TreeView() == CancelTree(old(TreeView()), !stopOnBreach && spare)
    {
      Mark(CanceledBy(!stopOnBreach && spare));
      if stopOnBreach || !spare {
        StopTree();
      } else {
        CloseIn();
        ArmDrain();
      }
    }

    method MarkCanceled()
      modifies this`canceled
      ensures BookView() == old(BookView()).(canceled := true)
      ensures TreeView() == old(TreeView())
    {
      canceled := true;
    }

    method CancelNow(spare: bool)
      modifies this
      ensures View() == CancelRun(Cfg(), old(View()), spare)
    {
      if canceled {
        return;
      }
      MarkCanceled();
      CancelChannels(spare);
    }

    method FireDrain()
      modifies this`draining, this`trace
      ensures BookView() == old(BookView())
      ensures TreeView() == Log(old(TreeView()), DrainFired).(draining := false)
    {
      draining, trace := false, trace + [DrainFired];
    }

    method CloseOut()
      modifies this`outputOpen, this`trace
      ensures BookView() == old(BookView())
      ensures TreeView() == Log(old(TreeView()), OutputClosed).(outputOpen := false)
    {
      outputOpen, trace := false, trace + [OutputClosed];
    }

    /** The drain as the processes and channels see it. */
    method DrainChannels()
      modifies this
      ensures BookView() == old(BookView())
      ensures TreeView() == DrainTree(old(TreeView()))
    {
      FireDrain();
      Kill();
      CloseOut();
    }

    method DrainPassed()
      modifies this
      ensures View() == Drained(old(View()))
    {
      DrainChannels();
      if !ended {
        EndWith(Retained, None);
      }
    }

    /** The reap as the processes and channels see it. */
    method ReapChannels(exit: Exit)
      modifies this
      ensures BookView() == old(BookView())
      ensures TreeView() == ReapTree(old(TreeView()), exit)
    {
      running, trace := false, trace + [Reaped(exit)];
      Kill();
      ArmDrain();
    }

    method AdapterReaped(exit: Exit)
      modifies this
      ensures View() == ReapedWith(old(View()), exit)
    {
      ReapChannels(exit);
      if !ended {
        match exit {
          case Zero =>
          case Cut => EndWith(RetainedOutput, None);
          case Failed =>
            EndWith(FailedExit, None);
            exited := true;
        }
      }
    }

    /** The stream's end as the protocol sees it. */
    method ReadFailed(err: ReadError)
      modifies this`ended, this`ending, this`exited
      ensures TreeView() == old(TreeView())
      ensures BookView() == ReadBook(old(BookView()), err)
    {
      if err == Clean {
        return;
      }
      if !ended || (exited && err != Closed) {
        EndWith(Incomplete, None);
        exited := false;
      }
    }

    /** The stream's end as the processes and channels see it. */
    method ReadChannels(err: ReadError)
      modifies this
      ensures BookView() == old(BookView())
      ensures TreeView() == ReadTree(Cfg(), old(TreeView()), err)
    {
      streaming := false;
      if err != Clean {
        BreachProtocol();
      }
    }

    method StreamEnded(err: ReadError)
      modifies this
      ensures View() == ReadEnded(Cfg(), old(View()), err)
    {
      ReadFailed(err);
      ReadChannels(err);
    }

    method JudgeRecord(record: Record) returns (verdict: Verdict)
      modifies this`ended, this`ending, this`exited, this`completed, this`result, this`heard
      ensures verdict == VerdictOn(Cfg(), old(BookView()), record)
      ensures BookView() == Rule(Cfg(), old(BookView()), record)
    {
      var moment := Moment((!ended || exited) && !canceled, exited || undelivered);
      verdict := judge(heard, record, moment);
      heard := heard + [Judged(record, moment, verdict)];
      if !verdict.valid {
        if !ended || exited {
          EndWith(Invalid, None);
        }
        exited := false;
      } else if verdict.failure.Some? {
        EndWith(Named, verdict.failure);
        exited := false;
      } else if record.phase == "completed" {
        completed := true;
        if !exited {
          result := record;
        }
      }
    }

    method Mark(m: Mark)
      modifies this`trace
      ensures BookView() == old(BookView())
      ensures TreeView() == Log(old(TreeView()), m)
    {
      trace := trace + [m];
    }

    method Undeliver()
      modifies this
      ensures BookView() == old(BookView()).(undelivered := true)
      ensures TreeView() == Breach(Cfg(), old(TreeView()))
    {
      undelivered := true;
      BreachProtocol();
    }

    method WriteProceed(record: Record, write: WriteResult)
      modifies this
      ensures View() == Acknowledge(Cfg(), old(View()), record, write)
    {
      var found := if inputOpen then write else OtherFault;
      Mark(Wrote(record, found));
      match found {
        case Delivered => Mark(Acknowledged(record));
        case NoReader => Undeliver();
        case OtherFault => EndWith(Uncertain, None);
      }
    }

    method AnswerRecord(record: Record, verdict: Verdict, write: WriteResult)
      modifies this
      ensures View() == Respond(Cfg(), old(View()), record, verdict, write)
    {
      if verdict.valid && record.phase == "refused" {
        CloseIn();
        return;
      }
      if ended || canceled || undelivered {
        BreachProtocol();
        return;
      }
      if verdict.acknowledge {
        WriteProceed(record, write);
      }
    }

    method RecordReceived(record: Record, done: bool, spare: bool, write: WriteResult)
      modifies this
      ensures View() == ReceiveRecord(Cfg(), old(View()), record, done, spare, write)
    {
      var verdict := JudgeRecord(record);
      assert View() == State(Rule(Cfg(), old(BookView()), record), old(TreeView()));
      if done {
        CancelNow(spare);
      }
      AnswerRecord(record, verdict, write);
    }

    method Handle(e: Event)
      modifies this
      ensures View() == Step(Cfg(), old(View()), e)
    {
      match e {
        case Cancel(spare) => CancelNow(spare);
        case Drain => DrainPassed();
        case Reap(exit) => AdapterReaped(exit);
        case StreamEnd(err) => StreamEnded(err);
        case Receive(record, done, spare, write) => RecordReceived(record, done, spare, write);
      }
    }

    method Concluded() returns (found: Ending)
      ensures found == Outcome(BookView())
    {
      if canceled {
        return Plain(Canceled, None);
      }
      if ended {
        return ending;
      }
      if !completed || undelivered {
        return Plain(NoResult, None);
      }
      return Ending(Completed, None, result.outcome, result.evidence, result.warnings);
    }

    /**
     The select loop, driven by the order in which the channels deliver. The
     schedule is legal for the channels and lasts until both are consumed.
     */
    method Supervise(schedule: seq<Event>) returns (found: Ending)
      requires View() == START
      requires Legal(Cfg(), schedule) && Finished(Run(Cfg(), schedule))
      modifies this
      ensures View() == Run(Cfg(), schedule) && found == Outcome(BookView())
      ensures found.kind == Completed <==> Proven(schedule, heard, trace)
      ensures found.kind == Completed ==> found == EndingWith(LastCompleted(heard).value)
      ensures forall k: nat | k < |trace| :: Ordered(trace, k) && Answered(trace, k)
      ensures |schedule| <= |Received(schedule)| + 4
      ensures NamesWhileOpen(judge) ==>
        var readings := Readings(Cfg(), schedule);
        KindsOf(readings, found.kind) && Explained(readings, found) && WritesIn(trace) == Due(readings)
    {
      var next := 0;
      while streaming || running
        invariant next <= |schedule|
        invariant View() == Run(Cfg(), schedule[..next])
        decreases |schedule| - next
      {
        RunPrefix(Cfg(), schedule, next);
        Handle(schedule[next]);
        next := next + 1;
      }
      FinishedIsLast(Cfg(), schedule, next);
      found := Concluded();
      CompletedIsProof(Cfg(), schedule);
      Disciplined(Cfg(), schedule);
      Accounted(Cfg(), schedule);
    }
  }

  lemma Disciplined(cfg: Config, events: seq<Event>)
    requires Legal(cfg, events)
    ensures var trace := Run(cfg, events).tree.trace;
      forall k: nat | k < |trace| :: Ordered(trace, k) && Answered(trace, k)
    ensures |events| <= |Received(events)| + 4
  {
    var trace := Run(cfg, events).tree.trace;
    forall k: nat | k < |trace| ensures Ordered(trace, k) && Answered(trace, k) {
      StopAndAcknowledgeDiscipline(cfg, events, k);
    }
    BoundedRun(cfg, events);
  }

  lemma Accounted(cfg: Config, events: seq<Event>)
    ensures NamesWhileOpen(cfg.judge) ==>
      var s, readings := Run(cfg, events), Readings(cfg, events);
      && KindsOf(readings, Outcome(s.book).kind) && Explained(readings, Outcome(s.book))
      && WritesIn(s.tree.trace) == Due(readings)
  {
    if NamesWhileOpen(cfg.judge) {
      KindsExactly(cfg, events);
      OutcomeIsExplained(cfg, events);
      WritesExactly(cfg, events);
    }
  }

  lemma RunPrefix(cfg: Config, events: seq<Event>, n: nat)
    requires n <= |events| && Finished(Run(cfg, events)) && !Finished(Run(cfg, events[..n]))
    ensures n < |events| && Run(cfg, events[..n + 1]) == Step(cfg, Run(cfg, events[..n]), events[n])
  {
    assert events[..|events|] == events;
    if n < |events| {
      RunSnoc(cfg, events[..n], events[n]);
      assert events[..n + 1] == events[..n] + [events[n]];
    }
  }

  /** A legal run handles nothing once both channels are consumed. */
  lemma {:induction false} FinishedIsLast(cfg: Config, events: seq<Event>, n: nat)
    requires Legal(cfg, events) && n <= |events| && Finished(Run(cfg, events[..n]))
    ensures n == |events| && events[..n] == events
  {
    if n < |events| - 1 {
      var front := events[..|events| - 1];
      assert front[..n] == events[..n];
      FinishedIsLast(cfg, front, n);
    }
  }
}
