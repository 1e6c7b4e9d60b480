/** How a run treats the adapter's processes and channels, over every legal run. */
module SupervisorDiscipline {
  import opened Common
  import opened Supervisor

  predicate SawReap(trace: seq<Mark>) {
    Reaped(Zero) in trace || Reaped(Cut) in trace || Reaped(Failed) in trace
  }

  predicate SawCancel(trace: seq<Mark>) {
    CanceledBy(true) in trace || CanceledBy(false) in trace
  }

  /** What a trace amounts to: which marks it holds and whether each was allowed. */
  datatype Past = Past(
    signaled: bool, killed: bool, closed: bool, reaped: bool, drained: bool,
    spared: bool, canceled: bool, owes: Option<Record>, allowed: bool)

  function Advance(p: Past, m: Mark): Past {
    var settled := p.owes.None? || m == Acknowledged(p.owes.value);
    var q := p.(owes := None);
    match m
    case Signaled => q.(signaled := true, allowed := p.allowed && settled && !p.signaled && !p.spared)
    case Killed => q.(killed := true, allowed := p.allowed && settled && !p.killed && p.signaled && !p.spared
      && (p.reaped || p.drained))
    case InputClosed => q.(closed := true, allowed := p.allowed && settled)
    case OutputClosed => q.(allowed := p.allowed && settled)
    case Wrote(r, w) => q.(owes := if w == Delivered then Some(r) else None, allowed := p.allowed && settled
      && !p.canceled && (w == OtherFault || !p.closed))
    case Acknowledged(r) => q.(allowed := p.allowed && p.owes == Some(r) && !p.closed)
    case Reaped(_) => q.(reaped := true, allowed := p.allowed && settled && !p.reaped)
    case DrainFired => q.(drained := true, allowed := p.allowed && settled && !p.drained)
    case CanceledBy(spared) => q.(canceled := true, spared := spared || p.spared, allowed := p.allowed && settled
      && !p.canceled && (spared ==> !p.signaled && !p.killed))
  }

  const NOTHING := Past(false, false, false, false, false, false, false, None, true)

  function Scan(trace: seq<Mark>): Past {
    if trace == [] then NOTHING else Advance(Scan(trace[..|trace| - 1]), trace[|trace| - 1])
  }

  /** The flags of the tree say what its trace says, and the trace was allowed. */
  predicate Sound(t: Tree) {
    var p := Scan(t.trace);
    && p.allowed
    && p.owes.None?
    && t.stopping == p.signaled
    && t.groupKilled == p.killed
    && t.inputOpen == !p.closed
    && t.running == !p.reaped
    && p.drained == (t.armed && !t.draining)
    && (p.killed ==> p.signaled)
    && (p.spared ==> p.canceled && !p.signaled)
    && (!t.running || t.stopping ==> t.armed)
    && (t.draining ==> t.armed)
  }

  predicate SoundRun(cfg: Config, s: State) {
    var p := Scan(s.tree.trace);
    && Sound(s.tree)
    && s.book.canceled == p.canceled
    && (p.spared ==> !cfg.stopOnBreach)
    && (p.signaled && !cfg.stopOnBreach ==> p.canceled)
    && (p.drained ==> !s.tree.outputOpen)
  }

  lemma ScanLog(t: Tree, m: Mark)
    ensures Scan(Log(t, m).trace) == Advance(Scan(t.trace), m)
  {
    assert (t.trace + [m])[..|t.trace|] == t.trace;
  }

  lemma CloseInputKeeps(t: Tree)
    requires Sound(t)
    ensures Sound(CloseInput(t))
    ensures Scan(CloseInput(t).trace) == Scan(t.trace).(closed := true)
  {
    ScanLog(t, InputClosed);
  }

  lemma KillKeeps(t: Tree)
    requires Sound(t) && (Scan(t.trace).reaped || Scan(t.trace).drained)
    ensures Sound(KillGroup(t))
    ensures Scan(KillGroup(t).trace) == Scan(t.trace).(killed := t.stopping)
  {
    ScanLog(t, Killed);
  }

  lemma StopKeeps(t: Tree)
    requires Sound(t) && !Scan(t.trace).spared
    ensures Sound(Stop(t)) && Stop(t).stopping
    ensures Scan(Stop(t).trace).canceled == Scan(t.trace).canceled && !Scan(Stop(t).trace).spared
    ensures Scan(Stop(t).trace).drained == Scan(t.trace).drained
  {
    var c := CloseInput(t);
    CloseInputKeeps(t);
    if !c.stopping {
      ScanLog(c, Signaled);
      var g := Arm(Log(c, Signaled).(stopping := true));
      assert Sound(g);
      if !g.running { KillKeeps(g); }
    }
  }

  lemma BreachKeeps(cfg: Config, t: Tree)
    requires Sound(t) && (cfg.stopOnBreach ==> !Scan(t.trace).spared)
    ensures Sound(Breach(cfg, t))
    ensures Scan(Breach(cfg, t).trace).canceled == Scan(t.trace).canceled
    ensures Scan(Breach(cfg, t).trace).spared == Scan(t.trace).spared
    ensures Scan(Breach(cfg, t).trace).drained == Scan(t.trace).drained
    ensures !cfg.stopOnBreach ==> Scan(Breach(cfg, t).trace).signaled == Scan(t.trace).signaled
  {
    CloseInputKeeps(t);
    if cfg.stopOnBreach { StopKeeps(CloseInput(t)); }
  }

  lemma CancelTreeKeeps(t: Tree, spared: bool)
    requires Sound(t) && !Scan(t.trace).canceled && (spared ==> !t.stopping)
    ensures var u := CancelTree(t, spared);
            Sound(u) && Scan(u.trace).canceled && Scan(u.trace).spared == spared
            && Scan(u.trace).drained == Scan(t.trace).drained
  {
    var c := Log(t, CanceledBy(spared));
    ScanLog(t, CanceledBy(spared));
    assert Sound(c);
    if spared { CloseInputKeeps(c); } else { StopKeeps(c); }
  }

  lemma CancelKeeps(cfg: Config, s: State, spare: bool)
    requires SoundRun(cfg, s)
    ensures SoundRun(cfg, CancelRun(cfg, s, spare))
  {
    if !s.book.canceled { CancelTreeKeeps(s.tree, !cfg.stopOnBreach && spare); }
  }

  lemma CloseOutputKeeps(t: Tree)
    requires Sound(t)
    ensures Sound(Log(t, OutputClosed).(outputOpen := false))
    ensures Scan(Log(t, OutputClosed).trace) == Scan(t.trace)
  {
    ScanLog(t, OutputClosed);
  }

  lemma DrainTreeKeeps(t: Tree)
    requires Sound(t) && t.draining
    ensures Sound(DrainTree(t))
    ensures var p, q := Scan(t.trace), Scan(DrainTree(t).trace);
            q.canceled == p.canceled && q.spared == p.spared && q.signaled == p.signaled
  {
    var d := Log(t, DrainFired).(draining := false);
    ScanLog(t, DrainFired);
    assert Sound(d);
    KillKeeps(d);
    CloseOutputKeeps(KillGroup(d));
  }

  lemma ReapTreeKeeps(t: Tree, exit: Exit)
    requires Sound(t) && t.running
    ensures Sound(ReapTree(t, exit))
    ensures var p, q := Scan(t.trace), Scan(ReapTree(t, exit).trace);
            q.canceled == p.canceled && q.spared == p.spared && q.signaled == p.signaled && q.drained == p.drained
  {
    var r := Arm(Log(t, Reaped(exit)).(running := false));
    ScanLog(t, Reaped(exit));
    assert Sound(r);
    KillKeeps(r);
    assert ReapTree(t, exit) == KillGroup(r);
  }

  lemma ReadEndedKeeps(cfg: Config, s: State, err: ReadError)
    requires SoundRun(cfg, s)
    ensures SoundRun(cfg, ReadEnded(cfg, s, err))
  {
    var t := s.tree.(streaming := false);
    assert Sound(t);
    BreachKeeps(cfg, t);
  }

  lemma AcknowledgeKeeps(cfg: Config, s: State, record: Record, write: WriteResult)
    requires SoundRun(cfg, s) && !s.book.canceled
    ensures SoundRun(cfg, Acknowledge(cfg, s, record, write))
  {
    var found := WriteFound(s.tree, write);
    var w := Log(s.tree, Wrote(record, found));
    ScanLog(s.tree, Wrote(record, found));
    match found {
      case Delivered => ScanLog(w, Acknowledged(record));
      case NoReader => BreachKeeps(cfg, w);
      case OtherFault =>
    }
  }

  lemma RespondKeeps(cfg: Config, s: State, record: Record, verdict: Verdict, write: WriteResult)
    requires SoundRun(cfg, s)
    ensures SoundRun(cfg, Respond(cfg, s, record, verdict, write))
  {
    if verdict.valid && record.phase == "refused" {
      CloseInputKeeps(s.tree);
    } else if s.book.ended || s.book.canceled || s.book.undelivered {
      BreachKeeps(cfg, s.tree);
    } else if verdict.acknowledge {
      AcknowledgeKeeps(cfg, s, record, write);
    }
  }

  lemma ReceiveKeeps(cfg: Config, s: State, record: Record, done: bool, spare: bool, write: WriteResult)
    requires SoundRun(cfg, s)
    ensures SoundRun(cfg, ReceiveRecord(cfg, s, record, done, spare, write))
  {
    var ruled := State(Rule(cfg, s.book, record), s.tree);
    assert SoundRun(cfg, ruled);
    if done { CancelKeeps(cfg, ruled, spare); }
    var c := if done then CancelRun(cfg, ruled, spare) else ruled;
    RespondKeeps(cfg, c, record, VerdictOn(cfg, s.book, record), write);
  }

  lemma StepKeeps(cfg: Config, s: State, e: Event)
    requires SoundRun(cfg, s) && Enabled(s, e)
    ensures SoundRun(cfg, Step(cfg, s, e))
  {
    match e {
      case Cancel(spare) => CancelKeeps(cfg, s, spare);
      case Drain => DrainTreeKeeps(s.tree);
      case Reap(exit) => ReapTreeKeeps(s.tree, exit);
      case StreamEnd(err) => ReadEndedKeeps(cfg, s, err);
      case Receive(record, done, spare, write) => ReceiveKeeps(cfg, s, record, done, spare, write);
    }
  }

  lemma {:induction false} RunIsSound(cfg: Config, events: seq<Event>)
    requires Legal(cfg, events)
    ensures SoundRun(cfg, Run(cfg, events))
  {
    if events != [] {
      var front := events[..|events| - 1];
      RunIsSound(cfg, front);
      StepKeeps(cfg, Run(cfg, front), events[|events| - 1]);
    }
  }

  /** The summary says exactly which marks the trace holds. */
  ghost predicate Sees(p: Past, trace: seq<Mark>) {
    && p.signaled == (Signaled in trace) && p.killed == (Killed in trace) && p.closed == (InputClosed in trace)
    && p.reaped == SawReap(trace) && p.drained == (DrainFired in trace)
    && p.spared == (CanceledBy(true) in trace) && p.canceled == SawCancel(trace)
  }

  lemma ScanOwes(trace: seq<Mark>)
    ensures Scan(trace).owes.Some? ==> trace != [] && trace[|trace| - 1] == Wrote(Scan(trace).owes.value, Delivered)
  {
  }

  lemma InSnoc(front: seq<Mark>, m: Mark, x: Mark)
    ensures x in front + [m] <==> x in front || x == m
  {
  }

  lemma SawSnoc(front: seq<Mark>, m: Mark)
    ensures SawReap(front + [m]) <==> SawReap(front) || m.Reaped?
    ensures SawCancel(front + [m]) <==> SawCancel(front) || m.CanceledBy?
  {
    InSnoc(front, m, Reaped(Zero));
    InSnoc(front, m, Reaped(Cut));
    InSnoc(front, m, Reaped(Failed));
    InSnoc(front, m, CanceledBy(true));
    InSnoc(front, m, CanceledBy(false));
    if m.Reaped? { assert m.exit == Zero || m.exit == Cut || m.exit == Failed; }
    if m.CanceledBy? { assert m.spared == true || m.spared == false; }
  }

  lemma SeesAdvance(p: Past, front: seq<Mark>, m: Mark)
    requires Sees(p, front)
    ensures Sees(Advance(p, m), front + [m])
  {
    SawSnoc(front, m);
    InSnoc(front, m, Signaled);
    InSnoc(front, m, Killed);
    InSnoc(front, m, InputClosed);
    InSnoc(front, m, DrainFired);
    InSnoc(front, m, CanceledBy(true));
  }

  lemma {:induction false} ScanSees(trace: seq<Mark>)
    ensures Sees(Scan(trace), trace)
  {
    if trace != [] {
      var front, m := trace[..|trace| - 1], trace[|trace| - 1];
      ScanSees(front);
      SeesAdvance(Scan(front), front, m);
      assert trace == front + [m];
    }
  }

  lemma AllowedBefore(p: Past, m: Mark)
    ensures Advance(p, m).allowed ==> p.allowed
  {
  }

  lemma {:induction false} AllowedAt(trace: seq<Mark>, k: nat)
    requires Scan(trace).allowed && k < |trace|
    ensures Advance(Scan(trace[..k]), trace[k]).allowed
  {
    if k < |trace| - 1 {
      AllowedBefore(Scan(trace[..|trace| - 1]), trace[|trace| - 1]);
      AllowedAt(trace[..|trace| - 1], k);
      assert trace[..|trace| - 1][..k] == trace[..k];
    }
  }

  /** What an allowed mark says of everything before it. */
  ghost predicate Ordered(trace: seq<Mark>, k: nat)
    requires k < |trace|
  {
    var past, m := trace[..k], trace[k];
    && (m == Signaled ==> Signaled !in past && CanceledBy(true) !in trace)
    && (m == Killed ==> Killed !in past && Signaled in past && CanceledBy(true) !in trace)
    && (m == Killed ==> SawReap(past) || DrainFired in past)
    && (m.Wrote? ==> !SawCancel(past))
    && (m.Acknowledged? ==> k > 0 && trace[k - 1] == Wrote(m.record, Delivered) && InputClosed !in past)
  }

  /** A delivered write is followed at once by its acknowledgement. */
  ghost predicate Answered(trace: seq<Mark>, k: nat)
    requires k < |trace|
  {
    trace[k].Wrote? && trace[k].write == Delivered ==> k + 1 < |trace| && trace[k + 1] == Acknowledged(trace[k].record)
  }

  lemma AllowedIsOrdered(trace: seq<Mark>, k: nat)
    requires k < |trace| && Scan(trace).allowed
    requires Scan(trace).spared ==> !Scan(trace).signaled && !Scan(trace).killed
    ensures Ordered(trace, k)
  {
    var past, m := trace[..k], trace[k];
    ScanSees(trace);
    ScanSees(past);
    AllowedAt(trace, k);
    assert m in trace;
    if m.Acknowledged? {
      ScanOwes(past);
      assert past[|past| - 1] == Wrote(m.record, Delivered);
    }
  }

  lemma OwesNext(p: Past, m: Mark)
    requires Advance(p, m).allowed && p.owes.Some?
    ensures m == Acknowledged(p.owes.value)
  {
  }

  lemma OwesAfter(trace: seq<Mark>, k: nat, r: Record)
    requires k < |trace| && trace[k] == Wrote(r, Delivered)
    ensures Scan(trace[..k + 1]).owes == Some(r)
  {
    assert trace[..k + 1][..k] == trace[..k];
  }

  lemma NextAnswers(trace: seq<Mark>, k: nat, r: Record)
    requires k + 1 < |trace| && Scan(trace).allowed && trace[k] == Wrote(r, Delivered)
    ensures trace[k + 1] == Acknowledged(r)
  {
    AllowedAt(trace, k + 1);
    OwesAfter(trace, k, r);
    OwesNext(Scan(trace[..k + 1]), trace[k + 1]);
  }

  lemma LastOwesNothing(trace: seq<Mark>, r: Record)
    requires trace != [] && Scan(trace).owes.None?
    ensures trace[|trace| - 1] != Wrote(r, Delivered)
  {
  }

  lemma AllowedIsAnswered(trace: seq<Mark>, k: nat)
    requires k < |trace| && Scan(trace).allowed && Scan(trace).owes.None?
    ensures Answered(trace, k)
  {
    if trace[k].Wrote? && trace[k].write == Delivered {
      LastOwesNothing(trace, trace[k].record);
      if k + 1 < |trace| {
        NextAnswers(trace, k, trace[k].record);
      }
    }
  }

  /**
   In every legal run: the adapter is signaled at most once and its group killed
   at most once, the kill only after the signal and after a reap or the drain;
   a spared cancellation is never joined by a signal or a kill; nothing is
   written after a cancellation; and the judge is told of an acknowledgement
   exactly for a write just delivered, never once the channel was closed.
   */
  lemma StopAndAcknowledgeDiscipline(cfg: Config, events: seq<Event>, k: nat)
    requires Legal(cfg, events) && k < |Run(cfg, events).tree.trace|
    ensures Ordered(Run(cfg, events).tree.trace, k) && Answered(Run(cfg, events).tree.trace, k)
  {
    RunIsSound(cfg, events);
    AllowedIsOrdered(Run(cfg, events).tree.trace, k);
    AllowedIsAnswered(Run(cfg, events).tree.trace, k);
  }

  /**
   Whenever the adapter is reaped while the stream is open, the drain is still
   to fire or has closed the output, so the stream cannot keep the run waiting.
   */
  lemma NeverStranded(cfg: Config, events: seq<Event>)
    requires Legal(cfg, events)
    requires var t := Run(cfg, events).tree; !t.running && t.streaming
    ensures var t := Run(cfg, events).tree; Enabled(Run(cfg, events), Drain) || !t.outputOpen
  {
    RunIsSound(cfg, events);
  }

  // ----- how many events a run handles

  function Spent(s: State): nat {
    (if s.tree.streaming then 0 else 1) + (if s.tree.running then 0 else 1) +
    (if s.book.canceled then 1 else 0) + (if Fired(s.tree) then 1 else 0)
  }

  predicate Fired(t: Tree) {
    t.armed && !t.draining
  }

  /** A drain that fired is never armed again. */
  lemma StopFiredOnce(t: Tree)
    ensures Fired(t) ==> Fired(Stop(t))
  {
  }

  lemma BreachFiredOnce(cfg: Config, t: Tree)
    ensures Fired(t) ==> Fired(Breach(cfg, t))
  {
    StopFiredOnce(CloseInput(t));
  }

  lemma CancelFiredOnce(t: Tree, spared: bool)
    ensures Fired(t) ==> Fired(CancelTree(t, spared))
  {
    StopFiredOnce(Log(t, CanceledBy(spared)));
  }

  lemma CancelSpends(cfg: Config, s: State, spare: bool)
    ensures Spent(CancelRun(cfg, s, spare)) >= Spent(s) + (if s.book.canceled then 0 else 1)
  {
    CancelFiredOnce(s.tree, !cfg.stopOnBreach && spare);
  }

  lemma AcknowledgeSpends(cfg: Config, s: State, record: Record, write: WriteResult)
    ensures Spent(Acknowledge(cfg, s, record, write)) >= Spent(s)
  {
    BreachFiredOnce(cfg, Log(s.tree, Wrote(record, WriteFound(s.tree, write))));
  }

  lemma RespondSpends(cfg: Config, s: State, record: Record, verdict: Verdict, write: WriteResult)
    ensures Spent(Respond(cfg, s, record, verdict, write)) >= Spent(s)
  {
    BreachFiredOnce(cfg, s.tree);
    AcknowledgeSpends(cfg, s, record, write);
  }

  lemma ReceiveSpends(cfg: Config, s: State, record: Record, done: bool, spare: bool, write: WriteResult)
    ensures Spent(ReceiveRecord(cfg, s, record, done, spare, write)) >= Spent(s)
  {
    var ruled := State(Rule(cfg, s.book, record), s.tree);
    assert Spent(ruled) == Spent(s);
    CancelSpends(cfg, ruled, spare);
    RespondSpends(cfg, if done then CancelRun(cfg, ruled, spare)
      else ruled, record, VerdictOn(cfg, s.book, record), write);
  }

  lemma StepSpends(cfg: Config, s: State, e: Event)
    requires Enabled(s, e) && SoundRun(cfg, s)
    ensures Spent(Step(cfg, s, e)) >= Spent(s) + (if e.Receive? then 0 else 1)
  {
    match e {
      case Cancel(spare) => CancelSpends(cfg, s, spare);
      case Drain =>
      case Reap(exit) =>
      case StreamEnd(err) => BreachFiredOnce(cfg, s.tree.(streaming := false));
      case Receive(record, done, spare, write) => ReceiveSpends(cfg, s, record, done, spare, write);
    }
  }

  /** A legal run handles at most four events beside its records. */
  lemma {:induction false} BoundedRun(cfg: Config, events: seq<Event>)
    requires Legal(cfg, events)
    ensures |events| <= |Received(events)| + Spent(Run(cfg, events)) <= |Received(events)| + 4
  {
    if events != [] {
      var front, e := events[..|events| - 1], events[|events| - 1];
      BoundedRun(cfg, front);
      RunIsSound(cfg, front);
      StepSpends(cfg, Run(cfg, front), e);
    }
  }
}
