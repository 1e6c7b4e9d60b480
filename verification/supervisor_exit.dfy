/** A clean exit of the adapter leaves the protocol alone, whenever it is read. */
module SupervisorExit {
  import opened Supervisor

  ghost predicate Alike(s: State, t: State) {
    s.book == t.book && s.tree.inputOpen == t.tree.inputOpen
  }

  lemma CancelAlike(cfg: Config, s: State, t: State, spare: bool)
    requires Alike(s, t)
    ensures Alike(CancelRun(cfg, s, spare), CancelRun(cfg, t, spare))
  {
  }

  lemma AcknowledgeAlike(cfg: Config, s: State, t: State, record: Record, write: WriteResult)
    requires Alike(s, t)
    ensures Alike(Acknowledge(cfg, s, record, write), Acknowledge(cfg, t, record, write))
  {
  }

  lemma RespondAlike(cfg: Config, s: State, t: State, record: Record, verdict: Verdict, write: WriteResult)
    requires Alike(s, t)
    ensures Alike(Respond(cfg, s, record, verdict, write), Respond(cfg, t, record, verdict, write))
  {
    AcknowledgeAlike(cfg, s, t, record, write);
  }

  lemma ReceiveAlike(cfg: Config, s: State, t: State, record: Record, done: bool, spare: bool, write: WriteResult)
    requires Alike(s, t)
    ensures Alike(ReceiveRecord(cfg, s, record, done, spare, write), ReceiveRecord(cfg, t, record, done, spare, write))
  {
    var r, q := State(Rule(cfg, s.book, record), s.tree), State(Rule(cfg, t.book, record), t.tree);
    CancelAlike(cfg, r, q, spare);
    RespondAlike(cfg, if done then CancelRun(cfg, r, spare) else r, if done then CancelRun(cfg, q, spare) else q,
                 record, VerdictOn(cfg, s.book, record), write);
  }

  lemma StepAlike(cfg: Config, s: State, t: State, e: Event)
    requires Alike(s, t)
    ensures Alike(Step(cfg, s, e), Step(cfg, t, e))
  {
    match e {
      case Cancel(spare) => CancelAlike(cfg, s, t, spare);
      case Drain =>
      case Reap(_) =>
      case StreamEnd(_) =>
      case Receive(record, done, spare, write) => ReceiveAlike(cfg, s, t, record, done, spare, write);
    }
  }

  /**
   Wherever a zero exit is read among any other events, cancellations and drains
   included, the protocol's book is the one the other events alone give.
   */
  lemma {:induction false} ZeroExitIsInvisible(cfg: Config, before: seq<Event>, after: seq<Event>)
    ensures Alike(Run(cfg, before + [Reap(Zero)] + after), Run(cfg, before + after))
  {
    if after == [] {
      assert before + [Reap(Zero)] + after == before + [Reap(Zero)];
      assert before + after == before;
      RunSnoc(cfg, before, Reap(Zero));
    } else {
      var front, e := after[..|after| - 1], after[|after| - 1];
      ZeroExitIsInvisible(cfg, before, front);
      assert before + [Reap(Zero)] + after == (before + [Reap(Zero)] + front) + [e];
      assert before + after == (before + front) + [e];
      RunSnoc(cfg, before + [Reap(Zero)] + front, e);
      RunSnoc(cfg, before + front, e);
      StepAlike(cfg, Run(cfg, before + [Reap(Zero)] + front), Run(cfg, before + front), e);
    }
  }
}
