/** An ending, once reached, stands: only a failed exit gives way, and only to what the adapter itself wrote. */
module SupervisorFinal {
  import opened Common
  import opened Supervisor

  /** The judge's side of the contract: a valid record names a failure only while the protocol is open. */
  ghost predicate NamesWhileOpen(judge: Judge) {
    forall heard, record, moment ::
      var v := judge(heard, record, moment); v.valid && v.failure.Some? ==> moment.open
  }

  /** The ending is decided and is not a failed exit that a later record may still explain. */
  predicate Decided(b: Book) {
    b.ended && !b.exited
  }

  lemma RuleIsFinal(cfg: Config, b: Book, record: Record)
    requires NamesWhileOpen(cfg.judge) && Decided(b)
    ensures Decided(Rule(cfg, b, record)) && Rule(cfg, b, record).ending == b.ending
  {
    assert !MomentOf(b).open;
  }

  lemma StepIsFinal(cfg: Config, s: State, e: Event)
    requires NamesWhileOpen(cfg.judge) && Decided(s.book)
    ensures Decided(Step(cfg, s, e).book) && Step(cfg, s, e).book.ending == s.book.ending
  {
    if e.Receive? {
      RuleIsFinal(cfg, s.book, e.record);
    }
  }

  /** Whatever follows a decided ending, in any order, leaves it. */
  lemma {:induction false} EndingIsFinal(cfg: Config, before: seq<Event>, after: seq<Event>)
    requires NamesWhileOpen(cfg.judge) && Decided(Run(cfg, before).book)
    ensures Decided(Run(cfg, before + after).book)
    ensures Run(cfg, before + after).book.ending == Run(cfg, before).book.ending
    decreases |after|
  {
    if after == [] {
      assert before + after == before;
    } else {
      var front, last := after[..|after| - 1], after[|after| - 1];
      EndingIsFinal(cfg, before, front);
      assert before + after == before + front + [last];
      RunSnoc(cfg, before + front, last);
      StepIsFinal(cfg, Run(cfg, before + front), last);
    }
  }

  /** What may replace a failed exit: a refused record, a named failure, a broken stream. */
  predicate Explains(kind: Kind) {
    kind == FailedExit || kind == Invalid || kind == Named || kind == Incomplete
  }

  /** A failed exit is either still the ending or was replaced by what the adapter itself wrote. */
  predicate Failing(b: Book) {
    b.ended && Explains(b.ending.kind) && (b.exited ==> b.ending == Plain(FailedExit, None))
  }

  lemma StepFails(cfg: Config, s: State, e: Event)
    requires NamesWhileOpen(cfg.judge) && Failing(s.book)
    ensures Failing(Step(cfg, s, e).book)
  {
    if Decided(s.book) {
      StepIsFinal(cfg, s, e);
    } else if e.Receive? {
      var b := Rule(cfg, s.book, e.record);
      assert Failing(b);
    }
  }

  /** And a replacement is itself decided, so it stands. */
  lemma {:induction false} FailedExitIsExplained(cfg: Config, before: seq<Event>, after: seq<Event>)
    requires NamesWhileOpen(cfg.judge) && Failing(Run(cfg, before).book)
    ensures Failing(Run(cfg, before + after).book)
    ensures !Run(cfg, before).book.exited ==>
      !Run(cfg, before + after).book.exited && Run(cfg, before + after).book.ending == Run(cfg, before).book.ending
    decreases |after|
  {
    if after == [] {
      assert before + after == before;
    } else {
      var front, last := after[..|after| - 1], after[|after| - 1];
      FailedExitIsExplained(cfg, before, front);
      assert before + after == before + front + [last];
      RunSnoc(cfg, before + front, last);
      StepFails(cfg, Run(cfg, before + front), last);
      if Decided(Run(cfg, before + front).book) {
        StepIsFinal(cfg, Run(cfg, before + front), last);
      }
    }
  }

  // ----- the clause is exactly what finality needs

  /** A judge that reads nothing but the record and whether the run is open. */
  ghost predicate ReadsOpenness(judge: Judge) {
    forall h, g, r, m: Moment, n: Moment | m.open == n.open :: judge(h, r, m) == judge(g, r, n)
  }

  /** In no legal run is a decided ending replaced. */
  ghost predicate Final(cfg: Config) {
    forall before, after | Legal(cfg, before + after) && Decided(Run(cfg, before).book) ::
      Run(cfg, before + after).book.ending == Run(cfg, before).book.ending
  }

  /** After a zero exit with cut output, which ends the run, a record may still be read. */
  lemma LateNameReplaces(cfg: Config, record: Record)
    requires var v := cfg.judge([], record, Moment(false, false)); v.valid && v.failure.Some?
    ensures var late := Receive(record, false, false, Delivered);
      && Legal(cfg, [Reap(Cut)] + [late]) && Decided(Run(cfg, [Reap(Cut)]).book)
      && Run(cfg, [Reap(Cut)]).book.ending.kind == RetainedOutput
      && Run(cfg, [Reap(Cut)] + [late]).book.ending.kind == Named
  {
    var cut, late := Reap(Cut), Receive(record, false, false, Delivered);
    RunTwo(cfg, cut, late);
    assert [] + [cut] == [cut];
    RunSnoc(cfg, [], cut);
    RunSnoc(cfg, [cut], late);
  }

  /** Such a judge never replaces a decided ending if and only if it names failures only while the run is open. */
  lemma FinalExactly(cfg: Config)
    requires ReadsOpenness(cfg.judge)
    ensures Final(cfg) <==> NamesWhileOpen(cfg.judge)
  {
    if NamesWhileOpen(cfg.judge) {
      forall before, after | Legal(cfg, before + after) && Decided(Run(cfg, before).book)
        ensures Run(cfg, before + after).book.ending == Run(cfg, before).book.ending
      {
        EndingIsFinal(cfg, before, after);
      }
    } else {
      var heard, record, moment :|
        var v := cfg.judge(heard, record, moment); v.valid && v.failure.Some? && !moment.open;
      assert cfg.judge(heard, record, moment) == cfg.judge([], record, Moment(false, false));
      LateNameReplaces(cfg, record);
      assert !Final(cfg);
    }
  }
}
