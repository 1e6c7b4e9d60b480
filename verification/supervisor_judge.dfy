/**
 The lifecycle runner's judge, and what the order of a failed exit comes to under
 it; and the inputs on which that order shows.
 */
module SupervisorJudge {
  import opened Common
  import opened Supervisor
  import opened SupervisorFinal
  import opened SupervisorOrder
  import opened SupervisorExact

  /**
   What the runner's request answers: whether a preparation may come, its failure,
   and the caller's failure for a refusal.
   */
  datatype Request = Request(preparable: bool, prepare: Record -> Option<string>, refusal: Record -> Option<string>)

  datatype Memory = Memory(loaded: bool, prepared: bool, completed: bool)

  function Remember(heard: seq<Judged>): Memory {
    if heard == [] then Memory(false, false, false)
    else
      var m, j := Remember(heard[..|heard| - 1]), heard[|heard| - 1];
      match j.record.phase
      case "loaded" => m.(loaded := j.verdict.valid)
      case "prepared" => m.(prepared := m.prepared || j.verdict.valid)
      case "completed" => m.(completed := m.completed || j.verdict.valid)
      case _ => m
  }

  function Ruling(request: Request, heard: seq<Judged>, record: Record, moment: Moment): Verdict {
    var m := Remember(heard);
    var valid := !m.completed && moment.open;
    match record.phase
    case "loaded" => Verdict(valid && !m.loaded, true, None)
    case "group" => Verdict(valid && m.loaded, false, None)
    case "prepared" =>
      var fit := valid && m.loaded && !m.prepared && request.preparable;
      var failure := if fit && !moment.exited then request.prepare(record) else None;
      Verdict(fit, fit && failure.None?, failure)
    case "completed" => Verdict(valid && m.loaded, false, None)
    case "refused" =>
      var fit := valid && m.loaded && request.refusal(record).Some?;
      Verdict(fit, false, if fit then request.refusal(record) else None)
    case _ => Verdict(false, false, None)
  }

  function LifecycleJudge(request: Request): Judge {
    (heard: seq<Judged>, record: Record, moment: Moment) => Ruling(request, heard, record, moment)
  }

  lemma {:induction false} RememberClear(h: seq<Judged>, g: seq<Judged>)
    requires Clear(h) && Clear(g) && Records(h) == Records(g)
    ensures Remember(h) == Remember(g)
    decreases |h|
  {
    assert |h| == |Records(h)| == |Records(g)| == |g|;
    if h != [] {
      var n := |h| - 1;
      assert Records(h)[n] == Records(g)[n];
      forall i | 0 <= i < n ensures h[i].record == g[i].record {
        assert Records(h)[i] == Records(g)[i];
      }
      assert Records(h[..n]) == Records(g[..n]);
      RememberClear(h[..n], g[..n]);
    }
  }

  /** The judge keeps its side of the contract and reads the records. */
  lemma LifecycleReads(request: Request)
    ensures NamesWhileOpen(LifecycleJudge(request)) && ReadsRecords(LifecycleJudge(request))
  {
    var judge := LifecycleJudge(request);
    forall h, g, r, m: Moment, n: Moment | Clear(h) && Clear(g) && Records(h) == Records(g) && m.open && n.open
      ensures judge(h, r, m).valid == judge(g, r, n).valid
        && (m == n ==> judge(h, r, m).failure == judge(g, r, n).failure)
    {
      RememberClear(h, g);
    }
  }

  /** The preparation a record asks for fails, and the adapter is there to be told. */
  predicate Unprepared(cfg: Config, request: Request, c: Course, r: Receipt) {
    && c.ending.None? && !c.undelivered && r.record.phase == "prepared"
    && VerdictIn(cfg, c, false, r.record).valid && request.prepare(r.record).Some?
  }

  /**
   Under the lifecycle judge all orders end alike, however far the adapter got, if
   and only if no preparation fails and no acknowledgement is in doubt.
   */
  lemma LifecycleOrders(request: Request, stopOnBreach: bool, receipts: seq<Receipt>)
    ensures var cfg := Config(stopOnBreach, LifecycleJudge(request));
      (forall n: nat, broken | n <= |receipts| :: Orderless(cfg, receipts[..n], broken)) <==>
      (forall i: nat | i < |receipts| ::
         var c := Before(cfg, receipts, i);
         Undoubted(cfg, c, receipts[i]) && !Unprepared(cfg, request, c, receipts[i]))
  {
    var cfg := Config(stopOnBreach, LifecycleJudge(request));
    LifecycleReads(request);
    EveryBeginningExactly(cfg, receipts);
    forall i: nat | i < |receipts|
      ensures Candid(cfg, Before(cfg, receipts, i), receipts[i]) <==>
        !Unprepared(cfg, request, Before(cfg, receipts, i), receipts[i])
    {
      CandidExactly(cfg, request, Before(cfg, receipts, i), receipts[i]);
    }
    assert forall i: nat | i < |receipts| ::
      Steady(cfg, receipts, i) <==>
      Undoubted(cfg, Before(cfg, receipts, i), receipts[i]) && Candid(cfg, Before(cfg, receipts, i), receipts[i]);
  }

  lemma CandidExactly(cfg: Config, request: Request, c: Course, r: Receipt)
    requires cfg.judge == LifecycleJudge(request)
    ensures Candid(cfg, c, r) <==> !Unprepared(cfg, request, c, r)
  {
  }

  // ----- the orders that show

  /** Two orders of the same records and exit: the exit read last, and first. */
  lemma LastAndFirst(cfg: Config, receipts: seq<Receipt>) returns (late: seq<Event>, early: seq<Event>)
    requires NamesWhileOpen(cfg.judge)
    ensures Orders(cfg, late, receipts, false) && Orders(cfg, early, receipts, false)
    ensures Outcome(Run(cfg, late).book) == EndingAt(cfg, receipts, false, |receipts|)
    ensures Outcome(Run(cfg, early).book) == EndingAt(cfg, receipts, false, 0)
  {
    late := EveryPlace(cfg, receipts, false, |receipts|);
    early := EveryPlace(cfg, receipts, false, 0);
    OrderEnds(cfg, late, receipts, false);
    OrderEnds(cfg, early, receipts, false);
  }

  lemma MixedTwo(cfg: Config, a: Receipt, b: Receipt, k: nat)
    ensures Mixed(cfg, [a], k) == Next(cfg, OUTSET, 0 >= k, a)
    ensures Mixed(cfg, [a, b], k) == Next(cfg, Mixed(cfg, [a], k), 1 >= k, b)
  {
    assert [a][..0] == [] && [a, b][..1] == [a];
  }

  function Heard(phase: string, write: WriteResult): Receipt {
    Receipt(Record(phase, "", "", []), write)
  }

  function Eager(heard: seq<Judged>, record: Record, moment: Moment): Verdict {
    Verdict(true, true, None)
  }

  /** A write that fails for another reason than a missing reader ends the run by whichever is read first. */
  lemma UncertainWriteOrders() returns (late: seq<Event>, early: seq<Event>)
    ensures var cfg, receipts := Config(true, Eager), [Heard("loaded", OtherFault)];
      && Orders(cfg, late, receipts, false) && Outcome(Run(cfg, late).book).kind == Uncertain
      && Orders(cfg, early, receipts, false) && Outcome(Run(cfg, early).book).kind == FailedExit
  {
    var cfg, loaded := Config(true, Eager), Heard("loaded", OtherFault);
    late, early := LastAndFirst(cfg, [loaded]);
    MixedTwo(cfg, loaded, loaded, 1);
    MixedTwo(cfg, loaded, loaded, 0);
  }

  /**
   A refusal closes the channel, and an acknowledgement after it is in doubt though
   every write would be delivered.
   */
  lemma RefusedThenAcknowledged() returns (late: seq<Event>, early: seq<Event>)
    ensures var cfg, receipts := Config(false, Eager), [Heard("refused", Delivered), Heard("loaded", Delivered)];
      && Orders(cfg, late, receipts, false) && Outcome(Run(cfg, late).book).kind == Uncertain
      && Orders(cfg, early, receipts, false) && Outcome(Run(cfg, early).book).kind == FailedExit
  {
    var cfg, refused, loaded := Config(false, Eager), Heard("refused", Delivered), Heard("loaded", Delivered);
    late, early := LastAndFirst(cfg, [refused, loaded]);
    MixedTwo(cfg, refused, loaded, 2);
    MixedTwo(cfg, refused, loaded, 0);
  }

  /** A request whose preparation always fails and whose caller remedies no refusal. */
  const UNPREPARED := Request(true, Fails, Unnamed)

  function Fails(record: Record): Option<string> {
    Some("unprepared")
  }

  function Unnamed(record: Record): Option<string> {
    None
  }

  /** A preparation that fails is named to the adapter, and withheld once it is gone. */
  lemma WithheldFailureOrders() returns (late: seq<Event>, early: seq<Event>)
    ensures var cfg, receipts :=
      Config(true, LifecycleJudge(UNPREPARED)), [Heard("loaded", Delivered), Heard("prepared", Delivered)];
      && Orders(cfg, late, receipts, false) && Outcome(Run(cfg, late).book) == Plain(Named, Some("unprepared"))
      && Orders(cfg, early, receipts, false) && Outcome(Run(cfg, early).book) == Plain(FailedExit, None)
  {
    var cfg := Config(true, LifecycleJudge(UNPREPARED));
    var loaded, prepared := Heard("loaded", Delivered), Heard("prepared", Delivered);
    LifecycleReads(UNPREPARED);
    late, early := LastAndFirst(cfg, [loaded, prepared]);
    PreparedAfter(cfg, loaded, prepared, false);
    PreparedAfter(cfg, loaded, prepared, true);
    MixedTwo(cfg, loaded, prepared, 2);
    MixedTwo(cfg, loaded, prepared, 0);
  }

  lemma PreparedAfter(cfg: Config, loaded: Receipt, prepared: Receipt, exited: bool)
    requires cfg == Config(true, LifecycleJudge(UNPREPARED))
    requires loaded == Heard("loaded", Delivered) && prepared == Heard("prepared", Delivered)
    ensures Next(cfg, Next(cfg, OUTSET, exited, loaded), exited, prepared).ending ==
      if exited then None else Some(Plain(Named, Some("unprepared")))
  {
    var first := Judged(loaded.record, MomentIn(OUTSET, exited), Verdict(true, true, None));
    assert [first][..0] == [] && Remember([first]) == Memory(true, false, false);
    var c := Next(cfg, OUTSET, exited, loaded);
    assert VerdictIn(cfg, OUTSET, exited, loaded.record) == Verdict(true, true, None);
    assert c == OUTSET.(heard := [] + [first]);
  }
}
