/**
 Whether the ending of a failed run depends on when the failed exit is read: the
 records, their writes and the stream's end against every place of the exit among
 them, and the exact condition under which they all end alike.
 */
module SupervisorOrder {
  import opened Common
  import opened Supervisor
  import opened SupervisorFinal
  import SupervisorProof

  // ----- the reference: the records one by one, before or after the exit

  /** A record and how an acknowledgement of it would end on an open channel. */
  datatype Receipt = Receipt(record: Record, write: WriteResult)

  /** What the records so far have come to: the ending they decided, or what was heard and where the channel stands. */
  datatype Course = Course(heard: seq<Judged>, ending: Option<Ending>, undelivered: bool, shut: bool)

  const OUTSET := Course([], None, false, false)

  function MomentIn(c: Course, exited: bool): Moment {
    Moment(true, exited || c.undelivered)
  }

  function VerdictIn(cfg: Config, c: Course, exited: bool, record: Record): Verdict {
    cfg.judge(c.heard, record, MomentIn(c, exited))
  }

  function WriteIn(c: Course, r: Receipt): WriteResult {
    if c.shut then OtherFault else r.write
  }

  /** A record waits for an acknowledgement that is then written: the exit was not read, and the protocol is open. */
  predicate Writes(cfg: Config, c: Course, r: Receipt) {
    var v := VerdictIn(cfg, c, false, r.record);
    v.valid && v.failure.None? && r.record.phase != "refused" && !c.undelivered && v.acknowledge
  }

  /** One more record; once the ending is decided, records change nothing. */
  function Next(cfg: Config, c: Course, exited: bool, r: Receipt): Course {
    if c.ending.Some? then c
    else
      var v := VerdictIn(cfg, c, exited, r.record);
      var d := c.(heard := c.heard + [Judged(r.record, MomentIn(c, exited), v)]);
      if !v.valid then d.(ending := Some(Plain(Invalid, None)))
      else if v.failure.Some? then d.(ending := Some(Plain(Named, v.failure)))
      else if exited then d
      else if r.record.phase == "refused" then d.(shut := true)
      else if !Writes(cfg, c, r) then d
      else match WriteIn(c, r)
        case Delivered => d
        case NoReader => d.(undelivered := true, shut := true)
        case OtherFault => d.(ending := Some(Plain(Uncertain, None)))
  }

  /** The records with the failed exit read before the k-th. */
  function Mixed(cfg: Config, receipts: seq<Receipt>, k: nat): Course {
    if receipts == [] then OUTSET
    else
      var n := |receipts| - 1;
      Next(cfg, Mixed(cfg, receipts[..n], k), n >= k, receipts[n])
  }

  function StreamOver(c: Course, broken: bool): Course {
    if broken && c.ending.None? then c.(ending := Some(Plain(Incomplete, None))) else c
  }

  /** How a failed run ends. */
  function EndingOf(c: Course, broken: bool): Ending {
    var d := StreamOver(c, broken);
    if d.ending.Some? then d.ending.value else Plain(FailedExit, None)
  }

  // ----- runs of the supervisor follow the reference

  /** Nothing but records, one failed exit and a stream end that is not the runner's own. */
  predicate Ordinary(events: seq<Event>) {
    forall e | e in events ::
      match e
      case Receive(_, done, _, _) => !done
      case Reap(exit) => exit == Failed
      case StreamEnd(err) => err != Closed
      case _ => false
  }

  function ReceiptsOf(events: seq<Event>): seq<Receipt> {
    if events == [] then []
    else
      var e := events[|events| - 1];
      ReceiptsOf(events[..|events| - 1]) + if e.Receive? then [Receipt(e.record, e.write)] else []
  }

  predicate FailedIn(events: seq<Event>) {
    Reap(Failed) in events
  }

  predicate BrokenIn(events: seq<Event>) {
    StreamEnd(Broken) in events
  }

  /** How many records were read before the exit; all of them so far where it was not read. */
  function ReapIndex(events: seq<Event>): nat {
    if events == [] then 0
    else
      var front := events[..|events| - 1];
      if FailedIn(front) then ReapIndex(front) else |ReceiptsOf(events)|
  }

  predicate Follows(s: State, c: Course, reaped: bool) {
    && !s.book.canceled
    && (c.undelivered ==> c.shut)
    && (c.ending.Some? ==> Decided(s.book) && s.book.ending == c.ending.value)
    && (c.ending.None? ==>
          && s.book.heard == c.heard && s.book.undelivered == c.undelivered
          && if reaped then s.book.ended && s.book.exited && s.book.ending == Plain(FailedExit, None)
             else !s.book.ended && !s.book.exited && s.tree.inputOpen == !c.shut)
  }

  lemma DecidedFollows(cfg: Config, s: State, c: Course, reaped: bool, e: Event)
    requires NamesWhileOpen(cfg.judge) && Ordinary([e]) && Follows(s, c, reaped) && c.ending.Some?
    ensures Follows(Step(cfg, s, e), c, reaped || e.Reap?)
  {
    assert e in [e];
    StepIsFinal(cfg, s, e);
  }

  lemma ExitedFollows(cfg: Config, s: State, c: Course, e: Event)
    requires Ordinary([e]) && e.Receive? && Follows(s, c, true) && c.ending.None?
    ensures Follows(Step(cfg, s, e), Next(cfg, c, true, Receipt(e.record, e.write)), true)
  {
    assert e in [e];
    assert MomentOf(s.book) == MomentIn(c, true);
  }

  lemma RunningFollows(cfg: Config, s: State, c: Course, e: Event)
    requires Ordinary([e]) && e.Receive? && Follows(s, c, false) && c.ending.None?
    ensures Follows(Step(cfg, s, e), Next(cfg, c, false, Receipt(e.record, e.write)), false)
  {
    assert e in [e];
    assert MomentOf(s.book) == MomentIn(c, false);
    var ruled := State(Rule(cfg, s.book, e.record), s.tree);
    var v := VerdictOn(cfg, s.book, e.record);
    assert Step(cfg, s, e) == Respond(cfg, ruled, e.record, v, e.write);
    if Writes(cfg, c, Receipt(e.record, e.write)) {
      assert ruled.book.undelivered == c.undelivered && !ruled.book.ended;
      assert WriteFound(ruled.tree, e.write) == WriteIn(c, Receipt(e.record, e.write));
    }
  }

  lemma StepFollows(cfg: Config, s: State, c: Course, reaped: bool, e: Event)
    requires NamesWhileOpen(cfg.judge) && Ordinary([e]) && Follows(s, c, reaped) && (e.Reap? ==> !reaped)
    ensures Follows(Step(cfg, s, e),
                    if e.Receive? then Next(cfg, c, reaped, Receipt(e.record, e.write))
                      else StreamOver(c, e == StreamEnd(Broken)),
                    reaped || e.Reap?)
  {
    assert e in [e];
    if c.ending.Some? {
      DecidedFollows(cfg, s, c, reaped, e);
    } else if e.Receive? {
      if reaped {
        ExitedFollows(cfg, s, c, e);
      } else {
        RunningFollows(cfg, s, c, e);
      }
    }
  }

  lemma {:induction false} ReapIndexBound(events: seq<Event>)
    ensures ReapIndex(events) <= |ReceiptsOf(events)|
    ensures !FailedIn(events) ==> ReapIndex(events) == |ReceiptsOf(events)|
  {
    if events != [] {
      var front := events[..|events| - 1];
      ReapIndexBound(front);
      assert forall x | x in front :: x in events;
    }
  }

  /** An exit read after all records is not seen by them. */
  lemma {:induction false} MixedLate(cfg: Config, receipts: seq<Receipt>, k: nat)
    requires k >= |receipts|
    ensures Mixed(cfg, receipts, k) == Mixed(cfg, receipts, |receipts|)
  {
    if receipts != [] {
      var front := receipts[..|receipts| - 1];
      MixedLate(cfg, front, k);
      MixedLate(cfg, front, |receipts|);
    }
  }

  /** What the reference comes to on the events of a run. */
  function CourseOf(cfg: Config, events: seq<Event>): Course {
    StreamOver(Mixed(cfg, ReceiptsOf(events), ReapIndex(events)), BrokenIn(events))
  }

  lemma CourseSnoc(cfg: Config, front: seq<Event>, e: Event)
    requires Ordinary([e])
    requires e.Receive? || e.StreamEnd? ==> !BrokenIn(front)
    requires e.Reap? ==> !FailedIn(front)
    ensures CourseOf(cfg, front + [e]) ==
      if e.Receive? then Next(cfg, CourseOf(cfg, front), FailedIn(front), Receipt(e.record, e.write))
      else StreamOver(CourseOf(cfg, front), e == StreamEnd(Broken))
    ensures FailedIn(front + [e]) == (FailedIn(front) || e.Reap?)
  {
    var events := front + [e];
    assert e in [e];
    assert events[..|events| - 1] == front;
    assert BrokenIn(events) == (BrokenIn(front) || e == StreamEnd(Broken));
    ReapIndexBound(front);
    ReapIndexBound(events);
    var receipts := ReceiptsOf(front);
    if e.Receive? {
      assert ReceiptsOf(events)[..|receipts|] == receipts;
      if !FailedIn(front) {
        MixedLate(cfg, receipts, |receipts| + 1);
      }
    } else {
      assert ReceiptsOf(events) == receipts;
    }
  }

  lemma OrdinarySnoc(front: seq<Event>, e: Event)
    ensures Ordinary(front + [e]) <==> Ordinary(front) && Ordinary([e])
  {
    assert forall x :: x in front + [e] <==> x in front || x in [e];
  }

  lemma {:induction false} RunFollows(cfg: Config, events: seq<Event>)
    requires NamesWhileOpen(cfg.judge) && Legal(cfg, events) && Ordinary(events)
    ensures Follows(Run(cfg, events), CourseOf(cfg, events), FailedIn(events))
  {
    if events != [] {
      var front, e := events[..|events| - 1], events[|events| - 1];
      assert events == front + [e];
      OrdinarySnoc(front, e);
      SupervisorProof.FinishedChannels(cfg, front);
      RunFollows(cfg, front);
      assert e in [e];
      CourseSnoc(cfg, front, e);
      StepFollows(cfg, Run(cfg, front), CourseOf(cfg, front), FailedIn(front), e);
    }
  }

  // ----- all the orders of one failed run

  /** The events are an order of these records, this end of the stream and a failed exit. */
  predicate Orders(cfg: Config, events: seq<Event>, receipts: seq<Receipt>, broken: bool) {
    && Legal(cfg, events) && Ordinary(events) && Finished(Run(cfg, events))
    && ReceiptsOf(events) == receipts && BrokenIn(events) == broken
  }

  /** A run ends as the reference does with the exit where the run read it. */
  lemma OrderEnds(cfg: Config, events: seq<Event>, receipts: seq<Receipt>, broken: bool)
    requires NamesWhileOpen(cfg.judge) && Orders(cfg, events, receipts, broken)
    ensures ReapIndex(events) <= |receipts|
    ensures Outcome(Run(cfg, events).book) == EndingOf(Mixed(cfg, receipts, ReapIndex(events)), broken)
  {
    RunFollows(cfg, events);
    ReapIndexBound(events);
    SupervisorProof.FinishedChannels(cfg, events);
    var x :| x in events && x.Reap?;
    assert FailedIn(events);
  }

  function AsEvent(r: Receipt): Event {
    Receive(r.record, false, false, r.write)
  }

  function Placed(receipts: seq<Receipt>, k: nat): seq<Event> {
    if k == |receipts| then Unplaced(receipts) + [Reap(Failed)]
    else if receipts == [] then []
    else Placed(receipts[..|receipts| - 1], k) + [AsEvent(receipts[|receipts| - 1])]
  }

  function Unplaced(receipts: seq<Receipt>): seq<Event> {
    if receipts == [] then [] else Unplaced(receipts[..|receipts| - 1]) + [AsEvent(receipts[|receipts| - 1])]
  }

  /** Records, and perhaps the exit, and no end of the stream. */
  predicate Open(cfg: Config, events: seq<Event>, receipts: seq<Receipt>, reaped: bool, k: nat) {
    && Legal(cfg, events) && Ordinary(events) && ReceiptsOf(events) == receipts && FailedIn(events) == reaped
    && ReapIndex(events) == k && forall e | e in events :: !e.StreamEnd?
  }

  lemma OpenSnoc(cfg: Config, front: seq<Event>, receipts: seq<Receipt>, reaped: bool, k: nat, e: Event)
    requires Open(cfg, front, receipts, reaped, k)
    requires Ordinary([e]) && (e.Receive? || (e.Reap? && !reaped))
    ensures Open(cfg, front + [e], if e.Receive? then receipts + [Receipt(e.record, e.write)] else receipts, reaped
      || e.Reap?,
                 if reaped || e.Reap? then k else k + 1)
  {
    var events := front + [e];
    assert e in [e];
    assert events[..|events| - 1] == front;
    OrdinarySnoc(front, e);
    SupervisorProof.FinishedChannels(cfg, front);
    forall x | x in front ensures x.Reap? ==> x == Reap(Failed) {
    }
    RunSnoc(cfg, front, e);
    ReapIndexBound(front);
  }

  lemma {:induction false} UnplacedIsOpen(cfg: Config, receipts: seq<Receipt>)
    ensures Open(cfg, Unplaced(receipts), receipts, false, |receipts|)
  {
    if receipts != [] {
      var front, r := receipts[..|receipts| - 1], receipts[|receipts| - 1];
      UnplacedIsOpen(cfg, front);
      OpenSnoc(cfg, Unplaced(front), front, false, |front|, AsEvent(r));
      assert receipts == front + [r];
    }
  }

  lemma {:induction false} PlacedIsOpen(cfg: Config, receipts: seq<Receipt>, k: nat)
    requires k <= |receipts|
    ensures Open(cfg, Placed(receipts, k), receipts, true, k)
  {
    if k == |receipts| {
      UnplacedIsOpen(cfg, receipts);
      OpenSnoc(cfg, Unplaced(receipts), receipts, false, k, Reap(Failed));
    } else {
      var front, r := receipts[..|receipts| - 1], receipts[|receipts| - 1];
      PlacedIsOpen(cfg, front, k);
      OpenSnoc(cfg, Placed(front, k), front, true, k, AsEvent(r));
      assert receipts == front + [r];
    }
  }

  /** The exit can be read at every place, and then the stream's end. */
  lemma EveryPlace(cfg: Config, receipts: seq<Receipt>, broken: bool, k: nat) returns (events: seq<Event>)
    requires k <= |receipts|
    ensures Orders(cfg, events, receipts, broken) && ReapIndex(events) == k
  {
    PlacedIsOpen(cfg, receipts, k);
    var front, e := Placed(receipts, k), StreamEnd(if broken then Broken else Clean);
    events := front + [e];
    assert events[..|events| - 1] == front && e in [e];
    OrdinarySnoc(front, e);
    SupervisorProof.FinishedChannels(cfg, front);
    SupervisorProof.FinishedChannels(cfg, events);
    RunSnoc(cfg, front, e);
    assert Reap(Failed) in events && e in events;
    assert !BrokenIn(front);
  }
}
