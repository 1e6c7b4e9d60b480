/**
 The adapter run supervisor as a state machine: one function per handler of the
 source's session, over an explicit state. The environment (the judge, the
 scheduler, the outcome of a write) enters as an event or as the judge function.
 */
module Supervisor {
  import opened Common

  datatype Record = Record(phase: string, outcome: string, evidence: string, warnings: seq<string>)

  /** When a record is judged. */
  datatype Moment = Moment(open: bool, exited: bool)

  datatype Verdict = Verdict(valid: bool, acknowledge: bool, failure: Option<string>)

  /** One call of the judge and its answer. */
  datatype Judged = Judged(record: Record, moment: Moment, verdict: Verdict)

  /** A judge may remember every earlier call, so its answer is any function of them. */
  type Judge = (seq<Judged>, Record, Moment) -> Verdict

  datatype Kind =
    | Completed | Canceled | Invalid | Incomplete | Named | FailedExit
    | Retained | RetainedOutput | Uncertain | NoResult

  datatype Ending = Ending(kind: Kind, failure: Option<string>, outcome: string, evidence: string,
      warnings: seq<string>)

  /** How the adapter was reaped; Cut is a zero exit whose output was cut. */
  datatype Exit = Zero | Cut | Failed

  /** How the record stream ended; Closed is the runner's own close. */
  datatype ReadError = Clean | Closed | Broken

  datatype WriteResult = Delivered | NoReader | OtherFault

  /**
   What the select loop can receive. A record also carries what the handler then
   finds: whether the context is done, whether the judge spares the tree, and how
   an acknowledgement write would end on an open channel.
   */
  datatype Event =
    | Cancel(spare: bool)
    | Drain
    | Reap(exit: Exit)
    | Receive(record: Record, done: bool, spare: bool, write: WriteResult)
    | StreamEnd(err: ReadError)

  /** What the run did or saw, in order. */
  datatype Mark =
    | Signaled | Killed | InputClosed | OutputClosed
    | Wrote(record: Record, write: WriteResult)
    | Acknowledged(record: Record)
    | Reaped(exit: Exit) | DrainFired | CanceledBy(spared: bool)

  datatype Config = Config(stopOnBreach: bool, judge: Judge)

  /** What the protocol has decided so far. */
  datatype Book = Book(
    ended: bool, ending: Ending, exited: bool, undelivered: bool, canceled: bool,
    completed: bool, result: Record, heard: seq<Judged>)

  /** How far the adapter's processes and channels have come, and what was done to them. */
  datatype Tree = Tree(
    stopping: bool, groupKilled: bool, streaming: bool, running: bool,
    armed: bool, draining: bool, inputOpen: bool, outputOpen: bool, trace: seq<Mark>)

  datatype State = State(book: Book, tree: Tree)

  const NO_RECORD := Record("", "", "", [])

  function Plain(kind: Kind, failure: Option<string>): Ending {
    Ending(kind, failure, "", "", [])
  }

  const START := State(
    Book(false, Plain(NoResult, None), false, false, false, false, NO_RECORD, []),
    Tree(false, false, true, true, false, false, true, true, []))

  // ----- handlers over the processes and channels

  function Log(t: Tree, m: Mark): Tree {
    t.(trace := t.trace + [m])
  }

  function Arm(t: Tree): Tree {
    if t.armed then t else t.(armed := true, draining := true)
  }

  function CloseInput(t: Tree): Tree {
    Log(t, InputClosed).(inputOpen := false)
  }

  function KillGroup(t: Tree): (r: Tree)
    ensures r.inputOpen == t.inputOpen
    ensures r.streaming == t.streaming && r.running == t.running && r.outputOpen == t.outputOpen
  {
    if t.stopping && !t.groupKilled then Log(t, Killed).(groupKilled := true) else t
  }

  function Stop(t: Tree): (r: Tree)
    ensures !r.inputOpen
    ensures r.streaming == t.streaming && r.running == t.running && r.outputOpen == t.outputOpen
  {
    var c := CloseInput(t);
    if c.stopping then c
    else
      var g := Arm(Log(c, Signaled).(stopping := true));
      if g.running then g else KillGroup(g)
  }

  function Breach(cfg: Config, t: Tree): (r: Tree)
    ensures !r.inputOpen
    ensures r.streaming == t.streaming && r.running == t.running && r.outputOpen == t.outputOpen
  {
    var c := CloseInput(t);
    if cfg.stopOnBreach then Stop(c) else c
  }

  function CancelTree(t: Tree, spared: bool): (r: Tree)
    ensures !r.inputOpen
    ensures r.streaming == t.streaming && r.running == t.running && r.outputOpen == t.outputOpen
  {
    var c := Log(t, CanceledBy(spared));
    if spared then Arm(CloseInput(c)) else Stop(c)
  }

  function DrainTree(t: Tree): Tree {
    var k := KillGroup(Log(t, DrainFired).(draining := false));
    Log(k, OutputClosed).(outputOpen := false)
  }

  function ReapTree(t: Tree, exit: Exit): Tree {
    Arm(KillGroup(Log(t, Reaped(exit)).(running := false)))
  }

  function ReadTree(cfg: Config, t: Tree, err: ReadError): (r: Tree)
    ensures !r.streaming && r.running == t.running
  {
    var u := t.(streaming := false);
    if err.Clean? then u else Breach(cfg, u)
  }

  // ----- handlers over the protocol

  function End(b: Book, kind: Kind, failure: Option<string>): Book {
    b.(ended := true, ending := Plain(kind, failure))
  }

  function ReapBook(b: Book, exit: Exit): Book {
    if b.ended then b
    else match exit
      case Zero => b
      case Cut => End(b, RetainedOutput, None)
      case Failed => End(b, FailedExit, None).(exited := true)
  }

  function ReadBook(b: Book, err: ReadError): Book {
    if !err.Clean? && (!b.ended || (b.exited && !err.Closed?)) then End(b, Incomplete, None).(exited := false) else b
  }

  function MomentOf(b: Book): Moment {
    Moment((!b.ended || b.exited) && !b.canceled, b.exited || b.undelivered)
  }

  function VerdictOn(cfg: Config, b: Book, record: Record): Verdict {
    cfg.judge(b.heard, record, MomentOf(b))
  }

  /** The judge's verdict applied to the ending and the result. */
  function Rule(cfg: Config, b: Book, record: Record): Book {
    var verdict := VerdictOn(cfg, b, record);
    var h := b.(heard := b.heard + [Judged(record, MomentOf(b), verdict)]);
    if !verdict.valid then
      (if !h.ended || h.exited then End(h, Invalid, None) else h).(exited := false)
    else if verdict.failure.Some? then
      End(h, Named, verdict.failure).(exited := false)
    else if record.phase == "completed" then
      h.(completed := true, result := if h.exited then h.result else record)
    else h
  }

  // ----- handlers over both

  function CancelRun(cfg: Config, s: State, spare: bool): (r: State)
    ensures r.tree.streaming == s.tree.streaming && r.tree.running == s.tree.running
  {
    if s.book.canceled then s
    else State(s.book.(canceled := true), CancelTree(s.tree, !cfg.stopOnBreach && spare))
  }

  function Drained(s: State): State {
    State(if s.book.ended then s.book else End(s.book, Retained, None), DrainTree(s.tree))
  }

  function ReapedWith(s: State, exit: Exit): State {
    State(ReapBook(s.book, exit), ReapTree(s.tree, exit))
  }

  function ReadEnded(cfg: Config, s: State, err: ReadError): State {
    State(ReadBook(s.book, err), ReadTree(cfg, s.tree, err))
  }

  /** A write on a channel the runner itself closed fails, and not for want of a reader. */
  function WriteFound(t: Tree, write: WriteResult): WriteResult {
    if t.inputOpen then write else OtherFault
  }

  function Acknowledge(cfg: Config, s: State, record: Record, write: WriteResult): (r: State)
    ensures r.tree.streaming == s.tree.streaming && r.tree.running == s.tree.running
  {
    var found := WriteFound(s.tree, write);
    var w := Log(s.tree, Wrote(record, found));
    match found
    case Delivered => State(s.book, Log(w, Acknowledged(record)))
    case NoReader => State(s.book.(undelivered := true), Breach(cfg, w))
    case OtherFault => State(End(s.book, Uncertain, None), w)
  }

  /** The end of receive, once the record is judged and the context looked at. */
  function Respond(cfg: Config, s: State, record: Record, verdict: Verdict, write: WriteResult): (r: State)
    ensures r.tree.streaming == s.tree.streaming && r.tree.running == s.tree.running
  {
    if verdict.valid && record.phase == "refused" then State(s.book, CloseInput(s.tree))
    else if s.book.ended || s.book.canceled || s.book.undelivered then State(s.book, Breach(cfg, s.tree))
    else if verdict.acknowledge then Acknowledge(cfg, s, record, write)
    else s
  }

  function ReceiveRecord(cfg: Config, s: State, record: Record, done: bool, spare: bool, write: WriteResult): (r: State)
    ensures r.tree.streaming == s.tree.streaming && r.tree.running == s.tree.running
  {
    var verdict := VerdictOn(cfg, s.book, record);
    var ruled := State(Rule(cfg, s.book, record), s.tree);
    Respond(cfg, if done then CancelRun(cfg, ruled, spare) else ruled, record, verdict, write)
  }

  function Step(cfg: Config, s: State, e: Event): State {
    match e
    case Cancel(spare) => CancelRun(cfg, s, spare)
    case Drain => Drained(s)
    case Reap(exit) => ReapedWith(s, exit)
    case Receive(record, done, spare, write) => ReceiveRecord(cfg, s, record, done, spare, write)
    case StreamEnd(err) => ReadEnded(cfg, s, err)
  }

  function Outcome(b: Book): Ending {
    if b.canceled then Plain(Canceled, None)
    else if b.ended then b.ending
    else if !b.completed || b.undelivered then Plain(NoResult, None)
    else Ending(Completed, None, b.result.outcome, b.result.evidence, b.result.warnings)
  }

  // ----- runs

  predicate Finished(s: State) {
    !s.tree.streaming && !s.tree.running
  }

  /** What a channel of the select loop can deliver in a state. */
  predicate Enabled(s: State, e: Event) {
    !Finished(s) &&
    match e
    case Cancel(_) => !s.book.canceled
    case Drain => s.tree.draining
    case Reap(_) => s.tree.running
    case Receive(_, _, _, _) => s.tree.streaming
    case StreamEnd(err) => s.tree.streaming && (err.Closed? ==> !s.tree.outputOpen)
  }

  function Run(cfg: Config, events: seq<Event>): State {
    if events == [] then START
    else Step(cfg, Run(cfg, events[..|events| - 1]), events[|events| - 1])
  }

  predicate Legal(cfg: Config, events: seq<Event>) {
    events == [] ||
    (Legal(cfg, events[..|events| - 1]) &&
     Enabled(Run(cfg, events[..|events| - 1]), events[|events| - 1]))
  }

  lemma RunSnoc(cfg: Config, events: seq<Event>, e: Event)
    ensures Run(cfg, events + [e]) == Step(cfg, Run(cfg, events), e)
    ensures Legal(cfg, events + [e]) <==> Legal(cfg, events) && Enabled(Run(cfg, events), e)
  {
    assert (events + [e])[..|events|] == events;
  }

  lemma RunTwo(cfg: Config, a: Event, b: Event)
    ensures Run(cfg, [a]) == Step(cfg, START, a)
    ensures Run(cfg, [a, b]) == Step(cfg, Step(cfg, START, a), b)
  {
    assert [] + [a] == [a] && [a] + [b] == [a, b];
    RunSnoc(cfg, [], a);
    RunSnoc(cfg, [a], b);
  }

  // ----- what was read

  /** The records of a run's events, in order. */
  function Received(events: seq<Event>): seq<Record> {
    if events == [] then []
    else
      var e := events[|events| - 1];
      Received(events[..|events| - 1]) + (if e.Receive? then [e.record] else [])
  }


  function Records(heard: seq<Judged>): (r: seq<Record>)
    ensures |r| == |heard| && forall i | 0 <= i < |r| :: r[i] == heard[i].record
  {
    seq(|heard|, i requires 0 <= i < |heard| => heard[i].record)
  }
}
