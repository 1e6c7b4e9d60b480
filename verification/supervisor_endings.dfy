/**
 How every run ends, from the events it read and the verdicts the judge gave: the
 first thing that ends it, what may still replace a failed exit, and nothing else.
 */
module SupervisorEndings {
  import opened Common
  import opened Supervisor
  import opened SupervisorFinal

  // ----- what a run reads

  /** An event and, of a record, the verdict the judge gave on it. */
  datatype Reading = Reading(event: Event, verdict: Verdict)

  const UNJUDGED := Verdict(true, false, None)

  function Readings(cfg: Config, events: seq<Event>): (r: seq<Reading>)
    ensures |r| == |events| && forall i | 0 <= i < |r| :: r[i].event == events[i]
  {
    if events == [] then []
    else
      var front, e := events[..|events| - 1], events[|events| - 1];
      var verdict := if e.Receive? then VerdictOn(cfg, Run(cfg, front).book, e.record) else UNJUDGED;
      Readings(cfg, front) + [Reading(e, verdict)]
  }

  // ----- what each reading comes to

  /** A record that is valid and names nothing. */
  predicate Accepted(x: Reading) {
    x.event.Receive? && x.verdict.valid && x.verdict.failure.None?
  }

  /** The adapter refused, which closes the acknowledgement channel. */
  predicate Refusal(x: Reading) {
    Accepted(x) && x.event.record.phase == "refused"
  }

  predicate Asks(x: Reading) {
    Accepted(x) && x.event.record.phase != "refused" && x.verdict.acknowledge
  }

  predicate Shut(past: seq<Reading>) {
    exists x | x in past :: Refusal(x)
  }

  /** An acknowledgement found no reader, after which none is written. */
  predicate Unreceived(past: seq<Reading>) {
    exists j | 0 <= j < |past| :: Asks(past[j]) && past[j].event.write == NoReader && !Shut(past[..j])
  }

  /** What an acknowledgement of the reading comes to: on a channel the runner closed it fails. */
  function WriteOf(past: seq<Reading>, x: Reading): WriteResult
    requires x.event.Receive?
  {
    if Shut(past) then OtherFault else x.event.write
  }

  /** What a reading ends an open run as. */
  function EndOf(past: seq<Reading>, x: Reading): Option<Ending> {
    match x.event
    case Cancel(_) => None
    case Drain => Some(Plain(Retained, None))
    case Reap(exit) =>
      (match exit
       case Zero => None
       case Cut => Some(Plain(RetainedOutput, None))
       case Failed => Some(Plain(FailedExit, None)))
    case StreamEnd(err) => if err == Clean then None else Some(Plain(Incomplete, None))
    case Receive(record, _, _, _) =>
      if !x.verdict.valid then Some(Plain(Invalid, None))
      else if x.verdict.failure.Some? then Some(Plain(Named, x.verdict.failure))
      else if Asks(x) && !Unreceived(past) && WriteOf(past, x) == OtherFault then Some(Plain(Uncertain, None))
      else None
  }

  /** What a reading makes of a failed exit: only what the adapter itself wrote spoils it. */
  function ReplacementOf(x: Reading): Option<Ending> {
    match x.event
    case StreamEnd(err) => if err == Broken then Some(Plain(Incomplete, None)) else None
    case Receive(_, _, _, _) =>
      if !x.verdict.valid then Some(Plain(Invalid, None))
      else if x.verdict.failure.Some? then Some(Plain(Named, x.verdict.failure))
      else None
    case _ => None
  }

  predicate CanceledIn(r: seq<Reading>) {
    exists x | x in r :: x.event.Cancel? || (x.event.Receive? && x.event.done)
  }

  predicate CompletedIn(r: seq<Reading>) {
    exists x | x in r :: Accepted(x) && x.event.record.phase == "completed"
  }

  // ----- the first of them

  predicate Endless(r: seq<Reading>) {
    forall i | 0 <= i < |r| :: EndOf(r[..i], r[i]).None?
  }

  predicate EndsFirst(r: seq<Reading>, a: nat) {
    a < |r| && EndOf(r[..a], r[a]).Some? && Endless(r[..a])
  }

  predicate Unreplaced(r: seq<Reading>, a: nat, b: nat) {
    forall i | a < i < b && i < |r| :: ReplacementOf(r[i]).None?
  }

  predicate ReplacesFirst(r: seq<Reading>, a: nat, b: nat) {
    a < b < |r| && ReplacementOf(r[b]).Some? && Unreplaced(r, a, b)
  }

  /** What becomes of a failed exit read at a. */
  ghost predicate FailedBy(r: seq<Reading>, a: nat, found: Ending) {
    && (Unreplaced(r, a, |r|) ==> found == Plain(FailedExit, None))
    && (forall b: nat | ReplacesFirst(r, a, b) :: Some(found) == ReplacementOf(r[b]))
  }

  ghost predicate EndedBy(r: seq<Reading>, a: nat, found: Ending)
    requires a < |r|
  {
    if r[a].event == Reap(Failed) then FailedBy(r, a, found) else Some(found) == EndOf(r[..a], r[a])
  }

  /**
   The ending of a run, kind by kind. Cancellation outweighs all. Otherwise the
   first reading that ends an open run decides, except that a failed exit gives
   way to the first record or stream end after it that the adapter itself spoiled.
   A run that nothing ended completed if a completed record came and every
   acknowledgement had a reader.
   */
  ghost predicate Explained(r: seq<Reading>, found: Ending) {
    if CanceledIn(r) then found == Plain(Canceled, None)
    else if Endless(r) then
      if CompletedIn(r) && !Unreceived(r) then found.kind == Completed else found == Plain(NoResult, None)
    else
      forall a: nat | EndsFirst(r, a) :: EndedBy(r, a, found)
  }

  // ----- the same as a fold

  datatype Standing = Open | Failing | Over(ending: Ending)

  function StandingOf(r: seq<Reading>): Standing {
    if r == [] then Open
    else
      var front, x := r[..|r| - 1], r[|r| - 1];
      match StandingOf(front)
      case Open =>
        var end := EndOf(front, x);
        if end.None? then Open else if x.event == Reap(Failed) then Failing else Over(end.value)
      case Failing => var end := ReplacementOf(x); if end.None? then Failing else Over(end.value)
      case Over(ending) => Over(ending)
  }

  lemma EndlessSnoc(front: seq<Reading>, x: Reading)
    ensures Endless(front + [x]) <==> Endless(front) && EndOf(front, x).None?
  {
    var r := front + [x];
    assert r[..|front|] == front && r[|front|] == x;
    forall i | 0 <= i < |front| ensures r[..i] == front[..i] && r[i] == front[i] {
    }
    if Endless(r) {
      assert EndOf(r[..|front|], r[|front|]).None?;
      forall i | 0 <= i < |front| ensures EndOf(front[..i], front[i]).None? {
        assert r[..i] == front[..i];
      }
    }
  }

  /** An open fold met no end, a failing one a failed exit first, and one that is over what decided it. */
  ghost predicate Described(r: seq<Reading>, s: Standing) {
    match s
    case Open => Endless(r)
    case Failing => exists a: nat :: FailsFrom(r, a)
    case Over(ending) => exists a: nat :: OverFrom(r, a, ending)
  }

  predicate FailsFrom(r: seq<Reading>, a: nat) {
    EndsFirst(r, a) && r[a].event == Reap(Failed) && Unreplaced(r, a, |r|)
  }

  ghost predicate OverFrom(r: seq<Reading>, a: nat, ending: Ending) {
    && EndsFirst(r, a)
    && if r[a].event == Reap(Failed) then exists b: nat :: ReplacesFirst(r, a, b) && ReplacementOf(r[b]) == Some(ending)
       else EndOf(r[..a], r[a]) == Some(ending)
  }

  lemma EndsFirstSnoc(front: seq<Reading>, x: Reading, a: nat)
    requires EndsFirst(front, a)
    ensures EndsFirst(front + [x], a) && (front + [x])[a] == front[a] && (front + [x])[..a] == front[..a]
  {
    assert (front + [x])[..a] == front[..a];
  }

  lemma FailsSnoc(front: seq<Reading>, x: Reading, a: nat)
    requires FailsFrom(front, a)
    ensures if ReplacementOf(x).None? then FailsFrom(front + [x], a)
      else OverFrom(front + [x], a, ReplacementOf(x).value)
  {
    var r := front + [x];
    EndsFirstSnoc(front, x, a);
    assert r[|front|] == x;
    forall i | a < i < |front| ensures ReplacementOf(r[i]).None? {
      assert r[i] == front[i];
    }
    if ReplacementOf(x).Some? {
      assert ReplacesFirst(r, a, |front|);
    }
  }

  lemma OverSnoc(front: seq<Reading>, x: Reading, a: nat, ending: Ending)
    requires OverFrom(front, a, ending)
    ensures OverFrom(front + [x], a, ending)
  {
    var r := front + [x];
    EndsFirstSnoc(front, x, a);
    if front[a].event == Reap(Failed) {
      var b: nat :| ReplacesFirst(front, a, b) && ReplacementOf(front[b]) == Some(ending);
      forall i | a < i < b ensures ReplacementOf(r[i]).None? {
        assert r[i] == front[i];
      }
      assert r[b] == front[b] && ReplacesFirst(r, a, b);
    }
  }

  lemma OpenSnoc(front: seq<Reading>, x: Reading)
    requires Endless(front)
    ensures var end := EndOf(front, x);
      if end.None? then Endless(front + [x])
      else if x.event == Reap(Failed) then FailsFrom(front + [x], |front|)
      else OverFrom(front + [x], |front|, end.value)
  {
    var r := front + [x];
    EndlessSnoc(front, x);
    assert r[..|front|] == front && r[|front|] == x;
  }

  lemma {:induction false} StandingDescribes(r: seq<Reading>)
    ensures Described(r, StandingOf(r))
  {
    if r != [] {
      var front, x := r[..|r| - 1], r[|r| - 1];
      assert r == front + [x];
      StandingDescribes(front);
      match StandingOf(front) {
        case Open => OpenSnoc(front, x);
        case Failing =>
          var a: nat :| FailsFrom(front, a);
          FailsSnoc(front, x, a);
        case Over(ending) =>
          var a: nat :| OverFrom(front, a, ending);
          OverSnoc(front, x, a, ending);
      }
    }
  }

  lemma BeforeFirst(r: seq<Reading>, c: nat, i: nat)
    requires i < c <= |r| && Endless(r[..c])
    ensures EndOf(r[..i], r[i]).None?
  {
    assert r[..c][..i] == r[..i] && r[..c][i] == r[i];
  }

  lemma OneFirst(r: seq<Reading>, a: nat, c: nat)
    requires EndsFirst(r, a) && EndsFirst(r, c)
    ensures a == c
  {
    if a < c {
      BeforeFirst(r, c, a);
    } else if c < a {
      BeforeFirst(r, a, c);
    }
  }

  lemma OneReplacement(r: seq<Reading>, a: nat, b: nat, c: nat)
    requires ReplacesFirst(r, a, b) && ReplacesFirst(r, a, c)
    ensures b == c
  {
  }

  /** What the fold stands at explains the ending it gives. */
  function EndingAt(r: seq<Reading>): Option<Ending> {
    match StandingOf(r)
    case Open => None
    case Failing => Some(Plain(FailedExit, None))
    case Over(ending) => Some(ending)
  }

  lemma StandingExplains(r: seq<Reading>, found: Ending)
    requires !CanceledIn(r) && EndingAt(r) == Some(found)
    ensures Explained(r, found) && !Endless(r)
  {
    StandingDescribes(r);
    var a: nat :| if StandingOf(r).Failing? then FailsFrom(r, a) else OverFrom(r, a, found);
    forall c: nat | EndsFirst(r, c) ensures EndedBy(r, c, found) {
      OneFirst(r, a, c);
      if r[a].event == Reap(Failed) {
        forall b: nat | ReplacesFirst(r, a, b) ensures Some(found) == ReplacementOf(r[b]) {
          if StandingOf(r).Over? {
            var d: nat :| ReplacesFirst(r, a, d) && ReplacementOf(r[d]) == Some(found);
            OneReplacement(r, a, b, d);
          }
        }
      }
    }
  }

  // ----- runs stand where the fold does

  ghost predicate Matches(s: State, r: seq<Reading>) {
    && s.book.canceled == CanceledIn(r)
    && (!CanceledIn(r) ==>
          match StandingOf(r)
          case Open =>
            && !s.book.ended && !s.book.exited && s.book.undelivered == Unreceived(r)
            && s.book.completed == CompletedIn(r) && (!Unreceived(r) ==> s.tree.inputOpen == !Shut(r))
          case Failing => s.book.ended && s.book.exited && s.book.ending == Plain(FailedExit, None)
          case Over(ending) => Decided(s.book) && s.book.ending == ending)
  }

  lemma PastSnoc(front: seq<Reading>, x: Reading)
    ensures Shut(front + [x]) == (Shut(front) || Refusal(x))
    ensures CompletedIn(front + [x]) == (CompletedIn(front) || (Accepted(x) && x.event.record.phase == "completed"))
    ensures CanceledIn(front + [x]) == (CanceledIn(front) || x.event.Cancel? || (x.event.Receive? && x.event.done))
    ensures StandingOf(front + [x]) ==
      match StandingOf(front)
      case Open =>
        if EndOf(front, x).None? then Open
        else if x.event == Reap(Failed) then Failing
        else Over(EndOf(front, x).value)
      case Failing => if ReplacementOf(x).None? then Failing else Over(ReplacementOf(x).value)
      case Over(ending) => Over(ending)
  {
    var r := front + [x];
    assert forall y :: y in r <==> y in front || y == x;
    assert r[..|r| - 1] == front && r[|r| - 1] == x;
  }

  lemma UnreceivedSnoc(front: seq<Reading>, x: Reading)
    ensures Unreceived(front + [x]) <==>
      Unreceived(front) || (Asks(x) && x.event.write == NoReader && !Shut(front))
  {
    var r := front + [x];
    assert r[..|front|] == front && r[|front|] == x;
    if j :| 0 <= j < |r| && Asks(r[j]) && r[j].event.write == NoReader && !Shut(r[..j]) {
      assert j < |front| ==> r[j] == front[j] && r[..j] == front[..j];
    }
    if Unreceived(front) {
      var j :| 0 <= j < |front| && Asks(front[j]) && front[j].event.write == NoReader && !Shut(front[..j]);
      assert r[j] == front[j] && r[..j] == front[..j];
    }
  }

  lemma CanceledStays(cfg: Config, s: State, e: Event)
    ensures Step(cfg, s, e).book.canceled == (s.book.canceled || e.Cancel? || (e.Receive? && e.done))
  {
    match e {
      case Cancel(spare) => assert Step(cfg, s, e) == CancelRun(cfg, s, spare);
      case Drain => assert Step(cfg, s, e) == Drained(s);
      case Reap(exit) => assert Step(cfg, s, e) == ReapedWith(s, exit);
      case StreamEnd(err) => assert Step(cfg, s, e) == ReadEnded(cfg, s, err);
      case Receive(record, done, spare, write) =>
        var ruled := State(Rule(cfg, s.book, record), s.tree);
        var q := if done then CancelRun(cfg, ruled, spare) else ruled;
        AnswerCanceled(cfg, q, record, VerdictOn(cfg, s.book, record), write);
    }
  }

  lemma AnswerCanceled(cfg: Config, s: State, record: Record, verdict: Verdict, write: WriteResult)
    ensures Respond(cfg, s, record, verdict, write).book.canceled == s.book.canceled
  {
  }

  lemma OverMatches(cfg: Config, s: State, r: seq<Reading>, x: Reading)
    requires NamesWhileOpen(cfg.judge) && Matches(s, r) && !CanceledIn(r + [x]) && StandingOf(r).Over?
    ensures Matches(Step(cfg, s, x.event), r + [x])
  {
    PastSnoc(r, x);
    CanceledStays(cfg, s, x.event);
    StepIsFinal(cfg, s, x.event);
  }

  lemma FailingMatches(cfg: Config, s: State, r: seq<Reading>, x: Reading)
    requires Matches(s, r) && !CanceledIn(r + [x]) && StandingOf(r).Failing?
    requires x.event.Receive? ==> x.verdict == VerdictOn(cfg, s.book, x.event.record)
    ensures Matches(Step(cfg, s, x.event), r + [x])
  {
    PastSnoc(r, x);
    CanceledStays(cfg, s, x.event);
    if x.event.Receive? {
      var ruled := State(Rule(cfg, s.book, x.event.record), s.tree);
      assert Step(cfg, s, x.event) == Respond(cfg, ruled, x.event.record, x.verdict, x.event.write);
      EndedAnswers(cfg, ruled, x.event.record, x.verdict, x.event.write);
    }
  }

  lemma EndedAnswers(cfg: Config, s: State, record: Record, verdict: Verdict, write: WriteResult)
    requires s.book.ended
    ensures Respond(cfg, s, record, verdict, write).book == s.book
  {
  }

  /** What an event other than a record or a cancellation does to an open book. */
  lemma EventDecides(cfg: Config, s: State, past: seq<Reading>, x: Reading)
    requires !x.event.Receive? && !x.event.Cancel? && !s.book.ended && !s.book.exited
    ensures var t := Step(cfg, s, x.event);
      if EndOf(past, x).None? then t.book == s.book && t.tree.inputOpen == s.tree.inputOpen
      else t.book == s.book.(ended := true, ending := EndOf(past, x).value, exited := x.event == Reap(Failed))
  {
    match x.event {
      case Drain => assert Step(cfg, s, x.event) == Drained(s);
      case Reap(exit) => assert Step(cfg, s, x.event) == ReapedWith(s, exit);
      case StreamEnd(err) => assert Step(cfg, s, x.event) == ReadEnded(cfg, s, err);
    }
  }

  lemma OpenMatches(cfg: Config, s: State, r: seq<Reading>, x: Reading)
    requires Matches(s, r) && !CanceledIn(r + [x]) && StandingOf(r).Open? && !x.event.Receive?
    ensures Matches(Step(cfg, s, x.event), r + [x])
  {
    PastSnoc(r, x);
    UnreceivedSnoc(r, x);
    EventDecides(cfg, s, r, x);
  }

  lemma RecordMatches(cfg: Config, s: State, r: seq<Reading>, x: Reading)
    requires Matches(s, r) && !CanceledIn(r + [x]) && StandingOf(r).Open? && x.event.Receive?
    requires x.verdict == VerdictOn(cfg, s.book, x.event.record)
    ensures Matches(Step(cfg, s, x.event), r + [x])
  {
    PastSnoc(r, x);
    UnreceivedSnoc(r, x);
    CanceledStays(cfg, s, x.event);
    var e := x.event;
    var ruled := State(Rule(cfg, s.book, e.record), s.tree);
    assert Step(cfg, s, e) == Respond(cfg, ruled, e.record, x.verdict, e.write);
    if !Accepted(x) {
      EndedAnswers(cfg, ruled, e.record, x.verdict, e.write);
    } else {
      assert !ruled.book.ended && !ruled.book.exited && ruled.book.undelivered == Unreceived(r);
      AcceptedAnswers(cfg, ruled, r, x);
    }
  }

  lemma AcceptedAnswers(cfg: Config, s: State, r: seq<Reading>, x: Reading)
    requires Accepted(x) && !s.book.ended && !s.book.exited && !s.book.canceled
    requires s.book.undelivered == Unreceived(r) && (!Unreceived(r) ==> s.tree.inputOpen == !Shut(r))
    ensures var t := Respond(cfg, s, x.event.record, x.verdict, x.event.write);
      && t.book.completed == s.book.completed && !t.book.exited
      && (EndOf(r, x).None? ==>
            && !t.book.ended && t.book.undelivered == Unreceived(r + [x])
            && (!Unreceived(r + [x]) ==> t.tree.inputOpen == !Shut(r + [x])))
      && (EndOf(r, x).Some? ==> t.book.ended && Some(t.book.ending) == EndOf(r, x))
  {
    PastSnoc(r, x);
    UnreceivedSnoc(r, x);
    if Asks(x) && !Unreceived(r) {
      assert WriteFound(s.tree, x.event.write) == WriteOf(r, x);
    }
  }

  lemma {:induction false} RunMatches(cfg: Config, events: seq<Event>)
    requires NamesWhileOpen(cfg.judge)
    ensures Matches(Run(cfg, events), Readings(cfg, events))
  {
    if events != [] {
      var front, e := events[..|events| - 1], events[|events| - 1];
      var s, r := Run(cfg, front), Readings(cfg, front);
      var x := Readings(cfg, events)[|front|];
      RunMatches(cfg, front);
      assert Readings(cfg, events) == r + [x];
      PastSnoc(r, x);
      CanceledStays(cfg, s, e);
      if !CanceledIn(r + [x]) {
        if StandingOf(r).Over? {
          OverMatches(cfg, s, r, x);
        } else if StandingOf(r).Failing? {
          FailingMatches(cfg, s, r, x);
        } else if e.Receive? {
          RecordMatches(cfg, s, r, x);
        } else {
          OpenMatches(cfg, s, r, x);
        }
      }
    }
  }

  /** Every run, legal or not yet finished too, ends as its readings explain. */
  lemma OutcomeIsExplained(cfg: Config, events: seq<Event>)
    requires NamesWhileOpen(cfg.judge)
    ensures Explained(Readings(cfg, events), Outcome(Run(cfg, events).book))
  {
    var r := Readings(cfg, events);
    RunMatches(cfg, events);
    if !CanceledIn(r) {
      if StandingOf(r).Open? {
        StandingDescribes(r);
      } else {
        StandingExplains(r, Outcome(Run(cfg, events).book));
      }
    }
  }

  // ----- kind by kind

  lemma {:induction false} FirstExists(r: seq<Reading>) returns (a: nat)
    requires !Endless(r)
    ensures EndsFirst(r, a)
    decreases |r|
  {
    var front := r[..|r| - 1];
    if Endless(front) {
      EndlessSnoc(front, r[|r| - 1]);
      assert r == front + [r[|r| - 1]];
      a := |front|;
    } else {
      a := FirstExists(front);
      assert front[..a] == r[..a] && front[a] == r[a];
    }
  }

  lemma {:induction false} ReplacementExists(r: seq<Reading>, a: nat, n: nat) returns (b: nat)
    requires a < n <= |r| && !Unreplaced(r, a, n)
    ensures ReplacesFirst(r, a, b)
    decreases n
  {
    if Unreplaced(r, a, n - 1) {
      b := n - 1;
    } else {
      b := ReplacementExists(r, a, n - 1);
    }
  }

  /** The run was open until this reading ended it. */
  ghost predicate EndedFirstBy(r: seq<Reading>, ends: Reading -> bool) {
    !CanceledIn(r) && exists a: nat :: EndsFirst(r, a) && ends(r[a])
  }

  ghost predicate FailedAndThen(r: seq<Reading>, spoils: Reading -> bool) {
    !CanceledIn(r) && exists a: nat, b: nat ::
      EndsFirst(r, a) && r[a].event == Reap(Failed) && ReplacesFirst(r, a, b) && spoils(r[b])
  }

  ghost predicate FailedForGood(r: seq<Reading>) {
    !CanceledIn(r) && exists a: nat :: FailsFrom(r, a)
  }

  predicate ReadsDrain(x: Reading) {
    x.event == Drain
  }

  predicate ReadsCut(x: Reading) {
    x.event == Reap(Cut)
  }

  predicate ReadsUnclean(x: Reading) {
    x.event == StreamEnd(Broken) || x.event == StreamEnd(Closed)
  }

  predicate ReadsBroken(x: Reading) {
    x.event == StreamEnd(Broken)
  }

  predicate ReadsInvalid(x: Reading) {
    x.event.Receive? && !x.verdict.valid
  }

  predicate ReadsNamed(x: Reading) {
    x.event.Receive? && x.verdict.valid && x.verdict.failure.Some?
  }

  /** A record that was accepted ends a run only where its acknowledgement is in doubt. */
  predicate ReadsAccepted(x: Reading) {
    Accepted(x)
  }

  /** Which endings there are, each with exactly the readings that lead to it. */
  ghost predicate KindsOf(r: seq<Reading>, kind: Kind) {
    && (kind == Canceled <==> CanceledIn(r))
    && (kind == Completed <==> !CanceledIn(r) && Endless(r) && CompletedIn(r) && !Unreceived(r))
    && (kind == NoResult <==> !CanceledIn(r) && Endless(r) && !(CompletedIn(r) && !Unreceived(r)))
    && (kind == Retained <==> EndedFirstBy(r, ReadsDrain))
    && (kind == RetainedOutput <==> EndedFirstBy(r, ReadsCut))
    && (kind == Uncertain <==> EndedFirstBy(r, ReadsAccepted))
    && (kind == FailedExit <==> FailedForGood(r))
    && (kind == Incomplete <==> EndedFirstBy(r, ReadsUnclean) || FailedAndThen(r, ReadsBroken))
    && (kind == Invalid <==> EndedFirstBy(r, ReadsInvalid) || FailedAndThen(r, ReadsInvalid))
    && (kind == Named <==> EndedFirstBy(r, ReadsNamed) || FailedAndThen(r, ReadsNamed))
  }

  lemma FirstDecides(r: seq<Reading>, a: nat, ends: Reading -> bool)
    requires !CanceledIn(r) && EndsFirst(r, a)
    ensures EndedFirstBy(r, ends) <==> ends(r[a])
  {
    if EndedFirstBy(r, ends) {
      var c: nat :| EndsFirst(r, c) && ends(r[c]);
      OneFirst(r, a, c);
    }
  }

  lemma ReplacementDecides(r: seq<Reading>, a: nat, spoils: Reading -> bool)
    requires !CanceledIn(r) && EndsFirst(r, a)
    ensures r[a].event != Reap(Failed) ==> !FailedAndThen(r, spoils) && !FailedForGood(r)
    ensures r[a].event == Reap(Failed) ==>
      && (FailedForGood(r) <==> Unreplaced(r, a, |r|))
      && (FailedAndThen(r, spoils) <==> exists b: nat :: ReplacesFirst(r, a, b) && spoils(r[b]))
  {
    if FailedAndThen(r, spoils) {
      var c: nat, b: nat :| EndsFirst(r, c) && r[c].event == Reap(Failed) && ReplacesFirst(r, c, b) && spoils(r[b]);
      OneFirst(r, a, c);
    }
    if FailedForGood(r) {
      var c: nat :| FailsFrom(r, c);
      OneFirst(r, a, c);
    } else {
      assert !FailsFrom(r, a);
    }
  }

  lemma NothingFirst(r: seq<Reading>, ends: Reading -> bool)
    requires Endless(r)
    ensures !EndedFirstBy(r, ends) && !FailedAndThen(r, ends) && !FailedForGood(r)
  {
  }

  lemma UnendedKinds(r: seq<Reading>, found: Ending)
    requires Explained(r, found) && (CanceledIn(r) || Endless(r))
    ensures KindsOf(r, found.kind)
  {
    if !CanceledIn(r) {
      NothingFirst(r, ReadsDrain);
      NothingFirst(r, ReadsCut);
      NothingFirst(r, ReadsAccepted);
      NothingFirst(r, ReadsUnclean);
      NothingFirst(r, ReadsBroken);
      NothingFirst(r, ReadsInvalid);
      NothingFirst(r, ReadsNamed);
    }
  }

  lemma DecidedKinds(r: seq<Reading>, found: Ending, a: nat)
    requires Explained(r, found) && !CanceledIn(r) && EndsFirst(r, a) && r[a].event != Reap(Failed)
    ensures KindsOf(r, found.kind)
  {
    assert EndedBy(r, a, found);
    DecidersAt(r, a);
  }

  lemma DecidersAt(r: seq<Reading>, a: nat)
    requires !CanceledIn(r) && EndsFirst(r, a)
    ensures EndedFirstBy(r, ReadsDrain) <==> ReadsDrain(r[a])
    ensures EndedFirstBy(r, ReadsCut) <==> ReadsCut(r[a])
    ensures EndedFirstBy(r, ReadsAccepted) <==> ReadsAccepted(r[a])
    ensures EndedFirstBy(r, ReadsUnclean) <==> ReadsUnclean(r[a])
    ensures EndedFirstBy(r, ReadsInvalid) <==> ReadsInvalid(r[a])
    ensures EndedFirstBy(r, ReadsNamed) <==> ReadsNamed(r[a])
    ensures !Endless(r)
    ensures r[a].event != Reap(Failed) ==>
      && !FailedForGood(r) && !FailedAndThen(r, ReadsBroken)
      && !FailedAndThen(r, ReadsInvalid) && !FailedAndThen(r, ReadsNamed)
  {
    FirstDecides(r, a, ReadsDrain);
    FirstDecides(r, a, ReadsCut);
    FirstDecides(r, a, ReadsAccepted);
    FirstDecides(r, a, ReadsUnclean);
    FirstDecides(r, a, ReadsInvalid);
    FirstDecides(r, a, ReadsNamed);
    ReplacementDecides(r, a, ReadsBroken);
    ReplacementDecides(r, a, ReadsInvalid);
    ReplacementDecides(r, a, ReadsNamed);
  }

  lemma ReplacedBy(r: seq<Reading>, a: nat, b: nat, spoils: Reading -> bool)
    requires !CanceledIn(r) && EndsFirst(r, a) && r[a].event == Reap(Failed) && ReplacesFirst(r, a, b)
    ensures FailedAndThen(r, spoils) <==> spoils(r[b])
  {
    ReplacementDecides(r, a, spoils);
    if FailedAndThen(r, spoils) {
      var c: nat :| ReplacesFirst(r, a, c) && spoils(r[c]);
      OneReplacement(r, a, b, c);
    }
  }

  lemma FailedKinds(r: seq<Reading>, found: Ending, a: nat)
    requires Explained(r, found) && !CanceledIn(r) && EndsFirst(r, a) && r[a].event == Reap(Failed)
    ensures KindsOf(r, found.kind)
  {
    assert EndedBy(r, a, found);
    DecidersAt(r, a);
    ReplacementDecides(r, a, ReadsBroken);
    ReplacementDecides(r, a, ReadsInvalid);
    ReplacementDecides(r, a, ReadsNamed);
    if !Unreplaced(r, a, |r|) {
      var b := ReplacementExists(r, a, |r|);
      ReplacedBy(r, a, b, ReadsBroken);
      ReplacedBy(r, a, b, ReadsInvalid);
      ReplacedBy(r, a, b, ReadsNamed);
    }
  }

  /** Each kind of ending if and only if the readings say so. */
  lemma KindsExactly(cfg: Config, events: seq<Event>)
    requires NamesWhileOpen(cfg.judge)
    ensures KindsOf(Readings(cfg, events), Outcome(Run(cfg, events).book).kind)
  {
    var r, found := Readings(cfg, events), Outcome(Run(cfg, events).book);
    OutcomeIsExplained(cfg, events);
    if CanceledIn(r) || Endless(r) {
      UnendedKinds(r, found);
    } else {
      var a := FirstExists(r);
      if r[a].event == Reap(Failed) {
        FailedKinds(r, found, a);
      } else {
        DecidedKinds(r, found, a);
      }
    }
  }
}
