/** The record reader's bound, which bounds the supervisor's run. */
module RecordReader {
  import opened Common
  import opened Supervisor
  import opened SupervisorDiscipline

  datatype Admission = Lifecycle | Controller | Neither

  function MaxRecords(admission: Admission): nat {
    match admission
    case Lifecycle => 64
    case Controller => 132
    case Neither => 0
  }

  /** The records read before the first line that is refused or one too many. */
  function Readable(lines: seq<Option<Record>>, room: nat): (n: nat)
    ensures n <= |lines| && n <= room
    ensures forall i | 0 <= i < n :: lines[i].Some?
    ensures n < |lines| && n < room ==> lines[n].None?
  {
    if lines == [] || room == 0 || lines[0].None? then 0 else 1 + Readable(lines[1..], room - 1)
  }

  /**
   Each line is what decoding and the consumer's own check made of it; scanned is
   the scanner's error once the lines are exhausted.
   */
  method Read(lines: seq<Option<Record>>, scanned: ReadError, admission: Admission)
      returns (out: seq<Record>, err: ReadError)
    ensures |out| == Readable(lines, MaxRecords(admission))
    ensures forall i | 0 <= i < |out| :: lines[i] == Some(out[i])
    ensures err == if |out| < |lines| then Broken else scanned
  {
    out := [];
    var count := 0;
    while count < |lines|
      invariant count == |out| <= |lines| && count <= MaxRecords(admission)
      invariant forall i | 0 <= i < |out| :: lines[i] == Some(out[i])
    {
      if count >= MaxRecords(admission) || lines[count].None? {
        ReadableIs(lines, MaxRecords(admission), count);
        return out, Broken;
      }
      out := out + [lines[count].value];
      count := count + 1;
    }
    ReadableIs(lines, MaxRecords(admission), count);
    err := scanned;
  }

  lemma {:induction false} ReadableIs(lines: seq<Option<Record>>, room: nat, n: nat)
    requires n <= |lines| && n <= room
    requires forall i | 0 <= i < n :: lines[i].Some?
    requires n < |lines| && n < room ==> lines[n].None?
    ensures Readable(lines, room) == n
  {
    if n > 0 {
      ReadableIs(lines[1..], room - 1, n - 1);
    }
  }

  /**
   A run whose records are what the reader sent handles at most four events more
   than the admission's record bound.
   */
  lemma BoundedByAdmission(cfg: Config, events: seq<Event>, lines: seq<Option<Record>>, admission: Admission)
    requires Legal(cfg, events)
    requires |Received(events)| <= Readable(lines, MaxRecords(admission))
    ensures |events| <= MaxRecords(admission) + 4
    ensures admission.Lifecycle? ==> |events| <= 68
    ensures admission.Controller? ==> |events| <= 136
  {
    BoundedRun(cfg, events);
  }
}
