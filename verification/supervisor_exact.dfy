/** Exactly when every order of a failed run ends alike. */
module SupervisorExact {
  import opened Common
  import opened Supervisor
  import opened SupervisorFinal
  import opened SupervisorOrder

  // ----- the judge

  /** Every record so far was heard at an open moment, was valid and named nothing. */
  predicate Clear(heard: seq<Judged>) {
    forall i | 0 <= i < |heard| :: heard[i].moment.open && heard[i].verdict.valid && heard[i].verdict.failure.None?
  }

  /**
   While the run is open, validity is read off the records, and so is the failure
   a record names but for whether the exit was read: a judge may withhold a
   failure from an adapter that is gone.
   */
  ghost predicate ReadsRecords(judge: Judge) {
    forall h, g, r, m: Moment, n: Moment | Clear(h) && Clear(g) && Records(h) == Records(g) && m.open && n.open ::
      && judge(h, r, m).valid == judge(g, r, n).valid
      && (m == n ==> judge(h, r, m).failure == judge(g, r, n).failure)
  }

  // ----- the condition on a record

  /** No acknowledgement of the record is written that may or may not have been delivered. */
  predicate Undoubted(cfg: Config, c: Course, r: Receipt) {
    c.ending.None? && Writes(cfg, c, r) ==> WriteIn(c, r) != OtherFault
  }

  /** A valid record names the same failure whether or not the exit was read. */
  predicate Candid(cfg: Config, c: Course, r: Receipt) {
    var v := VerdictIn(cfg, c, false, r.record);
    c.ending.None? && v.valid ==> v.failure == VerdictIn(cfg, c, true, r.record).failure
  }

  /** The records before the i-th, the exit not yet read. */
  function Before(cfg: Config, receipts: seq<Receipt>, i: nat): Course
    requires i <= |receipts|
  {
    Mixed(cfg, receipts[..i], i)
  }

  // ----- courses that end alike

  predicate Alike(a: Course, b: Course) {
    && a.ending == b.ending
    && (a.ending.None? ==> Clear(a.heard) && Clear(b.heard) && Records(a.heard) == Records(b.heard))
  }

  lemma ClearSnoc(heard: seq<Judged>, j: Judged)
    requires Clear(heard) && j.moment.open && j.verdict.valid && j.verdict.failure.None?
    ensures Clear(heard + [j]) && Records(heard + [j]) == Records(heard) + [j.record]
  {
  }

  lemma NextClear(cfg: Config, c: Course, exited: bool, r: Receipt)
    requires c.ending.None? ==> Clear(c.heard)
    ensures var d := Next(cfg, c, exited, r);
      d.ending.None? ==> Clear(d.heard) && Records(d.heard) == Records(c.heard) + [r.record]
  {
    if Next(cfg, c, exited, r).ending.None? {
      ClearSnoc(c.heard, Judged(r.record, MomentIn(c, exited), VerdictIn(cfg, c, exited, r.record)));
    }
  }

  lemma ExitedAlike(cfg: Config, a: Course, b: Course, r: Receipt)
    requires ReadsRecords(cfg.judge) && Alike(a, b)
    ensures Alike(Next(cfg, a, true, r), Next(cfg, b, true, r))
  {
    NextClear(cfg, a, true, r);
    NextClear(cfg, b, true, r);
  }

  lemma SteadyAlike(cfg: Config, c: Course, r: Receipt)
    requires ReadsRecords(cfg.judge) && (c.ending.None? ==> Clear(c.heard)) && Undoubted(cfg, c, r) && Candid(cfg, c, r)
    ensures Alike(Next(cfg, c, false, r), Next(cfg, c, true, r))
  {
    NextClear(cfg, c, false, r);
    NextClear(cfg, c, true, r);
  }

  lemma {:induction false} MixedClear(cfg: Config, receipts: seq<Receipt>, k: nat)
    ensures Mixed(cfg, receipts, k).ending.None? ==> Clear(Mixed(cfg, receipts, k).heard)
  {
    if receipts != [] {
      var n := |receipts| - 1;
      MixedClear(cfg, receipts[..n], k);
      NextClear(cfg, Mixed(cfg, receipts[..n], k), n >= k, receipts[n]);
    }
  }

  lemma MixedAt(cfg: Config, receipts: seq<Receipt>, i: nat)
    requires i < |receipts|
    ensures Mixed(cfg, receipts[..i + 1], i) == Next(cfg, Before(cfg, receipts, i), true, receipts[i])
    ensures Mixed(cfg, receipts[..i + 1], i + 1) == Next(cfg, Before(cfg, receipts, i), false, receipts[i])
  {
    assert receipts[..i + 1][..i] == receipts[..i];
    MixedLate(cfg, receipts[..i], i + 1);
  }

  /** Where the record at i decides the same, reading the exit before or after it does. */
  lemma {:induction false} NextPlace(cfg: Config, receipts: seq<Receipt>, i: nat, n: nat)
    requires i < n <= |receipts| && ReadsRecords(cfg.judge)
    requires Undoubted(cfg, Before(cfg, receipts, i), receipts[i]) && Candid(cfg, Before(cfg, receipts, i), receipts[i])
    ensures Alike(Mixed(cfg, receipts[..n], i), Mixed(cfg, receipts[..n], i + 1))
    decreases n
  {
    if n == i + 1 {
      MixedAt(cfg, receipts, i);
      MixedClear(cfg, receipts[..i], i);
      SteadyAlike(cfg, Before(cfg, receipts, i), receipts[i]);
    } else {
      NextPlace(cfg, receipts, i, n - 1);
      assert receipts[..n][..n - 1] == receipts[..n - 1];
      ExitedAlike(cfg, Mixed(cfg, receipts[..n - 1], i), Mixed(cfg, receipts[..n - 1], i + 1), receipts[n - 1]);
    }
  }

  /** A decided ending stands. */
  lemma {:induction false} MixedStands(cfg: Config, receipts: seq<Receipt>, k: nat, i: nat)
    requires i <= |receipts| && Mixed(cfg, receipts[..i], k).ending.Some?
    ensures Mixed(cfg, receipts, k).ending == Mixed(cfg, receipts[..i], k).ending
    decreases |receipts|
  {
    if i == |receipts| {
      assert receipts[..i] == receipts;
    } else {
      var front := receipts[..|receipts| - 1];
      assert front[..i] == receipts[..i];
      MixedStands(cfg, front, k, i);
    }
  }

  predicate Certain(c: Course) {
    c.ending.Some? ==> c.ending.value.kind != Uncertain
  }

  /** After the exit nothing is written. */
  lemma {:induction false} ExitedIsCertain(cfg: Config, receipts: seq<Receipt>, k: nat, n: nat)
    requires k <= n <= |receipts| && Mixed(cfg, receipts[..k], k).ending.None?
    ensures Certain(Mixed(cfg, receipts[..n], k))
    decreases n
  {
    if n > k {
      ExitedIsCertain(cfg, receipts, k, n - 1);
      assert receipts[..n][..n - 1] == receipts[..n - 1];
    }
  }

  // ----- the exact condition

  /** Every order of the records, the stream's end and a failed exit ends the run the same way. */
  ghost predicate Orderless(cfg: Config, receipts: seq<Receipt>, broken: bool) {
    forall left, right | Orders(cfg, left, receipts, broken) && Orders(cfg, right, receipts, broken) ::
      Outcome(Run(cfg, left).book) == Outcome(Run(cfg, right).book)
  }

  /** How the run ends with the exit read before the i-th record. */
  function EndingAt(cfg: Config, receipts: seq<Receipt>, broken: bool, i: nat): Ending {
    EndingOf(Mixed(cfg, receipts, i), broken)
  }

  lemma PlacesAgree(cfg: Config, receipts: seq<Receipt>, broken: bool, i: nat, j: nat)
    requires NamesWhileOpen(cfg.judge) && Orderless(cfg, receipts, broken) && i <= |receipts| && j <= |receipts|
    ensures EndingAt(cfg, receipts, broken, i) == EndingAt(cfg, receipts, broken, j)
  {
    var left := EveryPlace(cfg, receipts, broken, i);
    var right := EveryPlace(cfg, receipts, broken, j);
    OrderEnds(cfg, left, receipts, broken);
    OrderEnds(cfg, right, receipts, broken);
  }

  /** The record at i may decide otherwise once the exit is read, but then the records after it make that good. */
  predicate Settled(cfg: Config, receipts: seq<Receipt>, broken: bool, i: nat)
    requires i < |receipts|
  {
    var c := Before(cfg, receipts, i);
    && Undoubted(cfg, c, receipts[i])
    && (Candid(cfg, c, receipts[i])
      || EndingAt(cfg, receipts, broken, i) == EndingAt(cfg, receipts, broken, |receipts|))
  }

  lemma DoubtIsSeen(cfg: Config, receipts: seq<Receipt>, broken: bool, i: nat)
    requires i < |receipts| && !Undoubted(cfg, Before(cfg, receipts, i), receipts[i])
    ensures EndingAt(cfg, receipts, broken, i) != EndingAt(cfg, receipts, broken, |receipts|)
  {
    MixedAt(cfg, receipts, i);
    MixedLate(cfg, receipts[..i + 1], |receipts|);
    MixedStands(cfg, receipts, |receipts|, i + 1);
    ExitedIsCertain(cfg, receipts, i, |receipts|);
    assert receipts[..|receipts|] == receipts;
  }

  lemma {:induction false} SettledAgree(cfg: Config, receipts: seq<Receipt>, broken: bool, k: nat)
    requires ReadsRecords(cfg.judge) && k <= |receipts|
    requires forall i: nat | i < |receipts| :: Settled(cfg, receipts, broken, i)
    ensures EndingAt(cfg, receipts, broken, k) == EndingAt(cfg, receipts, broken, |receipts|)
    decreases |receipts| - k
  {
    if k < |receipts| {
      assert Settled(cfg, receipts, broken, k);
      if Candid(cfg, Before(cfg, receipts, k), receipts[k]) {
        NextPlace(cfg, receipts, k, |receipts|);
        assert receipts[..|receipts|] == receipts;
        SettledAgree(cfg, receipts, broken, k + 1);
      }
    }
  }

  /**
   All orders of one failed run end alike if and only if no acknowledgement is
   written in doubt while the exit is unread, and a failure that the exit makes the
   judge withhold or change is made good by the records after it.
   */
  lemma OrderlessExactly(cfg: Config, receipts: seq<Receipt>, broken: bool)
    requires NamesWhileOpen(cfg.judge) && ReadsRecords(cfg.judge)
    ensures Orderless(cfg, receipts, broken) <==> forall i: nat | i < |receipts| :: Settled(cfg, receipts, broken, i)
  {
    if Orderless(cfg, receipts, broken) {
      forall i: nat | i < |receipts| ensures Settled(cfg, receipts, broken, i) {
        PlacesAgree(cfg, receipts, broken, i, |receipts|);
        if !Undoubted(cfg, Before(cfg, receipts, i), receipts[i]) {
          DoubtIsSeen(cfg, receipts, broken, i);
        }
      }
    }
    if forall i: nat | i < |receipts| :: Settled(cfg, receipts, broken, i) {
      forall left, right | Orders(cfg, left, receipts, broken) && Orders(cfg, right, receipts, broken)
        ensures Outcome(Run(cfg, left).book) == Outcome(Run(cfg, right).book)
      {
        OrderEnds(cfg, left, receipts, broken);
        OrderEnds(cfg, right, receipts, broken);
        SettledAgree(cfg, receipts, broken, ReapIndex(left));
        SettledAgree(cfg, receipts, broken, ReapIndex(right));
      }
    }
  }

  // ----- every beginning of the records

  /**
   The record, judged while the exit is unread, neither leaves a write in doubt nor
   names what the exit would change.
   */
  predicate Steady(cfg: Config, receipts: seq<Receipt>, i: nat)
    requires i < |receipts|
  {
    Undoubted(cfg, Before(cfg, receipts, i), receipts[i]) && Candid(cfg, Before(cfg, receipts, i), receipts[i])
  }

  lemma UnsteadyIsSeen(cfg: Config, receipts: seq<Receipt>, i: nat)
    requires NamesWhileOpen(cfg.judge) && ReadsRecords(cfg.judge) && i < |receipts|
    requires Orderless(cfg, receipts[..i + 1], false)
    ensures Steady(cfg, receipts, i)
  {
    var part, c := receipts[..i + 1], Before(cfg, receipts, i);
    PlacesAgree(cfg, part, false, i, i + 1);
    MixedAt(cfg, receipts, i);
    MixedClear(cfg, receipts[..i], i);
    if c.ending.None? {
      assert VerdictIn(cfg, c, false, receipts[i].record).valid == VerdictIn(cfg, c, true, receipts[i].record).valid;
    }
  }

  /**
   However far the adapter got, all orders end alike if and only if every record is
   steady.
   */
  lemma EveryBeginningExactly(cfg: Config, receipts: seq<Receipt>)
    requires NamesWhileOpen(cfg.judge) && ReadsRecords(cfg.judge)
    ensures (forall n: nat, broken | n <= |receipts| :: Orderless(cfg, receipts[..n], broken))
       <==> (forall i: nat | i < |receipts| :: Steady(cfg, receipts, i))
  {
    if forall n: nat, broken | n <= |receipts| :: Orderless(cfg, receipts[..n], broken) {
      forall i: nat | i < |receipts| ensures Steady(cfg, receipts, i) {
        UnsteadyIsSeen(cfg, receipts, i);
      }
    }
    if forall i: nat | i < |receipts| :: Steady(cfg, receipts, i) {
      forall n: nat, broken | n <= |receipts| ensures Orderless(cfg, receipts[..n], broken) {
        var part := receipts[..n];
        forall i: nat | i < n ensures Settled(cfg, part, broken, i) {
          assert part[..i] == receipts[..i] && Steady(cfg, receipts, i);
        }
        OrderlessExactly(cfg, part, broken);
      }
    }
  }
}
