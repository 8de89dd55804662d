// Leases bound duplicates: when every round ends inside its lease and its write-backs
// arrive, no claim is ever superseded and every message is accepted at most once.

module Punctuality {
  import opened Wrappers
  import opened Rows
  import opened Claim
  import opened Grouping
  import opened Round
  import opened RoundStart
  import opened OutboxSystem
  import opened Accounting
  import opened Leases

  // Failures are reported and followers released, and a round ends with everything settled and
  // its ack arriving.
  predicate Arrives(s: Sys, step: Step)
    requires Enabled(s, step)
  {
    match step
    case Produce(_, _) => true
    case Begin(_, _, _) => true
    case Move(_, _, fate) => fate.Failed? ==> fate.reported && fate.released
    case End(r, acks) => acks && AllClosed(s.rounds[r].lanes)
  }

  // Besides, no round outlives its lease as far as a later claim can see.
  predicate Punctual(s: Sys, deadlines: map<nat, Time>, step: Step)
    requires Enabled(s, step)
  {
    InTime(s, deadlines, step) && Arrives(s, step)
  }

  predicate PunctualRun(s: Sys, deadlines: map<nat, Time>, steps: seq<Step>)
    requires |s.tallies| == |s.rows| && Run(s, steps)
    decreases |steps|
  {
    steps == [] ||
    (Punctual(s, deadlines, steps[0]) &&
     PunctualRun(Next(s, steps[0]), Deadlines(deadlines, steps[0]), steps[1..]))
  }

  // The row is leased by a round in flight, until that round's deadline, and the round will
  // still settle it.
  ghost predicate Holds(s: Sys, deadlines: map<nat, Time>, r: nat, row: Row) {
    && r in s.rounds && r in deadlines
    && row.leasedBy == Some(s.rounds[r].runner.worker) && row.leaseUntil == Some(deadlines[r])
    && (InRound(row.id, s.rounds[r]) || row.id in s.rounds[r].acked)
  }

  ghost predicate AllHeld(s: Sys, deadlines: map<nat, Time>) {
    forall i :: 0 <= i < |s.rows| && s.rows[i].leasedBy.Some? ==>
      exists r :: Holds(s, deadlines, r, s.rows[i])
  }

  ghost predicate HoldersRelease(s: Sys) {
    forall r, g :: r in s.rounds && 0 <= g < |s.rounds[r].lanes| && s.rounds[r].lanes[g].Holding?
      ==> s.rounds[r].lanes[g].released
  }

  ghost predicate NoneSuperseded(s: Sys) {
    forall i :: 0 <= i < |s.tallies| ==> s.tallies[i].superseded == 0
  }

  // One step of a lane keeps a row in the lane, accepts its message, or writes it back.
  lemma LaneSettles(row: Row, lane: Lane, r: Runner, fate: Fate)
    requires InLane(row.id, lane) && row.leasedBy == Some(r.worker)
    requires fate.Failed? ==> fate.reported && fate.released
    requires lane.Holding? ==> lane.released
    ensures || InLane(row.id, LaneNext(lane, r, fate))
            || row.id in NewlyAccepted(lane, fate)
            || WriteRow(row, Effect(lane, r, fate), r.worker).leasedBy.None?
  {
    var x :| 0 <= x < |lane.rest| && lane.rest[x].id == row.id;
    if lane.Holding? {
      assert IdsOf(lane.rest)[x] == row.id;
    } else if x > 0 {
      assert LaneNext(lane, r, fate).rest[x - 1].id == row.id;
    }
  }

  lemma MoveKeepsHeld(s: Sys, deadlines: map<nat, Time>, step: Step, i: nat,
                      r: nat)
    requires TableShape(s) && Enabled(s, step) && step.Move? && Punctual(s, deadlines, step)
    requires HoldersRelease(s) && i < |s.rows| && Holds(s, deadlines, r, s.rows[i])
    ensures
      var s' := Next(s, step);
      s'.rows[i].leasedBy.Some? ==> Holds(s', deadlines, r, s'.rows[i])
  {
    var s', row := Next(s, step), s.rows[i];
    RowStepped(s, step, i);
    var round, round' := s.rounds[r], s'.rounds[r];
    if s'.rows[i].leasedBy.Some? && InRound(row.id, round) {
      var g :| 0 <= g < |round.lanes| && InLane(row.id, round.lanes[g]);
      if r == step.round && g == step.g {
        LaneSettles(row, round.lanes[g], round.runner, step.fate);
      }
      assert round'.lanes[g] == round.lanes[g] || (r == step.round && g == step.g);
    }
  }

  lemma BeginHoldsNew(s: Sys, deadlines: map<nat, Time>, step: Step, i: nat)
    requires TableShape(s) && Enabled(s, step) && step.Begin?
    requires i < |s.rows| && Taken(s.rows[..i], s.rows[i], step.q)
    ensures
      var s' := Next(s, step);
      Holds(s', Deadlines(deadlines, step), step.round, s'.rows[i])
  {
    var s', q := Next(s, step), step.q;
    ClaimRowsAt(s.rows, q, i);
    var batch := ClaimBatch(s.rows, q);
    var b := BatchComplete(s.rows, q, i);
    var g := EveryPositionOnce(batch, b);
    GroupIsStable(batch, g);
    var x :| 0 <= x < |GroupPositions(batch, g)| && GroupPositions(batch, g)[x] == b;
    var lane := StartLanes(batch)[g];
    assert lane.rest[x].id == s.rows[i].id;
    assert InLane(s.rows[i].id, s'.rounds[step.round].lanes[g]);
  }

  lemma RowStaysHeld(s: Sys, deadlines: map<nat, Time>, step: Step, i: nat)
    requires TableShape(s) && Enabled(s, step) && Punctual(s, deadlines, step)
    requires HoldersRelease(s) && AllHeld(s, deadlines) && i < |s.rows|
    requires Next(s, step).rows[i].leasedBy.Some?
    ensures
      var s' := Next(s, step);
      exists r :: Holds(s', Deadlines(deadlines, step), r, s'.rows[i])
  {
    var s' := Next(s, step);
    RowStepped(s, step, i);
    if step.Begin? && Taken(s.rows[..i], s.rows[i], step.q) {
      BeginHoldsNew(s, deadlines, step, i);
    } else {
      if step.Begin? {
        ClaimRowsAt(s.rows, step.q, i);
      }
      var r :| Holds(s, deadlines, r, s.rows[i]);
      if step.Move? {
        MoveKeepsHeld(s, deadlines, step, i, r);
      } else if step.End? && r == step.round {
        EndSettles(s, deadlines, step, i);
      }
      assert Holds(s', Deadlines(deadlines, step), r, s'.rows[i]);
    }
  }

  // A punctual end leaves none of its rows leased.
  lemma EndSettles(s: Sys, deadlines: map<nat, Time>, step: Step, i: nat)
    requires TableShape(s) && Enabled(s, step) && step.End? && Punctual(s, deadlines, step)
    requires i < |s.rows| && Holds(s, deadlines, step.round, s.rows[i])
    ensures Next(s, step).rows[i].leasedBy.None?
  {
    var round := s.rounds[step.round];
    assert forall g :: 0 <= g < |round.lanes| ==> round.lanes[g].Closed();
    assert s.rows[i].id in round.acked;
  }

  // A live lease cannot be taken over.
  lemma StepKeepsUnsuperseded(s: Sys, deadlines: map<nat, Time>, step: Step)
    requires TableShape(s) && Enabled(s, step) && Punctual(s, deadlines, step)
    requires AllHeld(s, deadlines) && NoneSuperseded(s)
    ensures NoneSuperseded(Next(s, step))
  {
    var s' := Next(s, step);
    forall i | 0 <= i < |s.rows| ensures s'.tallies[i].superseded == 0 {
      TalliesTrack(s, step, i);
      if step.Begin? && s.rows[i].leasedBy.Some? {
        var r :| Holds(s, deadlines, r, s.rows[i]);
        assert NotReady(s.rows[i], step.q);
      }
    }
    if step.Produce? {
      assert s'.tallies == s.tallies + [Tally(0, 0, 0)];
    }
  }

  lemma StepKeepsReleasing(s: Sys, deadlines: map<nat, Time>, step: Step)
    requires TableShape(s) && Enabled(s, step) && Punctual(s, deadlines, step)
    requires HoldersRelease(s)
    ensures HoldersRelease(Next(s, step))
  {
  }

  lemma StepKeepsHeld(s: Sys, deadlines: map<nat, Time>, step: Step)
    requires TableShape(s) && Enabled(s, step) && Punctual(s, deadlines, step)
    requires HoldersRelease(s) && AllHeld(s, deadlines)
    ensures AllHeld(Next(s, step), Deadlines(deadlines, step))
  {
    var s', later := Next(s, step), Deadlines(deadlines, step);
    forall i | 0 <= i < |s'.rows| && s'.rows[i].leasedBy.Some?
      ensures exists r :: Holds(s', later, r, s'.rows[i])
    {
      if i < |s.rows| {
        RowStaysHeld(s, deadlines, step, i);
      }
    }
  }

  lemma {:induction false} RunKeepsUnsuperseded(s: Sys, deadlines: map<nat, Time>,
                                                steps: seq<Step>)
    requires TableShape(s) && Run(s, steps)
    requires PunctualRun(s, deadlines, steps)
    requires HoldersRelease(s) && AllHeld(s, deadlines) && NoneSuperseded(s)
    ensures NoneSuperseded(Exec(s, steps))
    decreases |steps|
  {
    if steps != [] {
      var step := steps[0];
      StepKeepsTable(s, step);
      StepKeepsReleasing(s, deadlines, step);
      StepKeepsHeld(s, deadlines, step);
      StepKeepsUnsuperseded(s, deadlines, step);
      RunKeepsUnsuperseded(Next(s, step), Deadlines(deadlines, step), steps[1..]);
    }
  }

  // The lease guarantee: if every round is over before its lease runs out and its
  // write-backs arrive, every message is accepted at most once, and exactly once when DONE,
  // whatever the publisher does and however many workers there are.
  lemma PunctualRoundsDeliverOnce(steps: seq<Step>, i: nat)
    requires Run(EMPTY, steps) && PunctualRun(EMPTY, map[], steps)
    requires i < |Exec(EMPTY, steps).rows|
    ensures
      var s := Exec(EMPTY, steps);
      var deliveries := multiset(s.log)[s.rows[i].id];
      deliveries <= 1 && (s.rows[i].status.Done? ==> deliveries == 1)
  {
    RunKeepsUnsuperseded(EMPTY, map[], steps);
    DuplicateBound(steps, i);
  }
}
