// Fencing by worker id. A write-back is stale when the row has been claimed since the
// round's own claim. The fence keeps every stale write out exactly as long as no claim takes
// a row that another round of the same worker id may still write.

module Fencing {
  import opened Wrappers
  import opened Rows
  import opened Claim
  import opened Round
  import opened RoundStart
  import opened OutboxSystem
  import opened Accounting

  // The round may yet write the row: its message is accepted and waits for the ack, is
  // still to be published, or waits for a release that will arrive.
  ghost predicate MayWrite(round: LiveRound, id: Id) {
    id in round.acked || exists g :: 0 <= g < |round.lanes| && Owes(round.lanes[g], id)
  }

  predicate Owes(lane: Lane, id: Id) {
    InLane(id, lane) && (lane.Publishing? || lane.released)
  }

  // The claim takes no row that another round of its worker id may still write.
  ghost predicate Undisputed(s: Sys, step: Step) {
    step.Begin? ==> forall r, i :: r in s.rounds && 0 <= i < |s.rows| ==> !Disputed(s, step, r, i)
  }

  ghost predicate Disputed(s: Sys, step: Step, r: nat, i: nat)
    requires step.Begin? && r in s.rounds && i < |s.rows|
  {
    && s.rounds[r].runner.worker == step.q.worker
    && Taken(s.rows[..i], s.rows[i], step.q)
    && MayWrite(s.rounds[r], s.rows[i].id)
  }

  ghost predicate UndisputedRun(s: Sys, steps: seq<Step>)
    requires |s.tallies| == |s.rows| && Run(s, steps)
    decreases |steps|
  {
    steps == [] ||
    (Undisputed(s, steps[0]) && UndisputedRun(Next(s, steps[0]), steps[1..]))
  }

  // The round's claim of the row is the row's latest.
  predicate Latest(s: Sys, round: LiveRound, id: Id) {
    && 1 <= id <= |s.tallies|
    && id in round.epochs && round.epochs[id] == s.tallies[id - 1].claims
  }

  // The step writes row `i` on the strength of an outdated claim.
  predicate StaleWrite(s: Sys, step: Step, i: nat)
    requires |s.tallies| == |s.rows| && Enabled(s, step) && i < |s.rows|
  {
    && (step.Move? || step.End?)
    && i < |Next(s, step).rows| && Next(s, step).rows[i] != s.rows[i]
    && !Latest(s, s.rounds[step.round], s.rows[i].id)
  }

  ghost predicate FencedRun(s: Sys, steps: seq<Step>)
    requires |s.tallies| == |s.rows| && Run(s, steps)
    decreases |steps|
  {
    steps == [] ||
    ((forall i :: 0 <= i < |s.rows| ==> !StaleWrite(s, steps[0], i)) &&
     FencedRun(Next(s, steps[0]), steps[1..]))
  }

  // ------------------------------------------------------------------ epochs

  // The round knows which claim of the row it holds, and that claim has happened.
  predicate EpochKnown(s: Sys, round: LiveRound, id: Id) {
    && 1 <= id <= |s.rows| && |s.rows| == |s.tallies|
    && id in round.epochs && round.epochs[id] <= s.tallies[id - 1].claims
  }

  ghost predicate RoundKnown(s: Sys, round: LiveRound) {
    forall id: Id :: InRound(id, round) || id in round.acked ==> EpochKnown(s, round, id)
  }

  ghost predicate AllKnown(s: Sys) {
    forall r :: r in s.rounds ==> RoundKnown(s, s.rounds[r])
  }

  // While the round's worker leases a row that the round may write, the lease is the
  // round's own claim.
  ghost predicate RoundFenced(s: Sys, round: LiveRound) {
    forall id: Id :: MayWrite(round, id) ==> OwnLease(s, round, id)
  }

  predicate OwnLease(s: Sys, round: LiveRound, id: Id) {
    && EpochKnown(s, round, id)
    && (s.rows[id - 1].leasedBy == Some(round.runner.worker) ==> Latest(s, round, id))
  }

  ghost predicate Fenced(s: Sys) {
    forall r :: r in s.rounds ==> RoundFenced(s, s.rounds[r])
  }

  // What a step leaves of the ids that a round in flight deals with.
  lemma RoundShrinks(s: Sys, step: Step, r: nat, id: Id)
    requires TableShape(s) && Enabled(s, step) && r in s.rounds && r in Next(s, step).rounds
    ensures
      var round, round' := s.rounds[r], Next(s, step).rounds[r];
      && round'.runner == round.runner && round'.epochs == round.epochs
      && (InRound(id, round') ==> InRound(id, round))
      && (id in round'.acked ==> id in round.acked || InRound(id, round))
      && (MayWrite(round', id) ==> MayWrite(round, id))
  {
    if step.Move? && r == step.round {
      MoveShrinks(s.rounds[r], step.g, step.fate, id);
    }
  }

  lemma MoveShrinks(round: LiveRound, g: nat, fate: Fate, id: Id)
    requires g < |round.lanes| && !round.lanes[g].Closed()
    ensures
      var lane := round.lanes[g];
      var round' := round.(lanes := round.lanes[g := LaneNext(lane, round.runner, fate)],
                           acked := round.acked + NewlyAccepted(lane, fate));
      && (InRound(id, round') ==> InRound(id, round))
      && (id in round'.acked ==> id in round.acked || InRound(id, round))
      && (MayWrite(round', id) ==> MayWrite(round, id))
  {
    var lane := round.lanes[g];
    NextInLane(id, lane, round.runner, fate);
    if id in NewlyAccepted(lane, fate) {
      assert lane.rest[0].id == id;
      assert Owes(lane, id);
    }
  }

  lemma EpochIsLatest(s: Sys, step: Step, i: nat)
    requires TableShape(s) && Enabled(s, step) && step.Begin? && i < |s.rows|
    requires s.rows[i].id in IdsOf(ClaimBatch(s.rows, step.q))
    ensures Latest(Next(s, step), Next(s, step).rounds[step.round], s.rows[i].id)
  {
  }

  // Ids of a new round are the rows it has just taken.
  lemma NewRoundTakes(s: Sys, step: Step, id: Id)
    requires TableShape(s) && Enabled(s, step) && step.Begin?
    requires InRound(id, Next(s, step).rounds[step.round])
    ensures 1 <= id <= |s.rows| && Taken(s.rows[..id - 1], s.rows[id - 1], step.q)
    ensures Latest(Next(s, step), Next(s, step).rounds[step.round], id)
  {
    var round := Next(s, step).rounds[step.round];
    var g :| 0 <= g < |round.lanes| && InLane(id, round.lanes[g]);
    var i := StartTakes(s.rows, step.q, g, id);
    EpochIsLatest(s, step, i);
  }

  lemma ClaimsGrow(s: Sys, step: Step, i: nat)
    requires TableShape(s) && Enabled(s, step) && i < |s.rows|
    ensures i < |Next(s, step).tallies| && Next(s, step).tallies[i].claims >= s.tallies[i].claims
  {
    TalliesTrack(s, step, i);
  }

  lemma RoundStaysKnown(s: Sys, step: Step, r: nat)
    requires TableShape(s) && AllKnown(s) && Enabled(s, step) && r in Next(s, step).rounds
    ensures RoundKnown(Next(s, step), Next(s, step).rounds[r])
  {
    var s' := Next(s, step);
    var round' := s'.rounds[r];
    StepKeepsTable(s, step);
    forall id: Id | InRound(id, round') || id in round'.acked ensures EpochKnown(s', round', id) {
      if step.Begin? && r == step.round {
        NewRoundTakes(s, step, id);
      } else {
        RoundShrinks(s, step, r, id);
        assert EpochKnown(s, s.rounds[r], id);
        ClaimsGrow(s, step, id - 1);
      }
    }
  }

  lemma StepKeepsKnown(s: Sys, step: Step)
    requires TableShape(s) && AllKnown(s) && Enabled(s, step)
    ensures AllKnown(Next(s, step))
  {
    forall r | r in Next(s, step).rounds ensures RoundKnown(Next(s, step), Next(s, step).rounds[r]) {
      RoundStaysKnown(s, step, r);
    }
  }

  // ------------------------------------------------ undisputed claims keep the fence

  // A row that the worker leases after the step was either just claimed or untouched.
  lemma LeaseIsOldOrTaken(s: Sys, step: Step, i: nat)
    requires TableShape(s) && Enabled(s, step) && i < |s.rows|
    requires Next(s, step).rows[i].leasedBy.Some?
    requires !(step.Begin? && Taken(s.rows[..i], s.rows[i], step.q))
    ensures Next(s, step).rows[i] == s.rows[i]
    ensures Next(s, step).tallies[i].claims == s.tallies[i].claims
  {
    RowStepped(s, step, i);
    TalliesTrack(s, step, i);
    if step.Begin? {
      ClaimRowsAt(s.rows, step.q, i);
    }
  }

  lemma OldLeaseStaysOwn(s: Sys, step: Step, r: nat, id: Id)
    requires TableShape(s) && AllKnown(s) && Enabled(s, step) && Undisputed(s, step)
    requires r in s.rounds && r in Next(s, step).rounds && MayWrite(s.rounds[r], id)
    requires OwnLease(s, s.rounds[r], id)
    ensures OwnLease(Next(s, step), Next(s, step).rounds[r], id)
  {
    var s', i := Next(s, step), id - 1;
    RoundShrinks(s, step, r, id);
    ClaimsGrow(s, step, i);
    StepKeepsTable(s, step);
    if s'.rows[i].leasedBy == Some(s.rounds[r].runner.worker) {
      if step.Begin? && Taken(s.rows[..i], s.rows[i], step.q) {
        ClaimRowsAt(s.rows, step.q, i);
        assert Disputed(s, step, r, i);
      } else {
        LeaseIsOldOrTaken(s, step, i);
      }
    }
  }

  lemma RoundStaysFenced(s: Sys, step: Step, r: nat)
    requires TableShape(s) && AllKnown(s) && Fenced(s)
    requires Enabled(s, step) && Undisputed(s, step) && r in Next(s, step).rounds
    ensures RoundFenced(Next(s, step), Next(s, step).rounds[r])
  {
    var s' := Next(s, step);
    var round' := s'.rounds[r];
    StepKeepsTable(s, step);
    forall id: Id | MayWrite(round', id) ensures OwnLease(s', round', id) {
      if step.Begin? && r == step.round {
        assert InRound(id, round');
        NewRoundTakes(s, step, id);
      } else {
        RoundShrinks(s, step, r, id);
        assert OwnLease(s, s.rounds[r], id);
        OldLeaseStaysOwn(s, step, r, id);
      }
    }
  }

  lemma StepKeepsFence(s: Sys, step: Step)
    requires TableShape(s) && AllKnown(s) && Fenced(s) && Enabled(s, step) && Undisputed(s, step)
    ensures Fenced(Next(s, step))
  {
    forall r | r in Next(s, step).rounds ensures RoundFenced(Next(s, step), Next(s, step).rounds[r]) {
      RoundStaysFenced(s, step, r);
    }
  }

  // A round writes only rows that it may write, and only while its worker leases them.
  lemma WriterMayWrite(s: Sys, step: Step, i: nat)
    requires TableShape(s) && Enabled(s, step) && (step.Move? || step.End?) && i < |s.rows|
    requires Next(s, step).rows[i] != s.rows[i]
    ensures MayWrite(s.rounds[step.round], s.rows[i].id)
    ensures s.rows[i].leasedBy == Some(s.rounds[step.round].runner.worker)
  {
    RowStepped(s, step, i);
    if step.Move? {
      var lane := s.rounds[step.round].lanes[step.g];
      assert InLane(s.rows[i].id, lane);
      assert lane.Publishing? || lane.released;
      assert Owes(s.rounds[step.round].lanes[step.g], s.rows[i].id);
    }
  }

  lemma FencedStep(s: Sys, step: Step, i: nat)
    requires TableShape(s) && Fenced(s) && Enabled(s, step) && i < |s.rows|
    ensures !StaleWrite(s, step, i)
  {
    if (step.Move? || step.End?) && Next(s, step).rows[i] != s.rows[i] {
      WriterMayWrite(s, step, i);
      assert OwnLease(s, s.rounds[step.round], s.rows[i].id);
    }
  }

  lemma {:induction false} UndisputedKeepsFence(s: Sys, steps: seq<Step>)
    requires TableShape(s) && AllKnown(s) && Fenced(s) && Run(s, steps) && UndisputedRun(s, steps)
    ensures FencedRun(s, steps)
    ensures
      var end := Exec(s, steps);
      TableShape(end) && AllKnown(end) && Fenced(end)
    decreases |steps|
  {
    if steps != [] {
      StepKeepsTable(s, steps[0]);
      StepKeepsKnown(s, steps[0]);
      StepKeepsFence(s, steps[0]);
      forall i | 0 <= i < |s.rows| ensures !StaleWrite(s, steps[0], i) {
        FencedStep(s, steps[0], i);
      }
      UndisputedKeepsFence(Next(s, steps[0]), steps[1..]);
    }
  }

  // In a run whose claims are undisputed every write-back belongs to the latest claim of the
  // row it changes.
  lemma {:induction false} FencedWriteBack(steps: seq<Step>)
    requires Run(EMPTY, steps) && UndisputedRun(EMPTY, steps)
    ensures FencedRun(EMPTY, steps)
  {
    UndisputedKeepsFence(EMPTY, steps);
  }

  // One round at a time per worker id is a simple way to keep claims undisputed.
  lemma {:induction false} ExclusiveIsUndisputed(s: Sys, steps: seq<Step>)
    requires |s.tallies| == |s.rows| && Run(s, steps) && ExclusiveRun(s, steps)
    ensures UndisputedRun(s, steps)
    decreases |steps|
  {
    if steps != [] {
      ExclusiveIsUndisputed(Next(s, steps[0]), steps[1..]);
    }
  }

  // --------------------------------------- disputed claims let stale writes through

  predicate NoClaims(steps: seq<Step>) {
    forall k :: 0 <= k < |steps| ==> !steps[k].Begin?
  }

  // The rounds in flight cannot write stale any more, however they go on.
  ghost predicate FenceHolds(s: Sys)
    requires |s.tallies| == |s.rows|
  {
    forall steps: seq<Step> :: Run(s, steps) && NoClaims(steps) ==> FencedRun(s, steps)
  }

  // Round `r` may write row `i`, which its worker leases, but on an outdated claim.
  ghost predicate Outdated(s: Sys, r: nat, i: nat) {
    && TableShape(s) && r in s.rounds && i < |s.rows|
    && s.rows[i].leasedBy == Some(s.rounds[r].runner.worker)
    && MayWrite(s.rounds[r], s.rows[i].id) && !Latest(s, s.rounds[r], s.rows[i].id)
  }

  const REPORTED := Failed("", 0, 0, true, true)

  lemma OneStaleStep(s: Sys, step: Step, i: nat)
    requires |s.tallies| == |s.rows| && Enabled(s, step) && !step.Begin?
    requires i < |s.rows| && StaleWrite(s, step, i)
    ensures Run(s, [step]) && NoClaims([step]) && !FencedRun(s, [step])
  {
    assert [step][1..] == [];
  }

  // Publishing the messages before it brings the row's message to the head of its lane,
  // where a reported failure writes the row.
  lemma {:induction false} PublishUpTo(s: Sys, r: nat, g: nat, x: nat, i: nat)
    returns (steps: seq<Step>)
    requires Outdated(s, r, i) && g < |s.rounds[r].lanes|
    requires
      var lane := s.rounds[r].lanes[g];
      lane.Publishing? && x < |lane.rest| && lane.rest[x].id == s.rows[i].id
    ensures Run(s, steps) && NoClaims(steps) && !FencedRun(s, steps)
    decreases x
  {
    var lane := s.rounds[r].lanes[g];
    if lane.rest[0].id == s.rows[i].id {
      var step := Move(r, g, REPORTED);
      ReportWrites(s, r, g, i);
      OneStaleStep(s, step, i);
      steps := [step];
    } else {
      var step := Move(r, g, Accepted);
      var s' := Next(s, step);
      AcceptKeepsOutdated(s, r, g, i);
      assert s'.rounds[r].lanes[g].rest[x - 1] == lane.rest[x];
      var rest := PublishUpTo(s', r, g, x - 1, i);
      steps := [step] + rest;
      assert steps[0] == step && steps[1..] == rest;
    }
  }

  lemma ReportWrites(s: Sys, r: nat, g: nat, i: nat)
    requires Outdated(s, r, i) && g < |s.rounds[r].lanes|
    requires
      var lane := s.rounds[r].lanes[g];
      lane.Publishing? && lane.rest != [] && lane.rest[0].id == s.rows[i].id
    ensures StaleWrite(s, Move(r, g, REPORTED), i)
  {
    var round := s.rounds[r];
    var wb := Effect(round.lanes[g], round.runner, REPORTED);
    assert wb.Ids() == [s.rows[i].id];
    assert Next(s, Move(r, g, REPORTED)).rows[i] == wb.Change(s.rows[i]);
  }

  // Accepting a message writes no row.
  lemma AcceptKeepsOutdated(s: Sys, r: nat, g: nat, i: nat)
    requires Outdated(s, r, i) && g < |s.rounds[r].lanes|
    requires
      var lane := s.rounds[r].lanes[g];
      lane.Publishing? && lane.rest != [] && lane.rest[0].id != s.rows[i].id &&
      InLane(s.rows[i].id, lane)
    ensures Outdated(Next(s, Move(r, g, Accepted)), r, i)
    ensures Next(s, Move(r, g, Accepted)).rows[i] == s.rows[i]
  {
    var lane, s' := s.rounds[r].lanes[g], Next(s, Move(r, g, Accepted));
    StepKeepsTable(s, Move(r, g, Accepted));
    assert s'.rows[i] == s.rows[i] && s'.tallies[i] == s.tallies[i];
    var x :| 0 <= x < |lane.rest| && lane.rest[x].id == s.rows[i].id;
    assert s'.rounds[r].lanes[g].rest[x - 1] == lane.rest[x];
    assert Owes(s'.rounds[r].lanes[g], s.rows[i].id);
  }

  lemma ReleaseWrites(s: Sys, r: nat, g: nat, i: nat)
    requires Outdated(s, r, i) && g < |s.rounds[r].lanes|
    requires
      var lane := s.rounds[r].lanes[g];
      lane.Holding? && lane.released && InLane(s.rows[i].id, lane)
    ensures StaleWrite(s, Move(r, g, Accepted), i)
  {
    var round := s.rounds[r];
    var lane := round.lanes[g];
    var x :| 0 <= x < |lane.rest| && lane.rest[x].id == s.rows[i].id;
    assert IdsOf(lane.rest)[x] == s.rows[i].id;
    var wb := Effect(lane, round.runner, Accepted);
    assert Next(s, Move(r, g, Accepted)).rows[i] == wb.Change(s.rows[i]);
  }

  lemma AckWrites(s: Sys, r: nat, i: nat)
    requires Outdated(s, r, i) && s.rows[i].id in s.rounds[r].acked
    ensures StaleWrite(s, End(r, true), i)
  {
    assert Next(s, End(r, true)).rows[i] == Delivered(s.rows[i]);
  }

  // An outdated round can always go on to write.
  lemma {:induction false} OutdatedWrites(s: Sys, r: nat, i: nat)
    requires Outdated(s, r, i)
    ensures !FenceHolds(s)
  {
    var round, id := s.rounds[r], s.rows[i].id;
    var steps: seq<Step>;
    if id in round.acked {
      steps := [End(r, true)];
      AckWrites(s, r, i);
      OneStaleStep(s, End(r, true), i);
    } else {
      var g :| 0 <= g < |round.lanes| && Owes(round.lanes[g], id);
      var lane := round.lanes[g];
      if lane.Holding? {
        steps := [Move(r, g, Accepted)];
        ReleaseWrites(s, r, g, i);
        OneStaleStep(s, Move(r, g, Accepted), i);
      } else {
        var x :| 0 <= x < |lane.rest| && lane.rest[x].id == id;
        steps := PublishUpTo(s, r, g, x, i);
      }
    }
    assert Run(s, steps) && NoClaims(steps) && !FencedRun(s, steps);
  }

  lemma DisputeOutdates(s: Sys, step: Step, r: nat, i: nat)
    requires TableShape(s) && AllKnown(s) && Enabled(s, step) && step.Begin?
    requires r in s.rounds && i < |s.rows| && Disputed(s, step, r, i)
    ensures Outdated(Next(s, step), r, i)
  {
    var s', round := Next(s, step), s.rounds[r];
    StepKeepsTable(s, step);
    ClaimRowsAt(s.rows, step.q, i);
    TalliesTrack(s, step, i);
    if s.rows[i].id !in round.acked {
      var g :| 0 <= g < |round.lanes| && Owes(round.lanes[g], s.rows[i].id);
      assert InRound(s.rows[i].id, round);
    }
    assert EpochKnown(s, round, s.rows[i].id);
    assert s'.rounds[r] == round;
  }

  // ------------------------------------------------------------ the exact condition

  // At every point of the run the rounds in flight, left to themselves, write nothing stale.
  ghost predicate FenceHoldsThroughout(s: Sys, steps: seq<Step>)
    requires |s.tallies| == |s.rows| && Run(s, steps)
    decreases |steps|
  {
    FenceHolds(s) && (steps == [] || FenceHoldsThroughout(Next(s, steps[0]), steps[1..]))
  }

  lemma {:induction false} NoClaimsIsUndisputed(s: Sys, steps: seq<Step>)
    requires |s.tallies| == |s.rows| && Run(s, steps) && NoClaims(steps)
    ensures UndisputedRun(s, steps)
    decreases |steps|
  {
    if steps != [] {
      assert !steps[0].Begin?;
      assert forall k :: 0 <= k < |steps| - 1 ==> steps[1..][k] == steps[k + 1];
      NoClaimsIsUndisputed(Next(s, steps[0]), steps[1..]);
    }
  }

  lemma FencedHolds(s: Sys)
    requires TableShape(s) && AllKnown(s) && Fenced(s)
    ensures FenceHolds(s)
  {
    forall steps: seq<Step> | Run(s, steps) && NoClaims(steps) ensures FencedRun(s, steps) {
      NoClaimsIsUndisputed(s, steps);
      UndisputedKeepsFence(s, steps);
    }
  }

  lemma {:induction false} FenceConditionFrom(s: Sys, steps: seq<Step>)
    requires TableShape(s) && AllKnown(s) && Fenced(s) && Run(s, steps)
    ensures UndisputedRun(s, steps) <==> FenceHoldsThroughout(s, steps)
    decreases |steps|
  {
    FencedHolds(s);
    if steps != [] {
      var step := steps[0];
      StepKeepsTable(s, step);
      StepKeepsKnown(s, step);
      if Undisputed(s, step) {
        StepKeepsFence(s, step);
        FenceConditionFrom(Next(s, step), steps[1..]);
      } else {
        var r, i :| r in s.rounds && 0 <= i < |s.rows| && Disputed(s, step, r, i);
        DisputeOutdates(s, step, r, i);
        OutdatedWrites(Next(s, step), r, i);
      }
    }
  }

  // The fence stops every stale write, now and however the rounds in flight go on, exactly in
  // the runs where no claim takes a row that another round of its worker id may still write.
  lemma {:induction false} FenceCondition(steps: seq<Step>)
    requires Run(EMPTY, steps)
    ensures UndisputedRun(EMPTY, steps) <==> FenceHoldsThroughout(EMPTY, steps)
  {
    FenceConditionFrom(EMPTY, steps);
  }
}
