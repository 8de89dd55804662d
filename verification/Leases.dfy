// Rounds and their leases. As long as every claim comes before the deadlines of the rounds in
// flight, a round keeps the lease of every row it may still write.

module Leases {
  import opened Wrappers
  import opened Rows
  import opened Claim
  import opened Round
  import opened OutboxSystem
  import opened Accounting
  import opened Fencing

  // When the lease of each round runs out.
  function Deadlines(deadlines: map<nat, Time>, step: Step): map<nat, Time> {
    if step.Begin? then deadlines[step.round := step.q.now + step.q.lease] else deadlines
  }

  // No round in flight has outlived its lease when this claim, by any worker, looks.
  predicate InTime(s: Sys, deadlines: map<nat, Time>, step: Step) {
    step.Begin? ==> forall r :: r in s.rounds && r in deadlines ==> deadlines[r] > step.q.now
  }

  predicate InTimeRun(s: Sys, deadlines: map<nat, Time>, steps: seq<Step>)
    requires |s.tallies| == |s.rows| && Run(s, steps)
    decreases |steps|
  {
    steps == [] ||
    (InTime(s, deadlines, steps[0]) &&
     InTimeRun(Next(s, steps[0]), Deadlines(deadlines, steps[0]), steps[1..]))
  }

  function DeadlinesAfter(deadlines: map<nat, Time>, steps: seq<Step>): map<nat, Time>
    decreases |steps|
  {
    if steps == [] then deadlines else DeadlinesAfter(Deadlines(deadlines, steps[0]), steps[1..])
  }

  // Round `r` leases the row until its deadline.
  predicate Keeps(s: Sys, deadlines: map<nat, Time>, r: nat, id: Id) {
    && r in s.rounds && r in deadlines && 1 <= id <= |s.rows|
    && s.rows[id - 1].leasedBy == Some(s.rounds[r].runner.worker)
    && s.rows[id - 1].leaseUntil == Some(deadlines[r])
  }

  ghost predicate AllKeep(s: Sys, deadlines: map<nat, Time>) {
    forall r, id: Id :: r in s.rounds && MayWrite(s.rounds[r], id) ==> Keeps(s, deadlines, r, id)
  }

  ghost predicate OneWriter(s: Sys) {
    forall r, p, id: Id ::
      (r in s.rounds && p in s.rounds && MayWrite(s.rounds[r], id) && MayWrite(s.rounds[p], id))
      ==> r == p
  }

  // An accepted message has left its lane.
  ghost predicate AckedLeft(s: Sys) {
    forall r, id: Id :: r in s.rounds && id in s.rounds[r].acked ==> !InRound(id, s.rounds[r])
  }

  ghost predicate Leasing(s: Sys, deadlines: map<nat, Time>) {
    Shape(s) && AllKeep(s, deadlines) && OneWriter(s) && AckedLeft(s)
  }

  // A kept row cannot be claimed in time.
  lemma KeptIsNotTaken(s: Sys, deadlines: map<nat, Time>, step: Step, r: nat, id: Id)
    requires step.Begin? && InTime(s, deadlines, step) && Keeps(s, deadlines, r, id)
    ensures !Taken(s.rows[..id - 1], s.rows[id - 1], step.q)
  {
    assert NotReady(s.rows[id - 1], step.q);
  }

  // A message that leaves its lane is in no other lane of its round.
  lemma LeavesRound(round: LiveRound, g: nat, fate: Fate, id: Id)
    requires Disjoint(round.lanes) && g < |round.lanes| && !round.lanes[g].Closed()
    requires InLane(id, round.lanes[g]) && !InLane(id, LaneNext(round.lanes[g], round.runner, fate))
    ensures
      var lanes' := round.lanes[g := LaneNext(round.lanes[g], round.runner, fate)];
      forall h :: 0 <= h < |lanes'| ==> !InLane(id, lanes'[h])
  {
  }

  // A round that writes a row in its own step gives it up.
  lemma WriterGivesUp(s: Sys, step: Step, id: Id)
    requires Shape(s) && AckedLeft(s) && Enabled(s, step) && step.Move? && 1 <= id <= |s.rows|
    requires Next(s, step).rows[id - 1] != s.rows[id - 1]
    ensures !MayWrite(Next(s, step).rounds[step.round], id)
  {
    var round, round' := s.rounds[step.round], Next(s, step).rounds[step.round];
    var lane := round.lanes[step.g];
    assert RoundShape(s, round) && LaneShape(s, lane);
    LaneStep(lane, round.runner, step.fate, s.rows[id - 1]);
    assert InRound(id, round);
    LeavesRound(round, step.g, step.fate, id);
    assert round'.acked == round.acked;
  }

  lemma ClaimLeavesKept(s: Sys, deadlines: map<nat, Time>, step: Step, r: nat, id: Id)
    requires TableShape(s) && Enabled(s, step) && InTime(s, deadlines, step) && step.Begin?
    requires Keeps(s, deadlines, r, id)
    ensures Next(s, step).rows[id - 1] == s.rows[id - 1]
  {
    ClaimRowsAt(s.rows, step.q, id - 1);
    KeptIsNotTaken(s, deadlines, step, r, id);
  }

  lemma OnlyTheWriter(s: Sys, step: Step, r: nat, id: Id)
    requires TableShape(s) && OneWriter(s) && Enabled(s, step) && (step.Move? || step.End?)
    requires r in s.rounds && MayWrite(s.rounds[r], id) && 1 <= id <= |s.rows|
    requires Next(s, step).rows[id - 1] != s.rows[id - 1]
    ensures step.round == r
  {
    assert s.rows[id - 1].id == id;
    WriterMayWrite(s, step, id - 1);
  }

  // A kept row is changed by nobody but the round that keeps it, and then given up.
  lemma RowStaysKept(s: Sys, deadlines: map<nat, Time>, step: Step, r: nat, id: Id)
    requires Leasing(s, deadlines) && Enabled(s, step) && InTime(s, deadlines, step)
    requires r in s.rounds && r in Next(s, step).rounds && MayWrite(Next(s, step).rounds[r], id)
    ensures Keeps(s, deadlines, r, id) && Next(s, step).rows[id - 1] == s.rows[id - 1]
  {
    RoundShrinks(s, step, r, id);
    assert Keeps(s, deadlines, r, id);
    if step.Begin? {
      ClaimLeavesKept(s, deadlines, step, r, id);
    } else if !step.Produce? && Next(s, step).rows[id - 1] != s.rows[id - 1] {
      OnlyTheWriter(s, step, r, id);
      if step.Move? {
        WriterGivesUp(s, step, id);
      }
    }
  }

  lemma TakenIsKept(s: Sys, deadlines: map<nat, Time>, step: Step, id: Id)
    requires TableShape(s) && Enabled(s, step) && step.Begin? && 1 <= id <= |s.rows|
    requires Taken(s.rows[..id - 1], s.rows[id - 1], step.q)
    ensures Keeps(Next(s, step), Deadlines(deadlines, step), step.round, id)
  {
    ClaimRowsAt(s.rows, step.q, id - 1);
    assert Next(s, step).rows[id - 1] == Leased(s.rows[id - 1], step.q);
  }

  lemma NewRoundWrites(s: Sys, step: Step, id: Id)
    requires |s.tallies| == |s.rows| && Enabled(s, step) && step.Begin?
    requires MayWrite(Next(s, step).rounds[step.round], id)
    ensures InRound(id, Next(s, step).rounds[step.round])
  {
  }

  lemma NewRoundKeeps(s: Sys, deadlines: map<nat, Time>, step: Step, id: Id)
    requires TableShape(s) && Enabled(s, step) && step.Begin?
    requires MayWrite(Next(s, step).rounds[step.round], id)
    ensures 1 <= id <= |s.rows| && Taken(s.rows[..id - 1], s.rows[id - 1], step.q)
    ensures Keeps(Next(s, step), Deadlines(deadlines, step), step.round, id)
  {
    NewRoundWrites(s, step, id);
    NewRoundTakes(s, step, id);
    TakenIsKept(s, deadlines, step, id);
  }

  lemma StepKeepsLeases(s: Sys, deadlines: map<nat, Time>, step: Step)
    requires Leasing(s, deadlines) && Enabled(s, step) && InTime(s, deadlines, step)
    ensures AllKeep(Next(s, step), Deadlines(deadlines, step))
  {
    var s', later := Next(s, step), Deadlines(deadlines, step);
    forall r, id: Id | r in s'.rounds && MayWrite(s'.rounds[r], id) ensures Keeps(s', later, r, id) {
      if step.Begin? && r == step.round {
        NewRoundKeeps(s, deadlines, step, id);
      } else {
        RoundShrinks(s, step, r, id);
        RowStaysKept(s, deadlines, step, r, id);
        StepKeepsTable(s, step);
      }
    }
  }

  // A row that the new round takes is not one that an older round may still write.
  lemma NewWriterIsOnly(s: Sys, deadlines: map<nat, Time>, step: Step, r: nat, id: Id)
    requires Leasing(s, deadlines) && Enabled(s, step) && InTime(s, deadlines, step) && step.Begin?
    requires r in s.rounds && MayWrite(Next(s, step).rounds[step.round], id)
    ensures !MayWrite(s.rounds[r], id)
  {
    NewRoundKeeps(s, deadlines, step, id);
    if MayWrite(s.rounds[r], id) {
      assert Keeps(s, deadlines, r, id);
      KeptIsNotTaken(s, deadlines, step, r, id);
    }
  }

  lemma StepKeepsOneWriter(s: Sys, deadlines: map<nat, Time>, step: Step)
    requires Leasing(s, deadlines) && Enabled(s, step) && InTime(s, deadlines, step)
    ensures OneWriter(Next(s, step))
  {
    var s' := Next(s, step);
    forall r, p, id: Id | r in s'.rounds && p in s'.rounds && r != p && MayWrite(s'.rounds[r], id)
      ensures !MayWrite(s'.rounds[p], id)
    {
      if step.Begin? && r == step.round {
        NewWriterIsOnly(s, deadlines, step, p, id);
      } else if step.Begin? && p == step.round {
        if MayWrite(s'.rounds[p], id) {
          NewWriterIsOnly(s, deadlines, step, r, id);
        }
      } else {
        RoundShrinks(s, step, r, id);
        RoundShrinks(s, step, p, id);
      }
    }
  }

  lemma StepKeepsAckedLeft(s: Sys, step: Step)
    requires Shape(s) && AckedLeft(s) && Enabled(s, step)
    ensures AckedLeft(Next(s, step))
  {
    var s' := Next(s, step);
    forall r, id: Id | r in s'.rounds && id in s'.rounds[r].acked ensures !InRound(id, s'.rounds[r]) {
      if !(step.Begin? && r == step.round) {
        RoundShrinks(s, step, r, id);
        if id !in s.rounds[r].acked {
          NewlyAckedLeft(s, step, id);
        }
      }
    }
  }

  lemma NewlyAckedLeft(s: Sys, step: Step, id: Id)
    requires Shape(s) && Enabled(s, step) && step.Move?
    requires id in NewlyAccepted(s.rounds[step.round].lanes[step.g], step.fate)
    ensures !InRound(id, Next(s, step).rounds[step.round])
  {
    var round := s.rounds[step.round];
    var lane := round.lanes[step.g];
    assert RoundShape(s, round) && LaneShape(s, lane);
    assert InLane(lane.rest[0].id, lane);
    var next := LaneNext(lane, round.runner, step.fate);
    forall x | 0 <= x < |next.rest| ensures next.rest[x].id != id {
      assert next.rest[x] == lane.rest[x + 1];
    }
    LeavesRound(round, step.g, step.fate, id);
  }

  lemma StepKeepsLeasing(s: Sys, deadlines: map<nat, Time>, step: Step)
    requires Leasing(s, deadlines) && Enabled(s, step) && InTime(s, deadlines, step)
    ensures Leasing(Next(s, step), Deadlines(deadlines, step)) && Undisputed(s, step)
  {
    StepKeepsShape(s, step);
    StepKeepsLeases(s, deadlines, step);
    StepKeepsOneWriter(s, deadlines, step);
    StepKeepsAckedLeft(s, step);
    InTimeIsUndisputed(s, deadlines, step);
  }

  lemma InTimeIsUndisputed(s: Sys, deadlines: map<nat, Time>, step: Step)
    requires Leasing(s, deadlines) && InTime(s, deadlines, step)
    ensures Undisputed(s, step)
  {
    if step.Begin? {
      forall r, i | r in s.rounds && 0 <= i < |s.rows| ensures !Disputed(s, step, r, i) {
        if MayWrite(s.rounds[r], s.rows[i].id) {
          assert s.rows[i].id == i + 1;
          KeptIsNotTaken(s, deadlines, step, r, s.rows[i].id);
        }
      }
    }
  }

  lemma {:induction false} RunKeepsLeasing(s: Sys, deadlines: map<nat, Time>, steps: seq<Step>)
    requires Leasing(s, deadlines) && Run(s, steps) && InTimeRun(s, deadlines, steps)
    ensures UndisputedRun(s, steps)
    ensures Leasing(Exec(s, steps), DeadlinesAfter(deadlines, steps))
    decreases |steps|
  {
    if steps != [] {
      StepKeepsLeasing(s, deadlines, steps[0]);
      RunKeepsLeasing(Next(s, steps[0]), Deadlines(deadlines, steps[0]), steps[1..]);
    }
  }

  // If no claim, by whichever worker, comes after the deadline of a round in flight, all claims
  // are undisputed: any number of rounds may share a worker id, and reports may be lost. Every
  // row that a round may still write is leased to it, so that no write-back is fenced off.
  lemma InTimeRunsAreUndisputed(steps: seq<Step>)
    requires Run(EMPTY, steps) && InTimeRun(EMPTY, map[], steps)
    ensures UndisputedRun(EMPTY, steps)
    ensures
      var s := Exec(EMPTY, steps);
      forall r, id: Id :: r in s.rounds && MayWrite(s.rounds[r], id) ==>
        1 <= id <= |s.rows| && s.rows[id - 1].leasedBy == Some(s.rounds[r].runner.worker)
  {
    RunKeepsLeasing(EMPTY, map[], steps);
  }
}
