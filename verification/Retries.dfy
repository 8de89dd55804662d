// Attempts, nacks and dead letters of one message over every run.

module Retries {
  import opened Rows
  import opened Claim
  import opened Round
  import opened RoundStart
  import opened OutboxSystem
  import opened Accounting

  // ------------------------------------------------------- attempts of messages

  // Effective nacks and superseded claims: the attempts a row has behind it.
  function Spent(t: Tally): nat {
    t.nacks + t.superseded
  }

  // Every message in a lane was claimed at least once, and no later than its row.
  predicate AttemptFits(s: Sys, m: Message) {
    && 1 <= m.id <= |s.tallies|
    && 1 <= m.attempts <= Spent(s.tallies[m.id - 1]) + 1
  }

  ghost predicate LaneFits(s: Sys, lane: Lane) {
    forall x :: 0 <= x < |lane.rest| ==> AttemptFits(s, lane.rest[x])
  }

  ghost predicate AllFit(s: Sys) {
    forall r, g :: r in s.rounds && 0 <= g < |s.rounds[r].lanes| ==>
      LaneFits(s, s.rounds[r].lanes[g])
  }

  lemma SpentGrows(s: Sys, step: Step, i: nat)
    requires TableShape(s) && Enabled(s, step) && i < |s.rows|
    ensures i < |Next(s, step).tallies| && Spent(Next(s, step).tallies[i]) >= Spent(s.tallies[i])
  {
    TalliesTrack(s, step, i);
  }

  // A message just claimed carries its row's attempts, the claim included.
  lemma NewLaneFits(s: Sys, step: Step, g: nat)
    requires TableShape(s) && Accounted(s) && Enabled(s, step) && step.Begin?
    requires g < |Next(s, step).rounds[step.round].lanes|
    ensures LaneFits(Next(s, step), Next(s, step).rounds[step.round].lanes[g])
  {
    var s', batch := Next(s, step), ClaimBatch(s.rows, step.q);
    var lane := s'.rounds[step.round].lanes[g];
    StepKeepsAccounts(s, step);
    forall x | 0 <= x < |lane.rest| ensures AttemptFits(s', lane.rest[x]) {
      var b := GroupMember(batch, g, x);
      var i := BatchSource(s.rows, step.q, b);
      ClaimRowsAt(s.rows, step.q, i);
      assert s'.rows[i] == Leased(s.rows[i], step.q);
    }
  }

  lemma OldLaneFits(s: Sys, step: Step, lane: Lane)
    requires TableShape(s) && Enabled(s, step) && LaneFits(s, lane)
    ensures LaneFits(Next(s, step), lane)
  {
    forall x | 0 <= x < |lane.rest| ensures AttemptFits(Next(s, step), lane.rest[x]) {
      SpentGrows(s, step, lane.rest[x].id - 1);
    }
  }

  lemma NextLaneFits(s: Sys, lane: Lane, r: Runner, fate: Fate)
    requires LaneFits(s, lane)
    ensures LaneFits(s, LaneNext(lane, r, fate))
  {
    var next := LaneNext(lane, r, fate);
    assert next.rest == lane.rest || next.rest == [] || next.rest == lane.rest[1..];
  }

  lemma StepKeepsFit(s: Sys, step: Step)
    requires TableShape(s) && Accounted(s) && AllFit(s) && Enabled(s, step)
    ensures AllFit(Next(s, step))
  {
    var s' := Next(s, step);
    forall r, g | r in s'.rounds && 0 <= g < |s'.rounds[r].lanes|
      ensures LaneFits(s', s'.rounds[r].lanes[g])
    {
      if step.Begin? && r == step.round {
        NewLaneFits(s, step, g);
      } else {
        OldLaneFits(s, step, s.rounds[r].lanes[g]);
        if step.Move? && r == step.round && g == step.g {
          NextLaneFits(s', s.rounds[r].lanes[g], s.rounds[r].runner, step.fate);
        }
      }
    }
  }

  lemma {:induction false} RunKeepsFit(s: Sys, steps: seq<Step>)
    requires TableShape(s) && Accounted(s) && AllFit(s) && Run(s, steps)
    ensures
      var end := Exec(s, steps);
      TableShape(end) && Accounted(end) && AllFit(end)
    decreases |steps|
  {
    if steps != [] {
      StepKeepsTable(s, steps[0]);
      StepKeepsAccounts(s, steps[0]);
      StepKeepsFit(s, steps[0]);
      RunKeepsFit(Next(s, steps[0]), steps[1..]);
    }
  }

  // In every run, stale rounds included, a message that can still fail has an attempt that
  // the back-off accepts, and never more attempts than its row has been given.
  lemma AttemptsStartAtOne(steps: seq<Step>, r: nat, g: nat, x: nat)
    requires Run(EMPTY, steps)
    requires
      var s := Exec(EMPTY, steps);
      r in s.rounds && g < |s.rounds[r].lanes| && x < |s.rounds[r].lanes[g].rest|
    ensures
      var s := Exec(EMPTY, steps);
      var m := s.rounds[r].lanes[g].rest[x];
      && 1 <= m.id <= |s.tallies|
      && 1 <= m.attempts <= s.tallies[m.id - 1].nacks + s.tallies[m.id - 1].superseded + 1
  {
    RunKeepsFit(EMPTY, steps);
    var s := Exec(EMPTY, steps);
    assert LaneFits(s, s.rounds[r].lanes[g]) && AttemptFits(s, s.rounds[r].lanes[g].rest[x]);
  }

  // ----------------------------------------------------------- bounded retries

  // The lane can still nack the message: it is to be published, on an attempt below `limit`.
  predicate CanNack(lane: Lane, id: Id, limit: int) {
    lane.Publishing? &&
    exists x :: 0 <= x < |lane.rest| && lane.rest[x].id == id && lane.rest[x].attempts < limit
  }

  ghost predicate RoundCanNack(round: LiveRound, id: Id, limit: int) {
    exists g :: 0 <= g < |round.lanes| && CanNack(round.lanes[g], id, limit)
  }

  ghost function Nackers(s: Sys, id: Id, limit: int): set<nat> {
    set r | r in s.rounds && RoundCanNack(s.rounds[r], id, limit)
  }

  // Each nack that took effect, and each round that may still send one, used up one of the
  // attempts below `limit`.
  ghost predicate NacksBounded(s: Sys, limit: int) {
    |s.tallies| == |s.rows| &&
    forall i :: 0 <= i < |s.rows| ==>
      s.tallies[i].nacks + |Nackers(s, s.rows[i].id, limit)| <= limit - 1
  }

  ghost predicate AtMost(s: Sys, limit: int) {
    forall r :: r in s.rounds ==> s.rounds[r].runner.maxAttempts <= limit
  }

  lemma NackersWait(s: Sys, id: Id, limit: int)
    ensures Nackers(s, id, limit) <= Waiting(s, id)
  {
    forall r | r in Nackers(s, id, limit) ensures r in Waiting(s, id) {
      var g :| 0 <= g < |s.rounds[r].lanes| && CanNack(s.rounds[r].lanes[g], id, limit);
      assert InLane(id, s.rounds[r].lanes[g]);
    }
  }

  lemma RoundNextCanNack(round: LiveRound, g: nat, fate: Fate, id: Id, limit: int)
    requires g < |round.lanes| && !round.lanes[g].Closed()
    ensures
      var lanes' := round.lanes[g := LaneNext(round.lanes[g], round.runner, fate)];
      RoundCanNack(round.(lanes := lanes'), id, limit) ==> RoundCanNack(round, id, limit)
  {
    var lane, next := round.lanes[g], LaneNext(round.lanes[g], round.runner, fate);
    if CanNack(next, id, limit) && next.rest != [] {
      assert next.rest == lane.rest[1..];
      var x :| 0 <= x < |next.rest| && next.rest[x].id == id && next.rest[x].attempts < limit;
      assert lane.rest[x + 1] == next.rest[x];
    }
  }

  // Only a claim adds a round that can nack.
  lemma NackersShrink(s: Sys, step: Step, id: Id, limit: int)
    requires TableShape(s) && Enabled(s, step)
    ensures
      var after := Nackers(Next(s, step), id, limit);
      after <= Nackers(s, id, limit) + (if step.Begin? then {step.round} else {})
  {
    if step.Move? {
      var round := s.rounds[step.round];
      RoundNextCanNack(round, step.g, step.fate, id, limit);
      var lanes' := round.lanes[step.g := LaneNext(round.lanes[step.g], round.runner, step.fate)];
      if RoundCanNack(Next(s, step).rounds[step.round], id, limit) {
        assert RoundCanNack(round.(lanes := lanes'), id, limit);
      }
    }
  }

  // A round that has nacked the message cannot nack it again.
  lemma NackedOnce(round: LiveRound, g: nat, fate: Fate, id: Id, limit: int)
    requires Disjoint(round.lanes) && g < |round.lanes| && fate.Failed?
    requires round.lanes[g].Publishing? && round.lanes[g].rest != [] && round.lanes[g].rest[0].id == id
    ensures
      var lanes' := round.lanes[g := LaneNext(round.lanes[g], round.runner, fate)];
      !RoundCanNack(round.(lanes := lanes'), id, limit)
  {
    assert InLane(id, round.lanes[g]);
    forall h | 0 <= h < |round.lanes| && h != g ensures !InLane(id, round.lanes[h]) {}
    forall h | 0 <= h < |round.lanes| && h != g ensures !CanNack(round.lanes[h], id, limit) {
      assert !InLane(id, round.lanes[h]);
    }
  }

  // A claim on the last attempt, or later, adds no round that can nack.
  lemma LateClaimCannotNack(s: Sys, step: Step, i: nat, limit: int)
    requires TableShape(s) && Enabled(s, step) && step.Begin? && i < |s.rows|
    requires RoundCanNack(Next(s, step).rounds[step.round], s.rows[i].id, limit)
    ensures Taken(s.rows[..i], s.rows[i], step.q)
    ensures Next(s, step).rows[i].attempts < limit
  {
    var batch, round := ClaimBatch(s.rows, step.q), Next(s, step).rounds[step.round];
    var g :| 0 <= g < |round.lanes| && CanNack(round.lanes[g], s.rows[i].id, limit);
    var lane := round.lanes[g];
    var x :| 0 <= x < |lane.rest| && lane.rest[x].id == s.rows[i].id && lane.rest[x].attempts < limit;
    var b := GroupMember(batch, g, x);
    var j := BatchSource(s.rows, step.q, b);
    assert i == j;
    ClaimRowsAt(s.rows, step.q, i);
  }

  lemma BeginKeepsNacks(s: Sys, step: Step, limit: int, i: nat)
    requires Shape(s) && Accounted(s) && Bounded(s) && NacksBounded(s, limit)
    requires Enabled(s, step) && step.Begin? && i < |s.rows|
    ensures
      var s' := Next(s, step);
      s'.tallies[i].nacks + |Nackers(s', s.rows[i].id, limit)| <= limit - 1
  {
    var s', id := Next(s, step), s.rows[i].id;
    NackersShrink(s, step, id, limit);
    TalliesTrack(s, step, i);
    if RoundCanNack(s'.rounds[step.round], id, limit) {
      LateClaimCannotNack(s, step, i, limit);
      StepKeepsAccounts(s, step);
      StepKeepsBound(s, step);
      ClaimRowsAt(s.rows, step.q, i);
      NackersWait(s', id, limit);
      SubsetSize(Nackers(s', id, limit), Waiting(s', id));
      assert s'.rows[i] == Leased(s.rows[i], step.q);
    } else {
      SubsetSize(Nackers(s', id, limit), Nackers(s, id, limit));
    }
  }

  lemma OtherKeepsNacks(s: Sys, step: Step, limit: int, i: nat)
    requires Shape(s) && NacksBounded(s, limit) && AtMost(s, limit)
    requires Enabled(s, step) && !step.Begin? && i < |s.rows|
    ensures
      var s' := Next(s, step);
      s'.tallies[i].nacks + |Nackers(s', s.rows[i].id, limit)| <= limit - 1
  {
    var s', id := Next(s, step), s.rows[i].id;
    NackersShrink(s, step, id, limit);
    TalliesTrack(s, step, i);
    if NackLands(s, step, s.rows[i]) {
      var round := s.rounds[step.round];
      assert CanNack(round.lanes[step.g], id, limit);
      assert RoundShape(s, round);
      NackedOnce(round, step.g, step.fate, id, limit);
      NackLeaves(s, step, id, limit);
      SubsetSize(Nackers(s', id, limit), Nackers(s, id, limit) - {step.round});
    } else {
      SubsetSize(Nackers(s', id, limit), Nackers(s, id, limit));
    }
  }

  lemma NackLeaves(s: Sys, step: Step, id: Id, limit: int)
    requires |s.tallies| == |s.rows| && Enabled(s, step) && step.Move?
    requires
      var round := s.rounds[step.round];
      var lanes' := round.lanes[step.g := LaneNext(round.lanes[step.g], round.runner, step.fate)];
      !RoundCanNack(round.(lanes := lanes'), id, limit)
    ensures step.round !in Nackers(Next(s, step), id, limit)
  {
    var round := s.rounds[step.round];
    var lanes' := round.lanes[step.g := LaneNext(round.lanes[step.g], round.runner, step.fate)];
    assert Next(s, step).rounds[step.round].lanes == round.(lanes := lanes').lanes;
  }

  lemma FreshRowNacks(s: Sys, step: Step, limit: int)
    requires Shape(s) && step.Produce?
    ensures Nackers(Next(s, step), |s.rows| + 1, limit) == {}
  {
    NewRowUnseen(s, step);
    NackersWait(Next(s, step), |s.rows| + 1, limit);
  }

  lemma StepKeepsNacks(s: Sys, step: Step, limit: int)
    requires Shape(s) && Accounted(s) && Bounded(s) && NacksBounded(s, limit) && AtMost(s, limit)
    requires limit >= 1 && Enabled(s, step)
    ensures NacksBounded(Next(s, step), limit)
  {
    var s' := Next(s, step);
    StepKeepsTable(s, step);
    forall i | 0 <= i < |s'.rows|
      ensures s'.tallies[i].nacks + |Nackers(s', s'.rows[i].id, limit)| <= limit - 1
    {
      if i >= |s.rows| {
        FreshRowNacks(s, step, limit);
      } else {
        assert s'.rows[i].id == s.rows[i].id;
        if step.Begin? {
          BeginKeepsNacks(s, step, limit, i);
        } else {
          OtherKeepsNacks(s, step, limit, i);
        }
      }
    }
  }

  predicate RoundsAtMost(steps: seq<Step>, limit: int) {
    forall k :: 0 <= k < |steps| && steps[k].Begin? ==> steps[k].maxAttempts <= limit
  }

  ghost predicate NackInvariant(s: Sys, limit: int) {
    Shape(s) && Accounted(s) && Bounded(s) && NacksBounded(s, limit) && AtMost(s, limit)
  }

  lemma StepKeepsNackInvariant(s: Sys, step: Step, limit: int)
    requires limit >= 1 && NackInvariant(s, limit) && Enabled(s, step)
    requires step.Begin? ==> step.maxAttempts <= limit
    ensures NackInvariant(Next(s, step), limit)
  {
    StepKeepsShape(s, step);
    StepKeepsAccounts(s, step);
    StepKeepsBound(s, step);
    StepKeepsNacks(s, step, limit);
  }

  lemma {:induction false} RunKeepsNacks(s: Sys, steps: seq<Step>, limit: int)
    requires limit >= 1 && NackInvariant(s, limit) && Run(s, steps) && RoundsAtMost(steps, limit)
    ensures NackInvariant(Exec(s, steps), limit)
    decreases |steps|
  {
    if steps != [] {
      StepKeepsNackInvariant(s, steps[0], limit);
      assert RoundsAtMost(steps[1..], limit);
      RunKeepsNacks(Next(s, steps[0]), steps[1..], limit);
    }
  }

  // If no worker's `max_attempts` is above `limit`, at most `limit - 1` nacks of a message
  // ever take effect, however many claims crash and whoever shares a worker id.
  lemma RetriesAreBounded(steps: seq<Step>, limit: int, i: nat)
    requires limit >= 1 && Run(EMPTY, steps) && RoundsAtMost(steps, limit)
    requires i < |Exec(EMPTY, steps).rows|
    ensures Exec(EMPTY, steps).tallies[i].nacks <= limit - 1
  {
    RunKeepsNacks(EMPTY, steps, limit);
  }

  // ---------------------------------------------------------------- dead letters

  ghost predicate AtLeast(s: Sys, least: int) {
    forall r :: r in s.rounds ==> s.rounds[r].runner.maxAttempts >= least
  }

  ghost predicate DeadSpent(s: Sys, least: int) {
    forall i :: 0 <= i < |s.rows| && s.rows[i].status.Dead? ==> s.rows[i].attempts >= least
  }

  // Who dead-letters a row: a head that has used up its round's attempts.
  lemma DeadLettered(s: Sys, step: Step, i: nat)
    requires TableShape(s) && Enabled(s, step) && i < |s.rows| && s.rows[i].status.Pending?
    requires Next(s, step).rows[i].status.Dead?
    ensures step.Move? && s.rounds[step.round].lanes[step.g].Publishing?
    ensures
      var round := s.rounds[step.round];
      var head := round.lanes[step.g].rest[0];
      head.id == s.rows[i].id && Exhausted(head, round.runner)
    ensures s.rows[i].leasedBy.Some? && Next(s, step).rows[i].attempts == s.rows[i].attempts
  {
    RowStepped(s, step, i);
    var round := s.rounds[step.round];
    var wb := Effect(round.lanes[step.g], round.runner, step.fate);
    assert Next(s, step).rows[i] == WriteRow(s.rows[i], wb, round.runner.worker);
  }

  lemma StepKeepsDead(s: Sys, step: Step, least: int)
    requires TableShape(s) && Accounted(s) && AllFit(s) && AtLeast(s, least) && DeadSpent(s, least)
    requires Enabled(s, step)
    ensures DeadSpent(Next(s, step), least)
  {
    var s' := Next(s, step);
    forall i | 0 <= i < |s'.rows| && s'.rows[i].status.Dead? ensures s'.rows[i].attempts >= least {
      if i < |s.rows| {
        Absorbing(s, step, i);
        if s.rows[i].status.Pending? {
          DeadLettered(s, step, i);
          var lane := s.rounds[step.round].lanes[step.g];
          assert LaneFits(s, lane) && AttemptFits(s, lane.rest[0]);
        }
      }
    }
  }

  predicate RoundsAtLeast(steps: seq<Step>, least: int) {
    forall k :: 0 <= k < |steps| && steps[k].Begin? ==> steps[k].maxAttempts >= least
  }

  lemma {:induction false} RunKeepsDead(s: Sys, steps: seq<Step>, least: int)
    requires TableShape(s) && Accounted(s) && AllFit(s) && AtLeast(s, least) && DeadSpent(s, least)
    requires Run(s, steps) && RoundsAtLeast(steps, least)
    ensures DeadSpent(Exec(s, steps), least)
    decreases |steps|
  {
    if steps != [] {
      StepKeepsTable(s, steps[0]);
      StepKeepsAccounts(s, steps[0]);
      StepKeepsFit(s, steps[0]);
      StepKeepsDead(s, steps[0], least);
      assert forall k :: 0 <= k < |steps| - 1 ==> steps[1..][k] == steps[k + 1];
      RunKeepsDead(Next(s, steps[0]), steps[1..], least);
    }
  }

  // A row is DEAD only after as many attempts as the least `max_attempts` of the workers.
  lemma DeadUsedItsAttempts(steps: seq<Step>, least: int, i: nat)
    requires Run(EMPTY, steps) && RoundsAtLeast(steps, least)
    requires i < |Exec(EMPTY, steps).rows| && Exec(EMPTY, steps).rows[i].status.Dead?
    ensures Exec(EMPTY, steps).rows[i].attempts >= least
  {
    RunKeepsDead(EMPTY, steps, least);
  }
}
