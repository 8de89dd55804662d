// Attempt accounting and the bound on duplicate deliveries, over every run.

module Accounting {
  import opened Wrappers
  import opened Rows
  import opened Claim
  import opened Round
  import opened RoundStart
  import opened OutboxSystem

  // ---------------------------------------------------------------- attempts

  // A row that some claim holds on to: leased, or settled for good.
  function Held(row: Row): nat {
    if row.leasedBy.Some? || !row.status.Pending? then 1 else 0
  }

  ghost predicate Accounted(s: Sys) {
    |s.tallies| == |s.rows| &&
    forall i :: 0 <= i < |s.rows| ==>
      s.rows[i].attempts == s.tallies[i].nacks + s.tallies[i].superseded + Held(s.rows[i])
  }

  // A nack of the row takes effect: the step reports its failed head, which the round's
  // worker leases and which has attempts left.
  predicate NackLands(s: Sys, step: Step, row: Row)
    requires Enabled(s, step)
  {
    step.Move? &&
    var round := s.rounds[step.round];
    var lane := round.lanes[step.g];
    && lane.Publishing? && lane.rest[0].id == row.id
    && step.fate.Failed? && step.fate.reported
    && !Exhausted(lane.rest[0], round.runner)
    && row.leasedBy == Some(round.runner.worker)
  }

  // The tallies count what they are named after.
  lemma TalliesTrack(s: Sys, step: Step, i: nat)
    requires TableShape(s) && Enabled(s, step) && i < |s.rows|
    ensures
      var t, t', row := s.tallies[i], Next(s, step).tallies[i], s.rows[i];
      var claimed := step.Begin? && Taken(s.rows[..i], row, step.q);
      && t'.claims == t.claims + (if claimed then 1 else 0)
      && t'.superseded == t.superseded + (if claimed && row.leasedBy.Some? then 1 else 0)
      && t'.nacks == t.nacks + if NackLands(s, step, row) then 1 else 0
  {
    match step
    case Produce(_, _) =>
    case Begin(_, q, _) => ClaimRowsAt(s.rows, q, i);
    case Move(r, g, fate) => MoveTracks(s, r, g, fate, i);
    case End(_, _) =>
  }

  lemma MoveTracks(s: Sys, r: nat, g: nat, fate: Fate, i: nat)
    requires TableShape(s) && Enabled(s, Move(r, g, fate)) && i < |s.rows|
    ensures
      var row, step := s.rows[i], Move(r, g, fate);
      var t' := Next(s, step).tallies[i];
      t' == s.tallies[i].(nacks := s.tallies[i].nacks +
                                   if NackLands(s, step, row) then 1 else 0)
  {
    var round := s.rounds[r];
    var lane, runner := round.lanes[g], round.runner;
    var wb := Effect(lane, runner, fate);
    assert Next(s, Move(r, g, fate)).rows[i] == WriteRow(s.rows[i], wb, round.runner.worker);
    if Owned(s.rows[i], wb.Ids(), round.runner.worker) {
      assert s.rows[i].status.Pending?;
    }
  }

  lemma StepKeepsAccounts(s: Sys, step: Step)
    requires TableShape(s) && Accounted(s) && Enabled(s, step)
    ensures Accounted(Next(s, step))
  {
    var s' := Next(s, step);
    forall i | 0 <= i < |s'.rows|
      ensures s'.rows[i].attempts ==
              s'.tallies[i].nacks + s'.tallies[i].superseded + Held(s'.rows[i])
    {
      if i < |s.rows| {
        RowStepped(s, step, i);
      }
    }
  }

  lemma {:induction false} RunKeepsAccounts(s: Sys, steps: seq<Step>)
    requires TableShape(s) && Accounted(s) && Run(s, steps)
    ensures TableShape(Exec(s, steps)) && Accounted(Exec(s, steps))
    decreases |steps|
  {
    if steps != [] {
      StepKeepsTable(s, steps[0]);
      StepKeepsAccounts(s, steps[0]);
      RunKeepsAccounts(Next(s, steps[0]), steps[1..]);
    }
  }

  // In every reachable state `attempts` is the number of nacks that took effect plus the
  // number of superseded claims, plus one while a claim holds the row. So it is never
  // negative, and rows handed back untried have burnt nothing.
  lemma AttemptAccounting(steps: seq<Step>, i: nat)
    requires Run(EMPTY, steps)
    requires i < |Exec(EMPTY, steps).rows|
    ensures
      var s := Exec(EMPTY, steps);
      var row, t := s.rows[i], s.tallies[i];
      && row.attempts == t.nacks + t.superseded +
           (if row.leasedBy.Some? || !row.status.Pending? then 1 else 0)
      && row.attempts >= 0
  {
    RunKeepsAccounts(EMPTY, steps);
  }

  // -------------------------------------------------------------- duplicates

  predicate InRound(id: Id, round: LiveRound) {
    exists g :: 0 <= g < |round.lanes| && InLane(id, round.lanes[g])
  }

  // The rounds in flight that may still publish, report or hand back the message.
  function Waiting(s: Sys, id: Id): set<nat> {
    set r | r in s.rounds && InRound(id, s.rounds[r])
  }

  ghost predicate Bounded(s: Sys) {
    |s.tallies| == |s.rows| &&
    forall i :: 0 <= i < |s.rows| ==>
      multiset(s.log)[s.rows[i].id] + |Waiting(s, s.rows[i].id)| <=
      s.tallies[i].superseded + Held(s.rows[i])
  }

  // Where a message goes when its lane takes a step: a message that leaves its lane was
  // accepted, failed or handed back; only such a message can have its row written.
  lemma LaneStep(lane: Lane, r: Runner, fate: Fate, row: Row)
    requires AscendingIds(lane.rest) && !lane.Closed()
    ensures
      var next := LaneNext(lane, r, fate);
      && (InLane(row.id, next) ==> InLane(row.id, lane))
      && (NewlyAccepted(lane, fate) == [row.id] ==> InLane(row.id, lane) && !InLane(row.id, next))
      && (WriteRow(row, Effect(lane, r, fate), r.worker) != row ==>
            InLane(row.id, lane) && !InLane(row.id, next) && NewlyAccepted(lane, fate) == [])
  {
    NextInLane(row.id, lane, r, fate);
    if !InLane(row.id, lane) {
      EffectInLane(row, lane, r, fate);
    }
    if lane.Publishing? {
      assert InLane(lane.rest[0].id, lane);
      assert LaneNext(lane, r, fate).rest == lane.rest[1..];
      assert !InLane(lane.rest[0].id, LaneNext(lane, r, fate));
    }
  }

  lemma WaitingMove(s: Sys, r: nat, g: nat, fate: Fate, id: Id)
    requires Shape(s) && Enabled(s, Move(r, g, fate))
    ensures
      var s' := Next(s, Move(r, g, fate));
      var lane := s.rounds[r].lanes[g];
      var next := LaneNext(lane, s.rounds[r].runner, fate);
      && Waiting(s', id) <= Waiting(s, id)
      && (InLane(id, lane) && !InLane(id, next) ==>
            r in Waiting(s, id) && Waiting(s', id) == Waiting(s, id) - {r})
  {
    var step := Move(r, g, fate);
    var s' := Next(s, step);
    var round, round' := s.rounds[r], s'.rounds[r];
    var runner := round.runner;
    NextInLane(id, round.lanes[g], runner, fate);
    forall h | 0 <= h < |round.lanes| && InLane(id, round'.lanes[h])
      ensures InLane(id, round.lanes[h]) {}
    assert forall q :: q in s'.rounds && q != r ==> s'.rounds[q] == s.rounds[q];
    if InLane(id, round.lanes[g]) && !InLane(id, round'.lanes[g]) {
      assert InRound(id, round);
      assert RoundShape(s, round);
      assert !InRound(id, round');
    }
  }

  lemma NewlyWaiting(s: Sys, step: Step, i: nat)
    requires TableShape(s) && Enabled(s, step) && step.Begin? && i < |s.rows|
    requires InRound(s.rows[i].id, Next(s, step).rounds[step.round])
    ensures Taken(s.rows[..i], s.rows[i], step.q)
  {
    var lanes := StartLanes(ClaimBatch(s.rows, step.q));
    assert Next(s, step).rounds[step.round].lanes == lanes;
    var g :| 0 <= g < |lanes| && InLane(s.rows[i].id, lanes[g]);
    var j := StartTakes(s.rows, step.q, g, s.rows[i].id);
  }

  lemma WaitingBegin(s: Sys, r: nat, q: Query, maxAttempts: int, i: nat)
    requires Shape(s) && Enabled(s, Begin(r, q, maxAttempts)) && i < |s.rows|
    ensures
      var s' := Next(s, Begin(r, q, maxAttempts));
      Waiting(s', s.rows[i].id) <=
      if Taken(s.rows[..i], s.rows[i], q) then Waiting(s, s.rows[i].id) + {r}
      else Waiting(s, s.rows[i].id)
  {
    var step := Begin(r, q, maxAttempts);
    if InRound(s.rows[i].id, Next(s, step).rounds[r]) {
      NewlyWaiting(s, step, i);
    }
  }

  lemma SubsetSize(a: set<nat>, b: set<nat>)
    requires a <= b
    ensures |a| <= |b|
  {
    if a != {} {
      var x :| x in a;
      SubsetSize(a - {x}, b - {x});
    }
  }

  lemma StepKeepsBound(s: Sys, step: Step)
    requires Shape(s) && Bounded(s) && Enabled(s, step)
    ensures Bounded(Next(s, step))
  {
    var s' := Next(s, step);
    forall i | 0 <= i < |s'.rows|
      ensures multiset(s'.log)[s'.rows[i].id] + |Waiting(s', s'.rows[i].id)| <=
              s'.tallies[i].superseded + Held(s'.rows[i])
    {
      if i < |s.rows| {
        Absorbing(s, step, i);
        match step
        case Produce(_, _) =>
          assert Waiting(s', s.rows[i].id) == Waiting(s, s.rows[i].id);
        case Begin(r, q, maxAttempts) =>
          BoundBegin(s, r, q, maxAttempts, i);
        case Move(r, g, fate) =>
          BoundMove(s, r, g, fate, i);
        case End(r, acks) =>
          BoundEnd(s, r, acks, i);
      } else {
        NewRowUnseen(s, step);
      }
    }
  }

  lemma NewRowUnseen(s: Sys, step: Step)
    requires Shape(s) && step.Produce?
    ensures
      var s' := Next(s, step);
      multiset(s'.log)[|s.rows| + 1] == 0 && Waiting(s', |s.rows| + 1) == {}
  {
    assert |s.rows| + 1 !in s.log;
    forall r | r in s.rounds ensures !InRound(|s.rows| + 1, s.rounds[r]) {
      assert RoundShape(s, s.rounds[r]);
    }
  }

  lemma BoundBegin(s: Sys, r: nat, q: Query, maxAttempts: int, i: nat)
    requires Shape(s) && Bounded(s) && Enabled(s, Begin(r, q, maxAttempts)) && i < |s.rows|
    ensures
      var s' := Next(s, Begin(r, q, maxAttempts));
      multiset(s'.log)[s.rows[i].id] + |Waiting(s', s.rows[i].id)| <=
      s'.tallies[i].superseded + Held(s'.rows[i])
  {
    var s' := Next(s, Begin(r, q, maxAttempts));
    WaitingBegin(s, r, q, maxAttempts, i);
    ClaimRowsAt(s.rows, q, i);
    if Taken(s.rows[..i], s.rows[i], q) {
      SubsetSize(Waiting(s', s.rows[i].id), Waiting(s, s.rows[i].id) + {r});
    } else {
      SubsetSize(Waiting(s', s.rows[i].id), Waiting(s, s.rows[i].id));
    }
  }

  lemma BoundMove(s: Sys, r: nat, g: nat, fate: Fate, i: nat)
    requires Shape(s) && Bounded(s) && Enabled(s, Move(r, g, fate)) && i < |s.rows|
    ensures
      var s' := Next(s, Move(r, g, fate));
      multiset(s'.log)[s.rows[i].id] + |Waiting(s', s.rows[i].id)| <=
      s'.tallies[i].superseded + Held(s'.rows[i])
  {
    var s' := Next(s, Move(r, g, fate));
    var row, lane := s.rows[i], s.rounds[r].lanes[g];
    var runner := s.rounds[r].runner;
    assert RoundShape(s, s.rounds[r]) && LaneShape(s, lane);
    WaitingMove(s, r, g, fate, row.id);
    LaneStep(lane, runner, fate, row);
    RowStepped(s, Move(r, g, fate), i);
    SubsetSize(Waiting(s', row.id), Waiting(s, row.id));
    if NewlyAccepted(lane, fate) != [] && lane.rest[0].id == row.id {
      assert s'.log == s.log + [row.id];
      assert s'.rows[i] == row;
    } else {
      assert multiset(s'.log)[row.id] == multiset(s.log)[row.id];
    }
  }

  lemma BoundEnd(s: Sys, r: nat, acks: bool, i: nat)
    requires Shape(s) && Bounded(s) && Enabled(s, End(r, acks)) && i < |s.rows|
    ensures
      var s' := Next(s, End(r, acks));
      multiset(s'.log)[s.rows[i].id] + |Waiting(s', s.rows[i].id)| <=
      s'.tallies[i].superseded + Held(s'.rows[i])
  {
    var s' := Next(s, End(r, acks));
    RowStepped(s, End(r, acks), i);
    SubsetSize(Waiting(s', s.rows[i].id), Waiting(s, s.rows[i].id));
  }

  lemma {:induction false} RunKeepsBound(s: Sys, steps: seq<Step>)
    requires Shape(s) && Bounded(s) && Run(s, steps)
    ensures Shape(Exec(s, steps)) && Bounded(Exec(s, steps))
    decreases |steps|
  {
    if steps != [] {
      StepKeepsShape(s, steps[0]);
      StepKeepsBound(s, steps[0]);
      RunKeepsBound(Next(s, steps[0]), steps[1..]);
    }
  }

  // Leases bound duplicates: a message is accepted at most once more than the number of
  // its claims that a later claim superseded, and at most that number of times while it
  // waits in the table. DONE implies that it was accepted.
  lemma DuplicateBound(steps: seq<Step>, i: nat)
    requires Run(EMPTY, steps)
    requires i < |Exec(EMPTY, steps).rows|
    ensures
      var s := Exec(EMPTY, steps);
      var row, t := s.rows[i], s.tallies[i];
      var deliveries := multiset(s.log)[row.id];
      && deliveries <= t.superseded + 1
      && (row.status.Pending? && row.leasedBy.None? ==> deliveries <= t.superseded)
      && (t.superseded == 0 ==> deliveries <= 1)
      && (row.status.Done? ==> deliveries >= 1)
  {
    RunKeepsBound(EMPTY, steps);
    var s := Exec(EMPTY, steps);
    if s.rows[i].status.Done? {
      assert s.rows[i].id in multiset(s.log);
    }
  }
}
