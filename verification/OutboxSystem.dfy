// Any number of workers sharing one table: producers insert, rounds claim, publish
// and write back in any interleaving, with write-backs that may be lost, rounds that
// may be cancelled or crash at any point, and leases that may expire under a worker
// that is still publishing.

module OutboxSystem {
  import opened Wrappers
  import opened Rows
  import opened Claim
  import opened Round
  import opened RoundStart

  // History of one row. The code keeps none of this; nothing in the system reads it.
  // `superseded` counts the claims that took the row from an earlier lease.
  datatype Tally = Tally(claims: nat, superseded: nat, nacks: nat)

  // A round in flight. `epochs` remembers which claim of each row this round holds.
  datatype LiveRound = LiveRound(
    runner: Runner,
    lanes: seq<Lane>,
    acked: seq<Id>,
    epochs: map<Id, nat>)

  // `log` is what the publisher has accepted, in order.
  datatype Sys = Sys(
    rows: seq<Row>,
    tallies: seq<Tally>,
    rounds: map<nat, LiveRound>,
    log: seq<Id>)

  const EMPTY := Sys([], [], map[], [])

  datatype Step =
    // A producer inserts a row.
    | Produce(key: Option<Key>, now: Time)
    // A worker claims a batch and starts a round, with its own `max_attempts`.
    | Begin(round: nat, q: Query, maxAttempts: int)
    // One group of a round takes its next step.
    | Move(round: nat, g: nat, fate: Fate)
    // A round ends: normally, by cancellation (the ack arrives) or by a crash or a
    // failed ack (it does not).
    | End(round: nat, acks: bool)

  // What a change of one row amounts to, read off the row alone: a row that ends up
  // leased with one more attempt was claimed; a pending row that lost its lease and kept
  // its attempts was nacked.
  function Observe(t: Tally, before: Row, after: Row): Tally {
    if after.leasedBy.Some? && after.attempts == before.attempts + 1 then
      Tally(t.claims + 1, t.superseded + (if before.leasedBy.Some? then 1 else 0), t.nacks)
    else if before.leasedBy.Some? && after.leasedBy.None? && after.status.Pending? &&
            after.attempts == before.attempts then
      t.(nacks := t.nacks + 1)
    else t
  }

  function ObserveAll(ts: seq<Tally>, before: seq<Row>, after: seq<Row>): (r: seq<Tally>)
    requires |ts| == |before| == |after|
    ensures |r| == |ts|
    ensures forall i :: 0 <= i < |ts| ==> r[i] == Observe(ts[i], before[i], after[i])
  {
    seq(|ts|, i requires 0 <= i < |ts| => Observe(ts[i], before[i], after[i]))
  }

  function EpochsOf(batch: seq<Message>, tallies: seq<Tally>): map<Id, nat> {
    map id | id in IdsOf(batch) && 1 <= id <= |tallies| :: tallies[id - 1].claims
  }

  predicate Enabled(s: Sys, step: Step) {
    match step
    case Produce(_, _) => true
    case Begin(r, _, _) => r !in s.rounds
    case Move(r, g, _) => r in s.rounds && g < |s.rounds[r].lanes| && !s.rounds[r].lanes[g].Closed()
    case End(r, _) => r in s.rounds
  }

  function Changed(s: Sys, rows: seq<Row>): Sys
    requires |s.tallies| == |s.rows| == |rows|
  {
    s.(rows := rows, tallies := ObserveAll(s.tallies, s.rows, rows))
  }

  function Next(s: Sys, step: Step): Sys
    requires Enabled(s, step) && |s.tallies| == |s.rows|
  {
    match step
    case Produce(key, now) =>
      s.(rows := s.rows + [NewRow(|s.rows| + 1, key, now)], tallies := s.tallies + [Tally(0, 0, 0)])
    case Begin(r, q, maxAttempts) =>
      var batch := ClaimBatch(s.rows, q);
      var s' := Changed(s, ClaimRows(s.rows, q));
      s'.(rounds := s.rounds[r := LiveRound(Runner(q.worker, maxAttempts), StartLanes(batch), [],
                                            EpochsOf(batch, s'.tallies))])
    case Move(r, g, fate) =>
      var round := s.rounds[r];
      var lane, runner := round.lanes[g], round.runner;
      var accepted := NewlyAccepted(lane, fate);
      var s' := Changed(s, WriteRows(s.rows, Effect(lane, runner, fate), round.runner.worker));
      s'.(rounds := s.rounds[r := round.(lanes := round.lanes[g := LaneNext(lane, runner, fate)],
                                         acked := round.acked + accepted)],
          log := s.log + accepted)
    case End(r, acks) =>
      var round := s.rounds[r];
      var s' := if acks then Changed(s, WriteRows(s.rows, Ack(round.acked), round.runner.worker)) else s;
      s'.(rounds := s.rounds - {r})
  }

  // ------------------------------------------------------------ basic invariant

  ghost predicate TableShape(s: Sys) {
    && |s.tallies| == |s.rows|
    && (forall i :: 0 <= i < |s.rows| ==> s.rows[i].id == i + 1)
    && (forall i :: 0 <= i < |s.rows| && !s.rows[i].status.Pending? ==> s.rows[i].leasedBy.None?)
  }

  // The lanes of a round hold rows of the table, each once, in insertion order.
  ghost predicate LaneShape(s: Sys, lane: Lane) {
    && AscendingIds(lane.rest)
    && forall x :: 0 <= x < |lane.rest| ==>
         1 <= lane.rest[x].id <= |s.rows| && lane.rest[x].key == s.rows[lane.rest[x].id - 1].key
  }

  ghost predicate RoundShape(s: Sys, round: LiveRound) {
    && Disjoint(round.lanes)
    && (forall g :: 0 <= g < |round.lanes| ==> LaneShape(s, round.lanes[g]))
    && forall id :: id in round.acked ==> id in s.log
  }

  ghost predicate Shape(s: Sys) {
    && TableShape(s)
    && (forall r :: r in s.rounds ==> RoundShape(s, s.rounds[r]))
    && (forall p :: 0 <= p < |s.log| ==> 1 <= s.log[p] <= |s.rows|)
    && (forall i :: 0 <= i < |s.rows| && s.rows[i].status.Done? ==> s.rows[i].id in s.log)
  }

  // What a step can do to a row: keep it, claim it while pending, or write it back on
  // behalf of the worker that leases it.
  ghost predicate RowStep(s: Sys, step: Step, before: Row, after: Row) {
    || after == before
    || (step.Begin? && before.status.Pending? && after == Leased(before, step.q))
    || (step.Move? && step.round in s.rounds && step.g < |s.rounds[step.round].lanes| &&
        before.status.Pending? && before.leasedBy == Some(s.rounds[step.round].runner.worker) &&
        InLane(before.id, s.rounds[step.round].lanes[step.g]) &&
        ((exists e, t :: after == Rescheduled(before, e, t)) ||
         (exists t :: after == HandedBack(before, t)) ||
         (exists e :: after == Parked(before, e))))
    || (step.End? && step.round in s.rounds && before.status.Pending? &&
        before.leasedBy == Some(s.rounds[step.round].runner.worker) &&
        before.id in s.rounds[step.round].acked && after == Delivered(before))
  }

  lemma {:induction false} RowStepped(s: Sys, step: Step, i: nat)
    requires TableShape(s) && Enabled(s, step) && i < |s.rows|
    ensures |Next(s, step).rows| == |s.rows| + (if step.Produce? then 1 else 0)
    ensures RowStep(s, step, s.rows[i], Next(s, step).rows[i])
  {
    match step
    case Produce(_, _) =>
    case Begin(_, q, _) =>
      ClaimRowsAt(s.rows, q, i);
    case Move(r, g, fate) =>
      var round := s.rounds[r];
      var lane, runner := round.lanes[g], round.runner;
      if !InLane(s.rows[i].id, lane) {
        EffectInLane(s.rows[i], lane, runner, fate);
      }
      var wb := Effect(lane, runner, fate);
      if Owned(s.rows[i], wb.Ids(), round.runner.worker) {
        assert WriteRow(s.rows[i], wb, round.runner.worker) == wb.Change(s.rows[i]);
      }
    case End(_, _) =>
  }

  // DONE and DEAD are absorbing; a row never loses its identity.
  lemma {:induction false} Absorbing(s: Sys, step: Step, i: nat)
    requires TableShape(s) && Enabled(s, step) && i < |s.rows|
    ensures
      var before, after := s.rows[i], Next(s, step).rows[i];
      && after.id == before.id && after.key == before.key && after.createdAt == before.createdAt
      && (!before.status.Pending? ==> after == before)
      && (after.status.Done? && !before.status.Done? ==>
            step.End? && before.id in s.rounds[step.round].acked)
      && (!after.status.Pending? ==> after.leasedBy.None?)
  {
    RowStepped(s, step, i);
  }

  lemma LaneShapeNext(s: Sys, s': Sys, lane: Lane, r: Runner, fate: Fate)
    requires LaneShape(s, lane) && |s.rows| <= |s'.rows|
    requires forall i :: 0 <= i < |s.rows| ==> s'.rows[i].key == s.rows[i].key
    ensures LaneShape(s', lane) && LaneShape(s', LaneNext(lane, r, fate))
  {
    var next := LaneNext(lane, r, fate);
    if next.rest != [] {
      assert next.rest == lane.rest || next.rest == lane.rest[1..];
    }
  }

  lemma BeginShape(s: Sys, q: Query, s': Sys)
    requires TableShape(s) && s'.rows == ClaimRows(s.rows, q)
    requires forall i :: 0 <= i < |s.rows| ==> s'.rows[i].key == s.rows[i].key
    ensures
      var lanes := StartLanes(ClaimBatch(s.rows, q));
      Disjoint(lanes) && forall g :: 0 <= g < |lanes| ==> LaneShape(s', lanes[g])
  {
    var batch := ClaimBatch(s.rows, q);
    var lanes := StartLanes(batch);
    BatchIds(s.rows, q);
    StartDisjoint(batch);
    forall g | 0 <= g < |lanes| ensures LaneShape(s', lanes[g]) {
      GroupAscending(batch, g);
      forall x | 0 <= x < |lanes[g].rest|
        ensures
          var m := lanes[g].rest[x];
          1 <= m.id <= |s.rows| && m.key == s.rows[m.id - 1].key
      {
        var b := GroupMember(batch, g, x);
        var i := BatchSource(s.rows, q, b);
      }
    }
  }

  lemma StepKeepsTable(s: Sys, step: Step)
    requires TableShape(s) && Enabled(s, step)
    ensures TableShape(Next(s, step))
  {
    var s' := Next(s, step);
    forall i | 0 <= i < |s.rows|
      ensures s'.rows[i].id == i + 1 && (!s'.rows[i].status.Pending? ==> s'.rows[i].leasedBy.None?)
    {
      Absorbing(s, step, i);
    }
    if step.Produce? {
      assert s'.rows[|s.rows|] == NewRow(|s.rows| + 1, step.key, step.now);
    }
    assert |s'.rows| == |s.rows| + (if step.Produce? then 1 else 0);
  }

  lemma StepKeepsShape(s: Sys, step: Step)
    requires Shape(s) && Enabled(s, step)
    ensures Shape(Next(s, step))
  {
    var s' := Next(s, step);
    StepKeepsTable(s, step);
    forall i | 0 <= i < |s.rows|
      ensures s'.rows[i].key == s.rows[i].key
      ensures s'.rows[i].status.Done? ==> s'.rows[i].id in s'.log
    {
      Absorbing(s, step, i);
    }
    forall r | r in s'.rounds ensures RoundShape(s', s'.rounds[r]) {
      StepKeepsRound(s, step, r);
    }
  }

  lemma StepKeepsRound(s: Sys, step: Step, r: nat)
    requires Shape(s) && Enabled(s, step) && r in Next(s, step).rounds
    ensures RoundShape(Next(s, step), Next(s, step).rounds[r])
  {
    var s' := Next(s, step);
    forall i | 0 <= i < |s.rows| ensures s'.rows[i].key == s.rows[i].key {
      Absorbing(s, step, i);
    }
    if step.Begin? && r == step.round {
      BeginShape(s, step.q, s');
    } else {
      var round := s.rounds[r];
      forall g | 0 <= g < |round.lanes| ensures LaneShape(s', round.lanes[g]) {
        LaneShapeNext(s, s', round.lanes[g], Runner("", 0), Accepted);
      }
      if step.Move? && r == step.round {
        var runner := round.runner;
        LaneShapeNext(s, s', round.lanes[step.g], runner, step.fate);
        StepKeepsDisjoint(round.lanes, step.g, runner, step.fate);
        assert step.fate.Accepted? && round.lanes[step.g].Publishing? ==>
          NewlyAccepted(round.lanes[step.g], step.fate) == [round.lanes[step.g].rest[0].id];
      }
    }
  }

  // --------------------------------------------------------------------- runs

  // Every step is enabled where it is taken.
  predicate Run(s: Sys, steps: seq<Step>)
    requires |s.tallies| == |s.rows|
    decreases |steps|
  {
    steps == [] ||
    (Enabled(s, steps[0]) && Run(Next(s, steps[0]), steps[1..]))
  }

  function Exec(s: Sys, steps: seq<Step>): (s': Sys)
    requires |s.tallies| == |s.rows| && Run(s, steps)
    ensures |s'.tallies| == |s'.rows|
    decreases |steps|
  {
    if steps == [] then s else Exec(Next(s, steps[0]), steps[1..])
  }

  // All claims order strictly.
  predicate Strict(steps: seq<Step>) {
    forall k :: 0 <= k < |steps| && steps[k].Begin? ==> steps[k].q.strict
  }

  // No worker starts a round while it has one in flight.
  predicate Exclusive(s: Sys, step: Step) {
    step.Begin? ==> forall r :: r in s.rounds ==> s.rounds[r].runner.worker != step.q.worker
  }

  predicate ExclusiveRun(s: Sys, steps: seq<Step>)
    requires |s.tallies| == |s.rows| && Run(s, steps)
    decreases |steps|
  {
    steps == [] ||
    (Exclusive(s, steps[0]) &&
     ExclusiveRun(Next(s, steps[0]), steps[1..]))
  }

  lemma {:induction false} RunKeepsShape(s: Sys, steps: seq<Step>)
    requires Shape(s) && Run(s, steps)
    ensures Shape(Exec(s, steps))
    decreases |steps|
  {
    if steps != [] {
      StepKeepsShape(s, steps[0]);
      RunKeepsShape(Next(s, steps[0]), steps[1..]);
    }
  }

  // No message is ever lost: rows are only added, and a DONE or DEAD row stays as it is
  // whatever stale workers still write.
  lemma {:induction false} NothingIsLost(s: Sys, steps: seq<Step>, i: nat)
    requires TableShape(s) && Run(s, steps) && i < |s.rows|
    ensures
      var s' := Exec(s, steps);
      && |s.rows| <= |s'.rows| && s'.rows[i].id == s.rows[i].id && s'.rows[i].key == s.rows[i].key
      && (!s.rows[i].status.Pending? ==> s'.rows[i] == s.rows[i])
    decreases |steps|
  {
    if steps != [] {
      Absorbing(s, steps[0], i);
      StepKeepsTable(s, steps[0]);
      NothingIsLost(Next(s, steps[0]), steps[1..], i);
    }
  }

  lemma {:induction false} EveryRowCounted(rows: seq<Row>)
    ensures CountStatus(rows, Pending) + CountStatus(rows, Done) + CountStatus(rows, Dead) == |rows|
  {
    if rows != [] {
      EveryRowCounted(rows[..|rows| - 1]);
    }
  }

  // Rows inserted in a run.
  function Inserted(steps: seq<Step>): nat {
    if steps == [] then 0 else (if steps[0].Produce? then 1 else 0) + Inserted(steps[1..])
  }

  lemma {:induction false} RunKeepsRows(s: Sys, steps: seq<Step>)
    requires TableShape(s) && Run(s, steps)
    ensures |Exec(s, steps).rows| == |s.rows| + Inserted(steps)
    decreases |steps|
  {
    if steps != [] {
      StepKeepsTable(s, steps[0]);
      RunKeepsRows(Next(s, steps[0]), steps[1..]);
    }
  }

  // Whatever happens in a run, pending, done and dead rows add up to the inserted ones.
  lemma {:induction false} StatusesPartition(steps: seq<Step>)
    requires Run(EMPTY, steps)
    ensures
      var rows := Exec(EMPTY, steps).rows;
      CountStatus(rows, Pending) + CountStatus(rows, Done) + CountStatus(rows, Dead) == Inserted(steps)
  {
    RunKeepsRows(EMPTY, steps);
    EveryRowCounted(Exec(EMPTY, steps).rows);
  }
}
