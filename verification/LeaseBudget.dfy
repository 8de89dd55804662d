// From configuration to delivery: if the lease covers the longest possible publishing of a
// round and an allowance for its storage calls, no round outlives its lease.

module LeaseBudget {
  import opened Reals
  import opened Rows
  import opened Grouping
  import opened Makespan
  import opened RoundTime
  import opened OutboxSystem
  import opened Fencing
  import opened Leases
  import opened Punctuality

  const MICROSECONDS := 1000000.0

  // `batch_size`, `concurrency` and `publish_timeout`, the longest group that occurs, and the
  // time that the storage calls of a round may take besides its publishing.
  datatype Budget = Budget(batchSize: nat, concurrency: nat, timeout: Seconds, longest: nat,
                           allowance: Seconds)
  {
    predicate Valid() {
      concurrency > 0 && timeout >= 0.0 && longest <= batchSize && allowance >= 0.0
    }

    // The longest a round can take.
    function Limit(): Seconds
      requires concurrency > 0
    {
      LongGroupBound(batchSize as real, longest as real, concurrency as real, timeout) + allowance
    }

    // The lease is longer than that.
    predicate CoveredBy(lease: Time)
      requires concurrency > 0
    {
      Limit() * MICROSECONDS < lease as real
    }
  }

  // A step of the system; for a claim, how the round it starts will take its turns, when the
  // last of them is over, and how long its storage calls take in all. The bounds hold for any
  // verdicts, so those of the turns need not be the ones that the run's steps carry.
  datatype TimedStep = TimedStep(step: Step, timing: Timing, published: Seconds, storage: Seconds)

  function StepsOf(timed: seq<TimedStep>): (steps: seq<Step>)
    ensures |steps| == |timed|
  {
    if timed == [] then [] else [timed[0].step] + StepsOf(timed[1..])
  }

  // The round that the claim starts takes its time as configured.
  ghost predicate OnBudget(s: Sys, t: TimedStep, b: Budget)
    requires b.Valid()
  {
    t.step.Begin? ==>
      && t.timing.rows == s.rows && t.timing.q == t.step.q
      && t.timing.Obeys(b.batchSize, b.concurrency, b.timeout)
      && (forall g :: 0 <= g < |Groups(t.timing.Batch())| ==>
            |Groups(t.timing.Batch())[g]| <= b.longest)
      && t.published in FreeAfter(t.timing.turns, b.concurrency)
      && t.storage <= b.allowance
  }

  // When the rounds in flight are over, in microseconds.
  function Ends(ends: map<nat, real>, t: TimedStep): map<nat, real> {
    if t.step.Begin?
    then ends[t.step.round := t.step.q.now as real + (t.published + t.storage) * MICROSECONDS]
    else ends
  }

  // A round that is still in flight when a claim looks is not over yet.
  predicate NotOver(s: Sys, ends: map<nat, real>, step: Step) {
    step.Begin? ==> forall r :: r in s.rounds && r in ends ==> step.q.now as real <= ends[r]
  }

  ghost predicate BudgetRun(s: Sys, ends: map<nat, real>, timed: seq<TimedStep>, b: Budget)
    requires |s.tallies| == |s.rows| && b.Valid()
    decreases |timed|
  {
    timed == [] ||
    var t := timed[0];
    && Enabled(s, t.step) && OnBudget(s, t, b) && NotOver(s, ends, t.step)
    && (t.step.Begin? ==> b.CoveredBy(t.step.q.lease))
    && BudgetRun(Next(s, t.step), Ends(ends, t), timed[1..], b)
  }

  // Every round in flight is over before its deadline.
  predicate Covered(s: Sys, ends: map<nat, real>, deadlines: map<nat, Time>) {
    forall r :: r in s.rounds ==>
      r in ends && (r in deadlines ==> ends[r] < deadlines[r] as real)
  }

  lemma RoundIsCovered(s: Sys, t: TimedStep, b: Budget)
    requires b.Valid() && t.step.Begin? && OnBudget(s, t, b) && b.CoveredBy(t.step.q.lease)
    ensures t.step.q.now as real + (t.published + t.storage) * MICROSECONDS
            < (t.step.q.now + t.step.q.lease) as real
  {
    LongGroupTime(t.timing, b.batchSize, b.longest, b.concurrency, b.timeout);
    Scales(t.published + t.storage, b.Limit(), MICROSECONDS);
  }

  lemma StepStaysCovered(s: Sys, ends: map<nat, real>, deadlines: map<nat, Time>, t: TimedStep,
                         b: Budget)
    requires b.Valid() && |s.tallies| == |s.rows| && Enabled(s, t.step) && OnBudget(s, t, b)
    requires t.step.Begin? ==> b.CoveredBy(t.step.q.lease)
    requires Covered(s, ends, deadlines)
    ensures Covered(Next(s, t.step), Ends(ends, t), Deadlines(deadlines, t.step))
  {
    if t.step.Begin? {
      RoundIsCovered(s, t, b);
    }
  }

  lemma {:induction false} BudgetKeepsTime(s: Sys, ends: map<nat, real>,
                                           deadlines: map<nat, Time>, timed: seq<TimedStep>,
                                           b: Budget)
    requires b.Valid() && |s.tallies| == |s.rows| && BudgetRun(s, ends, timed, b)
    requires Covered(s, ends, deadlines)
    ensures Run(s, StepsOf(timed)) && InTimeRun(s, deadlines, StepsOf(timed))
    decreases |timed|
  {
    if timed != [] {
      var t := timed[0];
      StepStaysCovered(s, ends, deadlines, t, b);
      BudgetKeepsTime(Next(s, t.step), Ends(ends, t), Deadlines(deadlines, t.step), timed[1..], b);
      assert StepsOf(timed)[1..] == StepsOf(timed[1..]);
    }
  }

  // The documented configuration check, with the bound that holds for every round: when each
  // lease is longer than that bound and the allowance, every claim comes in time, and so all
  // claims are undisputed and no write-back is stale, whoever shares a worker id.
  lemma {:induction false} CoveredLeasesKeepTheFence(timed: seq<TimedStep>, b: Budget)
    requires b.Valid() && BudgetRun(EMPTY, map[], timed, b)
    ensures Run(EMPTY, StepsOf(timed)) && InTimeRun(EMPTY, map[], StepsOf(timed))
    ensures UndisputedRun(EMPTY, StepsOf(timed)) && FencedRun(EMPTY, StepsOf(timed))
  {
    BudgetKeepsTime(EMPTY, map[], map[], timed, b);
    InTimeRunsAreUndisputed(StepsOf(timed));
    FencedWriteBack(StepsOf(timed));
  }

  // All write-backs of the run arrive.
  predicate Arriving(s: Sys, steps: seq<Step>)
    requires |s.tallies| == |s.rows| && Run(s, steps)
    decreases |steps|
  {
    steps == [] ||
    (Arrives(s, steps[0]) && Arriving(Next(s, steps[0]), steps[1..]))
  }

  lemma {:induction false} ArrivingInTime(s: Sys, deadlines: map<nat, Time>, steps: seq<Step>)
    requires |s.tallies| == |s.rows| && Run(s, steps)
    requires InTimeRun(s, deadlines, steps) && Arriving(s, steps)
    ensures PunctualRun(s, deadlines, steps)
    decreases |steps|
  {
    if steps != [] {
      ArrivingInTime(Next(s, steps[0]), Deadlines(deadlines, steps[0]), steps[1..]);
    }
  }

  // ... and when the write-backs arrive as well, no message is accepted twice.
  lemma CoveredLeasesDeliverOnce(timed: seq<TimedStep>, b: Budget, i: nat)
    requires b.Valid() && BudgetRun(EMPTY, map[], timed, b)
    requires Run(EMPTY, StepsOf(timed)) && Arriving(EMPTY, StepsOf(timed))
    requires i < |Exec(EMPTY, StepsOf(timed)).rows|
    ensures
      var s := Exec(EMPTY, StepsOf(timed));
      var deliveries := multiset(s.log)[s.rows[i].id];
      deliveries <= 1 && (s.rows[i].status.Done? ==> deliveries == 1)
  {
    BudgetKeepsTime(EMPTY, map[], map[], timed, b);
    ArrivingInTime(EMPTY, map[], StepsOf(timed));
    PunctualRoundsDeliverOnce(StepsOf(timed), i);
  }
}
