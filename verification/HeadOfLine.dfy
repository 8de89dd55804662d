// How long the retries of one message hold its key back: the nacks that take effect in a run
// of the system, and the delays that the back-off schedules for them.

module HeadOfLine {
  import opened Rows
  import opened Claim
  import opened Round
  import opened RoundStart
  import opened OutboxSystem
  import opened Accounting
  import opened Fencing
  import Retries
  import opened Reals
  import opened Wrappers
  import opened BackoffPolicy

  // The attempts on which nacks of row `i` take effect, in the order of the run.
  function LandedAttempts(s: Sys, steps: seq<Step>, i: nat): seq<int>
    requires |s.tallies| == |s.rows| && Run(s, steps)
    decreases |steps|
  {
    if steps == [] then []
    else
      var later := LandedAttempts(Next(s, steps[0]), steps[1..], i);
      if i < |s.rows| && NackLands(s, steps[0], s.rows[i])
      then [s.rounds[steps[0].round].lanes[steps[0].g].rest[0].attempts] + later
      else later
  }

  predicate StrictlyIncreasing(xs: seq<int>) {
    forall a, b :: 0 <= a < b < |xs| ==> xs[a] < xs[b]
  }

  // ------------------------------------------------------------ over every run

  // They are the nacks that the tallies count.
  lemma {:induction false} LandedAreCounted(s: Sys, steps: seq<Step>, i: nat)
    requires TableShape(s) && Run(s, steps) && i < |Exec(s, steps).rows|
    ensures |LandedAttempts(s, steps, i)| + (if i < |s.rows| then s.tallies[i].nacks else 0)
            == Exec(s, steps).tallies[i].nacks
    decreases |steps|
  {
    if steps != [] {
      var s' := Next(s, steps[0]);
      StepKeepsTable(s, steps[0]);
      LandedAreCounted(s', steps[1..], i);
      if i < |s.rows| {
        TalliesTrack(s, steps[0], i);
      } else if i < |s'.rows| {
        assert s'.tallies[i] == Tally(0, 0, 0);
      }
    }
  }

  predicate InRange(xs: seq<int>, limit: int) {
    forall k :: 0 <= k < |xs| ==> 1 <= xs[k] < limit
  }

  ghost predicate Fitting(s: Sys, limit: int) {
    TableShape(s) && Accounted(s) && Retries.AllFit(s) && Retries.AtMost(s, limit)
  }

  lemma StepKeepsFitting(s: Sys, step: Step, limit: int)
    requires Fitting(s, limit) && Enabled(s, step) && (step.Begin? ==> step.maxAttempts <= limit)
    ensures Fitting(Next(s, step), limit)
  {
    StepKeepsTable(s, step);
    StepKeepsAccounts(s, step);
    Retries.StepKeepsFit(s, step);
  }

  lemma NackInRange(s: Sys, step: Step, limit: int, i: nat)
    requires Fitting(s, limit) && Enabled(s, step) && i < |s.rows| && NackLands(s, step, s.rows[i])
    ensures 1 <= s.rounds[step.round].lanes[step.g].rest[0].attempts < limit
  {
    var lane := s.rounds[step.round].lanes[step.g];
    assert Retries.LaneFits(s, lane) && Retries.AttemptFits(s, lane.rest[0]);
  }

  lemma {:induction false} LandedInRange(s: Sys, steps: seq<Step>, limit: int, i: nat)
    requires Fitting(s, limit) && Run(s, steps) && Retries.RoundsAtMost(steps, limit)
    ensures InRange(LandedAttempts(s, steps, i), limit)
    decreases |steps|
  {
    if steps != [] {
      StepKeepsFitting(s, steps[0], limit);
      assert Retries.RoundsAtMost(steps[1..], limit);
      LandedInRange(Next(s, steps[0]), steps[1..], limit, i);
      if i < |s.rows| && NackLands(s, steps[0], s.rows[i]) {
        NackInRange(s, steps[0], limit, i);
      }
    }
  }

  // ------------------------------------------- over runs with undisputed claims

  // While the round's worker leases the row, the message carries the row's attempts.
  predicate MessageCurrent(s: Sys, r: Runner, m: Message) {
    && 1 <= m.id <= |s.rows|
    && (s.rows[m.id - 1].leasedBy == Some(r.worker) ==> m.attempts == s.rows[m.id - 1].attempts)
  }

  ghost predicate LaneCurrent(s: Sys, r: Runner, lane: Lane) {
    forall x :: 0 <= x < |lane.rest| ==> MessageCurrent(s, r, lane.rest[x])
  }

  ghost predicate AllCurrent(s: Sys) {
    forall r, g :: r in s.rounds && 0 <= g < |s.rounds[r].lanes| && s.rounds[r].lanes[g].Publishing?
      ==> LaneCurrent(s, s.rounds[r].runner, s.rounds[r].lanes[g])
  }

  lemma NewLaneCurrent(s: Sys, step: Step, g: nat)
    requires TableShape(s) && Enabled(s, step) && step.Begin?
    requires g < |Next(s, step).rounds[step.round].lanes|
    ensures
      var s' := Next(s, step);
      LaneCurrent(s', s'.rounds[step.round].runner, s'.rounds[step.round].lanes[g])
  {
    var s', batch := Next(s, step), ClaimBatch(s.rows, step.q);
    var lane := s'.rounds[step.round].lanes[g];
    forall x | 0 <= x < |lane.rest|
      ensures MessageCurrent(s', s'.rounds[step.round].runner, lane.rest[x])
    {
      var b := GroupMember(batch, g, x);
      var i := BatchSource(s.rows, step.q, b);
      ClaimRowsAt(s.rows, step.q, i);
      assert s'.rows[i] == Leased(s.rows[i], step.q);
    }
  }

  lemma OldLaneCurrent(s: Sys, step: Step, r: nat, g: nat)
    requires TableShape(s) && Enabled(s, step) && Undisputed(s, step)
    requires r in s.rounds && g < |s.rounds[r].lanes| && s.rounds[r].lanes[g].Publishing?
    requires LaneCurrent(s, s.rounds[r].runner, s.rounds[r].lanes[g])
    ensures LaneCurrent(Next(s, step), s.rounds[r].runner, s.rounds[r].lanes[g])
  {
    var s', round := Next(s, step), s.rounds[r];
    var lane := round.lanes[g];
    forall x | 0 <= x < |lane.rest| ensures MessageCurrent(s', round.runner, lane.rest[x]) {
      var m := lane.rest[x];
      var i := m.id - 1;
      assert MessageCurrent(s, round.runner, m);
      Absorbing(s, step, i);
      if s'.rows[i].leasedBy == Some(round.runner.worker) {
        if step.Begin? && Taken(s.rows[..i], s.rows[i], step.q) {
          ClaimRowsAt(s.rows, step.q, i);
          assert Owes(lane, s.rows[i].id);
          assert Disputed(s, step, r, i);
        } else {
          LeaseIsOldOrTaken(s, step, i);
        }
      }
    }
  }

  lemma StepKeepsCurrent(s: Sys, step: Step)
    requires TableShape(s) && AllCurrent(s) && Enabled(s, step) && Undisputed(s, step)
    ensures AllCurrent(Next(s, step))
  {
    var s' := Next(s, step);
    forall r, g | r in s'.rounds && 0 <= g < |s'.rounds[r].lanes| &&
        s'.rounds[r].lanes[g].Publishing?
      ensures LaneCurrent(s', s'.rounds[r].runner, s'.rounds[r].lanes[g])
    {
      if step.Begin? && r == step.round {
        NewLaneCurrent(s, step, g);
      } else {
        var lane, lane' := s.rounds[r].lanes[g], s'.rounds[r].lanes[g];
        if lane'.rest != [] {
          OldLaneCurrent(s, step, r, g);
          assert lane'.rest == lane.rest || lane'.rest == lane.rest[1..];
        }
      }
    }
  }

  // A nack that takes effect is one attempt later than the nacks and superseded claims
  // before it.
  lemma NackedAttempt(s: Sys, step: Step, i: nat)
    requires TableShape(s) && Accounted(s) && AllCurrent(s) && Enabled(s, step)
    requires i < |s.rows| && NackLands(s, step, s.rows[i])
    ensures s.rounds[step.round].lanes[step.g].rest[0].attempts == Retries.Spent(s.tallies[i]) + 1
  {
    var round := s.rounds[step.round];
    var lane := round.lanes[step.g];
    assert LaneCurrent(s, round.runner, lane) && MessageCurrent(s, round.runner, lane.rest[0]);
  }

  function SpentBefore(s: Sys, i: nat): nat {
    if i < |s.tallies| then Retries.Spent(s.tallies[i]) else 0
  }

  // Strictly increasing, and all above `low`.
  predicate Climbs(xs: seq<int>, low: int) {
    StrictlyIncreasing(xs) && forall k :: 0 <= k < |xs| ==> xs[k] > low
  }

  lemma ClimbsFrom(x: int, xs: seq<int>, low: int)
    requires Climbs(xs, x) && x > low
    ensures Climbs([x] + xs, low)
  {
  }

  ghost predicate Currently(s: Sys) {
    TableShape(s) && Accounted(s) && AllCurrent(s)
  }

  lemma StepKeepsCurrently(s: Sys, step: Step)
    requires Currently(s) && Enabled(s, step) && Undisputed(s, step)
    ensures Currently(Next(s, step))
  {
    StepKeepsTable(s, step);
    StepKeepsAccounts(s, step);
    StepKeepsCurrent(s, step);
  }

  lemma SpentAfter(s: Sys, step: Step, i: nat)
    requires TableShape(s) && Enabled(s, step)
    ensures SpentBefore(Next(s, step), i) >= SpentBefore(s, i) +
              if i < |s.rows| && NackLands(s, step, s.rows[i]) then 1 else 0
  {
    if i < |s.rows| {
      TalliesTrack(s, step, i);
    }
  }

  lemma FirstLands(s: Sys, step: Step, i: nat, later: seq<int>)
    requires Currently(s) && Enabled(s, step) && i < |s.rows| && NackLands(s, step, s.rows[i])
    requires Climbs(later, SpentBefore(Next(s, step), i))
    ensures Climbs([s.rounds[step.round].lanes[step.g].rest[0].attempts] + later, SpentBefore(s, i))
  {
    SpentAfter(s, step, i);
    NackedAttempt(s, step, i);
    ClimbsFrom(SpentBefore(s, i) + 1, later, SpentBefore(s, i));
  }

  // The first step, in front of the rest of the run.
  lemma FirstClimbs(s: Sys, steps: seq<Step>, i: nat)
    requires Currently(s) && steps != [] && Run(s, steps)
    requires
      var s' := Next(s, steps[0]);
      Climbs(LandedAttempts(s', steps[1..], i), SpentBefore(s', i))
    ensures Climbs(LandedAttempts(s, steps, i), SpentBefore(s, i))
  {
    if i < |s.rows| && NackLands(s, steps[0], s.rows[i]) {
      FirstLands(s, steps[0], i, LandedAttempts(Next(s, steps[0]), steps[1..], i));
    } else {
      SpentAfter(s, steps[0], i);
    }
  }

  lemma {:induction false} LandedIncrease(s: Sys, steps: seq<Step>, i: nat)
    requires Currently(s) && Run(s, steps) && UndisputedRun(s, steps)
    ensures Climbs(LandedAttempts(s, steps, i), SpentBefore(s, i))
    decreases |steps|
  {
    if steps != [] {
      StepKeepsCurrently(s, steps[0]);
      LandedIncrease(Next(s, steps[0]), steps[1..], i);
      FirstClimbs(s, steps, i);
    }
  }

  // The attempts on which the nacks of a message take effect: as many as the tally says, all
  // from one up to below the largest `max_attempts`; and they increase if claims are
  // undisputed.
  lemma AttemptsOfNacks(steps: seq<Step>, limit: int, i: nat)
    requires limit >= 1 && Run(EMPTY, steps) && Retries.RoundsAtMost(steps, limit)
    requires i < |Exec(EMPTY, steps).rows|
    ensures
      var attempts := LandedAttempts(EMPTY, steps, i);
      && |attempts| == Exec(EMPTY, steps).tallies[i].nacks <= limit - 1
      && (forall k :: 0 <= k < |attempts| ==> 1 <= attempts[k] < limit)
      && (UndisputedRun(EMPTY, steps) ==> StrictlyIncreasing(attempts))
  {
    LandedAreCounted(EMPTY, steps, i);
    Retries.RetriesAreBounded(steps, limit, i);
    LandedInRange(EMPTY, steps, limit, i);
    if UndisputedRun(EMPTY, steps) {
      LandedIncrease(EMPTY, steps, i);
    }
  }

  // --------------------------------------------------------------------- delays

  // The retries of a message with the random factors drawn for them.
  function Scheduled(attempts: seq<int>, draws: seq<real>): (tries: seq<Retry>)
    requires |draws| == |attempts| && forall k :: 0 <= k < |attempts| ==> attempts[k] >= 1
    ensures |tries| == |attempts|
    ensures forall k :: 0 <= k < |tries| ==> tries[k] == Retry(attempts[k], draws[k])
  {
    seq(|attempts|, k requires 0 <= k < |attempts| => Retry(attempts[k], draws[k]))
  }

  lemma CappedTotal(b: Backoff, tries: seq<Retry>, limit: nat, largest: real)
    requires b.Valid() && b.base * largest >= b.maximum && |tries| <= limit - 1
    requires forall i :: 0 <= i < |tries| ==> tries[i].attempt >= 1 && b.Drawn(tries[i].random)
    ensures AtMost(TotalDelay(b, tries, largest), Times(limit - 1, b.maximum), b.jitter)
  {
    TotalOfCaps(b, tries, largest);
    TimesMore(|tries|, limit - 1, b.maximum);
    AtMostMore(TotalDelay(b, tries, largest), Times(|tries|, b.maximum),
               Times(limit - 1, b.maximum), b.jitter);
  }

  lemma DelaysOf(b: Backoff, attempts: seq<int>, draws: seq<real>, limit: nat, largest: real)
    requires b.Valid() && b.base * largest >= b.maximum
    requires |attempts| <= limit - 1 && InRange(attempts, limit) && |draws| == |attempts|
    requires forall k :: 0 <= k < |draws| ==> b.Drawn(draws[k])
    ensures
      var total := TotalDelay(b, Scheduled(attempts, draws), largest);
      && AtMost(total, Times(limit - 1, b.maximum), b.jitter)
      && (StrictlyIncreasing(attempts) ==> AtMost(total, GeometricTotal(b, limit - 1), b.jitter))
  {
    var tries := Scheduled(attempts, draws);
    CappedTotal(b, tries, limit, largest);
    if StrictlyIncreasing(attempts) {
      HeadOfLineBound(b, tries, limit, largest);
    }
  }

  // ------------------------------------------------------- what the table says

  // A nack that takes effect leaves the row pending, unleased, and due at the time of the
  // failure plus the back-off.
  lemma NackSchedules(s: Sys, step: Step, i: nat)
    requires |s.tallies| == |s.rows| && Enabled(s, step)
    requires i < |s.rows| && NackLands(s, step, s.rows[i])
    ensures Next(s, step).rows[i] ==
            s.rows[i].(lastError := Some(step.fate.error), leasedBy := None, leaseUntil := None,
                       retryAt := Some(step.fate.now + step.fate.delay))
    ensures DueFrom(Next(s, step).rows[i], step.fate.now + step.fate.delay)
  {
    var round := s.rounds[step.round];
    var lane := round.lanes[step.g];
    assert Effect(lane, round.runner, step.fate).Ids() == [s.rows[i].id];
  }

  // How long after `now` the row is due again.
  function WaitFrom(row: Row, now: Time): Time {
    match row.retryAt
    case None => 0
    case Some(t) => t - now
  }

  // How long the effective nacks of row `i` make it wait, as the table has it after each.
  function LandedWaits(s: Sys, steps: seq<Step>, i: nat): seq<Time>
    requires |s.tallies| == |s.rows| && Run(s, steps)
    decreases |steps|
  {
    if steps == [] then []
    else
      var s' := Next(s, steps[0]);
      var later := LandedWaits(s', steps[1..], i);
      if i < |s.rows| && i < |s'.rows| && NackLands(s, steps[0], s.rows[i])
      then [WaitFrom(s'.rows[i], steps[0].fate.now)] + later
      else later
  }

  // `wait` is the back-off's delay for the attempt, rounded to microseconds.
  predicate BacksOff(b: Backoff, attempt: int, largest: real, random: real, wait: Time) {
    var delay := b.Delay(attempt, largest, random);
    && b.Drawn(random) && delay.Some?
    && -0.5 <= delay.value * 1000000.0 - wait as real <= 0.5
  }

  // A failure that leads to a retry carries the delay that the back-off gives its attempt.
  ghost predicate Polite(s: Sys, step: Step, b: Backoff, largest: real)
    requires Enabled(s, step)
  {
    (step.Move? && step.fate.Failed? &&
     s.rounds[step.round].lanes[step.g].Publishing? &&
     !Exhausted(s.rounds[step.round].lanes[step.g].rest[0], s.rounds[step.round].runner))
    ==> exists random ::
          BacksOff(b, s.rounds[step.round].lanes[step.g].rest[0].attempts, largest, random,
                   step.fate.delay)
  }

  ghost predicate PoliteRun(s: Sys, steps: seq<Step>, b: Backoff, largest: real)
    requires |s.tallies| == |s.rows| && Run(s, steps)
    decreases |steps|
  {
    steps == [] ||
    (Polite(s, steps[0], b, largest) && PoliteRun(Next(s, steps[0]), steps[1..], b, largest))
  }

  // Every wait is the delay drawn for its attempt.
  predicate DrawnFor(b: Backoff, attempts: seq<int>, draws: seq<real>, waits: seq<Time>,
                     largest: real)
  {
    && |draws| == |attempts| == |waits|
    && forall k :: 0 <= k < |waits| ==> BacksOff(b, attempts[k], largest, draws[k], waits[k])
  }

  lemma DrawnFirst(b: Backoff, attempt: int, random: real, wait: Time, attempts: seq<int>,
                   draws: seq<real>, waits: seq<Time>, largest: real)
    requires BacksOff(b, attempt, largest, random, wait)
    requires DrawnFor(b, attempts, draws, waits, largest)
    ensures DrawnFor(b, [attempt] + attempts, [random] + draws, [wait] + waits, largest)
  {
  }

  lemma FirstDraw(s: Sys, step: Step, i: nat, b: Backoff, largest: real) returns (random: real)
    requires |s.tallies| == |s.rows| && Enabled(s, step) && Polite(s, step, b, largest)
    requires i < |s.rows| && NackLands(s, step, s.rows[i])
    ensures BacksOff(b, s.rounds[step.round].lanes[step.g].rest[0].attempts, largest, random,
                     WaitFrom(Next(s, step).rows[i], step.fate.now))
  {
    NackSchedules(s, step, i);
    random :| BacksOff(b, s.rounds[step.round].lanes[step.g].rest[0].attempts, largest, random,
                       step.fate.delay);
  }

  lemma {:induction false} WaitsAreDrawn(s: Sys, steps: seq<Step>, i: nat, b: Backoff,
                                         largest: real)
    returns (draws: seq<real>)
    requires TableShape(s) && Run(s, steps) && PoliteRun(s, steps, b, largest)
    ensures DrawnFor(b, LandedAttempts(s, steps, i), draws, LandedWaits(s, steps, i), largest)
    decreases |steps|
  {
    if steps == [] {
      draws := [];
    } else {
      var s' := Next(s, steps[0]);
      StepKeepsTable(s, steps[0]);
      draws := WaitsAreDrawn(s', steps[1..], i, b, largest);
      if i < |s.rows| && NackLands(s, steps[0], s.rows[i]) {
        var random := FirstDraw(s, steps[0], i, b, largest);
        DrawnFirst(b, s.rounds[steps[0].round].lanes[steps[0].g].rest[0].attempts, random,
                   WaitFrom(s'.rows[i], steps[0].fate.now), LandedAttempts(s', steps[1..], i),
                   draws, LandedWaits(s', steps[1..], i), largest);
        draws := [random] + draws;
      }
    }
  }

  function TotalWait(waits: seq<Time>): Time {
    if waits == [] then 0 else TotalWait(waits[..|waits| - 1]) + waits[|waits| - 1]
  }

  // `wait` microseconds are `delay` seconds, `n` roundings apart.
  predicate OffBy(wait: Time, delay: Seconds, n: nat) {
    -Times(n, 0.5) <= delay * 1000000.0 - wait as real <= Times(n, 0.5)
  }

  lemma {:induction false} TotalIsOff(b: Backoff, attempts: seq<int>, draws: seq<real>,
                                      waits: seq<Time>, largest: real)
    requires DrawnFor(b, attempts, draws, waits, largest)
    requires forall k :: 0 <= k < |attempts| ==> attempts[k] >= 1
    ensures OffBy(TotalWait(waits), TotalDelay(b, Scheduled(attempts, draws), largest), |waits|)
  {
    if waits != [] {
      var n := |waits| - 1;
      var tries := Scheduled(attempts, draws);
      TotalIsOff(b, attempts[..n], draws[..n], waits[..n], largest);
      assert tries[..n] == Scheduled(attempts[..n], draws[..n]);
      assert BacksOff(b, attempts[n], largest, draws[n], waits[n]);
    }
  }

  lemma WaitsOf(b: Backoff, attempts: seq<int>, draws: seq<real>, waits: seq<Time>, limit: nat,
                largest: real)
    requires b.Valid() && b.base * largest >= b.maximum
    requires |attempts| <= limit - 1 && InRange(attempts, limit)
    requires DrawnFor(b, attempts, draws, waits, largest)
    ensures
      var total := TotalDelay(b, Scheduled(attempts, draws), largest);
      && OffBy(TotalWait(waits), total, limit - 1)
      && AtMost(total, Times(limit - 1, b.maximum), b.jitter)
      && (StrictlyIncreasing(attempts) ==> AtMost(total, GeometricTotal(b, limit - 1), b.jitter))
  {
    forall k | 0 <= k < |draws| ensures b.Drawn(draws[k]) {
      assert BacksOff(b, attempts[k], largest, draws[k], waits[k]);
    }
    DelaysOf(b, attempts, draws, limit, largest);
    TotalIsOff(b, attempts, draws, waits, largest);
    TimesMore(|waits|, limit - 1, 0.5);
  }

  // In every run whose failures back off as configured, what the effective nacks of one message
  // make it wait, read off the table, is a delay drawn for each of their attempts. These
  // delays total at most `limit - 1` capped delays; and with undisputed claims they total at
  // most the geometric sum as well. Both up to the jitter, and the waits up to rounding.
  lemma RetriesHoldBackAtMost(b: Backoff, steps: seq<Step>, limit: nat, i: nat, largest: real)
    returns (draws: seq<real>)
    requires b.Valid() && b.base * largest >= b.maximum
    requires limit >= 1 && Run(EMPTY, steps) && Retries.RoundsAtMost(steps, limit)
    requires i < |Exec(EMPTY, steps).rows| && PoliteRun(EMPTY, steps, b, largest)
    ensures InRange(LandedAttempts(EMPTY, steps, i), limit)
    ensures DrawnFor(b, LandedAttempts(EMPTY, steps, i), draws, LandedWaits(EMPTY, steps, i),
                     largest)
    ensures
      var total := TotalDelay(b, Scheduled(LandedAttempts(EMPTY, steps, i), draws), largest);
      && OffBy(TotalWait(LandedWaits(EMPTY, steps, i)), total, limit - 1)
      && AtMost(total, Times(limit - 1, b.maximum), b.jitter)
      && (UndisputedRun(EMPTY, steps) ==>
            AtMost(total, GeometricTotal(b, limit - 1), b.jitter))
  {
    AttemptsOfNacks(steps, limit, i);
    draws := WaitsAreDrawn(EMPTY, steps, i, b, largest);
    WaitsOf(b, LandedAttempts(EMPTY, steps, i), draws, LandedWaits(EMPTY, steps, i), limit,
            largest);
  }
}
