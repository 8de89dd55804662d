// Adaptive polling and the loop around it. The poller is the object the code keeps; the
// loop is a state machine whose steps interleave with `wake` and `stop`.

module Polling {
  import opened Reals
  import opened Wrappers

  datatype Policy = Policy(minimum: Seconds, maximum: Seconds, factor: real) {
    predicate Valid() {
      0.0 < minimum <= maximum && factor >= 1.0
    }

    // As documented: the pause after `k` empty polls in a row.
    function Interval(k: nat): Seconds {
      Min(minimum * Power(factor, k), maximum)
    }

    // As computed: one more empty poll.
    function Grown(current: Seconds): Seconds {
      Min(current * factor, maximum)
    }
  }

  // Capping at every step is capping at the end.
  lemma GrownInterval(p: Policy, k: nat)
    requires p.Valid()
    ensures p.Grown(p.Interval(k)) == p.Interval(k + 1)
  {
    var x := p.minimum * Power(p.factor, k);
    assert p.minimum * Power(p.factor, k + 1) == x * p.factor;
    if x > p.maximum {
      Scales(p.maximum, x, p.factor);
      Scales(1.0, p.factor, p.maximum);
    }
  }

  // The constructor accepts exactly the parameters with which the intervals start at the
  // positive minimum and never shrink.
  lemma AcceptedParameters(p: Policy)
    ensures p.Valid() <==>
            p.Interval(0) == p.minimum > 0.0 && forall k: nat :: p.Interval(k) <= p.Interval(k + 1)
  {
    assert p.minimum * Power(p.factor, 0) == p.minimum;
    if p.Valid() {
      forall k: nat ensures p.Interval(k) <= p.Interval(k + 1) {
        IntervalPositive(p, k);
        GrownInterval(p, k);
        Scales(1.0, p.factor, p.Interval(k));
      }
    } else if p.Interval(0) == p.minimum > 0.0 {
      ShrinkingFactor(p);
      assert !(p.Interval(0) <= p.Interval(0 + 1));
    }
  }

  lemma ShrinkingFactor(p: Policy)
    requires 0.0 < p.minimum <= p.maximum && p.factor < 1.0
    ensures p.Interval(1) < p.minimum
  {
    assert Power(p.factor, 1) == Power(p.factor, 0) * p.factor == p.factor;
    ScalesStrictly(p.factor, 1.0, p.minimum);
  }

  lemma ScalesStrictly(x: real, y: real, factor: real)
    requires x < y && factor > 0.0
    ensures factor * x < factor * y
  {
  }

  // How long a wait lasts whose flag is up or down, with the time of the next wake.
  function WaitTime(wakeup: bool, limit: Seconds, wakeAfter: Option<Seconds>): Seconds {
    if wakeup || limit <= 0.0 then 0.0
    else if wakeAfter.Some? && wakeAfter.value <= limit then wakeAfter.value
    else limit
  }

  class AdaptivePoller {
    const policy: Policy
    var current: Seconds
    var wakeup: bool
    // Empty polls since the interval was last reset.
    ghost var empties: nat

    ghost predicate Valid()
      reads this
    {
      policy.Valid() && current == policy.Interval(empties)
    }

    constructor (policy: Policy)
      requires policy.Valid()
      ensures Valid() && this.policy == policy && empties == 0
      ensures current == policy.minimum && !wakeup
    {
      this.policy := policy;
      current, wakeup, empties := policy.minimum, false, 0;
      new;
      assert Power(policy.factor, 0) == 1.0;
    }

    method Busy()
      requires Valid()
      modifies `current, `empties
      ensures Valid() && empties == 0 && current == policy.minimum
    {
      current, empties := policy.minimum, 0;
      assert Power(policy.factor, 0) == 1.0;
    }

    method Idle()
      requires Valid()
      modifies `current, `empties
      ensures Valid() && empties == old(empties) + 1
      ensures current == policy.Grown(old(current))
    {
      GrownInterval(policy, empties);
      current := Min(current * policy.factor, policy.maximum);
      empties := empties + 1;
    }

    method Wake()
      modifies `wakeup
      ensures wakeup
    {
      wakeup := true;
    }

    // `wakeAfter` says when, counted from the call, the next wake arrives, if ever.
    method Wait(seconds: Option<Seconds>, wakeAfter: Option<Seconds>) returns (slept: Seconds)
      requires Valid() && (wakeAfter.Some? ==> wakeAfter.value >= 0.0)
      modifies `wakeup
      ensures Valid() && !wakeup
      ensures
        var limit := if seconds.Some? then seconds.value else policy.Interval(empties);
        slept == WaitTime(old(wakeup), limit, wakeAfter)
    {
      var timeout := if seconds.Some? then seconds.value else current;
      if wakeup || timeout <= 0.0 {
        slept := 0.0;
      } else if wakeAfter.Some? && wakeAfter.value <= timeout {
        slept := wakeAfter.value;
      } else {
        slept := timeout;
      }
      wakeup := false;
    }
  }

  // A poller exists exactly for the accepted parameters.
  method CreatePoller(minimum: Seconds, maximum: Seconds, factor: real)
    returns (poller: AdaptivePoller?)
    ensures poller == null <==> minimum <= 0.0 || maximum < minimum || factor < 1.0
    ensures poller != null ==> fresh(poller) && poller.Valid() && poller.empties == 0
    ensures poller != null ==> poller.policy == Policy(minimum, maximum, factor)
  {
    if minimum <= 0.0 || maximum < minimum || factor < 1.0 {
      return null;
    }
    poller := new AdaptivePoller(Policy(minimum, maximum, factor));
  }

  // ------------------------------------------------------------------ the loop

  datatype Config = Config(policy: Policy, errorDelay: Seconds, batchSize: nat) {
    predicate Valid() {
      policy.Valid() && errorDelay >= 0.0 && batchSize >= 1
    }
  }

  // Where the loop is: about to test the stop flag, in a round, pausing with `left` seconds
  // to go, yielding once after a full batch, or done.
  datatype Place = Testing | InRound | Pausing(left: Seconds) | Yielding | Exited

  // `claims` counts the rounds started, `slept` the time paused since the last one started.
  datatype Loop = Loop(place: Place, stopping: bool, wakeup: bool, current: Seconds,
                       claims: nat, slept: Seconds)

  datatype Outcome = Broke | Claimed(count: nat)

  // `Wake` and `Stop` come from outside at any time; `Passes` is the clock, which only
  // matters while the loop pauses; the other steps are the loop's own.
  datatype Step = Wake | Stop | Test | RoundEnds(outcome: Outcome) | Passes(d: Seconds) | Resumes {
    predicate Own() {
      Test? || RoundEnds? || Resumes?
    }
  }

  function Started(c: Config, wakeup: bool): Loop {
    Loop(Testing, false, wakeup, c.policy.minimum, 0, 0.0)
  }

  // A set flag or a passed deadline ends the pause before any more time passes.
  predicate Enabled(l: Loop, s: Step) {
    match s
    case Wake => true
    case Stop => true
    case Test => l.place.Testing?
    case RoundEnds(_) => l.place.InRound?
    case Passes(d) => l.place.Pausing? && !l.wakeup && 0.0 < d <= l.place.left
    case Resumes => l.place.Yielding? || (l.place.Pausing? && (l.wakeup || l.place.left <= 0.0))
  }

  function AfterRound(l: Loop, outcome: Outcome, c: Config): Loop {
    if outcome.Broke? then l.(place := Pausing(c.errorDelay))
    else if l.stopping then l.(place := Testing)
    else if outcome.count > 0 then
      l.(current := c.policy.minimum,
         place := if outcome.count >= c.batchSize then Yielding else Pausing(c.policy.minimum))
    else
      var current := c.policy.Grown(l.current);
      l.(current := current, place := Pausing(current))
  }

  function Next(l: Loop, s: Step, c: Config): Loop
    requires Enabled(l, s)
  {
    match s
    case Wake => l.(wakeup := true)
    case Stop => l.(stopping := true, wakeup := true)
    case Test =>
      if l.stopping then l.(place := Exited)
      else l.(place := InRound, claims := l.claims + 1, slept := 0.0)
    case RoundEnds(outcome) => AfterRound(l, outcome, c)
    case Passes(d) => l.(place := Pausing(l.place.left - d), slept := l.slept + d)
    case Resumes => l.(place := Testing, wakeup := if l.place.Pausing? then false else l.wakeup)
  }

  // The part of the relay that runs the loop.
  class RelayLoop {
    const config: Config
    const poller: AdaptivePoller
    var stopping: bool

    constructor (config: Config, poller: AdaptivePoller)
      ensures this.config == config && this.poller == poller && !stopping
    {
      this.config, this.poller, stopping := config, poller, false;
    }

    ghost predicate Valid()
      reads this, poller
    {
      poller.Valid() && config.Valid() && config.policy == poller.policy
    }

    // The loop with a round in flight.
    ghost function View(): Loop
      reads this, poller
    {
      Loop(InRound, stopping, poller.wakeup, poller.current, 1, 0.0)
    }

    method Stop()
      modifies this, poller`wakeup
      ensures stopping && poller.wakeup
    {
      stopping := true;
      poller.Wake();
    }

    // What follows a round that ended with `outcome`; `wakeAfter` as in `Wait`.
    method LoopStep(outcome: Outcome, wakeAfter: Option<Seconds>) returns (slept: Seconds)
      requires Valid() && (wakeAfter.Some? ==> wakeAfter.value >= 0.0)
      modifies poller
      ensures Valid()
      // A failed round waits for the error delay and leaves the interval alone; so does a round
      // that ends while stopping, which does not wait at all.
      ensures outcome.Broke? || stopping ==>
                poller.current == old(poller.current) && poller.empties == old(poller.empties)
      ensures outcome.Broke? ==> slept == WaitTime(old(poller.wakeup), config.errorDelay, wakeAfter)
      // A round that claimed something resets the interval, and waits unless the batch was full.
      ensures outcome.Claimed? && outcome.count > 0 && !stopping ==>
                poller.current == config.policy.minimum && poller.empties == 0
      ensures outcome.Claimed? && 0 < outcome.count < config.batchSize && !stopping ==>
                slept == WaitTime(old(poller.wakeup), config.policy.minimum, wakeAfter)
      // An empty round lengthens the interval and waits for it.
      ensures outcome == Claimed(0) && !stopping ==>
                && poller.empties == old(poller.empties) + 1
                && poller.current == config.policy.Interval(poller.empties)
                && slept == WaitTime(old(poller.wakeup), poller.current, wakeAfter)
      // Only a wait lowers the flag.
      ensures
        var waits := outcome.Broke? || !(stopping || outcome.count >= config.batchSize);
        poller.wakeup == (old(poller.wakeup) && !waits) && (!waits ==> slept == 0.0)
      // All this is the step of the loop machine.
      ensures
        var next := AfterRound(old(View()), outcome, config);
        && poller.current == next.current
        && poller.wakeup == (next.wakeup && !next.place.Pausing?)
        && slept == if next.place.Pausing?
                    then WaitTime(old(poller.wakeup), next.place.left, wakeAfter) else 0.0
    {
      slept := 0.0;
      if outcome.Broke? {
        slept := poller.Wait(Some(config.errorDelay), wakeAfter);
        return;
      }
      if stopping {
        return;
      }
      if outcome.count > 0 {
        poller.Busy();
        if outcome.count >= config.batchSize {
          return;
        }
      } else {
        poller.Idle();
      }
      IntervalPositive(poller.policy, poller.empties);
      slept := poller.Wait(None, wakeAfter);
    }
  }

  // The loop of a relay whose configuration is accepted, and none otherwise.
  method CreateLoop(minimum: Seconds, maximum: Seconds, factor: real, errorDelay: Seconds,
                    batchSize: int)
    returns (loop: RelayLoop?)
    ensures loop == null <==>
            batchSize < 1 || errorDelay < 0.0 || !Policy(minimum, maximum, factor).Valid()
    ensures loop != null ==> fresh(loop) && fresh(loop.poller) && loop.Valid() && !loop.stopping
  {
    if batchSize < 1 || errorDelay < 0.0 {
      return null;
    }
    var poller := CreatePoller(minimum, maximum, factor);
    if poller == null {
      return null;
    }
    loop := new RelayLoop(Config(poller.policy, errorDelay, batchSize), poller);
  }

  predicate Runs(l: Loop, steps: seq<Step>, c: Config)
    decreases |steps|
  {
    steps == [] || (Enabled(l, steps[0]) && Runs(Next(l, steps[0], c), steps[1..], c))
  }

  function After(l: Loop, steps: seq<Step>, c: Config): Loop
    requires Runs(l, steps, c)
    decreases |steps|
  {
    if steps == [] then l else After(Next(l, steps[0], c), steps[1..], c)
  }

  // ------------------------------------------------------------------- waking

  // No pause can take time before the next round starts.
  predicate Alert(l: Loop) {
    l.wakeup || !(l.place.InRound? || l.place.Pausing?)
  }

  lemma {:induction false} AlertNeverSleeps(l: Loop, steps: seq<Step>, c: Config)
    requires Runs(l, steps, c) && Alert(l)
    ensures
      var end := After(l, steps, c);
      end.claims >= l.claims && (end.claims == l.claims ==> end.slept == l.slept && Alert(end))
    decreases |steps|
  {
    if steps != [] {
      var next := Next(l, steps[0], c);
      if next.claims == l.claims {
        AlertNeverSleeps(next, steps[1..], c);
      } else {
        ClaimsOnlyGrow(next, steps[1..], c);
      }
    }
  }

  lemma {:induction false} ClaimsOnlyGrow(l: Loop, steps: seq<Step>, c: Config)
    requires Runs(l, steps, c)
    ensures After(l, steps, c).claims >= l.claims
    decreases |steps|
  {
    if steps != [] {
      ClaimsOnlyGrow(Next(l, steps[0], c), steps[1..], c);
    }
  }

  // After a wake, or a stop, the loop does not sleep another moment before the next claim.
  lemma NoSleepAfterWake(l: Loop, signal: Step, steps: seq<Step>, c: Config)
    requires signal.Wake? || signal.Stop?
    requires Runs(Next(l, signal, c), steps, c)
    ensures
      var end := After(Next(l, signal, c), steps, c);
      end.claims == l.claims ==> end.slept == l.slept
  {
    AlertNeverSleeps(Next(l, signal, c), steps, c);
  }

  // ------------------------------------------------------------------ stopping

  function OwnSteps(steps: seq<Step>): nat {
    if steps == [] then 0 else OwnSteps(steps[1..]) + if steps[0].Own() then 1 else 0
  }

  // Own steps a stopping loop still has before it.
  function ToExit(l: Loop): nat {
    match l.place
    case Exited => 0
    case Testing => 1
    case Yielding => 2
    case Pausing(_) => 2
    case InRound => 3
  }

  lemma {:induction false} StoppingStays(l: Loop, steps: seq<Step>, c: Config)
    requires Runs(l, steps, c) && l.stopping
    ensures
      var end := After(l, steps, c);
      end.stopping && end.claims == l.claims && OwnSteps(steps) + ToExit(end) <= ToExit(l)
    decreases |steps|
  {
    if steps != [] {
      StoppingStays(Next(l, steps[0], c), steps[1..], c);
    }
  }

  // After `stop` no claim starts, the loop does not sleep, and it exits within three steps of
  // its own: the end of the round in flight, the end of a pause, the test.
  lemma StopIsFinal(l: Loop, steps: seq<Step>, c: Config)
    requires Runs(Next(l, Stop, c), steps, c)
    ensures
      var end := After(Next(l, Stop, c), steps, c);
      && end.claims == l.claims && end.slept == l.slept
      && OwnSteps(steps) <= 3
      && (OwnSteps(steps) >= ToExit(l) ==> end.place.Exited?)
  {
    StoppingStays(Next(l, Stop, c), steps, c);
    AlertNeverSleeps(Next(l, Stop, c), steps, c);
  }

  // Left alone from wherever it is, the loop starts its next round within four steps, or
  // exits if it has been asked to stop.
  lemma NeverStuck(l: Loop, c: Config) returns (steps: seq<Step>)
    requires l.place.Pausing? ==> l.place.left >= 0.0
    requires c.errorDelay >= 0.0 && !l.place.Exited?
    ensures |steps| <= StepsToClaim(l) <= 4 && forall s :: s in steps ==> !s.Wake? && !s.Stop?
    ensures Runs(l, steps, c)
    ensures
      var end := After(l, steps, c);
      if l.stopping then end.place.Exited? && end.claims == l.claims
      else end.place.InRound? && end.claims == l.claims + 1
    decreases StepsToClaim(l)
  {
    var step := match l.place
      case Testing => Test
      case InRound => RoundEnds(Broke)
      case Yielding => Resumes
      case Pausing(left) => if l.wakeup || left <= 0.0 then Resumes else Passes(left)
      case Exited => Test;
    var rest := [];
    if !l.place.Testing? {
      rest := NeverStuck(Next(l, step, c), c);
    }
    steps := [step] + rest;
    OneStep(l, step, rest, c);
  }

  function StepsToClaim(l: Loop): nat {
    match l.place
    case Exited => 0
    case Testing => 1
    case Yielding => 2
    case Pausing(left) => if l.wakeup || left <= 0.0 then 2 else 3
    case InRound => 4
  }

  lemma OneStep(l: Loop, s: Step, rest: seq<Step>, c: Config)
    requires Enabled(l, s) && Runs(Next(l, s, c), rest, c)
    ensures Runs(l, [s] + rest, c) && After(l, [s] + rest, c) == After(Next(l, s, c), rest, c)
  {
    assert ([s] + rest)[1..] == rest;
  }

  // ------------------------------------------------------------------ intervals

  // The empty rounds in a row that end the run `steps`: those since the last round that claimed
  // something. Rounds that fail do not count, nor do rounds that end after a stop.
  function Streak(steps: seq<Step>): nat {
    if steps == [] then 0
    else
      var n := |steps| - 1;
      if steps[n].RoundEnds? && steps[n].outcome.Claimed? && Stop !in steps[..n]
      then if steps[n].outcome.count > 0 then 0 else Streak(steps[..n]) + 1
      else Streak(steps[..n])
  }

  lemma {:induction false} AfterSnoc(l: Loop, steps: seq<Step>, last: Step, c: Config)
    requires Runs(l, steps + [last], c)
    ensures Runs(l, steps, c) && Enabled(After(l, steps, c), last)
    ensures After(l, steps + [last], c) == Next(After(l, steps, c), last, c)
    decreases |steps|
  {
    if steps == [] {
      assert (steps + [last])[1..] == [];
    } else {
      assert (steps + [last])[1..] == steps[1..] + [last];
      AfterSnoc(Next(l, steps[0], c), steps[1..], last, c);
    }
  }

  // What the steps of a run say about where it has got to: a stop has been asked for if it is
  // among them, the interval is the one for the streak, and a round starts with no time slept.
  predicate ToldBy(l: Loop, steps: seq<Step>, c: Config) {
    && (l.stopping <==> Stop in steps)
    && l.current == c.policy.Interval(Streak(steps))
    && (l.place.InRound? ==> l.slept == 0.0)
  }

  lemma ToldByNext(l: Loop, steps: seq<Step>, last: Step, c: Config)
    requires c.Valid() && Enabled(l, last) && ToldBy(l, steps, c)
    ensures ToldBy(Next(l, last, c), steps + [last], c)
  {
    assert (steps + [last])[..|steps|] == steps;
    GrownInterval(c.policy, Streak(steps));
    assert Power(c.policy.factor, 0) == 1.0;
  }

  lemma {:induction false} RunIsTold(c: Config, wakeup: bool, steps: seq<Step>)
    requires c.Valid() && Runs(Started(c, wakeup), steps, c)
    ensures ToldBy(After(Started(c, wakeup), steps, c), steps, c)
    decreases |steps|
  {
    if steps == [] {
      assert Power(c.policy.factor, 0) == 1.0;
    } else {
      var before, last := steps[..|steps| - 1], steps[|steps| - 1];
      assert steps == before + [last];
      AfterSnoc(Started(c, wakeup), before, last, c);
      RunIsTold(c, wakeup, before);
      ToldByNext(After(Started(c, wakeup), before, c), before, last, c);
    }
  }

  // After k empty rounds in a row the interval is min(minimum * factor^k, maximum).
  lemma IntervalAfterEmptyRounds(c: Config, wakeup: bool, steps: seq<Step>)
    requires c.Valid() && Runs(Started(c, wakeup), steps, c)
    ensures After(Started(c, wakeup), steps, c).current == c.policy.Interval(Streak(steps))
  {
    RunIsTold(c, wakeup, steps);
  }

  // The pause that a round's outcome calls for, after the run `steps`.
  function PauseFor(steps: seq<Step>, outcome: Outcome, c: Config): Seconds {
    if outcome.Broke? then c.errorDelay
    else if outcome.count >= c.batchSize then 0.0
    else if outcome.count > 0 then c.policy.minimum
    else c.policy.Interval(Streak(steps) + 1)
  }

  // Of a pause of `total` seconds, what is slept and what is left.
  predicate PauseRunning(l: Loop, total: Seconds) {
    match l.place
    case Pausing(left) => l.slept + left == total && left >= 0.0
    case Yielding => l.slept == total
    case Testing => l.slept == total
    case InRound => false
    case Exited => false
  }

  lemma {:induction false} PauseKeepsTime(l: Loop, steps: seq<Step>, c: Config, total: Seconds)
    requires Runs(l, steps, c) && !l.wakeup && !l.stopping && PauseRunning(l, total)
    requires forall s :: s in steps ==> !s.Wake? && !s.Stop?
    ensures
      var end := After(l, steps, c);
      end.claims == l.claims ==> PauseRunning(end, total)
    decreases |steps|
  {
    if steps != [] {
      var next := Next(l, steps[0], c);
      assert steps[0] in steps;
      if next.claims == l.claims {
        PauseKeepsTime(next, steps[1..], c, total);
      } else {
        ClaimsOnlyGrow(next, steps[1..], c);
      }
    }
  }

  // With no wake and no stop, the loop sleeps exactly the pause that the round calls for
  // before it tests the stop flag and claims again, whatever has happened before.
  lemma FullPause(c: Config, wakeup: bool, steps: seq<Step>, outcome: Outcome, more: seq<Step>)
    requires c.Valid() && Runs(Started(c, wakeup), steps, c) && Stop !in steps
    requires
      var l := After(Started(c, wakeup), steps, c);
      l.place.InRound? && !l.wakeup && Runs(Next(l, RoundEnds(outcome), c), more, c)
    requires forall s :: s in more ==> !s.Wake? && !s.Stop?
    ensures
      var l := After(Started(c, wakeup), steps, c);
      var end := After(Next(l, RoundEnds(outcome), c), more, c);
      end.claims == l.claims && end.place.Testing? ==> end.slept == PauseFor(steps, outcome, c)
  {
    var l := After(Started(c, wakeup), steps, c);
    RunIsTold(c, wakeup, steps);
    GrownInterval(c.policy, Streak(steps));
    IntervalPositive(c.policy, Streak(steps) + 1);
    PauseKeepsTime(Next(l, RoundEnds(outcome), c), more, c, PauseFor(steps, outcome, c));
  }

  // ---------------------------------------------------------- pauses are waits

  // Ticks of the clock, and the time they add up to.
  function Elapsed(ticks: seq<Step>): Seconds {
    if ticks == [] then 0.0
    else Elapsed(ticks[1..]) + if ticks[0].Passes? then ticks[0].d else 0.0
  }

  lemma {:induction false} TicksPass(l: Loop, ticks: seq<Step>, c: Config)
    requires Runs(l, ticks, c) && l.place.Pausing? && l.place.left >= 0.0
    requires forall s :: s in ticks ==> s.Passes?
    ensures 0.0 <= Elapsed(ticks) <= l.place.left && (l.wakeup ==> ticks == [])
    ensures
      After(l, ticks, c) ==
      l.(place := Pausing(l.place.left - Elapsed(ticks)), slept := l.slept + Elapsed(ticks))
    decreases |ticks|
  {
    if ticks != [] {
      assert ticks[0] in ticks;
      TicksPass(Next(l, ticks[0], c), ticks[1..], c);
    }
  }

  // A pause of the loop, ended by its deadline, by a wake that came before it, or by one
  // that comes while it lasts, takes the time of the poller's `wait`.
  lemma PauseIsWait(l: Loop, ticks: seq<Step>, woken: bool, c: Config)
    requires l.place.Pausing? && l.place.left >= 0.0
    requires Runs(l, ticks, c) && forall s :: s in ticks ==> s.Passes?
    requires Enabled(if woken then Next(After(l, ticks, c), Wake, c) else After(l, ticks, c), Resumes)
    ensures
      var paused := After(l, ticks, c);
      var end := Next(if woken then Next(paused, Wake, c) else paused, Resumes, c);
      && end.place.Testing? && !end.wakeup && end.claims == l.claims
      && end.slept - l.slept ==
         WaitTime(l.wakeup, l.place.left, if woken then Some(Elapsed(ticks)) else None)
  {
    TicksPass(l, ticks, c);
  }

  lemma {:induction false} IntervalPositive(p: Policy, k: nat)
    requires p.Valid()
    ensures p.minimum <= p.Interval(k) <= p.maximum
  {
    if k == 0 {
      assert Power(p.factor, 0) == 1.0;
    } else {
      IntervalPositive(p, k - 1);
      GrownInterval(p, k - 1);
      Scales(1.0, p.factor, p.Interval(k - 1));
    }
  }
}
