// A round that runs without interference: the steps it takes in the system do to the table,
// the log and the round what module Round says.

module RoundsInSystem {
  import opened Rows
  import opened Claim
  import opened Round
  import opened RoundStart
  import opened OutboxSystem

  // The steps of round `id` from `p` on when its groups take turns as `schedule` says. A group
  // that is done lets its turn pass.
  function Moves(p: Progress, schedule: seq<nat>, id: nat, r: Runner, oracle: Oracle): seq<Step>
    decreases |schedule|
  {
    if schedule == [] then []
    else
      var g := schedule[0];
      if g >= |p.lanes| || p.lanes[g].Closed() then Moves(p, schedule[1..], id, r, oracle)
      else
        var fate := Verdict(p.lanes[g], oracle);
        [Move(id, g, fate)] + Moves(Advance(p, g, r, fate), schedule[1..], id, r, oracle)
  }

  // Round `id` stands at `p`, after accepting what it has acked on top of `log`.
  ghost predicate StandsAt(s: Sys, id: nat, r: Runner, log: seq<Id>, p: Progress) {
    && |s.tallies| == |s.rows| && id in s.rounds && s.rows == p.rows && s.log == log + p.acked
    && s.rounds[id].runner == r && s.rounds[id].lanes == p.lanes && s.rounds[id].acked == p.acked
  }

  lemma MoveAdvances(s: Sys, id: nat, g: nat, r: Runner, oracle: Oracle, log: seq<Id>, p: Progress)
    requires StandsAt(s, id, r, log, p) && g < |p.lanes| && !p.lanes[g].Closed()
    ensures
      var fate := Verdict(p.lanes[g], oracle);
      Enabled(s, Move(id, g, fate)) &&
      StandsAt(Next(s, Move(id, g, fate)), id, r, log, Advance(p, g, r, fate))
  {
    var fate := Verdict(p.lanes[g], oracle);
    assert log + (p.acked + NewlyAccepted(p.lanes[g], fate)) ==
           log + p.acked + NewlyAccepted(p.lanes[g], fate);
  }

  lemma FirstStep(s: Sys, step: Step, rest: seq<Step>)
    requires |s.tallies| == |s.rows| && Enabled(s, step) && Run(Next(s, step), rest)
    ensures Run(s, [step] + rest) && Exec(s, [step] + rest) == Exec(Next(s, step), rest)
  {
    assert ([step] + rest)[1..] == rest;
  }

  lemma {:induction false} MovesDrive(s: Sys, id: nat, schedule: seq<nat>, r: Runner,
                                      oracle: Oracle, log: seq<Id>, p: Progress)
    requires StandsAt(s, id, r, log, p)
    ensures Run(s, Moves(p, schedule, id, r, oracle))
    ensures StandsAt(Exec(s, Moves(p, schedule, id, r, oracle)), id, r, log,
                     Drive(p, schedule, r, oracle))
    decreases |schedule|
  {
    if schedule != [] {
      var g := schedule[0];
      if g >= |p.lanes| || p.lanes[g].Closed() {
        MovesDrive(s, id, schedule[1..], r, oracle, log, p);
      } else {
        var fate := Verdict(p.lanes[g], oracle);
        var p' := Advance(p, g, r, fate);
        MoveAdvances(s, id, g, r, oracle, log, p);
        MovesDrive(Next(s, Move(id, g, fate)), id, schedule[1..], r, oracle, log, p');
        FirstStep(s, Move(id, g, fate), Moves(p', schedule[1..], id, r, oracle));
      }
    }
  }

  lemma {:induction false} RunThen(s: Sys, steps: seq<Step>, last: Step)
    requires |s.tallies| == |s.rows| && Run(s, steps) && Enabled(Exec(s, steps), last)
    ensures Run(s, steps + [last]) && Exec(s, steps + [last]) == Next(Exec(s, steps), last)
    decreases |steps|
  {
    if steps == [] {
      assert steps + [last] == [last];
      FirstStep(s, last, []);
    } else {
      RunThen(Next(s, steps[0]), steps[1..], last);
      FirstStep(s, steps[0], steps[1..] + [last]);
      assert [steps[0]] + (steps[1..] + [last]) == steps + [last];
    }
  }

  // The steps of a whole round.
  function RoundSteps(s: Sys, id: nat, q: Query, maxAttempts: int, oracle: Oracle,
                      schedule: seq<nat>): seq<Step>
  {
    [Begin(id, q, maxAttempts)]
    + Moves(StartOfRound(s.rows, q), schedule, id, Runner(q.worker, maxAttempts), oracle)
    + [End(id, true)]
  }

  lemma BeginStands(s: Sys, id: nat, q: Query, maxAttempts: int)
    requires |s.tallies| == |s.rows| && id !in s.rounds
    ensures StandsAt(Next(s, Begin(id, q, maxAttempts)), id, Runner(q.worker, maxAttempts), s.log,
                     StartOfRound(s.rows, q))
  {
  }

  lemma EndFinishes(s: Sys, id: nat, r: Runner, log: seq<Id>, p: Progress)
    requires StandsAt(s, id, r, log, p)
    ensures
      var s' := Next(s, End(id, true));
      s'.rows == Finished(p, r) && s'.log == log + p.acked && s'.rounds == s.rounds - {id}
  {
  }

  // In any state of the system, a round that no other step comes between, with any complete
  // schedule of its groups, leaves the table of module Round and adds its accepted messages to
  // the log.
  lemma RoundInSystem(s: Sys, id: nat, q: Query, maxAttempts: int, oracle: Oracle,
                      schedule: seq<nat>)
    requires |s.tallies| == |s.rows| && Ascending(s.rows) && id !in s.rounds
    requires AllClosed(Drive(StartOfRound(s.rows, q), schedule, Runner(q.worker, maxAttempts),
                             oracle).lanes)
    ensures
      var steps := RoundSteps(s, id, q, maxAttempts, oracle, schedule);
      var end := Drive(StartOfRound(s.rows, q), schedule, Runner(q.worker, maxAttempts), oracle);
      && Run(s, steps)
      && Exec(s, steps).rows == RoundRows(s.rows, q, maxAttempts, oracle)
      && Exec(s, steps).log == s.log + end.acked
  {
    var r, start := Runner(q.worker, maxAttempts), StartOfRound(s.rows, q);
    var begin, moves := Begin(id, q, maxAttempts), Moves(start, schedule, id, r, oracle);
    BeginStands(s, id, q, maxAttempts);
    MovesDrive(Next(s, begin), id, schedule, r, oracle, s.log, start);
    EndFinishes(Exec(Next(s, begin), moves), id, r, s.log, Drive(start, schedule, r, oracle));
    RunThen(Next(s, begin), moves, End(id, true));
    FirstStep(s, begin, moves + [End(id, true)]);
    assert [begin] + (moves + [End(id, true)]) == RoundSteps(s, id, q, maxAttempts, oracle, schedule);
    RoundRowsAnySchedule(s.rows, q, maxAttempts, oracle, schedule);
  }
}
