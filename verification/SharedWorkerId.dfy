// A run in which the fence fails: two loops share one worker id, and the second claims the
// expired row of the first.

module SharedWorkerId {
  import opened Wrappers
  import opened Rows
  import opened Grouping
  import opened Round
  import opened RoundStart
  import opened OutboxSystem
  import opened Fencing

  const SHARED_ID: seq<Step> :=
    [Produce(None, 0),
     Begin(0, Query("w", 0, 10, 1, true, None), 2),
     Begin(1, Query("w", 20, 10, 1, true, None), 2)]

  lemma OneRowClaim(row: Row, q: Query)
    requires Eligible([], row, q) && q.limit >= 1
    ensures ClaimRows([row], q) == [Leased(row, q)]
    ensures ClaimBatch([row], q) == [Leased(row, q).AsMessage()]
    ensures StartLanes([Leased(row, q).AsMessage()]) == [Publishing([Leased(row, q).AsMessage()])]
  {
    assert [row][..0] == [];
    assert EligibleCount([], q) == 0;
    OneMessageGroup(Leased(row, q).AsMessage());
  }

  lemma OneMessageGroup(m: Message)
    ensures Groups([m]) == [[m]]
  {
    var batch := [m];
    assert batch[..0] == [];
    assert Leaders(batch) == [0];
    assert WithKey(batch, m.key) == [m];
  }

  function Reclaimed(t: Tally, row: Row): Tally {
    Tally(t.claims + 1, t.superseded + (if row.leasedBy.Some? then 1 else 0), t.nacks)
  }

  lemma OneRowTallies(t: Tally, row: Row, q: Query)
    requires row.id == 1
    ensures ObserveAll([t], [row], [Leased(row, q)]) == [Reclaimed(t, row)]
    ensures EpochsOf([Leased(row, q).AsMessage()], [Reclaimed(t, row)]) == map[1 := t.claims + 1]
  {
    assert IdsOf([Leased(row, q).AsMessage()]) == [1];
  }

  lemma BeginOnOneRow(s: Sys, r: nat, q: Query, row: Row, t: Tally)
    requires s.rows == [row] && s.tallies == [t] && row.id == 1 && r !in s.rounds
    requires Eligible([], row, q) && q.limit >= 1
    ensures
      var s', m := Next(s, Begin(r, q, 2)), Leased(row, q).AsMessage();
      && s'.rows == [Leased(row, q)] && s'.tallies == [Reclaimed(t, row)]
      && s'.rounds == s.rounds[r := LiveRound(Runner(q.worker, 2), [Publishing([m])], [],
                                              map[1 := t.claims + 1])]
  {
    OneRowClaim(row, q);
    OneRowTallies(t, row, q);
  }

  // What a report of a stale round does to a row that its worker id leases again.
  lemma StaleReport(s: Sys, m: Message, row: Row, fate: Fate)
    requires fate.Failed? && fate.reported
    requires s.rows == [row] && |s.tallies| == 1 && row.id == m.id && row.leasedBy == Some("w")
    requires 0 in s.rounds && s.rounds[0].runner.worker == "w"
    requires s.rounds[0].lanes == [Publishing([m])] && !Latest(s, s.rounds[0], m.id)
    ensures Enabled(s, Move(0, 0, fate)) && StaleWrite(s, Move(0, 0, fate), 0)
  {
    var wb := Report(m, s.rounds[0].runner, fate);
    assert wb.Ids() == [m.id];
    assert WriteRow(row, wb, "w") == wb.Change(row);
  }

  // The second claim is disputed, and then the report of the first, stale round goes through.
  lemma SharedIdBreaksFence(fate: Fate)
    requires fate.Failed? && fate.reported
    ensures Run(EMPTY, SHARED_ID) && !UndisputedRun(EMPTY, SHARED_ID)
    ensures
      var s, step := Exec(EMPTY, SHARED_ID), Move(0, 0, fate);
      Enabled(s, step) && |s.rows| == 1 && StaleWrite(s, step, 0)
  {
    var q0, q1, row := SHARED_ID[1].q, SHARED_ID[2].q, NewRow(1, None, 0);
    var s1 := Next(EMPTY, SHARED_ID[0]);
    BeginOnOneRow(s1, 0, q0, row, Tally(0, 0, 0));
    var s2 := Next(s1, SHARED_ID[1]);
    var leased := Leased(row, q0);
    BeginOnOneRow(s2, 1, q1, leased, Tally(1, 0, 0));
    var s3 := Next(s2, SHARED_ID[2]);
    SecondIsDisputed(s2, leased, q1);
    ThreeSteps(SHARED_ID, s1, s2, s3);
    StaleReport(s3, leased.AsMessage(), Leased(leased, q1), fate);
  }

  lemma SecondIsDisputed(s: Sys, row: Row, q: Query)
    requires s.rows == [row] && Eligible([], row, q) && q.limit >= 1
    requires 0 in s.rounds && s.rounds[0].runner.worker == q.worker
    requires s.rounds[0].lanes == [Publishing([row.AsMessage()])]
    ensures !Undisputed(s, Begin(1, q, 2))
  {
    var lane := s.rounds[0].lanes[0];
    assert lane.rest[0].id == row.id && Owes(lane, row.id);
    assert EligibleCount([], q) == 0 && s.rows[..0] == [];
    assert Disputed(s, Begin(1, q, 2), 0, 0);
  }

  lemma FirstStep(s: Sys, steps: seq<Step>, s': Sys, rest: seq<Step>)
    requires steps != [] && |s.tallies| == |s.rows| && Enabled(s, steps[0])
    requires s' == Next(s, steps[0]) && rest == steps[1..]
    requires |s'.tallies| == |s'.rows| && Run(s', rest)
    ensures Run(s, steps) && Exec(s, steps) == Exec(s', rest)
    ensures UndisputedRun(s, steps) <==> Undisputed(s, steps[0]) && UndisputedRun(s', rest)
  {
  }

  lemma ThreeSteps(steps: seq<Step>, s1: Sys, s2: Sys, s3: Sys)
    requires |steps| == 3 && Enabled(EMPTY, steps[0]) && s1 == Next(EMPTY, steps[0])
    requires |s1.tallies| == |s1.rows| && Enabled(s1, steps[1]) && s2 == Next(s1, steps[1])
    requires |s2.tallies| == |s2.rows| && Enabled(s2, steps[2]) && s3 == Next(s2, steps[2])
    requires |s3.tallies| == |s3.rows|
    ensures Run(EMPTY, steps) && Exec(EMPTY, steps) == s3
    ensures !Undisputed(s2, steps[2]) ==> !UndisputedRun(EMPTY, steps)
  {
    FirstStep(s2, steps[2..], s3, []);
    FirstStep(s1, steps[1..], s2, steps[2..]);
    FirstStep(EMPTY, steps, s1, steps[1..]);
  }
}
