// Progress: rounds without crashes and with working write-backs empty the table, with a
// measure that every non-empty round decreases, whatever the publisher does.

module Draining {
  import opened Wrappers
  import opened Rows
  import opened Claim
  import opened Grouping
  import opened Round
  import opened RoundStart
  import opened RoundOutcome
  import opened RoundVerdicts

  // Failures are reported and released.
  ghost predicate Reliable(oracle: Oracle) {
    forall id: Id :: oracle(id).Failed? ==> oracle(id).reported && oracle(id).released
  }

  // ------------------------------------------------------------- the measure

  // Claims that the row may still need: what is left of its attempts, and one if crashes have
  // used them up.
  function Budget(row: Row, maxAttempts: int): nat {
    if !row.status.Pending? then 0
    else if row.attempts < maxAttempts then maxAttempts - row.attempts
    else 1
  }

  function Measure(rows: seq<Row>, maxAttempts: int): nat {
    if rows == [] then 0
    else
      var n := |rows| - 1;
      Measure(rows[..n], maxAttempts) + Budget(rows[n], maxAttempts)
  }

  // All retries are due, all leases have run out, all rows are old enough.
  predicate AllReady(rows: seq<Row>, q: Query) {
    forall i :: 0 <= i < |rows| && rows[i].status.Pending? ==> !NotReady(rows[i], q)
  }

  predicate AnyPending(rows: seq<Row>) {
    exists i :: 0 <= i < |rows| && rows[i].status.Pending?
  }

  lemma RowBudget(rows: seq<Row>, q: Query, maxAttempts: int, oracle: Oracle, i: nat)
    requires Ascending(rows) && Reliable(oracle) && i < |rows|
    ensures
      var row' := RoundRows(rows, q, maxAttempts, oracle)[i];
      row'.id == rows[i].id && Budget(row', maxAttempts) <= Budget(rows[i], maxAttempts)
  {
    if Taken(rows[..i], rows[i], q) {
      var g, x := TakenPlace(rows, q, i);
      TakenRow(rows, q, maxAttempts, oracle, i, g, x);
    } else {
      OtherRow(rows, q, maxAttempts, oracle, i);
    }
  }

  // The first message of a group is published or has its failure counted.
  lemma HeadBudget(rows: seq<Row>, q: Query, maxAttempts: int, oracle: Oracle) returns (i: nat)
    requires Ascending(rows) && Reliable(oracle)
    requires ClaimBatch(rows, q) != []
    ensures i < |rows|
    ensures Budget(RoundRows(rows, q, maxAttempts, oracle)[i], maxAttempts) <
            Budget(rows[i], maxAttempts)
  {
    var batch := ClaimBatch(rows, q);
    var g := EveryPositionOnce(batch, 0);
    GroupIsStable(batch, g);
    var b := GroupMember(batch, g, 0);
    i := BatchSource(rows, q, b);
    TakenRow(rows, q, maxAttempts, oracle, i, g, 0);
  }

  lemma {:induction false} MeasureDrops(a: seq<Row>, b: seq<Row>, i: int, maxAttempts: int)
    requires |a| == |b|
    requires forall k :: 0 <= k < |a| ==> Budget(b[k], maxAttempts) <= Budget(a[k], maxAttempts)
    requires 0 <= i < |a| ==> Budget(b[i], maxAttempts) < Budget(a[i], maxAttempts)
    ensures Measure(b, maxAttempts) <= Measure(a, maxAttempts) - if 0 <= i < |a| then 1 else 0
  {
    if a != [] {
      var n := |a| - 1;
      MeasureDrops(a[..n], b[..n], i, maxAttempts);
    }
  }

  lemma {:induction false} MeasureCountsPending(rows: seq<Row>, maxAttempts: int)
    ensures AnyPending(rows) ==> Measure(rows, maxAttempts) >= 1
  {
    if rows != [] {
      var n := |rows| - 1;
      MeasureCountsPending(rows[..n], maxAttempts);
      if AnyPending(rows) {
        var i :| 0 <= i < |rows| && rows[i].status.Pending?;
        if i < n {
          assert rows[..n][i].status.Pending?;
        }
      }
    }
  }

  // With everything due, a pending row means a non-empty claim.
  lemma {:induction false} ClaimFindsPending(rows: seq<Row>, q: Query, i: nat)
    requires AllReady(rows, q) && i < |rows| && rows[i].status.Pending?
    ensures EligibleCount(rows, q) >= 1
  {
    var n := |rows| - 1;
    if i < n {
      ClaimFindsPending(rows[..n], q, i);
    } else {
      forall p | p in rows[..n] ensures !Obstructs(p, rows[n].key, q) {
        var k :| 0 <= k < n && rows[..n][k] == p;
        assert rows[k] == p;
      }
    }
  }

  lemma RoundBudgets(rows: seq<Row>, q: Query, maxAttempts: int, oracle: Oracle)
    requires Ascending(rows) && Reliable(oracle)
    ensures
      var rows' := RoundRows(rows, q, maxAttempts, oracle);
      && Ascending(rows')
      && forall i :: 0 <= i < |rows| ==>
           Budget(rows'[i], maxAttempts) <= Budget(rows[i], maxAttempts)
  {
    var rows' := RoundRows(rows, q, maxAttempts, oracle);
    forall i | 0 <= i < |rows|
      ensures
        rows'[i].id == rows[i].id &&
        Budget(rows'[i], maxAttempts) <= Budget(rows[i], maxAttempts)
    {
      RowBudget(rows, q, maxAttempts, oracle, i);
    }
  }

  // One round: while anything is pending it claims something, and the measure goes down.
  lemma {:induction false} RoundDrains(rows: seq<Row>, q: Query, maxAttempts: int, oracle: Oracle)
    requires Ascending(rows) && Reliable(oracle)
    requires AllReady(rows, q) && q.limit >= 1 && AnyPending(rows)
    ensures ClaimBatch(rows, q) != []
    ensures Measure(RoundRows(rows, q, maxAttempts, oracle), maxAttempts) < Measure(rows, maxAttempts)
  {
    var i :| 0 <= i < |rows| && rows[i].status.Pending?;
    ClaimFindsPending(rows, q, i);
    BatchSize(rows, q);
    var k := HeadBudget(rows, q, maxAttempts, oracle);
    RoundBudgets(rows, q, maxAttempts, oracle);
    MeasureDrops(rows, RoundRows(rows, q, maxAttempts, oracle), k, maxAttempts);
  }

  // The circumstances of one round: its claim and what the publisher does.
  datatype Circumstance = Circumstance(q: Query, oracle: Oracle)

  // Each round finds all retries due and no live lease, and its write-backs arrive.
  ghost predicate Favourable(rows: seq<Row>, rounds: seq<Circumstance>, maxAttempts: int)
    decreases |rounds|
  {
    rounds == [] ||
    (var c := rounds[0];
     AllReady(rows, c.q) && c.q.limit >= 1 && Reliable(c.oracle) &&
     Favourable(RoundRows(rows, c.q, maxAttempts, c.oracle), rounds[1..], maxAttempts))
  }

  function AfterRounds(rows: seq<Row>, rounds: seq<Circumstance>, maxAttempts: int): seq<Row>
    decreases |rounds|
  {
    if rounds == [] then rows
    else
      AfterRounds(RoundRows(rows, rounds[0].q, maxAttempts, rounds[0].oracle), rounds[1..],
                  maxAttempts)
  }

  // After as many rounds as the pending rows have attempts left in total, counting at least
  // one for each, every row is DONE or DEAD, whatever the publisher did in them and however
  // many attempts crashes had used up before.
  lemma {:induction false} Drains(rows: seq<Row>, rounds: seq<Circumstance>, maxAttempts: int)
    requires Ascending(rows)
    requires Favourable(rows, rounds, maxAttempts)
    requires |rounds| >= Measure(rows, maxAttempts)
    ensures !AnyPending(AfterRounds(rows, rounds, maxAttempts))
    decreases |rounds|
  {
    MeasureCountsPending(rows, maxAttempts);
    if rounds != [] {
      var c := rounds[0];
      var rows' := RoundRows(rows, c.q, maxAttempts, c.oracle);
      if AnyPending(rows) {
        RoundDrains(rows, c.q, maxAttempts, c.oracle);
        RoundBudgets(rows, c.q, maxAttempts, c.oracle);
        Drains(rows', rounds[1..], maxAttempts);
      } else {
        StaysDrained(rows, rounds, maxAttempts);
      }
    }
  }

  lemma {:induction false} StaysDrained(rows: seq<Row>, rounds: seq<Circumstance>, maxAttempts: int)
    requires Ascending(rows) && !AnyPending(rows)
    ensures !AnyPending(AfterRounds(rows, rounds, maxAttempts))
    decreases |rounds|
  {
    if rounds != [] {
      var c := rounds[0];
      forall i | 0 <= i < |rows|
        ensures RoundRows(rows, c.q, maxAttempts, c.oracle)[i] == rows[i]
      {
        OtherRow(rows, c.q, maxAttempts, c.oracle, i);
      }
      assert RoundRows(rows, c.q, maxAttempts, c.oracle) == rows;
      StaysDrained(rows, rounds[1..], maxAttempts);
    }
  }
}
