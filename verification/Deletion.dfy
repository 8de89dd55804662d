// Deleting delivered rows, on ack or by purging, cannot be noticed by the relay.

module Deletion {
  import opened Wrappers
  import opened Rows
  import opened Claim
  import opened SqlStore

  datatype Table = Table(rows: seq<Row>, lastId: Id)

  datatype Op =
    | Insert(key: Option<Key>, now: Time)
    | Claim(q: Query)
    | Write(wb: WriteBack, worker: Worker)
    | Purge(cutoff: Time)
    | Stats

  // What a caller sees. How many rows a purge removed is left out: that number is
  // about the deleted rows themselves.
  datatype Response =
    | Inserted(id: Id)
    | Batch(messages: seq<Message>)
    | Written
    | Purged
    | Counts(pending: nat, oldestPending: Option<Time>, dead: nat)

  // The two ways in which rows disappear: `delete_on_ack`, and calls of `purge`.
  datatype Policy = Policy(deleteOnAck: bool, purges: bool)

  const KEEP_ALL := Policy(false, false)

  function Apply(t: Table, op: Op, policy: Policy): (r: (Table, Response)) {
    match op
    case Insert(key, now) =>
      var id := t.lastId + 1;
      (Table(t.rows + [NewRow(id, key, now)], id), Inserted(id))
    case Claim(q) =>
      (t.(rows := ClaimRows(t.rows, q)), Batch(ClaimBatch(t.rows, q)))
    case Write(wb, worker) =>
      var rows := if wb.Ack? then AckTable(t.rows, wb.ids, worker, policy.deleteOnAck)
                  else WriteRows(t.rows, wb, worker);
      (t.(rows := rows), Written)
    case Purge(cutoff) =>
      (if policy.purges && !policy.deleteOnAck
       then t.(rows := Delete(t.rows, DoneBefore(cutoff))) else t, Purged)
    case Stats =>
      (t, Counts(CountStatus(t.rows, Pending), OldestPending(t.rows), CountStatus(t.rows, Dead)))
  }

  function Responses(t: Table, ops: seq<Op>, policy: Policy): seq<Response>
    decreases |ops|
  {
    if ops == [] then []
    else
      var (t', response) := Apply(t, ops[0], policy);
      [response] + Responses(t', ops[1..], policy)
  }

  // The rows that are still pending or dead.
  function Live(rows: seq<Row>): seq<Row> {
    Delete(rows, IsDone)
  }

  predicate DoneIsUnleased(rows: seq<Row>) {
    forall i :: 0 <= i < |rows| && rows[i].status.Done? ==> rows[i].leasedBy.None?
  }

  // Two tables that differ in delivered rows only.
  predicate Alike(a: Table, b: Table) {
    && a.lastId == b.lastId && Live(a.rows) == Live(b.rows)
    && DoneIsUnleased(a.rows) && DoneIsUnleased(b.rows)
  }

  lemma {:induction false} LiveContains(rows: seq<Row>, r: Row)
    ensures r in Live(rows) <==> r in rows && !r.status.Done?
  {
    if rows != [] {
      LiveContains(rows[..|rows| - 1], r);
      assert rows == rows[..|rows| - 1] + [rows[|rows| - 1]];
    }
  }

  lemma LiveSnoc(rows: seq<Row>, row: Row)
    ensures Live(rows + [row]) == if row.status.Done? then Live(rows) else Live(rows) + [row]
  {
    DeleteSnoc(rows, row, IsDone);
  }

  lemma EligibleInLive(before: seq<Row>, o: Row, q: Query)
    ensures Eligible(before, o, q) <==> Eligible(Live(before), o, q)
  {
    forall p ensures p in before && Obstructs(p, o.key, q) <==>
                     p in Live(before) && Obstructs(p, o.key, q)
    {
      LiveContains(before, p);
    }
  }

  // A claim sees the live rows only.
  lemma {:induction false} ClaimSeesLive(rows: seq<Row>, q: Query)
    ensures EligibleCount(rows, q) == EligibleCount(Live(rows), q)
    ensures ClaimBatch(rows, q) == ClaimBatch(Live(rows), q)
    ensures Live(ClaimRows(rows, q)) == ClaimRows(Live(rows), q)
  {
    if rows != [] {
      var n := |rows| - 1;
      var before, o := rows[..n], rows[n];
      ClaimSeesLive(before, q);
      EligibleInLive(before, o, q);
      assert rows == before + [o];
      ClaimSnoc(before, o, q);
      ClaimSnoc(Live(before), o, q);
      LiveSnoc(before, o);
      LiveSnoc(ClaimRows(before, q), AfterClaim(before, o, q));
    }
  }

  lemma ClaimKeepsUnleased(rows: seq<Row>, q: Query)
    requires DoneIsUnleased(rows)
    ensures DoneIsUnleased(ClaimRows(rows, q))
  {
    forall i | 0 <= i < |rows| ensures ClaimRows(rows, q)[i] == AfterClaim(rows[..i], rows[i], q) {
      ClaimRowsAt(rows, q, i);
    }
  }

  lemma WriteSnoc(rows: seq<Row>, o: Row, wb: WriteBack, worker: Worker)
    ensures WriteRows(rows + [o], wb, worker) == WriteRows(rows, wb, worker) + [WriteRow(o, wb, worker)]
  {
  }

  lemma {:induction false} WriteSeesLive(rows: seq<Row>, wb: WriteBack, worker: Worker)
    requires DoneIsUnleased(rows)
    ensures Live(WriteRows(rows, wb, worker)) == Live(WriteRows(Live(rows), wb, worker))
  {
    if rows != [] {
      var n := |rows| - 1;
      var before, o := rows[..n], rows[n];
      WriteSeesLive(before, wb, worker);
      assert rows == before + [o];
      LiveSnoc(before, o);
      WriteSnoc(before, o, wb, worker);
      WriteSnoc(Live(before), o, wb, worker);
      LiveSnoc(WriteRows(before, wb, worker), WriteRow(o, wb, worker));
      LiveSnoc(WriteRows(Live(before), wb, worker), WriteRow(o, wb, worker));
    }
  }

  // Deleting the acked rows, or marking them done, leaves the same live rows.
  lemma {:induction false} DeleteAckedIsAck(rows: seq<Row>, ids: seq<Id>, worker: Worker)
    ensures Live(Delete(rows, OwnedBy(ids, worker))) == Live(WriteRows(rows, Ack(ids), worker))
  {
    if rows != [] {
      var n := |rows| - 1;
      var before, o := rows[..n], rows[n];
      DeleteAckedIsAck(before, ids, worker);
      assert rows == before + [o];
      DeleteSnoc(before, o, OwnedBy(ids, worker));
      assert Delete(before, OwnedBy(ids, worker)) + [] == Delete(before, OwnedBy(ids, worker));
      LiveSnoc(Delete(before, OwnedBy(ids, worker)), o);
      assert WriteRows(rows, Ack(ids), worker) ==
             WriteRows(before, Ack(ids), worker) + [WriteRow(o, Ack(ids), worker)];
      LiveSnoc(WriteRows(before, Ack(ids), worker), WriteRow(o, Ack(ids), worker));
    }
  }

  lemma {:induction false} PurgeKeepsLive(rows: seq<Row>, cutoff: Time)
    ensures Live(Delete(rows, DoneBefore(cutoff))) == Live(rows)
  {
    if rows != [] {
      var n := |rows| - 1;
      var before, o := rows[..n], rows[n];
      PurgeKeepsLive(before, cutoff);
      assert rows == before + [o];
      LiveSnoc(before, o);
      DeleteSnoc(before, o, DoneBefore(cutoff));
      assert Delete(before, DoneBefore(cutoff)) + [] == Delete(before, DoneBefore(cutoff));
      LiveSnoc(Delete(before, DoneBefore(cutoff)), o);
    }
  }

  lemma {:induction false} DeleteKeepsUnleased(rows: seq<Row>, c: Criterion)
    requires DoneIsUnleased(rows)
    ensures DoneIsUnleased(Delete(rows, c))
  {
    if rows != [] {
      DeleteKeepsUnleased(rows[..|rows| - 1], c);
    }
  }

  // The figures of `stats`.
  predicate SameStats(a: seq<Row>, b: seq<Row>) {
    && CountStatus(a, Pending) == CountStatus(b, Pending)
    && CountStatus(a, Dead) == CountStatus(b, Dead)
    && OldestPending(a) == OldestPending(b)
  }

  lemma SameStatsSnoc(a: seq<Row>, b: seq<Row>, o: Row)
    requires SameStats(a, b)
    ensures SameStats(a + [o], b + [o])
    ensures o.status.Done? ==> SameStats(a + [o], b)
  {
    StatsSnoc(a, o);
    StatsSnoc(b, o);
  }

  lemma {:induction false} StatsSeeLive(rows: seq<Row>)
    ensures SameStats(rows, Live(rows))
  {
    if rows != [] {
      var n := |rows| - 1;
      StatsSeeLive(rows[..n]);
      assert rows == rows[..n] + [rows[n]];
      LiveSnoc(rows[..n], rows[n]);
      SameStatsSnoc(rows[..n], Live(rows[..n]), rows[n]);
    }
  }

  lemma WriteKeepsAlike(a: seq<Row>, b: seq<Row>, wb: WriteBack, worker: Worker, deleteOnAck: bool)
    requires Live(a) == Live(b) && DoneIsUnleased(a) && DoneIsUnleased(b)
    ensures
      var a' := if wb.Ack? then AckTable(a, wb.ids, worker, deleteOnAck) else WriteRows(a, wb, worker);
      var b' := WriteRows(b, wb, worker);
      Live(a') == Live(b') && DoneIsUnleased(a') && DoneIsUnleased(b')
  {
    WriteSeesLive(a, wb, worker);
    WriteSeesLive(b, wb, worker);
    if wb.Ack? && deleteOnAck {
      DeleteAckedIsAck(a, wb.ids, worker);
      DeleteKeepsUnleased(a, OwnedBy(wb.ids, worker));
    }
  }

  lemma ClaimKeepsAlike(a: seq<Row>, b: seq<Row>, q: Query)
    requires Live(a) == Live(b) && DoneIsUnleased(a) && DoneIsUnleased(b)
    ensures ClaimBatch(a, q) == ClaimBatch(b, q) && Live(ClaimRows(a, q)) == Live(ClaimRows(b, q))
    ensures DoneIsUnleased(ClaimRows(a, q)) && DoneIsUnleased(ClaimRows(b, q))
  {
    ClaimSeesLive(a, q);
    ClaimSeesLive(b, q);
    ClaimKeepsUnleased(a, q);
    ClaimKeepsUnleased(b, q);
  }

  lemma StepKeepsAlike(a: Table, b: Table, op: Op, policy: Policy)
    requires Alike(a, b)
    ensures Apply(a, op, policy).1 == Apply(b, op, KEEP_ALL).1
    ensures Alike(Apply(a, op, policy).0, Apply(b, op, KEEP_ALL).0)
  {
    match op
    case Insert(key, now) =>
      LiveSnoc(a.rows, NewRow(a.lastId + 1, key, now));
      LiveSnoc(b.rows, NewRow(b.lastId + 1, key, now));
    case Claim(q) =>
      ClaimKeepsAlike(a.rows, b.rows, q);
    case Write(wb, worker) =>
      WriteKeepsAlike(a.rows, b.rows, wb, worker, policy.deleteOnAck);
    case Purge(cutoff) =>
      PurgeKeepsLive(a.rows, cutoff);
      DeleteKeepsUnleased(a.rows, DoneBefore(cutoff));
    case Stats =>
      StatsSeeLive(a.rows);
      StatsSeeLive(b.rows);
  }

  lemma {:induction false} AlikeResponses(a: Table, b: Table, ops: seq<Op>, policy: Policy)
    requires Alike(a, b)
    ensures Responses(a, ops, policy) == Responses(b, ops, KEEP_ALL)
    decreases |ops|
  {
    if ops != [] {
      StepKeepsAlike(a, b, ops[0], policy);
      AlikeResponses(Apply(a, ops[0], policy).0, Apply(b, ops[0], KEEP_ALL).0, ops[1..], policy);
    }
  }

  // From an empty table, whatever is deleted on ack or purged along the way, every
  // claim returns the same batch and every `stats` call the same figures as a storage
  // that keeps its delivered rows for ever.
  lemma DeletingIsInvisible(ops: seq<Op>, policy: Policy)
    ensures Responses(Table([], 0), ops, policy) == Responses(Table([], 0), ops, KEEP_ALL)
  {
    AlikeResponses(Table([], 0), Table([], 0), ops, policy);
  }

  // ------------------------------------------------------ nothing delivered stays

  // The table after a sequence of operations.
  function Ran(t: Table, ops: seq<Op>, policy: Policy): Table
    decreases |ops|
  {
    if ops == [] then t else Ran(Apply(t, ops[0], policy).0, ops[1..], policy)
  }

  predicate NoneDone(rows: seq<Row>) {
    forall r :: r in rows ==> !r.status.Done?
  }

  lemma ClaimMakesNoneDone(rows: seq<Row>, q: Query)
    requires NoneDone(rows)
    ensures NoneDone(ClaimRows(rows, q))
  {
    ClaimChanges(rows, q);
  }

  lemma WriteMakesNoneDone(rows: seq<Row>, wb: WriteBack, worker: Worker)
    requires NoneDone(rows)
    ensures NoneDone(if wb.Ack? then AckTable(rows, wb.ids, worker, true)
                     else WriteRows(rows, wb, worker))
  {
    if wb.Ack? {
      AckLeaves(rows, wb.ids, worker);
    }
  }

  lemma StepKeepsNoneDone(t: Table, op: Op, policy: Policy)
    requires policy.deleteOnAck && NoneDone(t.rows)
    ensures NoneDone(Apply(t, op, policy).0.rows)
  {
    match op
    case Insert(_, _) =>
    case Claim(q) => ClaimMakesNoneDone(t.rows, q);
    case Write(wb, worker) => WriteMakesNoneDone(t.rows, wb, worker);
    case Purge(_) =>
    case Stats =>
  }

  lemma {:induction false} RunKeepsNoneDone(t: Table, ops: seq<Op>, policy: Policy)
    requires policy.deleteOnAck && NoneDone(t.rows)
    ensures NoneDone(Ran(t, ops, policy).rows)
    decreases |ops|
  {
    if ops != [] {
      StepKeepsNoneDone(t, ops[0], policy);
      RunKeepsNoneDone(Apply(t, ops[0], policy).0, ops[1..], policy);
    }
  }

  lemma {:induction false} NothingToDelete(rows: seq<Row>, c: Criterion)
    requires forall r :: r in rows ==> !c.Matches(r)
    ensures Delete(rows, c) == rows
  {
    if rows != [] {
      var n := |rows| - 1;
      NothingToDelete(rows[..n], c);
      assert rows == rows[..n] + [rows[n]];
    }
  }

  // With `delete_on_ack` no delivered row is ever kept, whatever the operations; so the early
  // return of `purge` leaves out nothing.
  lemma DeliveredRowsGo(ops: seq<Op>, policy: Policy, cutoff: Time)
    requires policy.deleteOnAck
    ensures
      var rows := Ran(Table([], 0), ops, policy).rows;
      && (forall r :: r in rows ==> !r.status.Done?)
      && Delete(rows, DoneBefore(cutoff)) == rows
  {
    RunKeepsNoneDone(Table([], 0), ops, policy);
    NothingToDelete(Ran(Table([], 0), ops, policy).rows, DoneBefore(cutoff));
  }
}
