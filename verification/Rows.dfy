// The outbox table as a value: rows, the messages handed to the relay, what one
// claim selects and changes, and the four fenced write-backs.

module Rows {
  import opened Wrappers

  type Id = nat
  type Key = string
  type Worker = string
  // Microseconds, the resolution of a Python datetime.
  type Time = int

  datatype Status = Pending | Done | Dead

  // What a claim hands out; `attempts` counts the claim itself.
  datatype Message = Message(id: Id, key: Option<Key>, attempts: int, createdAt: Time)

  datatype Row = Row(
    id: Id,
    key: Option<Key>,
    createdAt: Time,
    status: Status,
    attempts: int,
    retryAt: Option<Time>,
    leasedBy: Option<Worker>,
    leaseUntil: Option<Time>,
    lastError: Option<string>)
  {
    function AsMessage(): Message {
      Message(id, key, attempts, createdAt)
    }
  }

  // The arguments of one claim. `visibility` is the minimum row age, which only
  // the Postgres adapter uses.
  datatype Query = Query(
    worker: Worker,
    now: Time,
    lease: Time,
    limit: int,
    strict: bool,
    visibility: Option<Time>)

  function NewRow(id: Id, key: Option<Key>, now: Time): Row {
    Row(id, key, now, Pending, 0, None, None, None, None)
  }

  // ---------------------------------------------------------------- claiming

  predicate After(t: Option<Time>, now: Time) {
    t.Some? && t.value > now
  }

  predicate TooYoung(row: Row, q: Query) {
    q.visibility.Some? && row.createdAt > q.now - q.visibility.value
  }

  // The row cannot be handed out right now, whatever its neighbours do.
  predicate NotReady(row: Row, q: Query) {
    After(row.retryAt, q.now) || After(row.leaseUntil, q.now) || TooYoung(row, q)
  }

  // `p` holds back later rows of key `key`.
  predicate Obstructs(p: Row, key: Option<Key>, q: Query) {
    p.key == key && p.status.Pending? && NotReady(p, q)
  }

  predicate HeldBack(before: seq<Row>, o: Row, q: Query) {
    q.strict && o.key.Some? && exists p :: p in before && Obstructs(p, o.key, q)
  }

  predicate Eligible(before: seq<Row>, o: Row, q: Query) {
    o.status.Pending? && !NotReady(o, q) && !HeldBack(before, o, q)
  }

  function EligibleCount(rows: seq<Row>, q: Query): nat {
    if rows == [] then 0
    else
      var n := |rows| - 1;
      EligibleCount(rows[..n], q) + if Eligible(rows[..n], rows[n], q) then 1 else 0
  }

  // Row `o`, preceded by `before`, is among the first `limit` eligible rows.
  predicate Taken(before: seq<Row>, o: Row, q: Query) {
    Eligible(before, o, q) && EligibleCount(before, q) < q.limit
  }

  function Leased(o: Row, q: Query): Row {
    o.(attempts := o.attempts + 1, leasedBy := Some(q.worker),
       leaseUntil := Some(q.now + q.lease), retryAt := None)
  }

  function AfterClaim(before: seq<Row>, o: Row, q: Query): Row {
    if Taken(before, o, q) then Leased(o, q) else o
  }

  // The table after a claim: selection is judged on the table before it.
  function ClaimRows(rows: seq<Row>, q: Query): (r: seq<Row>)
    ensures |r| == |rows|
  {
    if rows == [] then []
    else
      var n := |rows| - 1;
      ClaimRows(rows[..n], q) + [AfterClaim(rows[..n], rows[n], q)]
  }

  function ClaimBatch(rows: seq<Row>, q: Query): seq<Message> {
    if rows == [] then []
    else
      var n := |rows| - 1;
      ClaimBatch(rows[..n], q) +
      if Taken(rows[..n], rows[n], q) then [Leased(rows[n], q).AsMessage()] else []
  }

  // ------------------------------------------------------------- write-backs

  // Fencing: only rows currently leased by this worker.
  predicate Owned(row: Row, ids: seq<Id>, worker: Worker) {
    row.id in ids && row.leasedBy == Some(worker)
  }

  function Unleased(row: Row): Row {
    row.(leasedBy := None, leaseUntil := None)
  }

  function Delivered(row: Row): Row {
    Unleased(row).(status := Done)
  }

  function Rescheduled(row: Row, error: string, retryAt: Time): Row {
    Unleased(row).(lastError := Some(error), retryAt := Some(retryAt))
  }

  function HandedBack(row: Row, retryAt: Time): Row {
    Unleased(row).(attempts := row.attempts - 1, retryAt := Some(retryAt))
  }

  function Parked(row: Row, error: string): Row {
    Unleased(row).(status := Dead, lastError := Some(error))
  }

  // The four write-backs as data, so that one function can apply any of them.
  datatype WriteBack =
    | Ack(ids: seq<Id>)
    | Nack(id: Id, error: string, retryAt: Time)
    | Release(ids: seq<Id>, retryAt: Time)
    | DeadLetter(id: Id, error: string)
    | Nothing
  {
    function Ids(): seq<Id> {
      match this
      case Ack(ids) => ids
      case Nack(id, _, _) => [id]
      case Release(ids, _) => ids
      case DeadLetter(id, _) => [id]
      case Nothing => []
    }

    function Change(row: Row): Row {
      match this
      case Ack(_) => Delivered(row)
      case Nack(_, error, retryAt) => Rescheduled(row, error, retryAt)
      case Release(_, retryAt) => HandedBack(row, retryAt)
      case DeadLetter(_, error) => Parked(row, error)
      case Nothing => row
    }
  }

  function WriteRow(row: Row, wb: WriteBack, worker: Worker): Row {
    if Owned(row, wb.Ids(), worker) then wb.Change(row) else row
  }

  function WriteRows(rows: seq<Row>, wb: WriteBack, worker: Worker): (r: seq<Row>)
    ensures |r| == |rows|
    ensures forall i :: 0 <= i < |rows| ==> r[i] == WriteRow(rows[i], wb, worker)
  {
    seq(|rows|, i requires 0 <= i < |rows| => WriteRow(rows[i], wb, worker))
  }

  // A write-back that takes effect ends the lease, and with it every worker's hold on the row:
  // until the next claim no write-back, repeated or from elsewhere, changes it again.
  lemma WrittenOnce(row: Row, first: WriteBack, worker: Worker, later: WriteBack, other: Worker)
    requires !first.Nothing? && Owned(row, first.Ids(), worker)
    ensures
      var written := WriteRow(row, first, worker);
      && written.leasedBy.None? && written != row
      && WriteRow(written, later, other) == written
  {
  }

  // ------------------------------------------------------------- table shape

  predicate Ascending(rows: seq<Row>) {
    forall i, j :: 0 <= i < j < |rows| ==> rows[i].id < rows[j].id
  }

  predicate DistinctIds(ids: seq<Id>) {
    forall i, j :: 0 <= i < j < |ids| ==> ids[i] != ids[j]
  }

  function IdsOf(messages: seq<Message>): (r: seq<Id>)
    ensures |r| == |messages|
    ensures forall i :: 0 <= i < |messages| ==> r[i] == messages[i].id
  {
    seq(|messages|, i requires 0 <= i < |messages| => messages[i].id)
  }

  // How many rows have the given status.
  function CountStatus(rows: seq<Row>, status: Status): nat {
    if rows == [] then 0
    else
      var n := |rows| - 1;
      CountStatus(rows[..n], status) + if rows[n].status == status then 1 else 0
  }

  function OldestPending(rows: seq<Row>): Option<Time> {
    if rows == [] then None
    else
      var n := |rows| - 1;
      var oldest := OldestPending(rows[..n]);
      if rows[n].status.Pending? && (oldest.None? || rows[n].createdAt < oldest.value)
      then Some(rows[n].createdAt) else oldest
  }

  ghost function PositionsWith(rows: seq<Row>, status: Status): set<int> {
    set i | 0 <= i < |rows| && rows[i].status == status
  }

  lemma PositionsSnoc(before: seq<Row>, row: Row, status: Status, rows: seq<Row>)
    requires rows == before + [row]
    ensures |PositionsWith(rows, status)| ==
            |PositionsWith(before, status)| + if row.status == status then 1 else 0
  {
    if row.status == status {
      assert PositionsWith(rows, status) == PositionsWith(before, status) + {|before|};
    } else {
      assert PositionsWith(rows, status) == PositionsWith(before, status);
    }
  }

  // It is the number of positions with that status.
  lemma {:induction false} CountIsSize(rows: seq<Row>, status: Status)
    ensures CountStatus(rows, status) == |PositionsWith(rows, status)|
  {
    if rows == [] {
      assert PositionsWith(rows, status) == {};
    } else {
      var n := |rows| - 1;
      CountIsSize(rows[..n], status);
      PositionsSnoc(rows[..n], rows[n], status, rows);
    }
  }

  lemma StatsSnoc(rows: seq<Row>, o: Row)
    ensures forall status :: CountStatus(rows + [o], status) ==
                             CountStatus(rows, status) + if o.status == status then 1 else 0
    ensures OldestPending(rows + [o]) ==
            var oldest := OldestPending(rows);
            if o.status.Pending? && (oldest.None? || o.createdAt < oldest.value)
            then Some(o.createdAt) else oldest
  {
    assert (rows + [o])[..|rows|] == rows;
  }

  // It is the least creation time of a pending row.
  lemma {:induction false} OldestIsLeast(rows: seq<Row>)
    ensures OldestPending(rows).None? <==>
            forall i :: 0 <= i < |rows| ==> !rows[i].status.Pending?
    ensures OldestPending(rows).Some? ==>
              && (forall i :: 0 <= i < |rows| && rows[i].status.Pending? ==>
                    OldestPending(rows).value <= rows[i].createdAt)
              && (exists i :: 0 <= i < |rows| && rows[i].status.Pending? &&
                    rows[i].createdAt == OldestPending(rows).value)
  {
    if rows != [] {
      var n := |rows| - 1;
      OldestIsLeast(rows[..n]);
      assert forall i :: 0 <= i < n ==> rows[..n][i] == rows[i];
      if OldestPending(rows).Some? && OldestPending(rows) == OldestPending(rows[..n]) {
        var i :| 0 <= i < n && rows[..n][i].status.Pending? &&
                 rows[..n][i].createdAt == OldestPending(rows).value;
        assert rows[i].createdAt == OldestPending(rows).value;
      }
    }
  }
}
