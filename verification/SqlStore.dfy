// The SQL adapters: eligibility as a declarative predicate over the whole table,
// statements that change the table in place, and optional deletion of rows.

module SqlStore {
  import opened Wrappers
  import opened Rows
  import opened Claim

  // ------------------------------------------------------------------- SELECT

  // `NOT EXISTS (... p.key = o.key AND p.id < o.id AND p.status = 'pending' ...)`,
  // with the age of `p` included when a visibility delay is set.
  predicate NoEarlierObstruction(table: seq<Row>, o: Row, q: Query) {
    o.key.None? ||
    !exists p :: p in table && p.id < o.id && p.key == o.key && p.status.Pending? &&
                 ((p.retryAt.Some? && p.retryAt.value > q.now) ||
                  (p.leaseUntil.Some? && p.leaseUntil.value > q.now) ||
                  (q.visibility.Some? && p.createdAt > q.now - q.visibility.value))
  }

  predicate Where(table: seq<Row>, o: Row, q: Query) {
    && o.status.Pending?
    && (o.retryAt.None? || o.retryAt.value <= q.now)
    && (o.leaseUntil.None? || o.leaseUntil.value <= q.now)
    && (q.visibility.None? || o.createdAt <= q.now - q.visibility.value)
    && (q.strict ==> NoEarlierObstruction(table, o, q))
  }

  // `SELECT o.id ... ORDER BY o.id`, read off a list already in id order.
  function Matching(rows: seq<Row>, table: seq<Row>, q: Query): seq<Id> {
    if rows == [] then []
    else
      var n := |rows| - 1;
      Matching(rows[..n], table, q) + if Where(table, rows[n], q) then [rows[n].id] else []
  }

  function Limited(ids: seq<Id>, limit: int): seq<Id> {
    if 0 <= limit < |ids| then ids[..limit] else ids
  }

  function Select(table: seq<Row>, q: Query): seq<Id> {
    Limited(Matching(table, table, q), q.limit)
  }

  // ------------------------------------------------------------------- UPDATE

  function LeaseIfListed(row: Row, ids: seq<Id>, q: Query): Row {
    if row.id in ids then Leased(row, q) else row
  }

  function UpdateLeases(table: seq<Row>, ids: seq<Id>, q: Query): (r: seq<Row>)
    ensures |r| == |table|
    ensures forall i :: 0 <= i < |table| ==> r[i] == LeaseIfListed(table[i], ids, q)
  {
    seq(|table|, i requires 0 <= i < |table| => LeaseIfListed(table[i], ids, q))
  }

  // `SELECT ... WHERE id IN (...) ORDER BY id`.
  function Fetch(rows: seq<Row>, ids: seq<Id>): seq<Message> {
    if rows == [] then []
    else
      var n := |rows| - 1;
      Fetch(rows[..n], ids) + if rows[n].id in ids then [rows[n].AsMessage()] else []
  }

  // Which rows a DELETE removes.
  datatype Criterion =
    | OwnedBy(ids: seq<Id>, worker: Worker)
    | DoneBefore(cutoff: Time)
    | IsDone
  {
    predicate Matches(row: Row) {
      match this
      case OwnedBy(ids, worker) => Owned(row, ids, worker)
      case DoneBefore(cutoff) => row.status.Done? && row.createdAt < cutoff
      case IsDone => row.status.Done?
    }
  }

  function Delete(rows: seq<Row>, c: Criterion): seq<Row> {
    if rows == [] then []
    else
      var n := |rows| - 1;
      Delete(rows[..n], c) + if c.Matches(rows[n]) then [] else [rows[n]]
  }

  // ------------------------------------------- the scan refines the SQL query

  lemma WhereIsEligible(table: seq<Row>, i: nat, q: Query)
    requires Ascending(table) && i < |table|
    ensures Where(table, table[i], q) <==> Eligible(table[..i], table[i], q)
  {
    forall p | p in table && p.id < table[i].id ensures p in table[..i] {
      var k :| 0 <= k < |table| && table[k] == p;
      assert k < i;
      assert table[..i][k] == p;
    }
    forall p | p in table[..i] ensures p in table && p.id < table[i].id {
      var k :| 0 <= k < i && table[..i][k] == p;
      assert table[k] == p;
    }
  }

  // The first `limit` matches up to row `n` are the ids that the scan has claimed there.
  lemma {:induction false} MatchingIsBatch(table: seq<Row>, n: nat, q: Query)
    requires Ascending(table) && n <= |table| && q.limit >= 0
    ensures |Matching(table[..n], table, q)| == EligibleCount(table[..n], q)
    ensures Limited(Matching(table[..n], table, q), q.limit) == IdsOf(ClaimBatch(table[..n], q))
  {
    if n > 0 {
      var m := n - 1;
      assert table[..n][..m] == table[..m];
      MatchingIsBatch(table, m, q);
      WhereIsEligible(table, m, q);
      BatchSize(table[..m], q);
      var ids, ids' := Matching(table[..m], table, q), Matching(table[..n], table, q);
      if Taken(table[..m], table[m], q) {
        assert |ids| < q.limit;
        assert ids' == ids + [table[m].id];
        assert Limited(ids', q.limit) == ids';
      } else if |ids| >= q.limit {
        assert ids'[..q.limit] == ids[..q.limit];
        assert ids[..|ids|] == ids;
      }
    }
  }

  lemma {:induction false} SelectedIsTaken(table: seq<Row>, i: nat, q: Query)
    requires Ascending(table) && i < |table| && q.limit >= 0
    ensures table[i].id in Select(table, q) <==> Taken(table[..i], table[i], q)
  {
    var batch := ClaimBatch(table, q);
    assert table[..|table|] == table;
    MatchingIsBatch(table, |table|, q);
    assert Select(table, q) == IdsOf(batch);
    if Taken(table[..i], table[i], q) {
      var b := BatchComplete(table, q, i);
      assert IdsOf(batch)[b] == table[i].id;
    }
    if table[i].id in IdsOf(batch) {
      var b :| 0 <= b < |batch| && IdsOf(batch)[b] == table[i].id;
      var j := BatchSource(table, q, b);
      assert i == j;
    }
  }

  lemma {:induction false} FetchIsBatch(table: seq<Row>, n: nat, q: Query)
    requires Ascending(table) && n <= |table| && q.limit >= 0
    ensures Fetch(UpdateLeases(table, Select(table, q), q)[..n], Select(table, q)) ==
            ClaimBatch(table[..n], q)
  {
    if n > 0 {
      var m := n - 1;
      var updated := UpdateLeases(table, Select(table, q), q);
      assert table[..n][..m] == table[..m] && updated[..n][..m] == updated[..m];
      FetchIsBatch(table, m, q);
      SelectedIsTaken(table, m, q);
    }
  }

  // One pass over the rows that mutates as it goes, and select-then-update by id with
  // a `NOT EXISTS` evaluated on the table before the claim, are the same operation.
  lemma ScanRefinesQuery(table: seq<Row>, q: Query)
    requires Ascending(table) && q.limit >= 0
    ensures UpdateLeases(table, Select(table, q), q) == ClaimRows(table, q)
    ensures Fetch(ClaimRows(table, q), Select(table, q)) == ClaimBatch(table, q)
    ensures Select(table, q) == IdsOf(ClaimBatch(table, q))
  {
    var updated := UpdateLeases(table, Select(table, q), q);
    forall i | 0 <= i < |table| ensures updated[i] == ClaimRows(table, q)[i] {
      SelectedIsTaken(table, i, q);
      ClaimRowsAt(table, q, i);
    }
    assert updated == ClaimRows(table, q);
    assert table[..|table|] == table && updated[..|table|] == updated;
    FetchIsBatch(table, |table|, q);
    MatchingIsBatch(table, |table|, q);
  }

  lemma NegativeIsUnlimited(table: seq<Row>, q: Query)
    requires q.limit < 0
    ensures Select(table, q) == Select(table, q.(limit := |table|))
  {
    MatchingIgnoresLimit(table, table, q, |table|);
  }

  // A negative LIMIT is no limit at all in SQLite: every matching row is selected, while the
  // scan takes none.
  lemma NegativeLimit(table: seq<Row>, q: Query)
    requires q.limit < 0
    ensures Select(table, q) == Matching(table, table, q)
    ensures ClaimBatch(table, q) == [] && ClaimRows(table, q) == table
  {
    BatchSize(table, q);
    EmptyBatch(table, q);
  }

  lemma {:induction false} MatchingIgnoresLimit(rows: seq<Row>, table: seq<Row>, q: Query, limit: int)
    ensures Matching(rows, table, q) == Matching(rows, table, q.(limit := limit))
    ensures |Matching(rows, table, q)| <= |rows|
  {
    if rows != [] {
      var n := |rows| - 1;
      MatchingIgnoresLimit(rows[..n], table, q, limit);
      assert Where(table, rows[n], q) == Where(table, rows[n], q.(limit := limit)) by {
        forall p ensures Obstructs(p, rows[n].key, q) ==
                         Obstructs(p, rows[n].key, q.(limit := limit)) {}
      }
    }
  }

  lemma {:induction false} EmptyBatch(rows: seq<Row>, q: Query)
    requires ClaimBatch(rows, q) == []
    ensures ClaimRows(rows, q) == rows
  {
    forall i | 0 <= i < |rows| ensures ClaimRows(rows, q)[i] == rows[i] {
      ClaimRowsAt(rows, q, i);
      if Taken(rows[..i], rows[i], q) {
        var b := BatchComplete(rows, q, i);
      }
    }
  }

  // The limit that a batch size stands for: SQLite reads a negative one as unlimited.
  function Effective(rows: seq<Row>, q: Query): Query {
    q.(limit := if q.limit < 0 then |rows| else q.limit)
  }

  lemma SelectsEffectively(rows: seq<Row>, q: Query)
    ensures Select(rows, q) == Select(rows, Effective(rows, q))
  {
    if q.limit < 0 {
      NegativeIsUnlimited(rows, q);
    }
  }

  lemma LeasesIgnoreLimit(rows: seq<Row>, ids: seq<Id>, q: Query, limit: int)
    ensures UpdateLeases(rows, ids, q) == UpdateLeases(rows, ids, q.(limit := limit))
  {
  }

  // The whole claim: select, update by id, read back by id.
  lemma ClaimByIds(rows: seq<Row>, q: Query)
    requires Ascending(rows)
    ensures UpdateLeases(rows, Select(rows, q), q) == ClaimRows(rows, Effective(rows, q))
    ensures Fetch(UpdateLeases(rows, Select(rows, q), q), Select(rows, q)) ==
            ClaimBatch(rows, Effective(rows, q))
    ensures Select(rows, q) == [] ==> ClaimBatch(rows, Effective(rows, q)) == []
  {
    SelectsEffectively(rows, q);
    ScanRefinesQuery(rows, Effective(rows, q));
    LeasesIgnoreLimit(rows, Select(rows, q), q, Effective(rows, q).limit);
  }

  lemma SameIdsAscending(rows: seq<Row>, rows': seq<Row>)
    requires |rows| == |rows'| && forall i :: 0 <= i < |rows| ==> rows'[i].id == rows[i].id
    ensures Ascending(rows) ==> Ascending(rows')
  {
  }

  // ------------------------------------------------------------- write-backs

  lemma DeleteSnoc(rows: seq<Row>, row: Row, c: Criterion)
    ensures Delete(rows + [row], c) == Delete(rows, c) + if c.Matches(row) then [] else [row]
  {
    assert (rows + [row])[..|rows|] == rows;
  }

  lemma {:induction false} DeleteOneMore(rows: seq<Row>, ids: seq<Id>, id: Id, worker: Worker)
    ensures Delete(Delete(rows, OwnedBy(ids, worker)), OwnedBy([id], worker)) ==
            Delete(rows, OwnedBy(ids + [id], worker))
  {
    if rows != [] {
      var n := |rows| - 1;
      DeleteOneMore(rows[..n], ids, id, worker);
      var first, second, both := OwnedBy(ids, worker), OwnedBy([id], worker), OwnedBy(ids + [id], worker);
      DeleteSnoc(Delete(rows[..n], first), rows[n], second);
      assert both.Matches(rows[n]) <==> first.Matches(rows[n]) || second.Matches(rows[n]);
      assert Delete(rows, first) ==
             if first.Matches(rows[n]) then Delete(rows[..n], first)
             else Delete(rows[..n], first) + [rows[n]];
    }
  }

  lemma {:induction false} DeleteNone(rows: seq<Row>, worker: Worker)
    ensures Delete(rows, OwnedBy([], worker)) == rows
  {
    if rows != [] {
      DeleteNone(rows[..|rows| - 1], worker);
    }
  }

  lemma {:induction false} DeleteAscending(rows: seq<Row>, c: Criterion)
    requires Ascending(rows)
    ensures Ascending(Delete(rows, c)) && |Delete(rows, c)| <= |rows|
  {
    if rows != [] {
      var n := |rows| - 1;
      var kept := Delete(rows[..n], c);
      DeleteAscending(rows[..n], c);
      forall i | 0 <= i < |kept| ensures kept[i].id < rows[n].id {
        DeleteLeaves(rows[..n], c, kept[i]);
      }
    }
  }

  lemma DeleteEndsBelow(rows: seq<Row>, c: Criterion)
    requires Ascending(rows) && Delete(rows, c) != []
    ensures rows != [] && Delete(rows, c)[|Delete(rows, c)| - 1].id <= rows[|rows| - 1].id
  {
    var last := Delete(rows, c)[|Delete(rows, c)| - 1];
    DeleteLeaves(rows, c, last);
    var i :| 0 <= i < |rows| && rows[i] == last;
  }

  // What `ack` leaves of the table.
  function AckTable(rows: seq<Row>, ids: seq<Id>, worker: Worker, deleteOnAck: bool): seq<Row> {
    if deleteOnAck then Delete(rows, OwnedBy(ids, worker)) else WriteRows(rows, Ack(ids), worker)
  }

  // The statements that the adapter runs on one row, fenced by `id = ? AND leased_by = ?`.
  datatype Statement =
    | SetDone
    | SetRetry(retryAt: Time, error: string)
    | SetReleased(retryAt: Time)
    | SetDead(error: string)
    | DeleteRow
  {
    // The SET clause.
    function Set(row: Row): Row {
      match this
      case SetDone => row.(status := Done, leasedBy := None, leaseUntil := None)
      case SetRetry(retryAt, error) =>
        row.(retryAt := Some(retryAt), lastError := Some(error), leasedBy := None, leaseUntil := None)
      case SetReleased(retryAt) =>
        row.(attempts := row.attempts - 1, retryAt := Some(retryAt), leasedBy := None, leaseUntil := None)
      case SetDead(error) =>
        row.(status := Dead, lastError := Some(error), leasedBy := None, leaseUntil := None)
      case DeleteRow => row
    }

    function Updated(row: Row, ids: seq<Id>, worker: Worker): Row {
      if Owned(row, ids, worker) then Set(row) else row
    }

    function Run(rows: seq<Row>, ids: seq<Id>, worker: Worker): seq<Row> {
      if DeleteRow? then Delete(rows, OwnedBy(ids, worker))
      else seq(|rows|, i requires 0 <= i < |rows| => Updated(rows[i], ids, worker))
    }
  }

  // The statements are the write-backs of the specification.
  lemma StatementsAreWriteBacks(rows: seq<Row>, ids: seq<Id>, id: Id, worker: Worker,
                                error: string, retryAt: Time)
    ensures SetDone.Run(rows, ids, worker) == WriteRows(rows, Ack(ids), worker)
    ensures SetReleased(retryAt).Run(rows, ids, worker) == WriteRows(rows, Release(ids, retryAt), worker)
    ensures SetRetry(retryAt, error).Run(rows, [id], worker)
            == WriteRows(rows, Nack(id, error, retryAt), worker)
    ensures SetDead(error).Run(rows, [id], worker) == WriteRows(rows, DeadLetter(id, error), worker)
  {
  }

  lemma ReleaseLeaves(rows: seq<Row>, ids: seq<Id>, worker: Worker, retryAt: Time)
    ensures
      var released := WriteRows(rows, Release(ids, retryAt), worker);
      forall i :: 0 <= i < |rows| ==>
        released[i] ==
        if rows[i].id in ids && rows[i].leasedBy == Some(worker)
        then rows[i].(attempts := rows[i].attempts - 1, retryAt := Some(retryAt),
                      leasedBy := None, leaseUntil := None)
        else rows[i]
  {
  }

  // `executemany` runs one statement per id; together they are one statement for all: a row
  // matched once has lost its lease, so a repeated id does not match it again.
  lemma RunOneMore(s: Statement, rows: seq<Row>, ids: seq<Id>, id: Id, worker: Worker)
    ensures s.Run(s.Run(rows, ids, worker), [id], worker) == s.Run(rows, ids + [id], worker)
  {
    if s.DeleteRow? {
      DeleteOneMore(rows, ids, id, worker);
    } else {
      forall k | 0 <= k < |rows|
        ensures s.Updated(s.Updated(rows[k], ids, worker), [id], worker)
                == s.Updated(rows[k], ids + [id], worker)
      {
        UpdateOneMore(s, rows[k], ids, id, worker);
      }
    }
  }

  lemma UpdateOneMore(s: Statement, row: Row, ids: seq<Id>, id: Id, worker: Worker)
    requires !s.DeleteRow?
    ensures s.Updated(s.Updated(row, ids, worker), [id], worker) == s.Updated(row, ids + [id], worker)
  {
  }

  lemma RunNone(s: Statement, rows: seq<Row>, worker: Worker)
    ensures s.Run(rows, [], worker) == rows
  {
    if s.DeleteRow? {
      DeleteNone(rows, worker);
    }
  }

  // What a DELETE leaves: the rows that do not match.
  lemma {:induction false} DeleteLeaves(rows: seq<Row>, c: Criterion, r: Row)
    ensures r in Delete(rows, c) <==> r in rows && !c.Matches(r)
  {
    if rows != [] {
      var n := |rows| - 1;
      DeleteLeaves(rows[..n], c, r);
      assert rows == rows[..n] + [rows[n]];
    }
  }

  lemma DeleteFits(rows: seq<Row>, c: Criterion)
    requires Ascending(rows)
    ensures
      var kept := Delete(rows, c);
      && Ascending(kept) && |kept| <= |rows|
      && (kept != [] ==> kept[|kept| - 1].id <= rows[|rows| - 1].id)
  {
    DeleteAscending(rows, c);
    if Delete(rows, c) != [] {
      DeleteEndsBelow(rows, c);
    }
  }

  lemma AckAscending(rows: seq<Row>, ids: seq<Id>, worker: Worker, deleteOnAck: bool)
    requires Ascending(rows)
    ensures
      var acked := AckTable(rows, ids, worker, deleteOnAck);
      && Ascending(acked) && |acked| <= |rows|
      && (acked != [] ==> acked[|acked| - 1].id <= rows[|rows| - 1].id)
  {
    if deleteOnAck {
      DeleteFits(rows, OwnedBy(ids, worker));
    } else {
      SameIdsAscending(rows, WriteRows(rows, Ack(ids), worker));
    }
  }

  // What `ack` leaves: the rows that the worker does not lease or that are not listed, and the
  // others, unless they are deleted, as DONE.
  lemma AckLeaves(rows: seq<Row>, ids: seq<Id>, worker: Worker)
    ensures forall r: Row ::
              r in AckTable(rows, ids, worker, true) <==>
              r in rows && !(r.id in ids && r.leasedBy == Some(worker))
    ensures |AckTable(rows, ids, worker, false)| == |rows|
    ensures forall i :: 0 <= i < |rows| ==>
              AckTable(rows, ids, worker, false)[i] ==
              if rows[i].id in ids && rows[i].leasedBy == Some(worker)
              then rows[i].(status := Done, leasedBy := None, leaseUntil := None)
              else rows[i]
  {
    forall r: Row
      ensures r in Delete(rows, OwnedBy(ids, worker)) <==>
              r in rows && !(r.id in ids && r.leasedBy == Some(worker))
    {
      DeleteLeaves(rows, OwnedBy(ids, worker), r);
    }
  }

  class SqliteStorage {
    const strictOrdering: bool
    const deleteOnAck: bool
    // The table in id order, and the AUTOINCREMENT sequence.
    var rows: seq<Row>
    var lastId: Id

    predicate Valid()
      reads this
    {
      Ascending(rows) && (rows != [] ==> rows[|rows| - 1].id <= lastId)
    }

    constructor (strictOrdering: bool := true, deleteOnAck: bool := false)
      ensures this.strictOrdering == strictOrdering && this.deleteOnAck == deleteOnAck
      ensures Valid() && rows == [] && lastId == 0
    {
      this.strictOrdering := strictOrdering;
      this.deleteOnAck := deleteOnAck;
      rows, lastId := [], 0;
    }

    method Insert(key: Option<Key>, now: Time) returns (id: Id)
      requires Valid()
      modifies this
      ensures Valid() && id == lastId == old(lastId) + 1
      ensures rows == old(rows) + [NewRow(id, key, now)]
      ensures rows[|rows| - 1] == Row(id, key, now, Pending, 0, None, None, None, None)
    {
      lastId := lastId + 1;
      id := lastId;
      rows := rows + [NewRow(id, key, now)];
    }

    // Select the ids, lease them by id, read them back by id, all in one transaction.
    method ClaimInTransaction(q: Query) returns (claimed: seq<Message>)
      requires Valid()
      modifies `rows
      ensures Valid()
      ensures rows == ClaimRows(old(rows), Effective(old(rows), q))
      ensures claimed == ClaimBatch(old(rows), Effective(old(rows), q))
    {
      ClaimByIds(rows, q);
      var ids := Select(rows, q);
      if ids == [] {
        EmptyBatch(rows, Effective(rows, q));
        return [];
      }
      SameIdsAscending(rows, UpdateLeases(rows, ids, q));
      rows := UpdateLeases(rows, ids, q);
      claimed := Fetch(rows, ids);
    }

    method Claim(batchSize: int, lease: Time, worker: Worker, now: Time)
      returns (claimed: seq<Message>)
      requires Valid()
      modifies `rows
      ensures Valid()
      ensures
        var q := Effective(old(rows), Query(worker, now, lease, batchSize, strictOrdering, None));
        && rows == ClaimRows(old(rows), q) && claimed == ClaimBatch(old(rows), q)
        && forall i :: 0 <= i < |rows| ==>
             var was := old(rows)[i];
             rows[i] ==
             if Taken(old(rows)[..i], was, q)
             then was.(attempts := was.attempts + 1, leasedBy := Some(worker),
                       leaseUntil := Some(now + lease), retryAt := None)
             else was
    {
      var q := Query(worker, now, lease, batchSize, strictOrdering, None);
      ClaimChanges(rows, Effective(rows, q));
      claimed := ClaimInTransaction(q);
    }

    method Execute(statement: Statement, id: Id, worker: Worker)
      modifies `rows
      ensures rows == statement.Run(old(rows), [id], worker)
    {
      rows := statement.Run(rows, [id], worker);
    }

    method ExecuteMany(statement: Statement, ids: seq<Id>, worker: Worker)
      modifies `rows
      ensures rows == statement.Run(old(rows), ids, worker)
    {
      RunNone(statement, rows, worker);
      for i := 0 to |ids|
        invariant rows == statement.Run(old(rows), ids[..i], worker)
      {
        RunOneMore(statement, old(rows), ids[..i], ids[i], worker);
        assert ids[..i + 1] == ids[..i] + [ids[i]];
        Execute(statement, ids[i], worker);
      }
      assert ids[..|ids|] == ids;
    }

    method Ack(ids: seq<Id>, worker: Worker)
      requires Valid()
      modifies `rows
      ensures Valid() && rows == AckTable(old(rows), ids, worker, deleteOnAck)
      ensures deleteOnAck ==> forall r: Row ::
                r in rows <==> r in old(rows) && !(r.id in ids && r.leasedBy == Some(worker))
      ensures !deleteOnAck ==> |rows| == |old(rows)|
      ensures !deleteOnAck ==> forall i :: 0 <= i < |rows| ==>
                var was := old(rows)[i];
                rows[i] ==
                if was.id in ids && was.leasedBy == Some(worker)
                then was.(status := Done, leasedBy := None, leaseUntil := None)
                else was
    {
      AckLeaves(rows, ids, worker);
      AckAscending(rows, ids, worker, deleteOnAck);
      StatementsAreWriteBacks(rows, ids, 0, worker, "", 0);
      var statement := if deleteOnAck then DeleteRow else SetDone;
      RunNone(statement, rows, worker);
      if ids == [] {
        return;
      }
      ExecuteMany(statement, ids, worker);
    }

    // The row, if this worker leases it, waits until `retryAt` with its attempt spent; every
    // other row is as before.
    method Nack(id: Id, worker: Worker, error: string, retryAt: Time)
      requires Valid()
      modifies `rows
      ensures Valid()
      ensures rows == WriteRows(old(rows), WriteBack.Nack(id, error, retryAt), worker)
      ensures forall i :: 0 <= i < |rows| ==>
                var was := old(rows)[i];
                rows[i] ==
                if was.id == id && was.leasedBy == Some(worker)
                then was.(lastError := Some(error), retryAt := Some(retryAt), leasedBy := None,
                          leaseUntil := None)
                else was
    {
      var wb := WriteBack.Nack(id, error, retryAt);
      StatementsAreWriteBacks(rows, [], id, worker, error, retryAt);
      SameIdsAscending(rows, WriteRows(rows, wb, worker));
      Execute(SetRetry(retryAt, error), id, worker);
    }

    method Release(ids: seq<Id>, worker: Worker, retryAt: Time)
      requires Valid()
      modifies `rows
      ensures Valid()
      ensures rows == WriteRows(old(rows), WriteBack.Release(ids, retryAt), worker)
      ensures forall i :: 0 <= i < |rows| ==>
                var was := old(rows)[i];
                rows[i] ==
                if was.id in ids && was.leasedBy == Some(worker)
                then was.(attempts := was.attempts - 1, retryAt := Some(retryAt),
                          leasedBy := None, leaseUntil := None)
                else was
    {
      ReleaseLeaves(rows, ids, worker, retryAt);
      StatementsAreWriteBacks(rows, ids, 0, worker, "", retryAt);
      SameIdsAscending(rows, WriteRows(rows, WriteBack.Release(ids, retryAt), worker));
      RunNone(SetReleased(retryAt), rows, worker);
      if ids == [] {
        return;
      }
      ExecuteMany(SetReleased(retryAt), ids, worker);
    }

    // The row, if this worker leases it, is parked for good; every other row is as before.
    method DeadLetter(id: Id, worker: Worker, error: string)
      requires Valid()
      modifies `rows
      ensures Valid()
      ensures rows == WriteRows(old(rows), WriteBack.DeadLetter(id, error), worker)
      ensures forall i :: 0 <= i < |rows| ==>
                var was := old(rows)[i];
                rows[i] ==
                if was.id == id && was.leasedBy == Some(worker)
                then was.(status := Dead, lastError := Some(error), leasedBy := None,
                          leaseUntil := None)
                else was
    {
      StatementsAreWriteBacks(rows, [], id, worker, error, 0);
      SameIdsAscending(rows, WriteRows(rows, WriteBack.DeadLetter(id, error), worker));
      Execute(SetDead(error), id, worker);
    }

    // Exactly the delivered rows older than the cutoff go, and the others keep their order.
    method Purge(cutoff: Time) returns (count: nat)
      requires Valid()
      modifies `rows
      ensures Valid() && count == |old(rows)| - |rows|
      ensures deleteOnAck ==> rows == old(rows)
      ensures !deleteOnAck ==> forall r: Row ::
                r in rows <==> r in old(rows) && !(r.status.Done? && r.createdAt < cutoff)
      ensures rows == if deleteOnAck then old(rows) else Delete(old(rows), DoneBefore(cutoff))
    {
      if deleteOnAck {
        return 0;
      }
      DeleteFits(rows, DoneBefore(cutoff));
      forall r: Row
        ensures r in Delete(rows, DoneBefore(cutoff)) <==>
                r in rows && !(r.status.Done? && r.createdAt < cutoff)
      {
        DeleteLeaves(rows, DoneBefore(cutoff), r);
      }
      var before := |rows|;
      rows := Delete(rows, DoneBefore(cutoff));
      count := before - |rows|;
    }
  }
}
