// The in-memory adapter: record objects mutated in place. Every operation is tied
// to the value-level specification of module Rows.

module MemoryStore {
  import opened Wrappers
  import opened Rows
  import opened Claim

  class Record {
    const message: Message
    var status: Status
    var attempts: int
    var retryAt: Option<Time>
    var leasedBy: Option<Worker>
    var leaseUntil: Option<Time>
    var lastError: Option<string>

    constructor (message: Message)
      ensures this.message == message
      ensures View() == NewRow(message.id, message.key, message.createdAt)
    {
      this.message := message;
      status := Pending;
      attempts := 0;
      retryAt, leasedBy, leaseUntil, lastError := None, None, None, None;
    }

    function View(): Row
      reads this
    {
      Row(message.id, message.key, message.createdAt, status, attempts, retryAt, leasedBy,
          leaseUntil, lastError)
    }
  }

  // Keys that the scan of the rows in `before` has blocked.
  ghost predicate Blocks(blocked: set<Key>, before: seq<Row>, q: Query) {
    forall k :: k in blocked <==>
                  q.strict && exists p :: p in before && Obstructs(p, Some(k), q)
  }

  lemma BlocksNext(blocked: set<Key>, before: seq<Row>, o: Row, q: Query, next: set<Key>)
    requires Blocks(blocked, before, q)
    requires q.strict && o.key.Some? && o.status.Pending? &&
             (NotReady(o, q) || o.key.value in blocked)
             ==> next == blocked + {o.key.value}
    requires !(q.strict && o.key.Some? && o.status.Pending? &&
               (NotReady(o, q) || o.key.value in blocked))
             ==> next == blocked
    ensures Blocks(next, before + [o], q)
  {
    forall k
      ensures k in next <==>
              q.strict && exists p :: p in before + [o] && Obstructs(p, Some(k), q)
    {
      if q.strict && exists p :: p in before && Obstructs(p, Some(k), q) {
        var p :| p in before && Obstructs(p, Some(k), q);
        assert p in before + [o];
      }
      assert o in before + [o];
    }
  }

  // What the scan has established after looking at `i` of the rows `was`.
  ghost predicate Scanned(was: seq<Row>, i: nat, q: Query,
                          contents: seq<Row>, claimed: seq<Message>, blocked: set<Key>)
  {
    && i <= |was| && |contents| == |was|
    && contents == ClaimRows(was[..i], q) + was[i..]
    && claimed == ClaimBatch(was[..i], q)
    && Blocks(blocked, was[..i], q)
  }

  // What one visit of row `i` does to the table, the batch and the blocked keys.
  ghost predicate Visited(contents: seq<Row>, claimed: seq<Message>, blocked: set<Key>,
                          i: nat, q: Query,
                          contents': seq<Row>, claimed': seq<Message>, blocked': set<Key>)
  {
    i < |contents| &&
    var o := contents[i];
    var skip := NotReady(o, q) || (o.key.Some? && o.key.value in blocked);
    var take := o.status.Pending? && !skip;
    && contents' == (if take then contents[i := Leased(o, q)] else contents)
    && claimed' == (if take then claimed + [Leased(o, q).AsMessage()] else claimed)
    && blocked' == if o.status.Pending? && skip && o.key.Some? && q.strict
                   then blocked + {o.key.value} else blocked
  }

  // One visit decides exactly what the declarative selection decides.
  lemma BlockedIsHeldBack(before: seq<Row>, o: Row, q: Query, blocked: set<Key>)
    requires Blocks(blocked, before, q)
    ensures HeldBack(before, o, q) <==> o.key.Some? && o.key.value in blocked
  {
    if o.key.Some? {
      assert o.key == Some(o.key.value);
    }
  }

  // The visit takes the row exactly when the selection does.
  lemma VisitDecides(before: seq<Row>, o: Row, q: Query, blocked: set<Key>)
    requires Blocks(blocked, before, q) && |ClaimBatch(before, q)| < q.limit
    ensures Taken(before, o, q) <==>
            o.status.Pending? && !NotReady(o, q) && !(o.key.Some? && o.key.value in blocked)
  {
    BlockedIsHeldBack(before, o, q, blocked);
    BatchSize(before, q);
  }

  // The visited row is appended to the part already claimed.
  lemma ScanContents(was: seq<Row>, i: nat, q: Query, contents: seq<Row>)
    requires i < |was| && contents == ClaimRows(was[..i], q) + was[i..]
    ensures contents[i] == was[i]
    ensures contents[i := AfterClaim(was[..i], was[i], q)]
            == ClaimRows(was[..i + 1], q) + was[i + 1..]
  {
    assert was[..i + 1] == was[..i] + [was[i]];
    ClaimSnoc(was[..i], was[i], q);
  }

  lemma ScanStep(was: seq<Row>, i: nat, q: Query,
                 contents: seq<Row>, claimed: seq<Message>, blocked: set<Key>,
                 contents': seq<Row>, claimed': seq<Message>, blocked': set<Key>)
    requires i < |was| && Scanned(was, i, q, contents, claimed, blocked) && |claimed| < q.limit
    requires Visited(contents, claimed, blocked, i, q, contents', claimed', blocked')
    ensures Scanned(was, i + 1, q, contents', claimed', blocked')
  {
    var before, o := was[..i], was[i];
    ScanContents(was, i, q, contents);
    VisitDecides(before, o, q, blocked);
    assert was[..i + 1] == before + [o];
    ClaimSnoc(before, o, q);
    BlocksNext(blocked, before, o, q, blocked');
    assert contents[i := o] == contents;
    assert claimed + [] == claimed;
  }

  // `_owned`: positions of the listed records that `worker` leases, in list order
  // and with repetitions.
  function OwnedAt(rows: seq<Row>, ids: seq<Id>, worker: Worker): (r: seq<nat>)
    ensures forall p :: p in r ==> p < |rows|
  {
    if ids == [] then []
    else
      var n := |ids| - 1;
      OwnedAt(rows, ids[..n], worker) + OwnedHere(rows, ids[n], worker)
  }

  function OwnedHere(rows: seq<Row>, id: Id, worker: Worker): (r: seq<nat>)
    ensures forall p :: p in r ==> p < |rows|
  {
    if 1 <= id <= |rows| && rows[id - 1].leasedBy == Some(worker) then [id - 1] else []
  }

  function Occurrences(ids: seq<Id>, id: Id): nat {
    if ids == [] then 0
    else
      var n := |ids| - 1;
      Occurrences(ids[..n], id) + if ids[n] == id then 1 else 0
  }

  lemma OccurrencesSnoc(ids: seq<Id>, last: Id, id: Id)
    ensures Occurrences(ids + [last], id) == Occurrences(ids, id) + if last == id then 1 else 0
  {
    assert (ids + [last])[..|ids|] == ids;
  }

  lemma {:induction false} OccurrencesIn(ids: seq<Id>, id: Id)
    ensures Occurrences(ids, id) > 0 <==> id in ids
  {
    if ids != [] {
      var n := |ids| - 1;
      OccurrencesIn(ids[..n], id);
      assert ids == ids[..n] + [ids[n]];
    }
  }

  lemma {:induction false} OccurrencesAre(ids: seq<Id>, id: Id)
    ensures Occurrences(ids, id) == multiset(ids)[id]
  {
    if ids != [] {
      var n := |ids| - 1;
      OccurrencesAre(ids[..n], id);
      assert ids == ids[..n] + [ids[n]];
    }
  }

  lemma {:induction false} DistinctOccurOnce(ids: seq<Id>, id: Id)
    requires DistinctIds(ids)
    ensures Occurrences(ids, id) <= 1
  {
    if ids != [] {
      var n := |ids| - 1;
      DistinctOccurOnce(ids[..n], id);
      OccurrencesIn(ids[..n], id);
    }
  }

  function HandedBackTimes(row: Row, retryAt: Time, times: nat): Row {
    if times == 0 then row else HandedBack(HandedBackTimes(row, retryAt, times - 1), retryAt)
  }

  // What `release` does to one row: it hands it back once per listing of the id.
  function ReleasedRow(row: Row, ids: seq<Id>, worker: Worker, retryAt: Time): Row {
    if row.leasedBy == Some(worker)
    then HandedBackTimes(row, retryAt, Occurrences(ids, row.id))
    else row
  }

  lemma {:induction false} HandedBackCounts(row: Row, retryAt: Time, times: nat)
    requires times > 0
    ensures HandedBackTimes(row, retryAt, times)
            == HandedBack(row, retryAt).(attempts := row.attempts - times)
  {
    if times > 1 {
      HandedBackCounts(row, retryAt, times - 1);
    } else {
      assert HandedBackTimes(row, retryAt, 0) == row;
    }
  }

  // Released, field by field.
  lemma ReleasedRowIs(row: Row, ids: seq<Id>, worker: Worker, retryAt: Time)
    ensures ReleasedRow(row, ids, worker, retryAt) ==
            if row.leasedBy == Some(worker) && row.id in ids
            then row.(attempts := row.attempts - multiset(ids)[row.id],
                      retryAt := Some(retryAt), leasedBy := None, leaseUntil := None)
            else row
  {
    var times := Occurrences(ids, row.id);
    OccurrencesAre(ids, row.id);
    OccurrencesIn(ids, row.id);
    if times > 0 {
      HandedBackCounts(row, retryAt, times);
    }
  }

  // Memory and SQL agree on a row exactly when the worker does not lease it or its id is
  // listed at most once.
  lemma ReleaseAgreesExactly(row: Row, ids: seq<Id>, worker: Worker, retryAt: Time)
    ensures ReleasedRow(row, ids, worker, retryAt) == WriteRow(row, Release(ids, retryAt), worker)
            <==> row.leasedBy != Some(worker) || Occurrences(ids, row.id) <= 1
  {
    OccurrencesIn(ids, row.id);
    var times := Occurrences(ids, row.id);
    if times > 0 {
      HandedBackCounts(row, retryAt, times);
    }
  }

  // For distinct ids, all that the relay ever passes, they always agree.
  lemma ReleaseAgreesOnDistinctIds(row: Row, ids: seq<Id>, worker: Worker, retryAt: Time)
    requires DistinctIds(ids)
    ensures ReleasedRow(row, ids, worker, retryAt) ==
            WriteRow(row, Release(ids, retryAt), worker)
  {
    DistinctOccurOnce(ids, row.id);
    ReleaseAgreesExactly(row, ids, worker, retryAt);
  }

  lemma OwnedHereCounts(rows: seq<Row>, earlier: seq<nat>, id: Id, worker: Worker, p: nat,
                        all: seq<nat>)
    requires p < |rows| && all == earlier + OwnedHere(rows, id, worker)
    ensures Occurrences(all, p) == Occurrences(earlier, p) +
              if rows[p].leasedBy == Some(worker) && id == p + 1 then 1 else 0
  {
    if OwnedHere(rows, id, worker) == [] {
      assert all == earlier;
    } else {
      assert all == earlier + [id - 1];
      OccurrencesSnoc(earlier, id - 1, p);
    }
  }

  lemma {:induction false} OwnedAtCounts(rows: seq<Row>, ids: seq<Id>, worker: Worker, p: nat)
    requires p < |rows|
    ensures Occurrences(OwnedAt(rows, ids, worker), p) ==
            if rows[p].leasedBy == Some(worker) then Occurrences(ids, p + 1) else 0
  {
    if ids != [] {
      var n := |ids| - 1;
      OwnedAtCounts(rows, ids[..n], worker, p);
      OwnedHereCounts(rows, OwnedAt(rows, ids[..n], worker), ids[n], worker, p,
                      OwnedAt(rows, ids, worker));
    }
  }

  lemma OwnedAtMeans(rows: seq<Row>, ids: seq<Id>, worker: Worker, p: nat)
    requires p < |rows| && rows[p].id == p + 1
    ensures p in OwnedAt(rows, ids, worker) <==> Owned(rows[p], ids, worker)
    ensures Occurrences(OwnedAt(rows, ids, worker), p) ==
            if rows[p].leasedBy == Some(worker) then Occurrences(ids, p + 1) else 0
  {
    OwnedAtCounts(rows, ids, worker, p);
    OccurrencesIn(OwnedAt(rows, ids, worker), p);
    OccurrencesIn(ids, p + 1);
  }

  lemma ScanDone(was: seq<Row>, q: Query, i: nat,
                 contents: seq<Row>, claimed: seq<Message>, blocked: set<Key>)
    requires Scanned(was, i, q, contents, claimed, blocked)
    requires i == |was| || |claimed| >= q.limit
    ensures contents == ClaimRows(was, q) && claimed == ClaimBatch(was, q)
  {
    if i == |was| {
      assert was[..i] == was;
    } else {
      BatchSize(was[..i], q);
      ScanStops(was, q, i);
    }
  }

  // The owned positions below `i` are changed, all other rows are as before. Changing
  // an owned row twice would be harmless for these write-backs.
  ghost predicate Partly(was: seq<Row>, now: seq<Row>, owned: seq<nat>, i: nat, wb: WriteBack) {
    && i <= |owned| && |now| == |was|
    && (forall p :: p in owned ==> p < |was|)
    && !wb.Release?
    && forall p :: 0 <= p < |was| ==>
         now[p] == if p in owned[..i] then wb.Change(was[p]) else was[p]
  }

  lemma PartlyNext(was: seq<Row>, now: seq<Row>, owned: seq<nat>, i: nat, wb: WriteBack)
    requires Partly(was, now, owned, i, wb) && i < |owned|
    ensures owned[i] < |now|
    ensures Partly(was, now[owned[i] := wb.Change(now[owned[i]])], owned, i + 1, wb)
  {
    assert owned[i] in owned;
    assert owned[..i + 1] == owned[..i] + [owned[i]];
  }

  // From positions to rows: changing the owned positions is the write-back.
  lemma WriteOutcome(was: seq<Row>, now: seq<Row>, wb: WriteBack, worker: Worker)
    requires forall i :: 0 <= i < |was| ==> was[i].id == i + 1
    requires
      var owned := OwnedAt(was, wb.Ids(), worker);
      Partly(was, now, owned, |owned|, wb)
    ensures now == WriteRows(was, wb, worker)
  {
    var owned := OwnedAt(was, wb.Ids(), worker);
    assert owned[..|owned|] == owned;
    forall p | 0 <= p < |was| ensures now[p] == WriteRow(was[p], wb, worker) {
      OwnedAtMeans(was, wb.Ids(), worker, p);
    }
  }

  // Each row has been handed back once per listing among the first `i` owned positions.
  ghost predicate PartlyReleased(was: seq<Row>, now: seq<Row>, owned: seq<nat>, i: nat,
                                 retryAt: Time)
  {
    && i <= |owned| && |now| == |was| && (forall p :: p in owned ==> p < |was|)
    && forall p :: 0 <= p < |was| ==>
         now[p] == HandedBackTimes(was[p], retryAt, Occurrences(owned[..i], p))
  }

  lemma PartlyReleasedNext(was: seq<Row>, now: seq<Row>, owned: seq<nat>, i: nat, retryAt: Time)
    requires PartlyReleased(was, now, owned, i, retryAt) && i < |owned|
    ensures owned[i] < |now|
    ensures PartlyReleased(was, now[owned[i] := HandedBack(now[owned[i]], retryAt)], owned, i + 1,
                           retryAt)
  {
    assert owned[i] in owned;
    assert owned[..i + 1] == owned[..i] + [owned[i]];
    forall p | 0 <= p < |was|
      ensures Occurrences(owned[..i + 1], p) ==
              Occurrences(owned[..i], p) + if owned[i] == p then 1 else 0
    {
      OccurrencesSnoc(owned[..i], owned[i], p);
    }
  }

  lemma ReleaseOutcome(was: seq<Row>, now: seq<Row>, ids: seq<Id>, worker: Worker, retryAt: Time)
    requires forall i :: 0 <= i < |was| ==> was[i].id == i + 1
    requires
      var owned := OwnedAt(was, ids, worker);
      PartlyReleased(was, now, owned, |owned|, retryAt)
    ensures |now| == |was|
    ensures forall p :: 0 <= p < |was| ==> now[p] == ReleasedRow(was[p], ids, worker, retryAt)
    ensures DistinctIds(ids) ==> now == WriteRows(was, WriteBack.Release(ids, retryAt), worker)
  {
    var owned := OwnedAt(was, ids, worker);
    assert owned[..|owned|] == owned;
    forall p | 0 <= p < |was|
      ensures now[p] == ReleasedRow(was[p], ids, worker, retryAt)
      ensures DistinctIds(ids) ==>
                now[p] == WriteRow(was[p], WriteBack.Release(ids, retryAt), worker)
    {
      OwnedAtMeans(was, ids, worker, p);
      if DistinctIds(ids) {
        ReleaseAgreesOnDistinctIds(was[p], ids, worker, retryAt);
      }
    }
  }

  lemma ReleasedRowsAre(was: seq<Row>, now: seq<Row>, ids: seq<Id>, worker: Worker, retryAt: Time)
    requires |now| == |was|
    requires forall p :: 0 <= p < |was| ==> now[p] == ReleasedRow(was[p], ids, worker, retryAt)
    ensures forall p :: 0 <= p < |now| ==>
              now[p] ==
              if was[p].id in ids && was[p].leasedBy == Some(worker)
              then was[p].(attempts := was[p].attempts - multiset(ids)[was[p].id],
                           retryAt := Some(retryAt), leasedBy := None, leaseUntil := None)
              else was[p]
  {
    forall p | 0 <= p < |now|
      ensures now[p] ==
              if was[p].id in ids && was[p].leasedBy == Some(worker)
              then was[p].(attempts := was[p].attempts - multiset(ids)[was[p].id],
                           retryAt := Some(retryAt), leasedBy := None, leaseUntil := None)
              else was[p]
    {
      ReleasedRowIs(was[p], ids, worker, retryAt);
    }
  }

  class MemoryStorage {
    const strictOrdering: bool
    // Insertion order; the record of id `n` sits at position `n - 1`.
    var records: seq<Record>
    // The table as a value.
    ghost var contents: seq<Row>

    ghost predicate Valid()
      reads this, records
    {
      && |contents| == |records|
      && forall i :: 0 <= i < |records| ==>
           records[i].message.id == i + 1 && records[i].View() == contents[i]
    }

    constructor (strictOrdering: bool := true)
      ensures this.strictOrdering == strictOrdering
      ensures Valid() && contents == []
    {
      this.strictOrdering := strictOrdering;
      records, contents := [], [];
    }

    lemma RowsAscend()
      requires Valid()
      ensures Ascending(contents)
    {
      forall i | 0 <= i < |records| ensures contents[i].id == i + 1 {
        assert records[i].View() == contents[i];
      }
    }

    method AddSync(key: Option<Key>, now: Time) returns (id: Id)
      requires Valid()
      modifies this
      ensures Valid() && old(records) <= records && fresh(records[|old(records)|..])
      ensures id == |old(contents)| + 1
      ensures contents == old(contents) + [NewRow(id, key, now)]
      ensures contents[|contents| - 1] == Row(id, key, now, Pending, 0, None, None, None, None)
    {
      id := |records| + 1;
      var record := new Record(Message(id, key, 1, now));
      records, contents := records + [record], contents + [record.View()];
    }

    method Stats() returns (pending: nat, oldest: Option<Time>, dead: nat)
      requires Valid()
      ensures pending == CountStatus(contents, Pending) && dead == CountStatus(contents, Dead)
      ensures oldest == OldestPending(contents)
    {
      pending, oldest, dead := 0, None, 0;
      for i := 0 to |records|
        invariant pending == CountStatus(contents[..i], Pending)
        invariant dead == CountStatus(contents[..i], Dead)
        invariant oldest == OldestPending(contents[..i])
      {
        var record := records[i];
        assert record.View() == contents[i];
        StatsSnoc(contents[..i], contents[i]);
        assert contents[..i + 1] == contents[..i] + [contents[i]];
        if record.status == Pending {
          pending := pending + 1;
          if oldest.None? || record.message.createdAt < oldest.value {
            oldest := Some(record.message.createdAt);
          }
        } else if record.status == Dead {
          dead := dead + 1;
        }
      }
      assert contents[..|contents|] == contents;
    }

    // The loop bodies: one record changes in place, every other row stays as it is.

    method LeaseAt(p: nat, q: Query)
      requires Valid() && p < |records|
      modifies `contents, records[p]
      ensures Valid() && contents == old(contents)[p := Leased(old(contents)[p], q)]
    {
      var record := records[p];
      record.attempts := record.attempts + 1;
      record.leasedBy := Some(q.worker);
      record.leaseUntil := Some(q.now + q.lease);
      record.retryAt := None;
      contents := contents[p := record.View()];
    }

    method MarkDoneAt(p: nat)
      requires Valid() && p < |records|
      modifies `contents, records[p]
      ensures Valid() && contents == old(contents)[p := Delivered(old(contents)[p])]
    {
      var record := records[p];
      record.status := Done;
      record.leasedBy, record.leaseUntil := None, None;
      contents := contents[p := record.View()];
    }

    method RescheduleAt(p: nat, error: string, retryAt: Time)
      requires Valid() && p < |records|
      modifies `contents, records[p]
      ensures Valid() && contents == old(contents)[p := Rescheduled(old(contents)[p], error, retryAt)]
    {
      var record := records[p];
      record.lastError := Some(error);
      record.retryAt := Some(retryAt);
      record.leasedBy, record.leaseUntil := None, None;
      contents := contents[p := record.View()];
    }

    method HandBackAt(p: nat, retryAt: Time)
      requires Valid() && p < |records|
      modifies `contents, records[p]
      ensures Valid() && contents == old(contents)[p := HandedBack(old(contents)[p], retryAt)]
    {
      var record := records[p];
      record.attempts := record.attempts - 1;
      record.retryAt := Some(retryAt);
      record.leasedBy, record.leaseUntil := None, None;
      contents := contents[p := record.View()];
    }

    method ParkAt(p: nat, error: string)
      requires Valid() && p < |records|
      modifies `contents, records[p]
      ensures Valid() && contents == old(contents)[p := Parked(old(contents)[p], error)]
    {
      var record := records[p];
      record.status := Dead;
      record.lastError := Some(error);
      record.leasedBy, record.leaseUntil := None, None;
      contents := contents[p := record.View()];
    }

    // The body of the claim loop.
    method Visit(i: nat, q: Query, claimed: seq<Message>, blockedKeys: set<Key>)
      returns (claimed': seq<Message>, blockedKeys': set<Key>)
      requires Valid() && i < |records| && q.visibility.None?
      modifies `contents, records[i]
      ensures Valid()
      ensures Visited(old(contents), claimed, blockedKeys, i, q, contents, claimed', blockedKeys')
    {
      claimed', blockedKeys' := claimed, blockedKeys;
      var record := records[i];
      if record.status != Pending {
        return;
      }
      var key := record.message.key;
      var notDue := record.retryAt.Some? && record.retryAt.value > q.now;
      var leased := record.leaseUntil.Some? && record.leaseUntil.value > q.now;
      if notDue || leased || (key.Some? && key.value in blockedKeys) {
        if key.Some? && q.strict {
          blockedKeys' := blockedKeys + {key.value};
        }
        return;
      }
      LeaseAt(i, q);
      claimed' := claimed + [Message(record.message.id, key, record.attempts,
                                     record.message.createdAt)];
    }

    // The claim loop.
    method Scan(q: Query) returns (claimed: seq<Message>)
      requires Valid() && q.visibility.None?
      modifies `contents, records
      ensures Valid()
      ensures contents == ClaimRows(old(contents), q) && claimed == ClaimBatch(old(contents), q)
    {
      ghost var was := contents;
      claimed := [];
      var blockedKeys: set<Key> := {};
      var i := 0;
      assert was[..0] == [];
      while i < |records|
        invariant 0 <= i <= |records| && Valid()
        invariant Scanned(was, i, q, contents, claimed, blockedKeys)
      {
        if |claimed| >= q.limit {
          break;
        }
        ghost var contents0, claimed0, blocked0 := contents, claimed, blockedKeys;
        claimed, blockedKeys := Visit(i, q, claimed, blockedKeys);
        ScanStep(was, i, q, contents0, claimed0, blocked0, contents, claimed, blockedKeys);
        i := i + 1;
      }
      ScanDone(was, q, i, contents, claimed, blockedKeys);
    }

    method Claim(batchSize: int, lease: Time, worker: Worker, now: Time)
      returns (claimed: seq<Message>)
      requires Valid()
      modifies `contents, records
      ensures Valid()
      ensures
        var q := Query(worker, now, lease, batchSize, strictOrdering, None);
        && contents == ClaimRows(old(contents), q) && claimed == ClaimBatch(old(contents), q)
        && forall p :: 0 <= p < |contents| ==>
             var was := old(contents)[p];
             contents[p] ==
             if Taken(old(contents)[..p], was, q)
             then was.(attempts := was.attempts + 1, leasedBy := Some(worker),
                       leaseUntil := Some(now + lease), retryAt := None)
             else was
    {
      var q := Query(worker, now, lease, batchSize, strictOrdering, None);
      ClaimChanges(contents, q);
      claimed := Scan(q);
    }

    // `_owned`: the records of `ids` currently leased by `worker`, by position.
    method Owned(ids: seq<Id>, worker: Worker) returns (at: seq<nat>)
      requires Valid()
      ensures at == OwnedAt(contents, ids, worker)
    {
      at := [];
      for i := 0 to |ids|
        invariant at == OwnedAt(contents, ids[..i], worker)
      {
        var id := ids[i];
        assert ids[..i + 1][..i] == ids[..i];
        if 1 <= id <= |records| && records[id - 1].leasedBy == Some(worker) {
          at := at + [id - 1];
        }
      }
      assert ids[..|ids|] == ids;
    }

    method Ack(ids: seq<Id>, worker: Worker)
      requires Valid()
      modifies `contents, records
      ensures Valid()
      ensures contents == WriteRows(old(contents), WriteBack.Ack(ids), worker)
      ensures forall p :: 0 <= p < |contents| ==>
                var was := old(contents)[p];
                contents[p] ==
                if was.id in ids && was.leasedBy == Some(worker)
                then was.(status := Done, leasedBy := None, leaseUntil := None)
                else was
    {
      ghost var wb := WriteBack.Ack(ids);
      var owned := Owned(ids, worker);
      for i := 0 to |owned|
        invariant Valid() && Partly(old(contents), contents, owned, i, wb)
      {
        PartlyNext(old(contents), contents, owned, i, wb);
        MarkDoneAt(owned[i]);
      }
      WriteOutcome(old(contents), contents, wb, worker);
    }

    method Nack(id: Id, worker: Worker, error: string, retryAt: Time)
      requires Valid()
      modifies `contents, records
      ensures Valid()
      ensures contents == WriteRows(old(contents), WriteBack.Nack(id, error, retryAt), worker)
      ensures forall p :: 0 <= p < |contents| ==>
                var was := old(contents)[p];
                contents[p] ==
                if was.id == id && was.leasedBy == Some(worker)
                then was.(lastError := Some(error), retryAt := Some(retryAt), leasedBy := None,
                          leaseUntil := None)
                else was
    {
      ghost var wb := WriteBack.Nack(id, error, retryAt);
      var owned := Owned([id], worker);
      for i := 0 to |owned|
        invariant Valid() && Partly(old(contents), contents, owned, i, wb)
      {
        PartlyNext(old(contents), contents, owned, i, wb);
        RescheduleAt(owned[i], error, retryAt);
      }
      WriteOutcome(old(contents), contents, wb, worker);
    }

    method Release(ids: seq<Id>, worker: Worker, retryAt: Time)
      requires Valid()
      modifies `contents, records
      ensures Valid() && |contents| == |old(contents)|
      ensures forall p :: 0 <= p < |contents| ==>
                var was := old(contents)[p];
                contents[p] ==
                if was.id in ids && was.leasedBy == Some(worker)
                then was.(attempts := was.attempts - multiset(ids)[was.id],
                          retryAt := Some(retryAt), leasedBy := None, leaseUntil := None)
                else was
      ensures DistinctIds(ids) ==>
                contents == WriteRows(old(contents), WriteBack.Release(ids, retryAt), worker)
    {
      ghost var was := contents;
      var owned := Owned(ids, worker);
      for i := 0 to |owned|
        invariant Valid() && PartlyReleased(was, contents, owned, i, retryAt)
      {
        PartlyReleasedNext(was, contents, owned, i, retryAt);
        HandBackAt(owned[i], retryAt);
      }
      ReleaseOutcome(was, contents, ids, worker, retryAt);
      ReleasedRowsAre(was, contents, ids, worker, retryAt);
    }

    method DeadLetter(id: Id, worker: Worker, error: string)
      requires Valid()
      modifies `contents, records
      ensures Valid()
      ensures contents == WriteRows(old(contents), WriteBack.DeadLetter(id, error), worker)
      ensures forall p :: 0 <= p < |contents| ==>
                var was := old(contents)[p];
                contents[p] ==
                if was.id == id && was.leasedBy == Some(worker)
                then was.(status := Dead, lastError := Some(error), leasedBy := None,
                          leaseUntil := None)
                else was
    {
      ghost var wb := WriteBack.DeadLetter(id, error);
      var owned := Owned([id], worker);
      for i := 0 to |owned|
        invariant Valid() && Partly(old(contents), contents, owned, i, wb)
      {
        PartlyNext(old(contents), contents, owned, i, wb);
        ParkAt(owned[i], error);
      }
      WriteOutcome(old(contents), contents, wb, worker);
    }
  }
}
