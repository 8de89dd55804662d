// What one claim hands out: the batch and the new table in closed form, and the
// property that makes per-key order possible.

module Claim {
  import opened Wrappers
  import opened Rows

  lemma {:induction false} CountMonotone(rows: seq<Row>, i: nat, q: Query)
    requires i <= |rows|
    ensures EligibleCount(rows[..i], q) <= EligibleCount(rows, q)
    decreases |rows|
  {
    if i == |rows| {
      assert rows[..i] == rows;
    } else {
      var n := |rows| - 1;
      assert rows[..n][..i] == rows[..i];
      CountMonotone(rows[..n], i, q);
    }
  }

  lemma ClaimSnoc(rows: seq<Row>, o: Row, q: Query)
    ensures EligibleCount(rows + [o], q) ==
            EligibleCount(rows, q) + if Eligible(rows, o, q) then 1 else 0
    ensures ClaimRows(rows + [o], q) == ClaimRows(rows, q) + [AfterClaim(rows, o, q)]
    ensures ClaimBatch(rows + [o], q) ==
            ClaimBatch(rows, q) + if Taken(rows, o, q) then [Leased(o, q).AsMessage()] else []
  {
    assert (rows + [o])[..|rows|] == rows;
  }

  lemma {:induction false} ClaimRowsAt(rows: seq<Row>, q: Query, i: nat)
    requires i < |rows|
    ensures ClaimRows(rows, q)[i] == AfterClaim(rows[..i], rows[i], q)
  {
    var n := |rows| - 1;
    if i < n {
      assert rows[..n][..i] == rows[..i];
      ClaimRowsAt(rows[..n], q, i);
    }
  }

  // What a claim leaves of each row, field by field.
  lemma {:induction false} ClaimChanges(rows: seq<Row>, q: Query)
    ensures forall i :: 0 <= i < |rows| ==>
              ClaimRows(rows, q)[i] ==
              if Taken(rows[..i], rows[i], q)
              then rows[i].(attempts := rows[i].attempts + 1, leasedBy := Some(q.worker),
                            leaseUntil := Some(q.now + q.lease), retryAt := None)
              else rows[i]
  {
    forall i | 0 <= i < |rows|
      ensures ClaimRows(rows, q)[i] == AfterClaim(rows[..i], rows[i], q)
    {
      ClaimRowsAt(rows, q, i);
    }
  }

  // Age aside, the row can be handed out from `due` on, and not before.
  ghost predicate DueFrom(row: Row, due: Time) {
    forall q: Query :: q.visibility.None? ==> (NotReady(row, q) <==> q.now < due)
  }

  // A claimed row that nobody writes again is held until its lease ends, for whoever asks, and
  // becomes due at that very moment.
  lemma {:induction false} HeldUntilLeaseEnds(rows: seq<Row>, q: Query, i: nat)
    requires i < |rows| && Taken(rows[..i], rows[i], q)
    ensures DueFrom(ClaimRows(rows, q)[i], q.now + q.lease)
  {
    ClaimChanges(rows, q);
  }

  // Recovery: the rows of a claim whose worker crashes can be claimed again exactly from the
  // end of the lease on. No earlier row of the key stands in the way, for it was claimed, and
  // falls due, with them.
  lemma {:induction false} RecoveredExactly(rows: seq<Row>, q: Query, i: nat, later: Query)
    requires i < |rows| && Taken(rows[..i], rows[i], q)
    requires later.visibility.None? && (later.strict ==> q.strict)
    ensures
      var left := ClaimRows(rows, q);
      Eligible(left[..i], left[i], later) <==> later.now >= q.now + q.lease
  {
    var left := ClaimRows(rows, q);
    ClaimChanges(rows, q);
    HeldUntilLeaseEnds(rows, q, i);
    if later.now >= q.now + q.lease && later.strict {
      forall p | p in left[..i] ensures !Obstructs(p, left[i].key, later) || left[i].key.None? {
        var k :| 0 <= k < i && left[..i][k] == p;
        if left[i].key.Some? && Obstructs(p, left[i].key, later) {
          PrefixOfKey(rows, q, k, i);
          HeldUntilLeaseEnds(rows, q, k);
        }
      }
    }
  }

  // Every message of the batch is a taken row, freshly leased.
  lemma {:induction false} BatchSource(rows: seq<Row>, q: Query, b: nat) returns (i: nat)
    requires b < |ClaimBatch(rows, q)|
    ensures i < |rows| && Taken(rows[..i], rows[i], q)
    ensures ClaimBatch(rows, q)[b] == Leased(rows[i], q).AsMessage()
            == Message(rows[i].id, rows[i].key, rows[i].attempts + 1, rows[i].createdAt)
    ensures |ClaimBatch(rows[..i], q)| == b
  {
    var n := |rows| - 1;
    if b < |ClaimBatch(rows[..n], q)| {
      i := BatchSource(rows[..n], q, b);
      assert rows[..n][..i] == rows[..i];
    } else {
      i := n;
    }
  }

  // Every taken row is in the batch.
  lemma {:induction false} BatchComplete(rows: seq<Row>, q: Query, i: nat) returns (b: nat)
    requires i < |rows| && Taken(rows[..i], rows[i], q)
    ensures b < |ClaimBatch(rows, q)|
    ensures ClaimBatch(rows, q)[b] == Leased(rows[i], q).AsMessage()
  {
    var n := |rows| - 1;
    if i < n {
      assert rows[..n][..i] == rows[..i];
      b := BatchComplete(rows[..n], q, i);
    } else {
      b := |ClaimBatch(rows[..n], q)|;
    }
  }

  lemma {:induction false} BatchPrefix(rows: seq<Row>, q: Query, i: nat)
    requires i <= |rows|
    ensures ClaimBatch(rows[..i], q) <= ClaimBatch(rows, q)
    decreases |rows|
  {
    if i == |rows| {
      assert rows[..i] == rows;
    } else {
      var n := |rows| - 1;
      assert rows[..n][..i] == rows[..i];
      BatchPrefix(rows[..n], q, i);
    }
  }

  // The batch is in insertion order and never hands out one row twice.
  lemma {:induction false} BatchAscending(rows: seq<Row>, q: Query)
    requires Ascending(rows)
    ensures forall a, b :: 0 <= a < b < |ClaimBatch(rows, q)| ==>
              ClaimBatch(rows, q)[a].id < ClaimBatch(rows, q)[b].id
  {
    var batch := ClaimBatch(rows, q);
    forall a, b | 0 <= a < b < |batch| ensures batch[a].id < batch[b].id {
      var j := BatchSource(rows, q, b);
      BatchPrefix(rows, q, j);
      var i := BatchSource(rows[..j], q, a);
      assert batch[a] == ClaimBatch(rows[..j], q)[a];
    }
  }

  // Exactly the first `limit` eligible rows: never more, and fewer only when there
  // are no more.
  lemma {:induction false} BatchSize(rows: seq<Row>, q: Query)
    ensures |ClaimBatch(rows, q)| ==
            if q.limit <= 0 then 0
            else if EligibleCount(rows, q) < q.limit then EligibleCount(rows, q)
            else q.limit
  {
    if rows != [] {
      BatchSize(rows[..|rows| - 1], q);
    }
  }

  // Once `limit` rows are taken, the rest of the table stays as it is.
  lemma {:induction false} ScanStops(rows: seq<Row>, q: Query, i: nat)
    requires i <= |rows| && q.limit <= EligibleCount(rows[..i], q)
    ensures ClaimRows(rows, q) == ClaimRows(rows[..i], q) + rows[i..]
    ensures ClaimBatch(rows, q) == ClaimBatch(rows[..i], q)
    decreases |rows|
  {
    if i == |rows| {
      assert rows[..i] == rows;
    } else {
      var n := |rows| - 1;
      assert rows[..n][..i] == rows[..i];
      CountMonotone(rows[..n], i, q);
      ScanStops(rows[..n], q, i);
      assert rows[..n][i..] + [rows[n]] == rows[i..];
    }
  }

  // A strict claim never splits a key from the front: the rows of a key that it
  // hands out are a prefix of all pending rows of that key, whatever the ages,
  // retries and leases of those rows are.
  lemma PrefixOfKey(rows: seq<Row>, q: Query, i: nat, j: nat)
    requires q.strict && i < j < |rows|
    requires rows[i].key.Some? && rows[i].key == rows[j].key && rows[i].status.Pending?
    requires Taken(rows[..j], rows[j], q)
    ensures Taken(rows[..i], rows[i], q)
  {
    assert rows[i] in rows[..j];
    forall p | p in rows[..i] ensures p in rows[..j] {
      var k :| 0 <= k < i && rows[..i][k] == p;
      assert rows[..j][k] == p;
    }
    CountMonotone(rows[..j], i, q);
    assert rows[..j][..i] == rows[..i];
  }

  // Strict claims: a keyed row can be handed out exactly when it and every earlier pending row
  // of its key are ready. So a key whose head is ready is not held back by anything else.
  lemma EligibleExactly(rows: seq<Row>, q: Query, i: nat)
    requires q.strict && i < |rows| && rows[i].key.Some? && rows[i].status.Pending?
    ensures Eligible(rows[..i], rows[i], q) <==>
            forall k :: 0 <= k <= i && rows[k].key == rows[i].key && rows[k].status.Pending? ==>
              !NotReady(rows[k], q)
  {
    forall k | 0 <= k < i ensures rows[k] in rows[..i] {
      assert rows[..i][k] == rows[k];
    }
  }

  // Strict or loose: an earlier pending row of the key is claimed with a later one exactly
  // when claims are strict or the earlier row is ready itself. So a loose claim overtakes a
  // head exactly while the head is leased, waits for its retry, or is too young.
  lemma OvertakenExactly(rows: seq<Row>, q: Query, i: nat, j: nat)
    requires i < j < |rows|
    requires rows[i].key.Some? && rows[i].key == rows[j].key && rows[i].status.Pending?
    requires Taken(rows[..j], rows[j], q)
    ensures Taken(rows[..i], rows[i], q) <==> q.strict || !NotReady(rows[i], q)
  {
    if q.strict {
      PrefixOfKey(rows, q, i, j);
    } else {
      CountMonotone(rows[..j], i, q);
      assert rows[..j][..i] == rows[..i];
    }
  }

  // The same property without strict ordering fails: a head waiting for its retry
  // is overtaken by a later row of its key.
  lemma LooseClaimSplitsKey()
    ensures exists rows: seq<Row>, q: Query ::
              !q.strict && |rows| == 2 && Ascending(rows) &&
              rows[0].key.Some? && rows[0].key == rows[1].key && rows[0].status.Pending? &&
              Taken(rows[..1], rows[1], q) && !Taken(rows[..0], rows[0], q)
  {
    var waiting := NewRow(1, Some("k"), 0).(retryAt := Some(10));
    var rows := [waiting, NewRow(2, Some("k"), 0)];
    var q := Query("w", 5, 60, 10, false, None);
    assert rows[..1] == [waiting] && rows[..0] == [];
    assert [waiting][..0] == [];
    assert EligibleCount([waiting], q) == 0;
    assert Taken(rows[..1], rows[1], q) && !Taken(rows[..0], rows[0], q);
  }
}
