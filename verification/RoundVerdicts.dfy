// What a whole round does to every row of the table: the claim, the verdicts of the groups,
// and the ack, for any publisher and any lost reports.

module RoundVerdicts {
  import opened Wrappers
  import opened Rows
  import opened Claim
  import opened Grouping
  import opened Round
  import opened RoundStart
  import opened RoundOutcome

  lemma {:induction false} InAckedEnd(lanes: seq<Lane>, r: Runner, oracle: Oracle, id: Id)
    ensures id in AckedEnd(lanes, r, oracle) <==>
            exists g :: 0 <= g < |lanes| && id in LaneAcked(lanes[g], r, oracle)
  {
    if lanes != [] {
      InAckedEnd(lanes[1..], r, oracle, id);
      if exists g :: 0 <= g < |lanes| && id in LaneAcked(lanes[g], r, oracle) {
        var g :| 0 <= g < |lanes| && id in LaneAcked(lanes[g], r, oracle);
        if g > 0 {
          assert lanes[1..][g - 1] == lanes[g];
        }
      }
      if id in AckedEnd(lanes[1..], r, oracle) {
        var g :| 0 <= g < |lanes| - 1 && id in LaneAcked(lanes[1..][g], r, oracle);
        assert lanes[g + 1] == lanes[1..][g];
      }
    }
  }

  // Message `x` of group `g` is acked exactly when it comes before the first failure.
  lemma AckedInGroup(groups: seq<seq<Message>>, g: nat, x: nat, r: Runner, oracle: Oracle)
    requires Unique(groups) && g < |groups| && x < |groups[g]|
    ensures groups[g][x].id in AckedEnd(LanesOf(groups), r, oracle) <==>
            x < FirstFailure(groups[g], oracle)
  {
    var lanes, id := LanesOf(groups), groups[g][x].id;
    InAckedEnd(lanes, r, oracle, id);
    forall h | 0 <= h < |groups|
      ensures id in LaneAcked(lanes[h], r, oracle) <==>
              h == g && x < FirstFailure(groups[g], oracle)
    {
      var f := FirstFailure(groups[h], oracle);
      LaneAckedIs(groups[h], r, oracle);
      if h == g && x < f {
        assert IdsOf(groups[h][..f])[x] == id;
      }
      if id in IdsOf(groups[h][..f]) {
        var y :| 0 <= y < f && IdsOf(groups[h][..f])[y] == id;
        assert groups[h][y].id == groups[g][x].id;
      }
    }
  }

  // The verdict on message `x` of a group, as a change of its row.
  function GroupChange(row: Row, group: seq<Message>, x: nat, r: Runner, oracle: Oracle): Row
    requires x < |group|
  {
    var f := FirstFailure(group, oracle);
    if x < f then Delivered(row)
    else
      var fate := oracle(group[f].id);
      if x == f then
        if !fate.reported then row
        else if Exhausted(group[f], r) then Parked(row, fate.error)
        else Rescheduled(row, fate.error, RetryTime(group[f], r, fate))
      else if fate.released then HandedBack(row, RetryTime(group[f], r, fate))
      else row
  }

  // The report and the release, without the ack.
  lemma GroupReported(row: Row, group: seq<Message>, x: nat, r: Runner, oracle: Oracle)
    requires x < |group| && AscendingIds(group)
    requires row.id == group[x].id && row.leasedBy == Some(r.worker)
    ensures LaneRow(row, Publishing(group), r, oracle) ==
            if x < FirstFailure(group, oracle) then row else GroupChange(row, group, x, r, oracle)
  {
    LaneOutcome(row, group, x, r, oracle);
    var wb := WrittenBack(group, x, r, oracle);
    assert !wb.Nothing? ==> wb.Ids() == [row.id];
  }

  lemma GroupRow(row: Row, groups: seq<seq<Message>>, g: nat, x: nat, r: Runner, oracle: Oracle)
    requires Disjoint(LanesOf(groups)) && Unique(groups)
    requires g < |groups| && x < |groups[g]| && AscendingIds(groups[g])
    requires row.id == groups[g][x].id && row.leasedBy == Some(r.worker)
    ensures WriteRow(RowEnd(row, LanesOf(groups), r, oracle),
                     Ack(AckedEnd(LanesOf(groups), r, oracle)), r.worker)
            == GroupChange(row, groups[g], x, r, oracle)
  {
    var lanes := LanesOf(groups);
    assert lanes[g].rest[x].id == row.id;
    RowEndIsLane(row, lanes, g, r, oracle);
    GroupReported(row, groups[g], x, r, oracle);
    AckedInGroup(groups, g, x, r, oracle);
  }

  // Where taken row `i` is found in the groups of its batch.
  lemma TakenPlace(rows: seq<Row>, q: Query, i: nat) returns (g: nat, x: nat)
    requires i < |rows| && Taken(rows[..i], rows[i], q)
    ensures
      var groups := Groups(ClaimBatch(rows, q));
      g < |groups| && x < |groups[g]| && groups[g][x] == Leased(rows[i], q).AsMessage()
  {
    var batch := ClaimBatch(rows, q);
    var b := BatchComplete(rows, q, i);
    g := EveryPositionOnce(batch, b);
    GroupIsStable(batch, g);
    x :| 0 <= x < |GroupPositions(batch, g)| && GroupPositions(batch, g)[x] == b;
  }

  lemma GroupsReady(rows: seq<Row>, q: Query)
    requires Ascending(rows)
    ensures
      var groups := Groups(ClaimBatch(rows, q));
      && Disjoint(LanesOf(groups)) && Unique(groups)
      && forall g :: 0 <= g < |groups| ==> AscendingIds(groups[g])
  {
    var batch := ClaimBatch(rows, q);
    BatchIds(rows, q);
    StartDisjoint(batch);
    forall g | 0 <= g < |Groups(batch)| ensures AscendingIds(Groups(batch)[g]) {
      GroupAscending(batch, g);
    }
    UniqueGroups(Groups(batch));
  }

  lemma RoundRowsAt(rows: seq<Row>, q: Query, maxAttempts: int, oracle: Oracle, i: nat)
    requires i < |rows|
    ensures
      var r, lanes := Runner(q.worker, maxAttempts), StartLanes(ClaimBatch(rows, q));
      RoundRows(rows, q, maxAttempts, oracle)[i] ==
      WriteRow(RowEnd(AfterClaim(rows[..i], rows[i], q), lanes, r, oracle),
               Ack(AckedEnd(lanes, r, oracle)), q.worker)
  {
    ClaimRowsAt(rows, q, i);
    var r, lanes := Runner(q.worker, maxAttempts), StartLanes(ClaimBatch(rows, q));
    assert [] + AckedEnd(lanes, r, oracle) == AckedEnd(lanes, r, oracle);
  }

  lemma TakenRow(rows: seq<Row>, q: Query, maxAttempts: int, oracle: Oracle, i: nat, g: nat, x: nat)
    requires Ascending(rows) && i < |rows| && Taken(rows[..i], rows[i], q)
    requires
      var groups := Groups(ClaimBatch(rows, q));
      g < |groups| && x < |groups[g]| && groups[g][x] == Leased(rows[i], q).AsMessage()
    ensures
      RoundRows(rows, q, maxAttempts, oracle)[i] ==
      GroupChange(Leased(rows[i], q), Groups(ClaimBatch(rows, q))[g], x,
                  Runner(q.worker, maxAttempts), oracle)
  {
    GroupsReady(rows, q);
    RoundRowsAt(rows, q, maxAttempts, oracle, i);
    GroupRow(Leased(rows[i], q), Groups(ClaimBatch(rows, q)), g, x,
             Runner(q.worker, maxAttempts), oracle);
  }

  lemma {:induction false} OtherRow(rows: seq<Row>, q: Query, maxAttempts: int, oracle: Oracle,
                                    i: nat)
    requires Ascending(rows) && i < |rows| && !Taken(rows[..i], rows[i], q)
    ensures RoundRows(rows, q, maxAttempts, oracle)[i] == rows[i]
  {
    var r, batch := Runner(q.worker, maxAttempts), ClaimBatch(rows, q);
    var lanes := StartLanes(batch);
    RoundRowsAt(rows, q, maxAttempts, oracle, i);
    forall g, x | 0 <= g < |lanes| && 0 <= x < |lanes[g].rest|
      ensures lanes[g].rest[x].id != rows[i].id
    {
      var b := GroupMember(batch, g, x);
      var j := BatchSource(rows, q, b);
      assert j != i;
    }
    OutsideRow(rows[i], lanes, r, oracle);
    NotAcked(lanes, r, oracle, rows[i].id);
  }

  lemma {:induction false} NotAcked(lanes: seq<Lane>, r: Runner, oracle: Oracle, id: Id)
    requires forall g :: 0 <= g < |lanes| ==> !InLane(id, lanes[g])
    ensures id !in AckedEnd(lanes, r, oracle)
  {
    if lanes != [] {
      assert !InLane(id, lanes[0]);
      LaneNotAcked(lanes[0], r, oracle, id);
      NotAcked(lanes[1..], r, oracle, id);
    }
  }

  lemma {:induction false} LaneNotAcked(lane: Lane, r: Runner, oracle: Oracle, id: Id)
    requires !InLane(id, lane)
    ensures id !in LaneAcked(lane, r, oracle)
    decreases lane.Measure()
  {
    if !lane.Closed() {
      var fate := Verdict(lane, oracle);
      NextInLane(id, lane, r, fate);
      LaneNotAcked(LaneNext(lane, r, fate), r, oracle, id);
      if lane.Publishing? {
        assert lane.rest[0].id != id;
      }
    }
  }

  // The row as the claim leaves it, which is how it stays when its report is lost.
  function StillLeased(row: Row, q: Query): Row {
    row.(attempts := row.attempts + 1, leasedBy := Some(q.worker),
         leaseUntil := Some(q.now + q.lease), retryAt := None)
  }

  // How the row `was` of message `x` of a group ends. Before the first failure it is DONE. At
  // the failure it waits for its retry, or is DEAD once its attempts are used up. Behind the
  // failure it waits as long as the head, with its attempts as they were. Where the report or
  // the release is lost, it stays leased until the lease ends.
  predicate EndsAs(was: Row, end: Row, q: Query, maxAttempts: int, group: seq<Message>, x: nat,
                   oracle: Oracle)
    requires x < |group|
  {
    var f := FirstFailure(group, oracle);
    if x < f then
      end == was.(status := Done, attempts := was.attempts + 1, leasedBy := None,
                  leaseUntil := None, retryAt := None)
    else
      var fate, retries := oracle(group[f].id), group[f].attempts < maxAttempts;
      if x > f then
        end == if !fate.released then StillLeased(was, q)
               else was.(retryAt := Some(if retries then fate.now + fate.delay else fate.now),
                         leasedBy := None, leaseUntil := None)
      else
        end == if !fate.reported then StillLeased(was, q)
               else if retries
               then was.(attempts := was.attempts + 1, lastError := Some(fate.error),
                         retryAt := Some(fate.now + fate.delay), leasedBy := None,
                         leaseUntil := None)
               else was.(status := Dead, attempts := was.attempts + 1,
                         lastError := Some(fate.error), retryAt := None, leasedBy := None,
                         leaseUntil := None)
  }

  lemma ChangeEndsSo(was: Row, q: Query, maxAttempts: int, group: seq<Message>, x: nat,
                     oracle: Oracle)
    requires x < |group|
    ensures EndsAs(was, GroupChange(Leased(was, q), group, x, Runner(q.worker, maxAttempts), oracle),
                   q, maxAttempts, group, x, oracle)
  {
  }

  lemma PlaceIsTaken(rows: seq<Row>, q: Query, i: nat, g: nat, x: nat)
    requires Ascending(rows) && i < |rows|
    requires
      var groups := Groups(ClaimBatch(rows, q));
      g < |groups| && x < |groups[g]| && groups[g][x].id == rows[i].id
    ensures Taken(rows[..i], rows[i], q)
    ensures Groups(ClaimBatch(rows, q))[g][x] == Leased(rows[i], q).AsMessage()
  {
    var b := GroupMember(ClaimBatch(rows, q), g, x);
    var j := BatchSource(rows, q, b);
    assert j == i;
  }

  // Every claimed row, from before the claim to after the ack.
  lemma RoundVerdict(rows: seq<Row>, q: Query, maxAttempts: int, oracle: Oracle, i: nat,
                     g: nat, x: nat)
    requires Ascending(rows) && i < |rows|
    requires
      var groups := Groups(ClaimBatch(rows, q));
      g < |groups| && x < |groups[g]| && groups[g][x].id == rows[i].id
    ensures Taken(rows[..i], rows[i], q)
    ensures EndsAs(rows[i], RoundRows(rows, q, maxAttempts, oracle)[i], q, maxAttempts,
                   Groups(ClaimBatch(rows, q))[g], x, oracle)
  {
    PlaceIsTaken(rows, q, i, g, x);
    TakenRow(rows, q, maxAttempts, oracle, i, g, x);
    ChangeEndsSo(rows[i], q, maxAttempts, Groups(ClaimBatch(rows, q))[g], x, oracle);
  }
}
