// From a claimed batch to the lanes of its round.

module RoundStart {
  import opened Rows
  import opened Claim
  import opened Grouping
  import opened Round

  function LanesOf(groups: seq<seq<Message>>): (r: seq<Lane>)
    ensures |r| == |groups|
    ensures forall g :: 0 <= g < |groups| ==> r[g] == Publishing(groups[g])
  {
    seq(|groups|, g requires 0 <= g < |groups| => Publishing(groups[g]))
  }

  function StartLanes(batch: seq<Message>): seq<Lane> {
    LanesOf(Groups(batch))
  }

  predicate AscendingIds(ms: seq<Message>) {
    forall i, j :: 0 <= i < j < |ms| ==> ms[i].id < ms[j].id
  }

  lemma PickAscending(ms: seq<Message>, positions: seq<nat>, group: seq<Message>)
    requires AscendingIds(ms) && Picks(ms, positions, group)
    ensures AscendingIds(group)
  {
    forall x, y | 0 <= x < y < |group| ensures group[x].id < group[y].id {
      assert positions[x] < positions[y];
    }
  }

  // A group keeps the insertion order of the batch.
  lemma GroupAscending(ms: seq<Message>, g: nat)
    requires AscendingIds(ms) && g < |Groups(ms)|
    ensures AscendingIds(Groups(ms)[g])
  {
    GroupIsStable(ms, g);
    PickAscending(ms, GroupPositions(ms, g), Groups(ms)[g]);
  }

  // Where a message of a group stands in the batch.
  lemma GroupMember(ms: seq<Message>, g: nat, x: nat) returns (i: nat)
    requires g < |Groups(ms)| && x < |Groups(ms)[g]|
    ensures i < |ms| && ms[i] == Groups(ms)[g][x] && i in GroupPositions(ms, g)
  {
    GroupIsStable(ms, g);
    i := GroupPositions(ms, g)[x];
  }

  // A keyed group holds every message of its key.
  lemma GroupComplete(ms: seq<Message>, g: nat, x: nat, i: nat) returns (y: nat)
    requires g < |Groups(ms)| && x < |Groups(ms)[g]| && i < |ms|
    requires ms[i].key.Some? && ms[i].key == Groups(ms)[g][x].key
    ensures y < |Groups(ms)[g]| && Groups(ms)[g][y] == ms[i]
  {
    GroupIsStable(ms, g);
    var l := Leaders(ms)[g];
    KeyPositions(ms, ms[l].key);
    var positions := GroupPositions(ms, g);
    assert ms[positions[0]] == Groups(ms)[g][0];
    assert Groups(ms)[g][0].key == Groups(ms)[g][x].key;
    assert i in positions;
    y :| 0 <= y < |positions| && positions[y] == i;
  }

  // No message is in two lanes.
  lemma StartDisjoint(ms: seq<Message>)
    requires AscendingIds(ms)
    ensures Disjoint(StartLanes(ms))
  {
    var lanes := StartLanes(ms);
    forall id: Id, g, h |
        0 <= g < |lanes| && 0 <= h < |lanes| && InLane(id, lanes[g]) && InLane(id, lanes[h])
      ensures g == h
    {
      var x :| 0 <= x < |Groups(ms)[g]| && Groups(ms)[g][x].id == id;
      var y :| 0 <= y < |Groups(ms)[h]| && Groups(ms)[h][y].id == id;
      var i := GroupMember(ms, g, x);
      var j := GroupMember(ms, h, y);
      assert i == j;
      var k := EveryPositionOnce(ms, i);
    }
  }

  lemma {:induction false} RemainingIsFlat(groups: seq<seq<Message>>)
    ensures Remaining(LanesOf(groups)) == |Flatten(groups)|
  {
    if groups != [] {
      var n := |groups| - 1;
      RemainingIsFlat(groups[..n]);
      assert LanesOf(groups) == LanesOf(groups[..n]) + [Publishing(groups[n])];
      RemainingSnoc(LanesOf(groups[..n]), Publishing(groups[n]));
    }
  }

  lemma {:induction false} RemainingSnoc(lanes: seq<Lane>, lane: Lane)
    ensures Remaining(lanes + [lane]) == Remaining(lanes) + |lane.rest|
  {
    if lanes != [] {
      assert (lanes + [lane])[1..] == lanes[1..] + [lane];
      RemainingSnoc(lanes[1..], lane);
    }
  }

  // The lanes hold exactly the claimed messages.
  lemma StartRemaining(ms: seq<Message>)
    ensures Remaining(StartLanes(ms)) == |ms|
  {
    RemainingIsFlat(Groups(ms));
    GroupsArePermutation(ms);
    assert |multiset(Flatten(Groups(ms)))| == |multiset(ms)|;
  }

  // A message in a lane of a new round is a row that the claim has just taken.
  lemma StartTakes(rows: seq<Row>, q: Query, g: nat, id: Id) returns (i: nat)
    requires g < |StartLanes(ClaimBatch(rows, q))| && InLane(id, StartLanes(ClaimBatch(rows, q))[g])
    ensures i < |rows| && rows[i].id == id && Taken(rows[..i], rows[i], q)
    ensures id in IdsOf(ClaimBatch(rows, q))
  {
    var batch := ClaimBatch(rows, q);
    var x :| 0 <= x < |Groups(batch)[g]| && Groups(batch)[g][x].id == id;
    var b := GroupMember(batch, g, x);
    i := BatchSource(rows, q, b);
    assert IdsOf(batch)[b] == id;
  }

  // A claimed batch is in insertion order.
  lemma BatchIds(rows: seq<Row>, q: Query)
    requires Ascending(rows)
    ensures AscendingIds(ClaimBatch(rows, q))
  {
    BatchAscending(rows, q);
  }

  // ------------------------------------------------------------ a whole round

  // One whole round, its groups taken one after another. By AnyScheduleSettles every
  // other interleaving of the groups ends in the same table.
  function StartOfRound(rows: seq<Row>, q: Query): Progress {
    Progress(ClaimRows(rows, q), StartLanes(ClaimBatch(rows, q)), [], NO_COUNTS)
  }

  function RoundRows(rows: seq<Row>, q: Query, maxAttempts: int, oracle: Oracle): (r: seq<Row>)
    ensures |r| == |rows|
  {
    var runner := Runner(q.worker, maxAttempts);
    Finished(Settled(StartOfRound(rows, q), runner, oracle), runner)
  }

  // Any schedule of the same round ends in this table.
  lemma {:induction false} RoundRowsAnySchedule(rows: seq<Row>, q: Query, maxAttempts: int,
                                                oracle: Oracle, schedule: seq<nat>)
    requires Ascending(rows)
    requires AllClosed(Drive(StartOfRound(rows, q), schedule, Runner(q.worker, maxAttempts), oracle).lanes)
    ensures
      var r := Runner(q.worker, maxAttempts);
      Finished(Drive(StartOfRound(rows, q), schedule, r, oracle), r)
      == RoundRows(rows, q, maxAttempts, oracle)
  {
    BatchIds(rows, q);
    StartDisjoint(ClaimBatch(rows, q));
    AnyScheduleSettles(StartOfRound(rows, q), schedule, Runner(q.worker, maxAttempts), oracle);
  }
}
