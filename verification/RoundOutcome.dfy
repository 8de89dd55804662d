// What a round does to each message, independently of the step-by-step definition:
// a published prefix, at most one failure, a handed-back rest. And what is true when
// the round is cancelled at any point.

module RoundOutcome {
  import opened Wrappers
  import opened Rows
  import opened Claim
  import opened Round
  import opened RoundStart

  // How many messages of a group are accepted: all before the first failure.
  function FirstFailure(group: seq<Message>, oracle: Oracle): (f: nat)
    ensures f <= |group|
    ensures forall x :: 0 <= x < f ==> oracle(group[x].id).Accepted?
    ensures f < |group| ==> oracle(group[f].id).Failed?
  {
    if group == [] || oracle(group[0].id).Failed? then 0
    else 1 + FirstFailure(group[1..], oracle)
  }

  // The write-back, if any, that message `x` of the group gets in the round.
  function WrittenBack(group: seq<Message>, x: nat, r: Runner, oracle: Oracle): WriteBack
    requires x < |group|
  {
    var f := FirstFailure(group, oracle);
    if x < f then Nothing
    else
      var fate := oracle(group[f].id);
      if x == f then Report(group[f], r, fate)
      else if fate.released then Release([group[x].id], RetryTime(group[f], r, fate))
      else Nothing
  }

  lemma HoldingRow(row: Row, lane: Lane, x: nat, r: Runner, oracle: Oracle)
    requires lane.Holding? && x < |lane.rest| && lane.rest[x].id == row.id
    ensures LaneRow(row, lane, r, oracle) ==
            if lane.released then WriteRow(row, Release([row.id], lane.retryAt), r.worker) else row
  {
    assert IdsOf(lane.rest)[x] == row.id;
    assert LaneNext(lane, r, Accepted).Closed();
    var after := WriteRow(row, Effect(lane, r, Accepted), r.worker);
    assert LaneRow(after, Publishing([]), r, oracle) == after;
  }

  // Each message of a lane gets exactly the write-back of its place in the group.
  lemma {:induction false} LaneOutcome(row: Row, group: seq<Message>, x: nat, r: Runner, oracle: Oracle)
    requires AscendingIds(group) && x < |group| && group[x].id == row.id
    ensures LaneRow(row, Publishing(group), r, oracle) ==
            WriteRow(row, WrittenBack(group, x, r, oracle), r.worker)
    decreases |group|
  {
    var lane := Publishing(group);
    var fate := oracle(group[0].id);
    var rest := group[1..];
    if fate.Accepted? {
      if x == 0 {
        assert !InLane(row.id, Publishing(rest));
        Untouched(row, Publishing(rest), r, oracle);
      } else {
        assert AscendingIds(rest) && rest[x - 1] == group[x];
        LaneOutcome(row, rest, x - 1, r, oracle);
        assert WrittenBack(rest, x - 1, r, oracle) == WrittenBack(group, x, r, oracle) by {
          assert FirstFailure(group, oracle) == 1 + FirstFailure(rest, oracle);
        }
      }
    } else {
      var next := LaneNext(lane, r, fate);
      var row' := WriteRow(row, Effect(lane, r, fate), r.worker);
      assert FirstFailure(group, oracle) == 0;
      if x == 0 {
        assert !InLane(row.id, next);
        Untouched(row', next, r, oracle);
      } else {
        assert row' == row;
        assert next.rest[x - 1] == group[x];
        HoldingRow(row, next, x - 1, r, oracle);
      }
    }
  }

  lemma {:induction false} LaneAckedIs(group: seq<Message>, r: Runner, oracle: Oracle)
    ensures LaneAcked(Publishing(group), r, oracle) == IdsOf(group[..FirstFailure(group, oracle)])
    decreases |group|
  {
    if group != [] {
      var fate := oracle(group[0].id);
      if fate.Accepted? {
        var f := FirstFailure(group[1..], oracle);
        LaneAckedIs(group[1..], r, oracle);
        assert IdsOf(group[..f + 1]) == [group[0].id] + IdsOf(group[1..][..f]);
      } else {
        var next := LaneNext(Publishing(group), r, fate);
        assert LaneAcked(Publishing([]), r, oracle) == [];
        assert LaneAcked(next, r, oracle) == [];
      }
    }
  }

  lemma {:induction false} LaneCountsAre(group: seq<Message>, r: Runner, oracle: Oracle)
    ensures
      var f := FirstFailure(group, oracle);
      LaneCounts(Publishing(group), r, oracle) ==
      if f == |group| then Counts(f, 0, 0, 0)
      else if Exhausted(group[f], r) then Counts(f, 0, 1, |group| - f - 1)
      else Counts(f, 1, 0, |group| - f - 1)
    decreases |group|
  {
    if group != [] {
      var fate := oracle(group[0].id);
      if fate.Accepted? {
        LaneCountsAre(group[1..], r, oracle);
      } else {
        assert LaneCounts(Publishing([]), r, oracle) == NO_COUNTS;
        assert LaneCounts(LaneNext(Publishing(group), r, fate), r, oracle)
               == Counts(0, 0, 0, |group| - 1);
      }
    }
  }

  // A row of lane `g` ends where that lane alone takes it.
  lemma {:induction false} RowEndIsLane(row: Row, lanes: seq<Lane>, g: nat, r: Runner, oracle: Oracle)
    requires Disjoint(lanes) && g < |lanes| && InLane(row.id, lanes[g])
    ensures RowEnd(row, lanes, r, oracle) == LaneRow(row, lanes[g], r, oracle)
    decreases |lanes|
  {
    TailDisjoint(lanes);
    if g > 0 {
      Untouched(row, lanes[0], r, oracle);
      assert lanes[1..][g - 1] == lanes[g];
      RowEndIsLane(row, lanes[1..], g - 1, r, oracle);
    } else {
      OutsideRow(LaneRow(row, lanes[0], r, oracle), lanes[1..], r, oracle);
    }
  }

  lemma {:induction false} OutsideRow(row: Row, lanes: seq<Lane>, r: Runner, oracle: Oracle)
    requires forall g :: 0 <= g < |lanes| ==> !InLane(row.id, lanes[g])
    ensures RowEnd(row, lanes, r, oracle) == row
    decreases |lanes|
  {
    if lanes != [] {
      assert !InLane(row.id, lanes[0]);
      Untouched(row, lanes[0], r, oracle);
      OutsideRow(row, lanes[1..], r, oracle);
    }
  }

  lemma ReportWrites(head: Row, m: Message, r: Runner, fate: Fate)
    requires fate.Failed? && fate.reported && head.id == m.id && head.leasedBy == Some(r.worker)
    ensures WriteRow(head, Report(m, r, fate), r.worker) ==
            if m.attempts < r.maxAttempts
            then head.(lastError := Some(fate.error), retryAt := Some(fate.now + fate.delay),
                       leasedBy := None, leaseUntil := None)
            else head.(status := Dead, lastError := Some(fate.error), leasedBy := None,
                       leaseUntil := None)
  {
    assert Report(m, r, fate).Ids() == [head.id];
  }

  lemma HeadReported(head: Row, group: seq<Message>, r: Runner, oracle: Oracle)
    requires AscendingIds(group) && head.leasedBy == Some(r.worker)
    requires
      var f := FirstFailure(group, oracle);
      f < |group| && head.id == group[f].id && oracle(group[f].id).reported
    ensures
      var f := FirstFailure(group, oracle);
      var fate := oracle(group[f].id);
      LaneRow(head, Publishing(group), r, oracle) ==
      if group[f].attempts < r.maxAttempts
      then head.(lastError := Some(fate.error), retryAt := Some(fate.now + fate.delay),
                 leasedBy := None, leaseUntil := None)
      else head.(status := Dead, lastError := Some(fate.error), leasedBy := None,
                 leaseUntil := None)
  {
    var f := FirstFailure(group, oracle);
    LaneOutcome(head, group, f, r, oracle);
    assert WrittenBack(group, f, r, oracle) == Report(group[f], r, oracle(group[f].id));
    ReportWrites(head, group[f], r, oracle(group[f].id));
  }

  lemma ReleaseWrites(follower: Row, m: Message, r: Runner, fate: Fate)
    requires fate.Failed? && follower.leasedBy == Some(r.worker)
    ensures WriteRow(follower, Release([follower.id], RetryTime(m, r, fate)), r.worker) ==
            follower.(attempts := follower.attempts - 1, leasedBy := None, leaseUntil := None,
                      retryAt := Some(if m.attempts < r.maxAttempts
                                      then fate.now + fate.delay else fate.now))
  {
  }

  lemma FollowerReleased(follower: Row, group: seq<Message>, x: nat, r: Runner, oracle: Oracle)
    requires AscendingIds(group) && follower.leasedBy == Some(r.worker)
    requires
      var f := FirstFailure(group, oracle);
      f < x < |group| && follower.id == group[x].id && oracle(group[f].id).released
    ensures
      var f := FirstFailure(group, oracle);
      var fate := oracle(group[f].id);
      LaneRow(follower, Publishing(group), r, oracle) ==
      follower.(attempts := follower.attempts - 1, leasedBy := None, leaseUntil := None,
                retryAt := Some(if group[f].attempts < r.maxAttempts
                                then fate.now + fate.delay else fate.now))
  {
    var f := FirstFailure(group, oracle);
    LaneOutcome(follower, group, x, r, oracle);
    ReleaseWrites(follower, group[f], r, oracle(group[f].id));
  }

  // A nacked head and its blocked followers share one retry time, the failure's time plus the
  // back-off: when both write-backs take effect, followers and head become due together, then
  // and not before, and no follower burns an attempt.
  lemma {:induction false} FollowersShareRetryTime(head: Row, follower: Row, group: seq<Message>,
                                                   x: nat, r: Runner, oracle: Oracle)
    requires AscendingIds(group)
    requires
      var f := FirstFailure(group, oracle);
      && f < x < |group| && head.id == group[f].id && follower.id == group[x].id
      && oracle(group[f].id).reported && oracle(group[f].id).released
      && group[f].attempts < r.maxAttempts
    requires head.leasedBy == Some(r.worker) == follower.leasedBy
    ensures
      var head' := LaneRow(head, Publishing(group), r, oracle);
      var follower' := LaneRow(follower, Publishing(group), r, oracle);
      var fate := oracle(group[FirstFailure(group, oracle)].id);
      && head'.retryAt == Some(fate.now + fate.delay) == follower'.retryAt
      && DueFrom(head', fate.now + fate.delay) && DueFrom(follower', fate.now + fate.delay)
      && head'.leasedBy.None? && follower'.leasedBy.None?
      && head'.attempts == head.attempts && follower'.attempts == follower.attempts - 1
      && head'.status == head.status && follower'.status == follower.status
      && head'.lastError == Some(fate.error) && follower'.lastError == follower.lastError
  {
    HeadReported(head, group, r, oracle);
    FollowerReleased(follower, group, x, r, oracle);
  }

  // The followers of a head that is parked for good are due at once.
  lemma {:induction false} FollowersOfDeadLetter(head: Row, follower: Row, group: seq<Message>,
                                                 x: nat, r: Runner, oracle: Oracle)
    requires AscendingIds(group)
    requires
      var f := FirstFailure(group, oracle);
      && f < x < |group| && head.id == group[f].id && follower.id == group[x].id
      && oracle(group[f].id).reported && oracle(group[f].id).released
      && group[f].attempts >= r.maxAttempts
    requires head.leasedBy == Some(r.worker) == follower.leasedBy
    ensures
      var head' := LaneRow(head, Publishing(group), r, oracle);
      var follower' := LaneRow(follower, Publishing(group), r, oracle);
      var fate := oracle(group[FirstFailure(group, oracle)].id);
      && head'.status.Dead? && head'.leasedBy.None? && head'.lastError == Some(fate.error)
      && follower'.retryAt == Some(fate.now) && DueFrom(follower', fate.now)
      && follower'.status == follower.status && follower'.attempts == follower.attempts - 1
  {
    HeadReported(head, group, r, oracle);
    FollowerReleased(follower, group, x, r, oracle);
  }

  // ------------------------------------------------------------- cancellation

  // How far lane `lane` has got into its group.
  function Passed(group: seq<Message>, lane: Lane): int {
    |group| - |lane.rest|
  }

  ghost predicate Reached(group: seq<Message>, lane: Lane, oracle: Oracle) {
    && |lane.rest| <= |group| && lane.rest == group[|group| - |lane.rest|..]
    && (lane.Publishing? && lane.rest != [] ==> Passed(group, lane) <= FirstFailure(group, oracle))
    && (lane.Holding? ==> Passed(group, lane) == FirstFailure(group, oracle) + 1)
  }

  // No two places in the groups hold the same id.
  ghost predicate Unique(groups: seq<seq<Message>>) {
    forall g, x, h, y ::
      (0 <= g < |groups| && 0 <= x < |groups[g]| && 0 <= h < |groups| && 0 <= y < |groups[h]| &&
       groups[g][x].id == groups[h][y].id)
      ==> g == h && x == y
  }

  // The acked messages are exactly those that their lanes have passed and that were
  // accepted; in each group they are a prefix.
  ghost predicate Midway(groups: seq<seq<Message>>, p: Progress, oracle: Oracle) {
    && |p.lanes| == |groups|
    && (forall g :: 0 <= g < |groups| ==> Reached(groups[g], p.lanes[g], oracle))
    && (forall g, x :: 0 <= g < |groups| && 0 <= x < |groups[g]| ==>
          (groups[g][x].id in p.acked <==>
             x < Passed(groups[g], p.lanes[g]) && x < FirstFailure(groups[g], oracle)))
  }

  lemma NextReached(group: seq<Message>, lane: Lane, r: Runner, oracle: Oracle)
    requires Reached(group, lane, oracle) && !lane.Closed()
    ensures
      var fate := Verdict(lane, oracle);
      var n, f := Passed(group, lane), FirstFailure(group, oracle);
      && Reached(group, LaneNext(lane, r, fate), oracle)
      && NewlyAccepted(lane, fate) == (if n < f then [group[n].id] else [])
      && (n < f ==> Passed(group, LaneNext(lane, r, fate)) == n + 1)
      && (n >= f ==> Passed(group, LaneNext(lane, r, fate)) >= f)
  {
    var n := Passed(group, lane);
    if lane.Publishing? {
      assert lane.rest[0] == group[n];
      assert lane.rest[1..] == group[n + 1..];
    }
  }

  lemma AdvanceMidway(groups: seq<seq<Message>>, p: Progress, g: nat, r: Runner, oracle: Oracle)
    requires Unique(groups) && Midway(groups, p, oracle) && g < |p.lanes|
    ensures Midway(groups, Advance(p, g, r, Verdict(p.lanes[g], oracle)), oracle)
  {
    if !p.lanes[g].Closed() {
      var fate := Verdict(p.lanes[g], oracle);
      var p' := Advance(p, g, r, fate);
      NextReached(groups[g], p.lanes[g], r, oracle);
      forall h, x | 0 <= h < |groups| && 0 <= x < |groups[h]|
        ensures groups[h][x].id in p'.acked <==>
                  x < Passed(groups[h], p'.lanes[h]) && x < FirstFailure(groups[h], oracle)
      {
        var n, f := Passed(groups[g], p.lanes[g]), FirstFailure(groups[g], oracle);
        if n < f {
          assert p'.acked == p.acked + [groups[g][n].id];
        } else {
          assert p'.acked == p.acked;
        }
      }
    }
  }

  lemma {:induction false} DriveMidway(groups: seq<seq<Message>>, p: Progress, schedule: seq<nat>,
                                      r: Runner, oracle: Oracle)
    requires Unique(groups) && Midway(groups, p, oracle)
    ensures Midway(groups, Drive(p, schedule, r, oracle), oracle)
    decreases |schedule|
  {
    if schedule != [] {
      var g := schedule[0];
      if g < |p.lanes| {
        AdvanceMidway(groups, p, g, r, oracle);
        DriveMidway(groups, Advance(p, g, r, Verdict(p.lanes[g], oracle)), schedule[1..], r, oracle);
      } else {
        DriveMidway(groups, p, schedule[1..], r, oracle);
      }
    }
  }

  lemma UniqueGroups(groups: seq<seq<Message>>)
    requires Disjoint(LanesOf(groups))
    requires forall g :: 0 <= g < |groups| ==> AscendingIds(groups[g])
    ensures Unique(groups)
  {
    forall g, x, h, y |
        0 <= g < |groups| && 0 <= x < |groups[g]| && 0 <= h < |groups| && 0 <= y < |groups[h]| &&
        groups[g][x].id == groups[h][y].id
      ensures g == h && x == y
    {
      var lanes := LanesOf(groups);
      assert InLane(groups[g][x].id, lanes[g]) && InLane(groups[g][x].id, lanes[h]);
    }
  }

  function StartOf(rows: seq<Row>, groups: seq<seq<Message>>): Progress {
    Progress(rows, LanesOf(groups), [], NO_COUNTS)
  }

  // An accepted message gets no write-back at all from its lane.
  lemma AcceptedEnd(row: Row, groups: seq<seq<Message>>, g: nat, x: nat, r: Runner, oracle: Oracle)
    requires Disjoint(LanesOf(groups)) && g < |groups| && AscendingIds(groups[g])
    requires x < FirstFailure(groups[g], oracle) && row.id == groups[g][x].id
    ensures RowEnd(row, LanesOf(groups), r, oracle) == row
  {
    var lanes := LanesOf(groups);
    assert lanes[g].rest[x].id == row.id;
    RowEndIsLane(row, lanes, g, r, oracle);
    LaneOutcome(row, groups[g], x, r, oracle);
  }

  lemma AckedOutside(groups: seq<seq<Message>>, p: Progress, g: nat, x: nat, oracle: Oracle)
    requires Unique(groups) && Midway(groups, p, oracle)
    requires g < |groups| && x < |groups[g]| && groups[g][x].id in p.acked
    ensures forall h :: 0 <= h < |p.lanes| ==> !InLane(groups[g][x].id, p.lanes[h])
  {
    forall h, y | 0 <= h < |p.lanes| && 0 <= y < |p.lanes[h].rest|
      ensures p.lanes[h].rest[y].id != groups[g][x].id
    {
      assert p.lanes[h].rest[y] == groups[h][Passed(groups[h], p.lanes[h]) + y];
    }
  }

  // The row of an accepted message is not written before the final ack, however the
  // steps of the round interleave and wherever it stops.
  lemma AcceptedUntouched(rows: seq<Row>, groups: seq<seq<Message>>, p: Progress,
                          r: Runner, oracle: Oracle, i: nat, g: nat, x: nat)
    requires Disjoint(LanesOf(groups)) && Unique(groups)
    requires g < |groups| && x < |groups[g]| && AscendingIds(groups[g])
    requires |p.rows| == |rows| && i < |rows| && p.rows[i].id == rows[i].id == groups[g][x].id
    requires Midway(groups, p, oracle) && rows[i].id in p.acked
    requires RowEnd(rows[i], LanesOf(groups), r, oracle) == RowEnd(p.rows[i], p.lanes, r, oracle)
    ensures p.rows[i] == rows[i]
  {
    AcceptedEnd(rows[i], groups, g, x, r, oracle);
    AckedOutside(groups, p, g, x, oracle);
    OutsideRow(p.rows[i], p.lanes, r, oracle);
  }

  lemma {:induction false} DriveKeepsIds(p: Progress, schedule: seq<nat>, r: Runner, oracle: Oracle)
    ensures |Drive(p, schedule, r, oracle).rows| == |p.rows|
    ensures forall i :: 0 <= i < |p.rows| ==>
              Drive(p, schedule, r, oracle).rows[i].id == p.rows[i].id
    decreases |schedule|
  {
    if schedule != [] {
      var g := schedule[0];
      var fate := if g < |p.lanes| then Verdict(p.lanes[g], oracle) else Accepted;
      DriveKeepsIds(Advance(p, g, r, fate), schedule[1..], r, oracle);
    }
  }

  // A round cancelled after any part of any schedule acks exactly the messages accepted so
  // far, per group a prefix; every such message that the worker still leases becomes DONE,
  // and none of them has been nacked, released or dead-lettered.
  lemma {:induction false} Cancellation(rows: seq<Row>, groups: seq<seq<Message>>,
                                        schedule: seq<nat>, r: Runner, oracle: Oracle)
    requires Disjoint(LanesOf(groups))
    requires forall g :: 0 <= g < |groups| ==> AscendingIds(groups[g])
    ensures
      var p := Drive(StartOf(rows, groups), schedule, r, oracle);
      && Midway(groups, p, oracle) && |p.rows| == |rows|
      && forall i, g, x ::
           (0 <= i < |rows| && 0 <= g < |groups| && 0 <= x < |groups[g]| &&
            rows[i].id == groups[g][x].id && rows[i].id in p.acked)
           ==> p.rows[i] == rows[i] &&
               (rows[i].leasedBy == Some(r.worker) ==> Finished(p, r)[i] == Delivered(rows[i]))
  {
    var start := StartOf(rows, groups);
    UniqueGroups(groups);
    forall g | 0 <= g < |groups| ensures Reached(groups[g], start.lanes[g], oracle) {}
    DriveMidway(groups, start, schedule, r, oracle);
    var p := Drive(start, schedule, r, oracle);
    DriveKeepsIds(start, schedule, r, oracle);
    DriveKeepsSettled(start, schedule, r, oracle);
    forall i, g, x | 0 <= i < |rows| && 0 <= g < |groups| && 0 <= x < |groups[g]| &&
        rows[i].id == groups[g][x].id && rows[i].id in p.acked
      ensures p.rows[i] == rows[i]
    {
      assert Settled(start, r, oracle).rows[i] == Settled(p, r, oracle).rows[i];
      AcceptedUntouched(rows, groups, p, r, oracle, i, g, x);
    }
  }
}
