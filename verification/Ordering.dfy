// Per-key delivery order over every run of the system: with strict claims, no message
// is published before an earlier message of its key was published or given up.

module Ordering {
  import opened Rows
  import opened Claim
  import opened Round
  import opened RoundStart
  import opened OutboxSystem

  // The message has been accepted at least once, or is dead-lettered.
  predicate Behind(s: Sys, i: nat)
    requires i < |s.rows|
  {
    s.rows[i].id in s.log || s.rows[i].status.Dead?
  }

  predicate EarlierSibling(s: Sys, i: nat, id: Id)
    requires i < |s.rows|
  {
    s.rows[i].id < id <= |s.rows| && s.rows[i].key.Some? && s.rows[i].key == s.rows[id - 1].key
  }

  predicate EarlierInLane(lane: Lane, x: nat, id: Id)
    requires x < |lane.rest|
  {
    exists y :: 0 <= y < x && lane.rest[y].id == id
  }

  // For every message still in a lane, each earlier message of its key is behind it or
  // comes first in the same lane.
  ghost predicate LaneOrdered(s: Sys, lane: Lane) {
    forall x, i ::
      (0 <= x < |lane.rest| && 0 <= i < |s.rows| && EarlierSibling(s, i, lane.rest[x].id))
      ==> Behind(s, i) || EarlierInLane(lane, x, s.rows[i].id)
  }

  ghost predicate LanesOrdered(s: Sys) {
    forall r, g :: r in s.rounds && 0 <= g < |s.rounds[r].lanes| && s.rounds[r].lanes[g].Publishing?
      ==> LaneOrdered(s, s.rounds[r].lanes[g])
  }

  lemma BehindStays(s: Sys, step: Step, i: nat)
    requires Shape(s) && Enabled(s, step) && i < |s.rows| && Behind(s, i)
    ensures i < |Next(s, step).rows| && Behind(Next(s, step), i)
  {
    Absorbing(s, step, i);
    RowStepped(s, step, i);
  }

  // A newly inserted row is later than every message in a lane, and rows keep their keys.
  lemma SiblingWasThere(s: Sys, step: Step, i: nat, id: Id)
    requires TableShape(s) && Enabled(s, step) && id <= |s.rows|
    requires i < |Next(s, step).rows|
    requires EarlierSibling(Next(s, step), i, id)
    ensures i < |s.rows| && EarlierSibling(s, i, id)
  {
    StepKeepsTable(s, step);
    assert Next(s, step).rows[i].id == i + 1;
    Absorbing(s, step, i);
    Absorbing(s, step, id - 1);
  }

  lemma LaneStaysOrdered(s: Sys, step: Step, lane: Lane)
    requires Shape(s) && Enabled(s, step) && LaneShape(s, lane) && LaneOrdered(s, lane)
    ensures LaneOrdered(Next(s, step), lane)
  {
    var s' := Next(s, step);
    forall x, i | 0 <= x < |lane.rest| && 0 <= i < |s'.rows| &&
        EarlierSibling(s', i, lane.rest[x].id)
      ensures Behind(s', i) || EarlierInLane(lane, x, s'.rows[i].id)
    {
      SiblingWasThere(s, step, i, lane.rest[x].id);
      Absorbing(s, step, i);
      if Behind(s, i) {
        BehindStays(s, step, i);
      }
    }
  }

  // Once the head is accepted, the rest of the lane is still in order.
  lemma TailOrdered(s: Sys, lane: Lane)
    requires lane.Publishing? && lane.rest != [] && LaneOrdered(s, lane)
    requires lane.rest[0].id in s.log
    ensures LaneOrdered(s, Publishing(lane.rest[1..]))
  {
    var tail := Publishing(lane.rest[1..]);
    forall x, i | 0 <= x < |tail.rest| && 0 <= i < |s.rows| && EarlierSibling(s, i, tail.rest[x].id)
      ensures Behind(s, i) || EarlierInLane(tail, x, s.rows[i].id)
    {
      assert tail.rest[x] == lane.rest[x + 1];
      if !Behind(s, i) {
        var y :| 0 <= y < x + 1 && lane.rest[y].id == s.rows[i].id;
        assert y > 0 && tail.rest[y - 1].id == s.rows[i].id;
      }
    }
  }

  // An earlier pending message of the key is claimed with the later one and comes before it
  // in their lane.
  lemma SiblingComesFirst(rows: seq<Row>, q: Query, g: nat, x: nat, i: nat)
    requires Ascending(rows) && q.strict && i < |rows| && rows[i].status.Pending?
    requires g < |StartLanes(ClaimBatch(rows, q))|
    requires x < |StartLanes(ClaimBatch(rows, q))[g].rest|
    requires
      var m := StartLanes(ClaimBatch(rows, q))[g].rest[x];
      rows[i].id < m.id && rows[i].key.Some? && rows[i].key == m.key
    ensures EarlierInLane(StartLanes(ClaimBatch(rows, q))[g], x, rows[i].id)
  {
    var batch := ClaimBatch(rows, q);
    var lane := StartLanes(batch)[g];
    var b := GroupMember(batch, g, x);
    var j := BatchSource(rows, q, b);
    PrefixOfKey(rows, q, i, j);
    var c := BatchComplete(rows, q, i);
    var y := GroupComplete(batch, g, x, c);
    BatchIds(rows, q);
    GroupAscending(batch, g);
    assert lane.rest[y].id == rows[i].id && y < x;
  }

  // The key of a claimed message is the key of its row.
  lemma LaneKey(rows: seq<Row>, q: Query, g: nat, x: nat)
    requires forall i :: 0 <= i < |rows| ==> rows[i].id == i + 1
    requires g < |StartLanes(ClaimBatch(rows, q))|
    requires x < |StartLanes(ClaimBatch(rows, q))[g].rest|
    ensures
      var m := StartLanes(ClaimBatch(rows, q))[g].rest[x];
      1 <= m.id <= |rows| && m.key == rows[m.id - 1].key
  {
    var b := GroupMember(ClaimBatch(rows, q), g, x);
    var j := BatchSource(rows, q, b);
  }

  // A strict claim opens lanes in order: the rows of a key that it takes are a prefix of
  // the pending ones, and those before them are DONE or DEAD.
  lemma BeginOrdered(s: Sys, q: Query, s': Sys, g: nat)
    requires TableShape(s) && q.strict && |s'.rows| == |s.rows| && s'.log == s.log
    requires forall i :: 0 <= i < |s.rows| ==>
      && s'.rows[i].id == s.rows[i].id && s'.rows[i].key == s.rows[i].key
      && (!s.rows[i].status.Pending? ==> s'.rows[i] == s.rows[i])
    requires forall i :: 0 <= i < |s.rows| && s.rows[i].status.Done? ==> s.rows[i].id in s.log
    requires g < |StartLanes(ClaimBatch(s.rows, q))|
    ensures LaneOrdered(s', StartLanes(ClaimBatch(s.rows, q))[g])
  {
    var lane := StartLanes(ClaimBatch(s.rows, q))[g];
    forall x, i | 0 <= x < |lane.rest| && 0 <= i < |s'.rows| &&
        EarlierSibling(s', i, lane.rest[x].id)
      ensures Behind(s', i) || EarlierInLane(lane, x, s'.rows[i].id)
    {
      if s.rows[i].status.Pending? {
        LaneKey(s.rows, q, g, x);
        SiblingComesFirst(s.rows, q, g, x, i);
      }
    }
  }

  lemma StepKeepsOrder(s: Sys, step: Step)
    requires Shape(s) && LanesOrdered(s) && Enabled(s, step)
    requires step.Begin? ==> step.q.strict
    ensures LanesOrdered(Next(s, step))
  {
    var s' := Next(s, step);
    forall r, g | r in s'.rounds && 0 <= g < |s'.rounds[r].lanes| &&
        s'.rounds[r].lanes[g].Publishing?
      ensures LaneOrdered(s', s'.rounds[r].lanes[g])
    {
      if step.Begin? && r == step.round {
        forall i | 0 <= i < |s.rows|
          ensures s'.rows[i].id == s.rows[i].id && s'.rows[i].key == s.rows[i].key &&
                  (!s.rows[i].status.Pending? ==> s'.rows[i] == s.rows[i])
        {
          Absorbing(s, step, i);
        }
        BeginOrdered(s, step.q, s', g);
      } else {
        var lane := s.rounds[r].lanes[g];
        if step.Move? && r == step.round && g == step.g {
          if lane.Publishing? && step.fate.Accepted? {
            LaneStaysOrdered(s, step, lane);
            TailOrdered(s', lane);
          }
        } else {
          LaneStaysOrdered(s, step, lane);
        }
      }
    }
  }

  lemma {:induction false} RunKeepsOrder(s: Sys, steps: seq<Step>)
    requires Shape(s) && LanesOrdered(s) && Run(s, steps) && Strict(steps)
    ensures LanesOrdered(Exec(s, steps))
    decreases |steps|
  {
    if steps != [] {
      StepKeepsShape(s, steps[0]);
      StepKeepsOrder(s, steps[0]);
      RunKeepsOrder(Next(s, steps[0]), steps[1..]);
    }
  }

  // The publisher accepts message `id` in this step.
  predicate Publishes(s: Sys, step: Step, id: Id) {
    && step.Move? && Enabled(s, step)
    && NewlyAccepted(s.rounds[step.round].lanes[step.g], step.fate) == [id]
  }

  // The ordering guarantee. In every run with strict claims, whatever the number of
  // workers, crashes, expiries, stale writes and lost write-backs: when a message is
  // accepted, each earlier message of its key has been accepted before or is DEAD.
  lemma FirstDeliveryOrder(steps: seq<Step>, step: Step, id: Id, i: nat)
    requires Run(EMPTY, steps) && Strict(steps)
    requires Publishes(Exec(EMPTY, steps), step, id)
    requires
      var s := Exec(EMPTY, steps);
      i < |s.rows| && EarlierSibling(s, i, id)
    ensures
      var s := Exec(EMPTY, steps);
      s.rows[i].id in s.log || s.rows[i].status.Dead?
  {
    var s := Exec(EMPTY, steps);
    RunKeepsShape(EMPTY, steps);
    RunKeepsOrder(EMPTY, steps);
    var lane := s.rounds[step.round].lanes[step.g];
    assert LaneOrdered(s, lane) && lane.rest[0].id == id;
  }

  // ------------------------------------------------------- the log as a whole

  ghost predicate LogOrdered(s: Sys) {
    forall p, i :: 0 <= p < |s.log| && 0 <= i < |s.rows| && EarlierSibling(s, i, s.log[p]) ==>
      s.rows[i].id in s.log[..p] || s.rows[i].status.Dead?
  }

  lemma LogGrows(s: Sys, step: Step)
    requires Enabled(s, step) && |s.tallies| == |s.rows|
    ensures
      var s' := Next(s, step);
      s.log <= s'.log &&
      (s'.log != s.log ==> exists id :: Publishes(s, step, id) && s'.log == s.log + [id])
  {
    if step.Move? {
      var accepted := NewlyAccepted(s.rounds[step.round].lanes[step.g], step.fate);
      if accepted != [] {
        assert Publishes(s, step, accepted[0]);
      }
    }
  }

  lemma StepKeepsLogOrder(s: Sys, step: Step)
    requires Shape(s) && LanesOrdered(s) && LogOrdered(s) && Enabled(s, step)
    ensures LogOrdered(Next(s, step))
  {
    var s' := Next(s, step);
    LogGrows(s, step);
    forall p, i | 0 <= p < |s'.log| && 0 <= i < |s'.rows| && EarlierSibling(s', i, s'.log[p])
      ensures s'.rows[i].id in s'.log[..p] || s'.rows[i].status.Dead?
    {
      if p < |s.log| {
        assert s'.log[p] == s.log[p] && s'.log[..p] == s.log[..p];
        SiblingWasThere(s, step, i, s.log[p]);
        Absorbing(s, step, i);
      } else {
        var lane := s.rounds[step.round].lanes[step.g];
        assert s'.log[..p] == s.log && s'.log[p] == lane.rest[0].id;
        assert LaneShape(s, lane);
        SiblingWasThere(s, step, i, lane.rest[0].id);
        assert LaneOrdered(s, lane) && Behind(s, i);
        Absorbing(s, step, i);
      }
    }
  }

  lemma {:induction false} RunKeepsLogOrder(s: Sys, steps: seq<Step>)
    requires Shape(s) && LanesOrdered(s) && LogOrdered(s)
    requires Run(s, steps) && Strict(steps)
    ensures Shape(Exec(s, steps)) && LogOrdered(Exec(s, steps))
    decreases |steps|
  {
    if steps != [] {
      StepKeepsShape(s, steps[0]);
      StepKeepsOrder(s, steps[0]);
      StepKeepsLogOrder(s, steps[0]);
      RunKeepsLogOrder(Next(s, steps[0]), steps[1..]);
    }
  }

  // The first publications of the messages of a key that are not dead-lettered come in
  // insertion order, without gaps.
  lemma FirstPublicationsInOrder(steps: seq<Step>, i: nat, j: nat, p: nat)
    requires Run(EMPTY, steps) && Strict(steps)
    requires
      var s := Exec(EMPTY, steps);
      && i < j < |s.rows| && s.rows[i].key.Some? && s.rows[i].key == s.rows[j].key
      && !s.rows[i].status.Dead?
      && p < |s.log| && s.log[p] == s.rows[j].id
    ensures
      var s := Exec(EMPTY, steps);
      exists o :: 0 <= o < p && s.log[o] == s.rows[i].id
  {
    RunKeepsLogOrder(EMPTY, steps);
    var s := Exec(EMPTY, steps);
    assert EarlierSibling(s, i, s.log[p]);
    assert s.rows[i].id in s.log[..p];
  }
}
