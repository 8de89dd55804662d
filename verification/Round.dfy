// One relay round: every ordering group is a lane that publishes its messages one
// after another until one fails, reports the failure, and hands back the rest. Lanes
// run concurrently; a schedule says which lane takes the next atomic step.

module Round {
  import opened Wrappers
  import opened Rows

  // What the outside world does to one message: the publisher accepts it, or fails at
  // time `now`; then `delay` is the back-off, and the flags tell whether the report and
  // the release of the followers reach the table.
  datatype Fate =
    | Accepted
    | Failed(error: string, now: Time, delay: Time, reported: bool, released: bool)

  type Oracle = Id -> Fate

  // Publishing: `rest` is still to be published. Holding: the head failed, `rest` must
  // be handed back with its retry time.
  datatype Lane =
    | Publishing(rest: seq<Message>)
    | Holding(rest: seq<Message>, retryAt: Time, released: bool)
  {
    predicate Closed() {
      Publishing? && rest == []
    }

    function Measure(): nat {
      if Publishing? then 2 * |rest| else 2 * |rest| + 1
    }
  }

  // The worker that runs the round and its `max_attempts`.
  datatype Runner = Runner(worker: Worker, maxAttempts: int)

  datatype Counts = Counts(published: nat, retried: nat, deadLettered: nat, blocked: nat) {
    function Plus(c: Counts): Counts {
      Counts(published + c.published, retried + c.retried, deadLettered + c.deadLettered,
             blocked + c.blocked)
    }

    function Total(): nat {
      published + retried + deadLettered + blocked
    }
  }

  const NO_COUNTS := Counts(0, 0, 0, 0)

  // ------------------------------------------------------- one step of a lane

  predicate Exhausted(m: Message, r: Runner) {
    m.attempts >= r.maxAttempts
  }

  // When a failed message, and with it the rest of its group, becomes eligible again.
  function RetryTime(m: Message, r: Runner, fate: Fate): Time
    requires fate.Failed?
  {
    if Exhausted(m, r) then fate.now else fate.now + fate.delay
  }

  function Report(m: Message, r: Runner, fate: Fate): WriteBack
    requires fate.Failed?
  {
    if !fate.reported then Nothing
    else if Exhausted(m, r) then DeadLetter(m.id, fate.error)
    else Nack(m.id, fate.error, RetryTime(m, r, fate))
  }

  function Effect(lane: Lane, r: Runner, fate: Fate): WriteBack {
    match lane
    case Publishing(rest) =>
      if rest == [] || fate.Accepted? then Nothing else Report(rest[0], r, fate)
    case Holding(rest, retryAt, released) =>
      if released then Release(IdsOf(rest), retryAt) else Nothing
  }

  function LaneNext(lane: Lane, r: Runner, fate: Fate): (l: Lane)
    ensures !lane.Closed() ==> l.Measure() < lane.Measure()
  {
    match lane
    case Publishing(rest) =>
      if rest == [] then lane
      else if fate.Accepted? then Publishing(rest[1..])
      else Holding(rest[1..], RetryTime(rest[0], r, fate), fate.released)
    case Holding(_, _, _) => Publishing([])
  }

  function Gain(lane: Lane, r: Runner, fate: Fate): Counts {
    match lane
    case Publishing(rest) =>
      if rest == [] then NO_COUNTS
      else if fate.Accepted? then Counts(1, 0, 0, 0)
      else if Exhausted(rest[0], r) then Counts(0, 0, 1, 0)
      else Counts(0, 1, 0, 0)
    case Holding(rest, _, _) => Counts(0, 0, 0, |rest|)
  }

  function NewlyAccepted(lane: Lane, fate: Fate): seq<Id> {
    if lane.Publishing? && lane.rest != [] && fate.Accepted? then [lane.rest[0].id] else []
  }

  // ------------------------------------------------------------ interleavings

  datatype Progress = Progress(rows: seq<Row>, lanes: seq<Lane>, acked: seq<Id>, counts: Counts)

  // Lane `g` takes its next step. Nothing happens when it has none.
  function Advance(p: Progress, g: nat, r: Runner, fate: Fate): (p': Progress)
    ensures |p'.rows| == |p.rows| && |p'.lanes| == |p.lanes|
  {
    if g >= |p.lanes| || p.lanes[g].Closed() then p
    else
      var lane := p.lanes[g];
      Progress(
        WriteRows(p.rows, Effect(lane, r, fate), r.worker),
        p.lanes[g := LaneNext(lane, r, fate)],
        p.acked + NewlyAccepted(lane, fate),
        p.counts.Plus(Gain(lane, r, fate)))
  }

  // The oracle's verdict on the head of the lane.
  function Verdict(lane: Lane, oracle: Oracle): Fate {
    if lane.Publishing? && lane.rest != [] then oracle(lane.rest[0].id) else Accepted
  }

  function Drive(p: Progress, schedule: seq<nat>, r: Runner, oracle: Oracle): Progress
    decreases |schedule|
  {
    if schedule == [] then p
    else
      var g := schedule[0];
      var fate := if g < |p.lanes| then Verdict(p.lanes[g], oracle) else Accepted;
      Drive(Advance(p, g, r, fate), schedule[1..], r, oracle)
  }

  predicate AllClosed(lanes: seq<Lane>) {
    forall g :: 0 <= g < |lanes| ==> lanes[g].Closed()
  }

  // The end of the round: what was accepted is acked in one write-back.
  function Finished(p: Progress, r: Runner): seq<Row> {
    WriteRows(p.rows, Ack(p.acked), r.worker)
  }

  // --------------------------------------- running one lane to its end, alone

  function LaneRow(row: Row, lane: Lane, r: Runner, oracle: Oracle): (row': Row)
    ensures row'.id == row.id
    decreases lane.Measure()
  {
    if lane.Closed() then row
    else
      var fate := Verdict(lane, oracle);
      LaneRow(WriteRow(row, Effect(lane, r, fate), r.worker), LaneNext(lane, r, fate), r, oracle)
  }

  function LaneAcked(lane: Lane, r: Runner, oracle: Oracle): seq<Id>
    decreases lane.Measure()
  {
    if lane.Closed() then []
    else
      var fate := Verdict(lane, oracle);
      NewlyAccepted(lane, fate) + LaneAcked(LaneNext(lane, r, fate), r, oracle)
  }

  function LaneCounts(lane: Lane, r: Runner, oracle: Oracle): Counts
    decreases lane.Measure()
  {
    if lane.Closed() then NO_COUNTS
    else
      var fate := Verdict(lane, oracle);
      Gain(lane, r, fate).Plus(LaneCounts(LaneNext(lane, r, fate), r, oracle))
  }

  // All lanes, one after another.
  function RowEnd(row: Row, lanes: seq<Lane>, r: Runner, oracle: Oracle): (row': Row)
    ensures row'.id == row.id
    decreases |lanes|
  {
    if lanes == [] then row
    else RowEnd(LaneRow(row, lanes[0], r, oracle), lanes[1..], r, oracle)
  }

  function AckedEnd(lanes: seq<Lane>, r: Runner, oracle: Oracle): seq<Id> {
    if lanes == [] then []
    else LaneAcked(lanes[0], r, oracle) + AckedEnd(lanes[1..], r, oracle)
  }

  function CountsEnd(lanes: seq<Lane>, r: Runner, oracle: Oracle): Counts {
    if lanes == [] then NO_COUNTS
    else LaneCounts(lanes[0], r, oracle).Plus(CountsEnd(lanes[1..], r, oracle))
  }

  // Where the round will end if the remaining lanes run one after another.
  function Settled(p: Progress, r: Runner, oracle: Oracle): (e: Progress)
    ensures |e.rows| == |p.rows|
    ensures forall i :: 0 <= i < |p.rows| ==> e.rows[i] == RowEnd(p.rows[i], p.lanes, r, oracle)
  {
    Progress(
      seq(|p.rows|, i requires 0 <= i < |p.rows| => RowEnd(p.rows[i], p.lanes, r, oracle)),
      [],
      p.acked + AckedEnd(p.lanes, r, oracle),
      p.counts.Plus(CountsEnd(p.lanes, r, oracle)))
  }

  // --------------------------------------------------- schedule independence

  predicate InLane(id: Id, lane: Lane) {
    exists x :: 0 <= x < |lane.rest| && lane.rest[x].id == id
  }

  ghost predicate Disjoint(lanes: seq<Lane>) {
    forall id: Id, g, h ::
      (0 <= g < |lanes| && 0 <= h < |lanes| && InLane(id, lanes[g]) && InLane(id, lanes[h]))
      ==> g == h
  }

  lemma NextInLane(id: Id, lane: Lane, r: Runner, fate: Fate)
    ensures InLane(id, LaneNext(lane, r, fate)) ==> InLane(id, lane)
  {
    var next := LaneNext(lane, r, fate);
    if InLane(id, next) {
      var x :| 0 <= x < |next.rest| && next.rest[x].id == id;
      assert lane.rest[x + 1].id == id;
    }
  }

  lemma EffectInLane(row: Row, lane: Lane, r: Runner, fate: Fate)
    requires !InLane(row.id, lane)
    ensures WriteRow(row, Effect(lane, r, fate), r.worker) == row
  {
    if lane.Publishing? && lane.rest != [] {
      assert lane.rest[0].id != row.id;
    }
    assert row.id !in IdsOf(lane.rest);
  }

  lemma {:induction false} Untouched(row: Row, lane: Lane, r: Runner, oracle: Oracle)
    requires !InLane(row.id, lane)
    ensures LaneRow(row, lane, r, oracle) == row
    decreases lane.Measure()
  {
    if !lane.Closed() {
      var fate := Verdict(lane, oracle);
      EffectInLane(row, lane, r, fate);
      NextInLane(row.id, lane, r, fate);
      Untouched(row, LaneNext(lane, r, fate), r, oracle);
    }
  }

  // A step of lane `g` does not change where a row will end.
  lemma {:induction false} RowEndConserved(row: Row, lanes: seq<Lane>, g: nat, r: Runner, oracle: Oracle)
    requires Disjoint(lanes) && g < |lanes| && !lanes[g].Closed()
    ensures
      var fate := Verdict(lanes[g], oracle);
      RowEnd(WriteRow(row, Effect(lanes[g], r, fate), r.worker),
             lanes[g := LaneNext(lanes[g], r, fate)], r, oracle)
      == RowEnd(row, lanes, r, oracle)
    decreases |lanes|
  {
    var fate := Verdict(lanes[g], oracle);
    var row' := WriteRow(row, Effect(lanes[g], r, fate), r.worker);
    var lanes' := lanes[g := LaneNext(lanes[g], r, fate)];
    if g > 0 {
      assert lanes'[1..] == lanes[1..][g - 1 := LaneNext(lanes[g], r, fate)];
      TailDisjoint(lanes);
      if InLane(row.id, lanes[g]) {
        Untouched(row, lanes[0], r, oracle);
        Untouched(row', lanes[0], r, oracle);
      } else {
        EffectInLane(row, lanes[g], r, fate);
        EffectInLane(LaneRow(row, lanes[0], r, oracle), lanes[g], r, fate);
      }
      RowEndConserved(LaneRow(row, lanes[0], r, oracle), lanes[1..], g - 1, r, oracle);
    } else {
      assert lanes'[1..] == lanes[1..];
    }
  }

  lemma TailDisjoint(lanes: seq<Lane>)
    requires Disjoint(lanes) && lanes != []
    ensures Disjoint(lanes[1..])
  {
    forall id: Id, g, h | 0 <= g < |lanes| - 1 && 0 <= h < |lanes| - 1 &&
        InLane(id, lanes[1..][g]) && InLane(id, lanes[1..][h])
      ensures g == h
    {
      assert lanes[1..][g] == lanes[g + 1] && lanes[1..][h] == lanes[h + 1];
    }
  }

  lemma StepKeepsDisjoint(lanes: seq<Lane>, g: nat, r: Runner, fate: Fate)
    requires Disjoint(lanes) && g < |lanes|
    ensures Disjoint(lanes[g := LaneNext(lanes[g], r, fate)])
  {
    var lanes' := lanes[g := LaneNext(lanes[g], r, fate)];
    forall id: Id, h | 0 <= h < |lanes| && InLane(id, lanes'[h]) ensures InLane(id, lanes[h]) {
      NextInLane(id, lanes[g], r, fate);
    }
  }

  // How often the lane, or all of them, will yet ack `id`.
  function LaneAcks(lane: Lane, r: Runner, oracle: Oracle, id: Id): nat {
    multiset(LaneAcked(lane, r, oracle))[id]
  }

  function AcksOf(lanes: seq<Lane>, r: Runner, oracle: Oracle, id: Id): nat {
    if lanes == [] then 0
    else LaneAcks(lanes[0], r, oracle, id) + AcksOf(lanes[1..], r, oracle, id)
  }

  lemma {:induction false} AcksAreCounted(lanes: seq<Lane>, r: Runner, oracle: Oracle, id: Id)
    ensures multiset(AckedEnd(lanes, r, oracle))[id] == AcksOf(lanes, r, oracle, id)
  {
    if lanes != [] {
      AcksAreCounted(lanes[1..], r, oracle, id);
    }
  }

  // A step of a lane takes the accepted message out of what is still to be accepted.
  lemma LaneAckedStep(lane: Lane, r: Runner, oracle: Oracle, id: Id)
    requires !lane.Closed()
    ensures
      var fate := Verdict(lane, oracle);
      LaneAcks(lane, r, oracle, id) ==
      multiset(NewlyAccepted(lane, fate))[id] + LaneAcks(LaneNext(lane, r, fate), r, oracle, id)
  {
  }

  lemma TailOfUpdate(lanes: seq<Lane>, g: nat, lane: Lane)
    requires g < |lanes|
    ensures lanes[g := lane][1..] == if g > 0 then lanes[1..][g - 1 := lane] else lanes[1..]
    ensures lanes[g := lane][0] == if g > 0 then lanes[0] else lane
  {
  }

  lemma {:induction false} AckedUpdate(lanes: seq<Lane>, g: nat, lane: Lane, r: Runner,
                                       oracle: Oracle, id: Id)
    requires g < |lanes|
    ensures AcksOf(lanes[g := lane], r, oracle, id) + LaneAcks(lanes[g], r, oracle, id)
            == AcksOf(lanes, r, oracle, id) + LaneAcks(lane, r, oracle, id)
    decreases |lanes|
  {
    var updated := lanes[g := lane];
    TailOfUpdate(lanes, g, lane);
    assert AcksOf(updated, r, oracle, id) ==
           LaneAcks(updated[0], r, oracle, id) + AcksOf(updated[1..], r, oracle, id);
    if g > 0 {
      AckedUpdate(lanes[1..], g - 1, lane, r, oracle, id);
    }
  }

  lemma AckedConserved(lanes: seq<Lane>, g: nat, r: Runner, oracle: Oracle)
    requires g < |lanes| && !lanes[g].Closed()
    ensures
      var fate := Verdict(lanes[g], oracle);
      multiset(AckedEnd(lanes, r, oracle)) ==
      multiset(NewlyAccepted(lanes[g], fate)) +
      multiset(AckedEnd(lanes[g := LaneNext(lanes[g], r, fate)], r, oracle))
  {
    var fate := Verdict(lanes[g], oracle);
    var next := LaneNext(lanes[g], r, fate);
    forall id: Id
      ensures multiset(AckedEnd(lanes, r, oracle))[id] ==
              multiset(NewlyAccepted(lanes[g], fate))[id] +
              multiset(AckedEnd(lanes[g := next], r, oracle))[id]
    {
      AcksAreCounted(lanes, r, oracle, id);
      AcksAreCounted(lanes[g := next], r, oracle, id);
      AckedUpdate(lanes, g, next, r, oracle, id);
      LaneAckedStep(lanes[g], r, oracle, id);
    }
  }

  lemma PlusAssociates(a: Counts, b: Counts, c: Counts)
    ensures a.Plus(b).Plus(c) == a.Plus(b.Plus(c))
    ensures a.Plus(b.Plus(c)) == b.Plus(a.Plus(c))
  {
  }

  lemma {:induction false} CountsConserved(lanes: seq<Lane>, g: nat, r: Runner, oracle: Oracle)
    requires g < |lanes| && !lanes[g].Closed()
    ensures
      var fate := Verdict(lanes[g], oracle);
      CountsEnd(lanes, r, oracle) ==
      Gain(lanes[g], r, fate).Plus(CountsEnd(lanes[g := LaneNext(lanes[g], r, fate)], r, oracle))
    decreases |lanes|
  {
    var fate := Verdict(lanes[g], oracle);
    var next, gain := LaneNext(lanes[g], r, fate), Gain(lanes[g], r, fate);
    var lanes' := lanes[g := next];
    var rest, rest' := lanes[1..], lanes'[1..];
    assert CountsEnd(lanes, r, oracle) ==
           LaneCounts(lanes[0], r, oracle).Plus(CountsEnd(rest, r, oracle));
    assert CountsEnd(lanes', r, oracle) ==
           LaneCounts(lanes'[0], r, oracle).Plus(CountsEnd(rest', r, oracle));
    if g > 0 {
      assert rest' == rest[g - 1 := next];
      CountsConserved(rest, g - 1, r, oracle);
      PlusAssociates(LaneCounts(lanes[0], r, oracle), gain, CountsEnd(rest', r, oracle));
    } else {
      assert rest' == rest;
      assert LaneCounts(lanes[0], r, oracle) == gain.Plus(LaneCounts(next, r, oracle));
      PlusAssociates(gain, LaneCounts(next, r, oracle), CountsEnd(rest, r, oracle));
    }
  }

  // Same table, same counters, same acked messages, whatever the order of acking.
  predicate SameOutcome(a: Progress, b: Progress) {
    a.rows == b.rows && a.counts == b.counts && multiset(a.acked) == multiset(b.acked)
  }

  lemma StepKeepsSettled(p: Progress, g: nat, r: Runner, oracle: Oracle)
    requires Disjoint(p.lanes) && g < |p.lanes|
    ensures SameOutcome(Settled(p, r, oracle),
                        Settled(Advance(p, g, r, Verdict(p.lanes[g], oracle)), r, oracle))
  {
    if !p.lanes[g].Closed() {
      RowsConserved(p, g, r, oracle);
      AckedSettled(p, g, r, oracle);
      CountsSettled(p, g, r, oracle);
    }
  }

  lemma AckedSettled(p: Progress, g: nat, r: Runner, oracle: Oracle)
    requires g < |p.lanes| && !p.lanes[g].Closed()
    ensures
      var p' := Advance(p, g, r, Verdict(p.lanes[g], oracle));
      multiset(p.acked + AckedEnd(p.lanes, r, oracle)) ==
      multiset(p'.acked + AckedEnd(p'.lanes, r, oracle))
  {
    AckedConserved(p.lanes, g, r, oracle);
  }

  lemma CountsSettled(p: Progress, g: nat, r: Runner, oracle: Oracle)
    requires g < |p.lanes| && !p.lanes[g].Closed()
    ensures
      var p' := Advance(p, g, r, Verdict(p.lanes[g], oracle));
      p.counts.Plus(CountsEnd(p.lanes, r, oracle)) ==
      p'.counts.Plus(CountsEnd(p'.lanes, r, oracle))
  {
    var fate := Verdict(p.lanes[g], oracle);
    CountsConserved(p.lanes, g, r, oracle);
    PlusAssociates(p.counts, Gain(p.lanes[g], r, fate),
                   CountsEnd(p.lanes[g := LaneNext(p.lanes[g], r, fate)], r, oracle));
  }

  lemma RowsConserved(p: Progress, g: nat, r: Runner, oracle: Oracle)
    requires Disjoint(p.lanes) && g < |p.lanes| && !p.lanes[g].Closed()
    ensures
      var p' := Advance(p, g, r, Verdict(p.lanes[g], oracle));
      Settled(p, r, oracle).rows == Settled(p', r, oracle).rows
  {
    var p' := Advance(p, g, r, Verdict(p.lanes[g], oracle));
    forall i | 0 <= i < |p.rows|
      ensures RowEnd(p.rows[i], p.lanes, r, oracle) == RowEnd(p'.rows[i], p'.lanes, r, oracle)
    {
      RowEndConserved(p.rows[i], p.lanes, g, r, oracle);
    }
  }

  lemma {:induction false} DriveKeepsSettled(p: Progress, schedule: seq<nat>, r: Runner, oracle: Oracle)
    requires Disjoint(p.lanes)
    ensures SameOutcome(Settled(p, r, oracle), Settled(Drive(p, schedule, r, oracle), r, oracle))
    decreases |schedule|
  {
    if schedule != [] {
      var g := schedule[0];
      if g < |p.lanes| {
        StepKeepsSettled(p, g, r, oracle);
        StepKeepsDisjoint(p.lanes, g, r, Verdict(p.lanes[g], oracle));
        DriveKeepsSettled(Advance(p, g, r, Verdict(p.lanes[g], oracle)), schedule[1..], r, oracle);
      } else {
        DriveKeepsSettled(p, schedule[1..], r, oracle);
      }
    }
  }

  lemma {:induction false} ClosedIsEnd(lanes: seq<Lane>, row: Row, r: Runner, oracle: Oracle)
    requires AllClosed(lanes)
    ensures RowEnd(row, lanes, r, oracle) == row
  {
    if lanes != [] {
      assert lanes[0].Closed();
      ClosedIsEnd(lanes[1..], row, r, oracle);
    }
  }

  lemma {:induction false} ClosedAcks(lanes: seq<Lane>, r: Runner, oracle: Oracle)
    requires AllClosed(lanes)
    ensures AckedEnd(lanes, r, oracle) == []
  {
    if lanes != [] {
      assert lanes[0].Closed();
      ClosedAcks(lanes[1..], r, oracle);
    }
  }

  lemma {:induction false} ClosedCounts(lanes: seq<Lane>, r: Runner, oracle: Oracle)
    requires AllClosed(lanes)
    ensures CountsEnd(lanes, r, oracle) == NO_COUNTS
  {
    if lanes != [] {
      assert lanes[0].Closed();
      ClosedCounts(lanes[1..], r, oracle);
    }
  }

  lemma NothingMore(acked: seq<Id>, more: seq<Id>, counts: Counts, gain: Counts)
    requires more == [] && gain == NO_COUNTS
    ensures acked + more == acked && counts.Plus(gain) == counts
  {
  }

  lemma ClosedRows(p: Progress, r: Runner, oracle: Oracle)
    requires AllClosed(p.lanes)
    ensures Settled(p, r, oracle).rows == p.rows
  {
    forall i | 0 <= i < |p.rows| ensures Settled(p, r, oracle).rows[i] == p.rows[i] {
      ClosedIsEnd(p.lanes, p.rows[i], r, oracle);
    }
  }

  lemma ClosedTotals(p: Progress, r: Runner, oracle: Oracle)
    requires AllClosed(p.lanes)
    ensures Settled(p, r, oracle).acked == p.acked && Settled(p, r, oracle).counts == p.counts
  {
    ClosedAcks(p.lanes, r, oracle);
    ClosedCounts(p.lanes, r, oracle);
    NothingMore(p.acked, AckedEnd(p.lanes, r, oracle), p.counts, CountsEnd(p.lanes, r, oracle));
  }

  lemma ClosedIsSettled(p: Progress, r: Runner, oracle: Oracle)
    requires AllClosed(p.lanes)
    ensures SameOutcome(Settled(p, r, oracle), p)
  {
    ClosedRows(p, r, oracle);
    ClosedTotals(p, r, oracle);
  }

  // Any schedule that finishes all lanes ends where running them one after another ends.
  lemma {:induction false} AnyScheduleSettles(p: Progress, schedule: seq<nat>, r: Runner,
                                              oracle: Oracle)
    requires Disjoint(p.lanes) && AllClosed(Drive(p, schedule, r, oracle).lanes)
    ensures SameOutcome(Drive(p, schedule, r, oracle), Settled(p, r, oracle))
    ensures Finished(Drive(p, schedule, r, oracle), r) == Finished(Settled(p, r, oracle), r)
  {
    DriveKeepsSettled(p, schedule, r, oracle);
    ClosedIsSettled(Drive(p, schedule, r, oracle), r, oracle);
    SameAckedSameRows(Drive(p, schedule, r, oracle), Settled(p, r, oracle), r);
  }

  lemma SameAckedSameRows(a: Progress, b: Progress, r: Runner)
    requires SameOutcome(a, b)
    ensures Finished(a, r) == Finished(b, r)
  {
    forall id: Id ensures id in a.acked <==> id in b.acked {
      assert id in a.acked <==> id in multiset(a.acked);
      assert id in b.acked <==> id in multiset(b.acked);
    }
  }

  // For fixed fates, every interleaving of the groups of one round gives the same table,
  // the same counters and the same acked messages.
  lemma ScheduleIndependence(p: Progress, s: seq<nat>, t: seq<nat>, r: Runner, oracle: Oracle)
    requires Disjoint(p.lanes)
    requires AllClosed(Drive(p, s, r, oracle).lanes) && AllClosed(Drive(p, t, r, oracle).lanes)
    ensures SameOutcome(Drive(p, s, r, oracle), Drive(p, t, r, oracle))
    ensures Finished(Drive(p, s, r, oracle), r) == Finished(Drive(p, t, r, oracle), r)
  {
    AnyScheduleSettles(p, s, r, oracle);
    AnyScheduleSettles(p, t, r, oracle);
  }

  // ---------------------------------------------------------------- accounting

  function Remaining(lanes: seq<Lane>): nat {
    if lanes == [] then 0 else |lanes[0].rest| + Remaining(lanes[1..])
  }

  lemma {:induction false} RemainingUpdate(lanes: seq<Lane>, g: nat, lane: Lane)
    requires g < |lanes|
    ensures Remaining(lanes[g := lane]) + |lanes[g].rest| == Remaining(lanes) + |lane.rest|
    decreases |lanes|
  {
    var lanes' := lanes[g := lane];
    if g > 0 {
      assert lanes'[1..] == lanes[1..][g - 1 := lane];
      RemainingUpdate(lanes[1..], g - 1, lane);
    } else {
      assert lanes'[1..] == lanes[1..];
    }
  }

  // What a step counts is what it takes out of the lane.
  lemma GainLeaves(lane: Lane, r: Runner, fate: Fate)
    ensures |lane.rest| == |LaneNext(lane, r, fate).rest| + Gain(lane, r, fate).Total()
  {
  }

  lemma RemainingStep(lanes: seq<Lane>, g: nat, r: Runner, fate: Fate)
    requires g < |lanes|
    ensures Remaining(lanes) ==
            Remaining(lanes[g := LaneNext(lanes[g], r, fate)]) + Gain(lanes[g], r, fate).Total()
  {
    GainLeaves(lanes[g], r, fate);
    RemainingUpdate(lanes, g, LaneNext(lanes[g], r, fate));
  }

  // Messages counted and messages still to be settled.
  function Total(p: Progress): nat {
    p.counts.Total() + Remaining(p.lanes)
  }

  lemma AdvanceAddsUp(p: Progress, g: nat, r: Runner, fate: Fate)
    ensures Total(Advance(p, g, r, fate)) == Total(p)
  {
    if g < |p.lanes| && !p.lanes[g].Closed() {
      RemainingStep(p.lanes, g, r, fate);
    }
  }

  // At every moment each claimed message is counted once or still to be settled, whether
  // or not the write-backs take effect.
  lemma {:induction false} CountsAddUp(p: Progress, schedule: seq<nat>, r: Runner, oracle: Oracle)
    ensures
      var e := Drive(p, schedule, r, oracle);
      e.counts.Total() + Remaining(e.lanes) == p.counts.Total() + Remaining(p.lanes)
    decreases |schedule|
  {
    if schedule != [] {
      var g := schedule[0];
      var fate := if g < |p.lanes| then Verdict(p.lanes[g], oracle) else Accepted;
      AdvanceAddsUp(p, g, r, fate);
      CountsAddUp(Advance(p, g, r, fate), schedule[1..], r, oracle);
    }
  }

  lemma {:induction false} ClosedRemaining(lanes: seq<Lane>)
    requires AllClosed(lanes)
    ensures Remaining(lanes) == 0
  {
    if lanes != [] {
      assert lanes[0].Closed();
      ClosedRemaining(lanes[1..]);
    }
  }

  // An uncancelled round: claimed = published + retried + dead-lettered + blocked.
  lemma RoundAccounting(p: Progress, schedule: seq<nat>, r: Runner, oracle: Oracle)
    requires p.counts == NO_COUNTS && AllClosed(Drive(p, schedule, r, oracle).lanes)
    ensures
      var c := Drive(p, schedule, r, oracle).counts;
      Remaining(p.lanes) == c.published + c.retried + c.deadLettered + c.blocked
  {
    CountsAddUp(p, schedule, r, oracle);
    ClosedRemaining(Drive(p, schedule, r, oracle).lanes);
  }
}
