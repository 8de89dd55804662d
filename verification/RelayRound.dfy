// The relay's round as the code runs it: objects mutated in place, a shared list of
// acked ids, counters. It is tied to the lanes of module Round. What the publisher, the
// clock and the connection do is given by an oracle and two flags.

module RelayRound {
  import opened Wrappers
  import opened Rows
  import opened Grouping
  import opened Round
  import opened RoundStart
  import opened RoundOutcome
  import opened MemoryStore

  class RoundResult {
    const claimed: nat
    var published: nat
    var retried: nat
    var deadLettered: nat
    var blocked: nat

    constructor (claimed: nat)
      ensures this.claimed == claimed && Tally() == NO_COUNTS
    {
      this.claimed := claimed;
      published, retried, deadLettered, blocked := 0, 0, 0, 0;
    }

    function Tally(): Counts
      reads this
    {
      Counts(published, retried, deadLettered, blocked)
    }
  }

  class IdList {
    var items: seq<Id>

    constructor ()
      ensures items == []
    {
      items := [];
    }
  }

  // Table, acked ids and counters.
  datatype Standing = Standing(rows: seq<Row>, acked: seq<Id>, counts: Counts)

  function LaneRows(rows: seq<Row>, lane: Lane, r: Runner, oracle: Oracle): (s: seq<Row>)
    ensures |s| == |rows|
    ensures forall k :: 0 <= k < |rows| ==> s[k] == LaneRow(rows[k], lane, r, oracle)
  {
    seq(|rows|, k requires 0 <= k < |rows| => LaneRow(rows[k], lane, r, oracle))
  }

  // Where `lane` will have brought things when it is closed.
  function LaneEnd(s: Standing, lane: Lane, r: Runner, oracle: Oracle): Standing {
    Standing(LaneRows(s.rows, lane, r, oracle), s.acked + LaneAcked(lane, r, oracle),
             s.counts.Plus(LaneCounts(lane, r, oracle)))
  }

  lemma EndOfClosed(s: Standing, rest: seq<Message>, r: Runner, oracle: Oracle)
    requires rest == []
    ensures LaneEnd(s, Publishing(rest), r, oracle) == s
  {
    assert LaneRows(s.rows, Publishing(rest), r, oracle) == s.rows;
    assert s.acked + [] == s.acked;
  }

  // One step of the lane does not change where it ends.
  lemma EndStep(s: Standing, lane: Lane, r: Runner, oracle: Oracle)
    requires !lane.Closed()
    ensures
      var fate := Verdict(lane, oracle);
      LaneEnd(s, lane, r, oracle) ==
      LaneEnd(Standing(WriteRows(s.rows, Effect(lane, r, fate), r.worker),
                       s.acked + NewlyAccepted(lane, fate), s.counts.Plus(Gain(lane, r, fate))),
              LaneNext(lane, r, fate), r, oracle)
  {
    var fate := Verdict(lane, oracle);
    var next := LaneNext(lane, r, fate);
    var written := WriteRows(s.rows, Effect(lane, r, fate), r.worker);
    assert LaneRows(s.rows, lane, r, oracle) == LaneRows(written, next, r, oracle);
    assert s.acked + (NewlyAccepted(lane, fate) + LaneAcked(next, r, oracle)) ==
           s.acked + NewlyAccepted(lane, fate) + LaneAcked(next, r, oracle);
    PlusAssociates(s.counts, Gain(lane, r, fate), LaneCounts(next, r, oracle));
  }

  // An accepted message moves from what is to come to what is done.
  lemma EndOfAccepted(s: Standing, group: seq<Message>, i: nat, r: Runner, oracle: Oracle)
    requires i < |group| && oracle(group[i].id).Accepted?
    ensures LaneEnd(s, Publishing(group[i..]), r, oracle) ==
            LaneEnd(Standing(s.rows, s.acked + [group[i].id], s.counts.Plus(Counts(1, 0, 0, 0))),
                    Publishing(group[i + 1..]), r, oracle)
  {
    assert group[i..][1..] == group[i + 1..];
    EndStep(s, Publishing(group[i..]), r, oracle);
    assert WriteRows(s.rows, Nothing, r.worker) == s.rows;
  }

  // A failing head: report, then hand back the rest.
  lemma EndOfFailed(s: Standing, group: seq<Message>, i: nat, r: Runner, oracle: Oracle)
    requires i < |group| && oracle(group[i].id).Failed?
    ensures
      var fate, rest := oracle(group[i].id), group[i + 1..];
      var release :=
        if fate.released then Release(IdsOf(rest), RetryTime(group[i], r, fate)) else Nothing;
      LaneEnd(s, Publishing(group[i..]), r, oracle) ==
      Standing(WriteRows(WriteRows(s.rows, Report(group[i], r, fate), r.worker), release, r.worker),
               s.acked,
               s.counts.Plus(Gain(Publishing([group[i]]), r, fate)).Plus(Counts(0, 0, 0, |rest|)))
  {
    var lane, fate := Publishing(group[i..]), oracle(group[i].id);
    assert group[i..][1..] == group[i + 1..];
    var held := LaneNext(lane, r, fate);
    EndStep(s, lane, r, oracle);
    var failed := Standing(WriteRows(s.rows, Report(group[i], r, fate), r.worker), s.acked,
                           s.counts.Plus(Gain(lane, r, fate)));
    assert s.acked + [] == s.acked;
    EndStep(failed, held, r, oracle);
    EndOfClosed(Standing(WriteRows(failed.rows, Effect(held, r, Accepted), r.worker), s.acked,
                         failed.counts.Plus(Gain(held, r, Accepted))), [], r, oracle);
  }

  lemma DistinctRest(group: seq<Message>, i: nat)
    requires AscendingIds(group) && i <= |group|
    ensures DistinctIds(IdsOf(group[i..]))
  {
  }

  // Where all the lanes will have brought things.
  function LanesEnd(s: Standing, lanes: seq<Lane>, r: Runner, oracle: Oracle): Standing {
    var e := Settled(Progress(s.rows, lanes, s.acked, s.counts), r, oracle);
    Standing(e.rows, e.acked, e.counts)
  }

  lemma EndOfNoLanes(s: Standing, lanes: seq<Lane>, r: Runner, oracle: Oracle)
    requires lanes == []
    ensures LanesEnd(s, lanes, r, oracle) == s
  {
    assert LanesEnd(s, lanes, r, oracle).rows == s.rows;
    assert s.acked + [] == s.acked;
  }

  lemma {:induction false} CountsEndTotal(groups: seq<seq<Message>>, r: Runner, oracle: Oracle)
    ensures CountsEnd(LanesOf(groups), r, oracle).Total() == Remaining(LanesOf(groups))
  {
    if groups != [] {
      assert LanesOf(groups)[1..] == LanesOf(groups[1..]);
      CountsEndTotal(groups[1..], r, oracle);
      LaneCountsAre(groups[0], r, oracle);
    }
  }

  // What a round whose claim got through reports and leaves behind.
  ghost predicate RoundDone(was: seq<Row>, q: Query, maxAttempts: int, oracle: Oracle,
                            ackArrives: bool, ok: bool, claimed: nat, counts: Counts,
                            rows: seq<Row>)
  {
    var end := Settled(StartOfRound(was, q), Runner(q.worker, maxAttempts), oracle);
    && claimed == |ClaimBatch(was, q)|
    && claimed == counts.Total()
    && counts == end.counts
    && ok == (ackArrives || end.acked == [])
    && rows == if ackArrives then RoundRows(was, q, maxAttempts, oracle) else end.rows
  }

  lemma NothingToAck(rows: seq<Row>, acked: seq<Id>, worker: Worker)
    requires acked == []
    ensures WriteRows(rows, Ack(acked), worker) == rows
  {
  }

  // Acknowledging after the end `s` of the lanes gives result `ok` and table `rows`.
  predicate AckedEndsIn(s: Standing, worker: Worker, ackArrives: bool, ok: bool, rows: seq<Row>) {
    && ok == (ackArrives || s.acked == [])
    && rows == if ackArrives then WriteRows(s.rows, Ack(s.acked), worker) else s.rows
  }

  // The same but for the order of the acked ids.
  predicate SameStanding(a: Standing, b: Standing) {
    a.rows == b.rows && a.counts == b.counts && multiset(a.acked) == multiset(b.acked)
  }

  lemma AckedInAnyOrder(a: Standing, b: Standing, worker: Worker, ackArrives: bool, ok: bool,
                        rows: seq<Row>)
    requires SameStanding(a, b)
    requires AckedEndsIn(a, worker, ackArrives, ok, rows)
    ensures AckedEndsIn(b, worker, ackArrives, ok, rows)
  {
    forall id: Id ensures id in a.acked <==> id in b.acked {
      assert id in a.acked <==> id in multiset(a.acked);
      assert id in b.acked <==> id in multiset(b.acked);
    }
    assert |multiset(a.acked)| == |a.acked| && |multiset(b.acked)| == |b.acked|;
  }

  // What one step of a lane does to the lane and to table, acked ids and counters.
  predicate Stepped(lane: Lane, r: Runner, fate: Fate, s: Standing, lane': Lane, s': Standing) {
    && lane' == LaneNext(lane, r, fate)
    && s' == Standing(WriteRows(s.rows, Effect(lane, r, fate), r.worker),
                      s.acked + NewlyAccepted(lane, fate), s.counts.Plus(Gain(lane, r, fate)))
  }

  // A step takes nothing away from where the round will end.
  lemma AdvanceSettles(start: Progress, p: Progress, g: nat, r: Runner, oracle: Oracle)
    requires Disjoint(p.lanes) && g < |p.lanes| && !p.lanes[g].Closed()
    requires SameOutcome(Settled(start, r, oracle), Settled(p, r, oracle))
    ensures
      var p' := Advance(p, g, r, Verdict(p.lanes[g], oracle));
      && Disjoint(p'.lanes) && StepsLeft(p'.lanes) < StepsLeft(p.lanes)
      && SameOutcome(Settled(start, r, oracle), Settled(p', r, oracle))
  {
    StepKeepsSettled(p, g, r, oracle);
    StepKeepsDisjoint(p.lanes, g, r, Verdict(p.lanes[g], oracle));
    StepsLeftUpdate(p.lanes, g, LaneNext(p.lanes[g], r, Verdict(p.lanes[g], oracle)));
  }

  lemma ClosedEndsThere(start: Progress, p: Progress, r: Runner, oracle: Oracle)
    requires AllClosed(p.lanes) && SameOutcome(Settled(start, r, oracle), Settled(p, r, oracle))
    ensures
      var end := Settled(start, r, oracle);
      SameStanding(Standing(p.rows, p.acked, p.counts), Standing(end.rows, end.acked, end.counts))
  {
    ClosedIsSettled(p, r, oracle);
  }

  // Steps that the lanes still have before them.
  function StepsLeft(lanes: seq<Lane>): nat {
    if lanes == [] then 0 else lanes[0].Measure() + StepsLeft(lanes[1..])
  }

  lemma {:induction false} StepsLeftUpdate(lanes: seq<Lane>, g: nat, lane: Lane)
    requires g < |lanes|
    ensures StepsLeft(lanes[g := lane]) + lanes[g].Measure() == StepsLeft(lanes) + lane.Measure()
    decreases |lanes|
  {
    var lanes' := lanes[g := lane];
    if g > 0 {
      assert lanes'[1..] == lanes[1..][g - 1 := lane];
      StepsLeftUpdate(lanes[1..], g - 1, lane);
    } else {
      assert lanes'[1..] == lanes[1..];
    }
  }

  lemma NothingAccepted(s: Standing, worker: Worker, ackArrives: bool)
    requires s.acked == []
    ensures AckedEndsIn(s, worker, ackArrives, true, s.rows)
  {
    NothingToAck(s.rows, s.acked, worker);
  }

  lemma BatchCounts(batch: seq<Message>, r: Runner, oracle: Oracle)
    ensures NO_COUNTS.Plus(CountsEnd(StartLanes(batch), r, oracle)).Total() == |batch|
  {
    StartRemaining(batch);
    CountsEndTotal(Groups(batch), r, oracle);
    PlusNothing(CountsEnd(StartLanes(batch), r, oracle));
  }

  lemma PlusNothing(c: Counts)
    ensures NO_COUNTS.Plus(c).Total() == c.Total()
  {
  }

  lemma StartEnds(was: seq<Row>, q: Query, r: Runner, oracle: Oracle, s: Standing)
    requires s == LanesEnd(Standing(ClaimRows(was, q), [], NO_COUNTS),
                           StartLanes(ClaimBatch(was, q)), r, oracle)
    ensures
      var end := Settled(StartOfRound(was, q), r, oracle);
      s.rows == end.rows && s.acked == end.acked && s.counts == end.counts
    ensures s.counts.Total() == |ClaimBatch(was, q)|
  {
    BatchCounts(ClaimBatch(was, q), r, oracle);
  }

  // From the end of the lanes to the end of the round.
  lemma RoundEnds(was: seq<Row>, q: Query, maxAttempts: int, oracle: Oracle, ackArrives: bool,
                  batch: seq<Message>, s: Standing, ok: bool, rows: seq<Row>)
    requires Ascending(was) && batch == ClaimBatch(was, q)
    requires s == LanesEnd(Standing(ClaimRows(was, q), [], NO_COUNTS), StartLanes(batch),
                           Runner(q.worker, maxAttempts), oracle)
    requires AckedEndsIn(s, q.worker, ackArrives, ok, rows)
    ensures RoundDone(was, q, maxAttempts, oracle, ackArrives, ok, |batch|, s.counts, rows)
  {
    StartEnds(was, q, Runner(q.worker, maxAttempts), oracle, s);
  }

  lemma NoLanes(batch: seq<Message>)
    requires batch == []
    ensures StartLanes(batch) == []
  {
    assert Groups(batch) == [];
  }

  lemma EmptyRound(was: seq<Row>, q: Query, maxAttempts: int, oracle: Oracle, ackArrives: bool,
                   batch: seq<Message>, rows: seq<Row>)
    requires Ascending(was) && batch == ClaimBatch(was, q) && batch == []
    requires rows == ClaimRows(was, q)
    ensures RoundDone(was, q, maxAttempts, oracle, ackArrives, true, |batch|, NO_COUNTS, rows)
  {
    var s := Standing(rows, [], NO_COUNTS);
    NothingAccepted(s, q.worker, ackArrives);
    assert s == LanesEnd(s, StartLanes(batch), Runner(q.worker, maxAttempts), oracle) by {
      NoLanes(batch);
      EndOfNoLanes(s, StartLanes(batch), Runner(q.worker, maxAttempts), oracle);
    }
    RoundEnds(was, q, maxAttempts, oracle, ackArrives, batch, s, true, rows);
  }

  // One group being published: a task that is suspended between two of its awaits. After a
  // failure the rest of the group still has to be handed back.
  class GroupTask {
    const group: seq<Message>
    var index: nat
    var retryAt: Option<Time>
    var released: bool

    constructor (group: seq<Message>)
      requires AscendingIds(group)
      ensures Valid() && this.group == group && Lane() == Publishing(group)
    {
      this.group := group;
      index, retryAt, released := 0, None, false;
      new;
      assert group[0..] == group;
    }

    predicate Valid()
      reads this
    {
      index <= |group| && AscendingIds(group)
    }

    predicate Done()
      reads this
    {
      index >= |group| && retryAt.None?
    }

    function Lane(): (lane: Lane)
      requires Valid()
      reads this
      ensures Done() <==> lane.Closed()
    {
      if retryAt.Some? then Holding(group[index..], retryAt.value, released)
      else Publishing(group[index..])
    }
  }

  predicate Distinct(tasks: seq<GroupTask>) {
    forall i, j :: 0 <= i < j < |tasks| ==> tasks[i] != tasks[j]
  }

  // The tasks are distinct, and the first of `lanes` are theirs.
  ghost predicate Tasks(tasks: seq<GroupTask>, lanes: seq<Lane>)
    reads tasks
  {
    && |tasks| <= |lanes| && Distinct(tasks)
    && forall g :: 0 <= g < |tasks| ==> tasks[g].Valid() && tasks[g].Lane() == lanes[g]
  }

  lemma DistinctSnoc(tasks: seq<GroupTask>, task: GroupTask)
    requires Distinct(tasks) && task !in tasks
    ensures Distinct(tasks + [task])
  {
  }

  lemma TasksSnoc(tasks: seq<GroupTask>, task: GroupTask, lanes: seq<Lane>)
    requires Tasks(tasks, lanes) && |tasks| < |lanes| && task !in tasks
    requires task.Valid() && task.Lane() == lanes[|tasks|]
    ensures Tasks(tasks + [task], lanes)
  {
    DistinctSnoc(tasks, task);
  }

  class Relay {
    const storage: MemoryStorage
    const batchSize: int
    const lease: Time
    const maxAttempts: int
    const workerId: Worker

    constructor (storage: MemoryStorage, batchSize: int, lease: Time, maxAttempts: int,
                 workerId: Worker)
      ensures this.storage == storage && this.batchSize == batchSize && this.lease == lease
      ensures this.maxAttempts == maxAttempts && this.workerId == workerId
    {
      this.storage, this.batchSize, this.lease := storage, batchSize, lease;
      this.maxAttempts, this.workerId := maxAttempts, workerId;
    }

    function Running(): Runner {
      Runner(workerId, maxAttempts)
    }

    function Asked(now: Time): Query {
      Query(workerId, now, lease, batchSize, storage.strictOrdering, None)
    }

    // Nack or dead-letter; returns when the message will be eligible again.
    method HandleFailure(message: Message, fate: Fate, result: RoundResult)
      returns (retryAt: Time)
      requires fate.Failed? && storage.Valid()
      modifies storage`contents, storage.records, result
      ensures storage.Valid() && retryAt == RetryTime(message, Running(), fate)
      ensures message.attempts < maxAttempts ==> retryAt == fate.now + fate.delay
      ensures message.attempts >= maxAttempts ==> retryAt == fate.now
      ensures storage.contents ==
              WriteRows(old(storage.contents),
                        if !fate.reported then Nothing
                        else if message.attempts >= maxAttempts
                        then WriteBack.DeadLetter(message.id, fate.error)
                        else WriteBack.Nack(message.id, fate.error, fate.now + fate.delay),
                        workerId)
      ensures storage.contents ==
              WriteRows(old(storage.contents), Report(message, Running(), fate), workerId)
      ensures result.Tally() ==
              old(result.Tally()).Plus(Gain(Publishing([message]), Running(), fate))
              == old(result.Tally()).Plus(if message.attempts >= maxAttempts
                                          then Counts(0, 0, 1, 0) else Counts(0, 1, 0, 0))
    {
      if message.attempts >= maxAttempts {
        if fate.reported {
          storage.DeadLetter(message.id, workerId, fate.error);
        }
        result.deadLettered := result.deadLettered + 1;
        return fate.now;
      }
      retryAt := fate.now + fate.delay;
      if fate.reported {
        storage.Nack(message.id, workerId, fate.error, retryAt);
      }
      result.retried := result.retried + 1;
    }

    // The rest of the group was never tried: it is handed back.
    method BlockRest(rest: seq<Message>, retryAt: Time, released: bool, result: RoundResult)
      requires storage.Valid() && DistinctIds(IdsOf(rest))
      modifies storage`contents, storage.records, result
      ensures storage.Valid()
      ensures storage.contents ==
              WriteRows(old(storage.contents),
                        if released then WriteBack.Release(IdsOf(rest), retryAt) else Nothing,
                        workerId)
      ensures released ==> forall p :: 0 <= p < |storage.contents| ==>
                var was, now := old(storage.contents)[p], storage.contents[p];
                was.id in IdsOf(rest) && was.leasedBy == Some(workerId) ==>
                && now.leasedBy.None? && now.leaseUntil.None? && now.retryAt == Some(retryAt)
                && now.status == was.status && now.attempts == was.attempts - 1
      ensures result.Tally() == old(result.Tally()).Plus(Counts(0, 0, 0, |rest|))
    {
      if rest == [] {
        return;
      }
      if released {
        storage.Release(IdsOf(rest), workerId, retryAt);
      }
      result.blocked := result.blocked + |rest|;
    }

    ghost function Now(acked: IdList, result: RoundResult): Standing
      reads storage, acked, result
    {
      Standing(storage.contents, acked.items, result.Tally())
    }

    // With `rest` still to publish, the group is on its way to end at `goal`.
    ghost predicate Heading(rest: seq<Message>, acked: IdList, result: RoundResult, oracle: Oracle,
                            goal: Standing)
      reads storage, acked, result
    {
      LaneEnd(Now(acked, result), Publishing(rest), Running(), oracle) == goal
    }

    // A message failed: report it and hand back the rest of its group.
    method GiveUp(group: seq<Message>, i: nat, acked: IdList, result: RoundResult, oracle: Oracle,
                  ghost goal: Standing)
      requires storage.Valid() && AscendingIds(group)
      requires i < |group| && oracle(group[i].id).Failed?
      requires Heading(group[i..], acked, result, oracle, goal)
      modifies storage`contents, storage.records, result
      ensures storage.Valid() && Now(acked, result) == goal
    {
      var fate := oracle(group[i].id);
      EndOfFailed(Now(acked, result), group, i, Running(), oracle);
      DistinctRest(group, i + 1);
      var retryAt := HandleFailure(group[i], fate, result);
      BlockRest(group[i + 1..], retryAt, fate.released, result);
    }

    // A message was accepted: its ack waits for the end of the round.
    method NoteAccepted(group: seq<Message>, i: nat, acked: IdList, result: RoundResult,
                        ghost oracle: Oracle, ghost goal: Standing)
      requires storage.Valid() && i < |group| && oracle(group[i].id).Accepted?
      requires Heading(group[i..], acked, result, oracle, goal)
      modifies acked, result
      ensures storage.Valid() && Heading(group[i + 1..], acked, result, oracle, goal)
    {
      EndOfAccepted(Now(acked, result), group, i, Running(), oracle);
      acked.items := acked.items + [group[i].id];
      result.published := result.published + 1;
    }

    // The loop of one group, undisturbed: publish its messages in order, up to the first
    // failure. `Resume` is the same code cut at its awaits.
    method PublishGroup(group: seq<Message>, acked: IdList, result: RoundResult, oracle: Oracle,
                        ghost goal: Standing)
      requires storage.Valid() && AscendingIds(group)
      requires Heading(group, acked, result, oracle, goal)
      modifies storage`contents, storage.records, acked, result
      ensures storage.Valid() && Now(acked, result) == goal
    {
      assert group[0..] == group;
      for i := 0 to |group|
        invariant storage.Valid() && Heading(group[i..], acked, result, oracle, goal)
      {
        if oracle(group[i].id).Failed? {
          GiveUp(group, i, acked, result, oracle, goal);
          return;
        }
        NoteAccepted(group, i, acked, result, oracle, goal);
      }
      EndOfClosed(Now(acked, result), group[|group|..], Running(), oracle);
    }

    // One task goes on to its next await: it publishes a message, reports a failure, or hands
    // back the rest.
    method Resume(task: GroupTask, acked: IdList, result: RoundResult, oracle: Oracle)
      requires storage.Valid() && task.Valid() && !task.Done()
      modifies storage`contents, storage.records, acked, result, task
      ensures storage.Valid() && task.Valid()
      ensures Stepped(old(task.Lane()), Running(), Verdict(old(task.Lane()), oracle),
                      old(Now(acked, result)), task.Lane(), Now(acked, result))
    {
      ghost var lane := task.Lane();
      ghost var rest := task.group[task.index..];
      if task.retryAt.Some? {
        DistinctRest(task.group, task.index);
        BlockRest(task.group[task.index..], task.retryAt.value, task.released, result);
        task.index, task.retryAt := |task.group|, None;
        return;
      }
      var message := task.group[task.index];
      assert rest[0] == message && rest[1..] == task.group[task.index + 1..];
      var fate := oracle(message.id);
      task.index := task.index + 1;
      if fate.Failed? {
        var retryAt := HandleFailure(message, fate, result);
        task.retryAt, task.released := Some(retryAt), fate.released;
      } else {
        acked.items := acked.items + [message.id];
        result.published := result.published + 1;
      }
    }

    // The tasks, the table, the acked ids and the counters stand as `p` says.
    ghost predicate Stands(tasks: seq<GroupTask>, acked: IdList, result: RoundResult, p: Progress)
      reads storage, acked, result, tasks
    {
      && |tasks| == |p.lanes| && Now(acked, result) == Standing(p.rows, p.acked, p.counts)
      && forall g :: 0 <= g < |tasks| ==> tasks[g].Valid() && tasks[g].Lane() == p.lanes[g]
    }

    // Task `g` of many goes on; the others stay where they are.
    method ResumeOne(tasks: seq<GroupTask>, g: nat, acked: IdList, result: RoundResult,
                     oracle: Oracle, ghost p: Progress)
      requires storage.Valid() && Stands(tasks, acked, result, p)
      requires Distinct(tasks) && g < |tasks| && !tasks[g].Done()
      modifies storage`contents, storage.records, acked, result, tasks[g]
      ensures storage.Valid()
      ensures Stands(tasks, acked, result, Advance(p, g, Running(), Verdict(p.lanes[g], oracle)))
    {
      Resume(tasks[g], acked, result, oracle);
    }

    // The tasks are at `p`, from where the round ends as from `start`.
    ghost predicate Underway(tasks: seq<GroupTask>, acked: IdList, result: RoundResult,
                             oracle: Oracle, start: Progress, p: Progress)
      reads storage, acked, result, tasks
    {
      && Stands(tasks, acked, result, p) && Disjoint(p.lanes)
      && SameOutcome(Settled(start, Running(), oracle), Settled(p, Running(), oracle))
    }

    method GoOn(tasks: seq<GroupTask>, g: nat, acked: IdList, result: RoundResult,
                oracle: Oracle, ghost start: Progress, ghost p: Progress)
      returns (ghost p': Progress)
      requires storage.Valid() && Underway(tasks, acked, result, oracle, start, p)
      requires Distinct(tasks) && g < |tasks| && !tasks[g].Done()
      modifies storage`contents, storage.records, acked, result, tasks[g]
      ensures storage.Valid() && Underway(tasks, acked, result, oracle, start, p')
      ensures StepsLeft(p'.lanes) < StepsLeft(p.lanes)
    {
      AdvanceSettles(start, p, g, Running(), oracle);
      ResumeOne(tasks, g, acked, result, oracle, p);
      p' := Advance(p, g, Running(), Verdict(p.lanes[g], oracle));
    }

    // All groups go on concurrently: which of them takes the next step is left open.
    method PublishAll(tasks: seq<GroupTask>, acked: IdList, result: RoundResult, oracle: Oracle,
                      ghost start: Progress)
      requires storage.Valid() && Stands(tasks, acked, result, start)
      requires Distinct(tasks) && Disjoint(start.lanes)
      modifies storage`contents, storage.records, acked, result, set t | t in tasks
      ensures storage.Valid()
      ensures
        var end := Settled(start, Running(), oracle);
        SameStanding(Now(acked, result), Standing(end.rows, end.acked, end.counts))
    {
      ghost var p := start;
      while exists g :: 0 <= g < |tasks| && !tasks[g].Done()
        invariant storage.Valid() && Underway(tasks, acked, result, oracle, start, p)
        decreases StepsLeft(p.lanes)
      {
        var g :| 0 <= g < |tasks| && !tasks[g].Done();
        p := GoOn(tasks, g, acked, result, oracle, start, p);
      }
      assert AllClosed(p.lanes);
      ClosedEndsThere(start, p, Running(), oracle);
    }

    // One task per group.
    method CreateTasks(messages: seq<Message>) returns (tasks: seq<GroupTask>)
      requires AscendingIds(messages)
      ensures forall t :: t in tasks ==> fresh(t)
      ensures Tasks(tasks, StartLanes(messages)) && |tasks| == |StartLanes(messages)|
    {
      var groups := GroupByKey(messages);
      ghost var lanes := StartLanes(messages);
      tasks := [];
      for g := 0 to |groups|
        invariant forall h :: 0 <= h < |groups| ==> groups[h].items == Groups(messages)[h]
        invariant |tasks| == g && Tasks(tasks, lanes) && forall t :: t in tasks ==> fresh(t)
      {
        GroupAscending(messages, g);
        var task := new GroupTask(groups[g].items);
        TasksSnoc(tasks, task, lanes);
        tasks := tasks + [task];
      }
    }

    // Publish a non-empty batch, then ack what was accepted. `s` is where its lanes end.
    method PublishBatch(messages: seq<Message>, oracle: Oracle, ackArrives: bool,
                        ghost s: Standing)
      returns (ok: bool, result: RoundResult)
      requires storage.Valid() && AscendingIds(messages)
      requires s == LanesEnd(Standing(storage.contents, [], NO_COUNTS), StartLanes(messages),
                             Running(), oracle)
      modifies storage`contents, storage.records
      ensures storage.Valid() && fresh(result)
      ensures result.claimed == |messages| && result.Tally() == s.counts
      ensures AckedEndsIn(s, workerId, ackArrives, ok, storage.contents)
    {
      result := new RoundResult(|messages|);
      var acked := new IdList();
      var tasks := CreateTasks(messages);
      ghost var start := Progress(storage.contents, StartLanes(messages), [], NO_COUNTS);
      StartDisjoint(messages);
      assert Stands(tasks, acked, result, start);
      PublishAll(tasks, acked, result, oracle, start);
      ghost var end := Now(acked, result);
      assert SameStanding(end, s);
      ok := AckAll(acked.items, ackArrives);
      AckedInAnyOrder(end, s, workerId, ackArrives, ok, storage.contents);
    }

    // Acknowledge what was accepted, if anything; `ok` is false if the ack fails.
    method AckAll(ids: seq<Id>, ackArrives: bool) returns (ok: bool)
      requires storage.Valid()
      modifies storage`contents, storage.records
      ensures storage.Valid()
      ensures AckedEndsIn(Standing(old(storage.contents), ids, NO_COUNTS), workerId, ackArrives,
                          ok, storage.contents)
    {
      ok := true;
      if ids != [] {
        if ackArrives {
          storage.Ack(ids, workerId);
        } else {
          ok := false;
        }
      } else {
        NothingToAck(storage.contents, ids, workerId);
      }
    }

    // Claim one batch, publish it, ack what was accepted. `ok` is false when a storage
    // error propagates: from the claim, or from the final ack.
    method RunOnce(now: Time, oracle: Oracle, claimArrives: bool, ackArrives: bool)
      returns (ok: bool, result: RoundResult)
      requires storage.Valid()
      modifies storage`contents, storage.records
      ensures storage.Valid() && fresh(result)
      ensures !claimArrives ==> storage.contents == old(storage.contents) && !ok
      ensures claimArrives ==>
                RoundDone(old(storage.contents), Asked(now), maxAttempts, oracle, ackArrives, ok,
                          result.claimed, result.Tally(), storage.contents)
    {
      if !claimArrives {
        result := new RoundResult(0);
        assert storage.Valid();
        return false, result;
      }
      ghost var q, was := Asked(now), storage.contents;
      storage.RowsAscend();
      var messages := storage.Claim(batchSize, lease, workerId, now);
      if messages == [] {
        result := new RoundResult(0);
        assert storage.Valid();
        EmptyRound(was, q, maxAttempts, oracle, ackArrives, messages, storage.contents);
        return true, result;
      }
      BatchIds(was, q);
      ghost var s := LanesEnd(Standing(storage.contents, [], NO_COUNTS), StartLanes(messages),
                              Running(), oracle);
      ok, result := PublishBatch(messages, oracle, ackArrives, s);
      RoundEnds(was, q, maxAttempts, oracle, ackArrives, messages, s, ok, storage.contents);
    }
  }
}
