// How long the publishing of a round can take: the groups of a claimed batch share the
// permits of a semaphore.

module RoundTime {
  import opened Reals
  import opened Wrappers
  import opened Rows
  import opened Claim
  import opened Grouping
  import opened Round
  import opened RoundStart
  import opened RoundOutcome
  import opened Makespan

  // Publishes a group makes: up to and including its first failure.
  function Tries(group: seq<Message>, oracle: Oracle): (n: nat)
    ensures n <= |group|
  {
    var f := FirstFailure(group, oracle);
    if f < |group| then f + 1 else f
  }

  // The turns of the groups of `batch`, arranged in the order in which they got a permit.
  ghost predicate TurnsOf(turns: seq<Turn>, batch: seq<Message>, arranged: seq<seq<Message>>,
                          oracle: Oracle)
  {
    && multiset(arranged) == multiset(Groups(batch)) && |turns| == |arranged|
    && forall j :: 0 <= j < |turns| ==> |turns[j].publishes| == Tries(arranged[j], oracle)
  }

  // One round: the table and the claim, the verdicts, and how its groups took their turns.
  datatype Timing = Timing(rows: seq<Row>, q: Query, oracle: Oracle,
                           arranged: seq<seq<Message>>, turns: seq<Turn>)
  {
    ghost function Batch(): seq<Message> {
      ClaimBatch(rows, q)
    }

    // The round obeys `batch_size`, `concurrency` and `publish_timeout`.
    ghost predicate Obeys(batchSize: nat, concurrency: nat, timeout: Seconds) {
      && Ascending(rows) && q.limit == batchSize
      && TurnsOf(turns, Batch(), arranged, oracle)
      && WorkConserving(turns, concurrency) && CutOff(turns, timeout)
    }
  }

  // -------------------------------------------------------- turns and messages

  function HeldIn(groups: seq<seq<Message>>): nat {
    if groups == [] then 0
    else HeldIn(groups[..|groups| - 1]) + |groups[|groups| - 1]|
  }

  lemma {:induction false} FlattenHolds(groups: seq<seq<Message>>)
    ensures |Flatten(groups)| == HeldIn(groups)
  {
    if groups != [] {
      FlattenHolds(groups[..|groups| - 1]);
    }
  }

  lemma {:induction false} HeldWithout(a: seq<seq<Message>>, k: nat)
    requires k < |a|
    ensures HeldIn(a) == HeldIn(a[..k] + a[k + 1..]) + |a[k]|
  {
    var n := |a| - 1;
    if k == n {
      assert a[..k] + a[k + 1..] == a[..n];
    } else {
      var without := a[..k] + a[k + 1..];
      HeldWithout(a[..n], k);
      assert without[..n - 1] == a[..n][..k] + a[..n][k + 1..];
      assert without[n - 1] == a[n];
    }
  }

  lemma OneRemoved(a: seq<seq<Message>>, k: nat)
    requires k < |a|
    ensures multiset(a[..k] + a[k + 1..]) == multiset(a) - multiset{a[k]}
  {
    assert a == a[..k] + [a[k]] + a[k + 1..];
  }

  // Take one group away from both.
  lemma TakeOne(a: seq<seq<Message>>, b: seq<seq<Message>>)
    returns (a': seq<seq<Message>>, b': seq<seq<Message>>)
    requires multiset(a) == multiset(b) && a != []
    ensures multiset(a') == multiset(b') && |a'| < |a|
    ensures HeldIn(a) - HeldIn(a') == HeldIn(b) - HeldIn(b')
  {
    a' := TakeAway(a, a[0]);
    assert a[0] in multiset(b);
    b' := TakeAway(b, a[0]);
    assert |multiset(a)| == |a| && |multiset(a')| == |a'|;
  }

  lemma TakeAway(a: seq<seq<Message>>, x: seq<Message>) returns (a': seq<seq<Message>>)
    requires x in a
    ensures multiset(a') == multiset(a) - multiset{x} && |a'| == |a| - 1
    ensures HeldIn(a) - HeldIn(a') == |x|
  {
    var k :| 0 <= k < |a| && a[k] == x;
    a' := a[..k] + a[k + 1..];
    OneRemoved(a, k);
    HeldWithout(a, k);
  }

  // The same groups in another order hold as many messages.
  lemma {:induction false} HeldSame(a: seq<seq<Message>>, b: seq<seq<Message>>)
    requires multiset(a) == multiset(b)
    ensures HeldIn(a) == HeldIn(b)
    decreases |a|
  {
    if a == [] {
      assert |multiset(b)| == |b|;
    } else {
      var a', b' := TakeOne(a, b);
      HeldSame(a', b');
    }
  }

  lemma {:induction false} PublishesFit(turns: seq<Turn>, arranged: seq<seq<Message>>,
                                        oracle: Oracle)
    requires |turns| == |arranged|
    requires forall j :: 0 <= j < |turns| ==> |turns[j].publishes| == Tries(arranged[j], oracle)
    ensures Publishes(turns) <= HeldIn(arranged)
  {
    if turns != [] {
      var n := |turns| - 1;
      PublishesFit(turns[..n], arranged[..n], oracle);
    }
  }

  lemma BatchFlat(batch: seq<Message>, arranged: seq<seq<Message>>)
    requires multiset(arranged) == multiset(Groups(batch))
    ensures HeldIn(arranged) == |batch|
  {
    HeldSame(arranged, Groups(batch));
    GroupsArePermutation(batch);
    FlattenHolds(Groups(batch));
    assert |multiset(Flatten(Groups(batch)))| == |multiset(batch)|;
  }

  // A round publishes no more often than it has messages.
  lemma RoundPublishes(t: Timing, batchSize: nat, concurrency: nat, timeout: Seconds)
    requires t.Obeys(batchSize, concurrency, timeout)
    ensures Publishes(t.turns) <= |t.Batch()| <= batchSize
  {
    PublishesFit(t.turns, t.arranged, t.oracle);
    BatchFlat(t.Batch(), t.arranged);
    BatchSize(t.rows, t.q);
  }

  lemma ArrangedIsGroup(batch: seq<Message>, arranged: seq<seq<Message>>, j: nat) returns (g: nat)
    requires multiset(arranged) == multiset(Groups(batch)) && j < |arranged|
    ensures g < |Groups(batch)| && Groups(batch)[g] == arranged[j]
  {
    assert arranged[j] in multiset(arranged);
    assert arranged[j] in Groups(batch);
    g :| 0 <= g < |Groups(batch)| && Groups(batch)[g] == arranged[j];
  }

  // ------------------------------------------------------------ the bounds

  // A round whose groups hold at most `longest` messages is over after an even share of the
  // others and the longest group.
  lemma {:induction false} LongGroupTime(t: Timing, batchSize: nat, longest: nat, concurrency: nat,
                                         timeout: Seconds)
    requires concurrency > 0 && timeout >= 0.0 && longest <= batchSize
    requires t.Obeys(batchSize, concurrency, timeout)
    requires forall g :: 0 <= g < |Groups(t.Batch())| ==> |Groups(t.Batch())[g]| <= longest
    ensures DoneBy(t.turns, concurrency,
                   LongGroupBound(batchSize as real, longest as real, concurrency as real, timeout))
  {
    RoundPublishes(t, batchSize, concurrency, timeout);
    forall j | 0 <= j < |t.turns| ensures |t.turns[j].publishes| <= longest {
      var g := ArrangedIsGroup(t.Batch(), t.arranged, j);
    }
    LongTurnTime(t.turns, batchSize, longest, concurrency, timeout);
  }

  lemma {:induction false} GroupsFit(groups: seq<seq<Message>>)
    requires forall g :: 0 <= g < |groups| ==> groups[g] != []
    ensures |groups| <= HeldIn(groups)
  {
    if groups != [] {
      GroupsFit(groups[..|groups| - 1]);
    }
  }

  lemma SingleTries(t: Timing, j: nat)
    requires j < |t.turns| && TurnsOf(t.turns, t.Batch(), t.arranged, t.oracle)
    requires || (forall i :: 0 <= i < |t.Batch()| ==> t.oracle(t.Batch()[i].id).Failed?)
             || (forall g :: 0 <= g < |Groups(t.Batch())| ==> |Groups(t.Batch())[g]| == 1)
    ensures t.arranged[j] != [] && |t.turns[j].publishes| <= 1
  {
    var g := ArrangedIsGroup(t.Batch(), t.arranged, j);
    GroupIsStable(t.Batch(), g);
    var i := GroupMember(t.Batch(), g, 0);
  }

  // The documented claim: when every publish times out, or no two messages share a key, the
  // round is over after ceil(batch_size / concurrency) timeouts.
  lemma {:induction false} TimedOutRoundBound(t: Timing, batchSize: nat, concurrency: nat,
                                              timeout: Seconds)
    requires concurrency > 0 && timeout >= 0.0 && t.Obeys(batchSize, concurrency, timeout)
    requires || (forall i :: 0 <= i < |t.Batch()| ==> t.oracle(t.Batch()[i].id).Failed?)
             || (forall g :: 0 <= g < |Groups(t.Batch())| ==> |Groups(t.Batch())[g]| == 1)
    ensures DoneBy(t.turns, concurrency, WorstCaseRound(batchSize, concurrency, Some(timeout)).value)
  {
    forall j | 0 <= j < |t.turns| ensures t.arranged[j] != [] && |t.turns[j].publishes| <= 1 {
      SingleTries(t, j);
    }
    GroupsFit(t.arranged);
    BatchFlat(t.Batch(), t.arranged);
    BatchSize(t.rows, t.q);
    SinglePublishesBound(t.turns, batchSize, concurrency, timeout);
  }

  // ------------------------------------------- rows and messages to try it with

  function KeyRows(n: nat, key: Option<Key>): (rows: seq<Row>)
    ensures |rows| == n
    ensures forall i :: 0 <= i < n ==> rows[i] == NewRow(i + 1, key, 0)
  {
    if n == 0 then [] else KeyRows(n - 1, key) + [NewRow(n, key, 0)]
  }

  function KeyMessages(n: nat, key: Option<Key>): (ms: seq<Message>)
    ensures |ms| == n
    ensures forall i :: 0 <= i < n ==> ms[i] == Message(i + 1, key, 1, 0)
  {
    if n == 0 then [] else KeyMessages(n - 1, key) + [Message(n, key, 1, 0)]
  }

  predicate Fresh(q: Query) {
    q.now == 0 && q.strict && q.visibility.None?
  }

  lemma KeyEligible(before: seq<Row>, key: Option<Key>, o: Row, q: Query)
    requires Fresh(q) && before == KeyRows(|before|, key) && o == NewRow(|before| + 1, key, 0)
    ensures Eligible(before, o, q)
  {
    forall p | p in before ensures !Obstructs(p, o.key, q) {
      var i :| 0 <= i < |before| && before[i] == p;
    }
  }

  // All the rows are claimed, as the given messages.
  predicate AllClaimed(rows: seq<Row>, q: Query, ms: seq<Message>) {
    EligibleCount(rows, q) == |rows| && ClaimBatch(rows, q) == ms
  }

  lemma OneMoreClaimed(before: seq<Row>, o: Row, q: Query, ms: seq<Message>, rows: seq<Row>,
                       ms': seq<Message>)
    requires AllClaimed(before, q, ms) && Eligible(before, o, q) && |before| < q.limit
    requires rows == before + [o]
    requires ms' == ms + [Message(o.id, o.key, o.attempts + 1, o.createdAt)]
    ensures AllClaimed(rows, q, ms')
  {
    ClaimSnoc(before, o, q);
  }

  lemma {:induction false} KeyClaim(n: nat, key: Option<Key>, q: Query)
    requires Fresh(q) && n <= q.limit
    ensures AllClaimed(KeyRows(n, key), q, KeyMessages(n, key))
  {
    if n > 0 {
      KeyClaim(n - 1, key, q);
      KeyEligible(KeyRows(n - 1, key), key, NewRow(n, key, 0), q);
      OneMoreClaimed(KeyRows(n - 1, key), NewRow(n, key, 0), q, KeyMessages(n - 1, key),
                     KeyRows(n, key), KeyMessages(n, key));
    }
  }

  // ----------------------------------------------------- no keys, slow publishes

  function Singles(ms: seq<Message>): (groups: seq<seq<Message>>)
    ensures |groups| == |ms|
    ensures forall g :: 0 <= g < |ms| ==> groups[g] == [ms[g]]
  {
    if ms == [] then [] else Singles(ms[..|ms| - 1]) + [[ms[|ms| - 1]]]
  }

  lemma {:induction false} KeylessStandAlone(n: nat)
    ensures Groups(KeyMessages(n, None)) == Singles(KeyMessages(n, None))
  {
    var ms := KeyMessages(n, None);
    if n == 0 {
      assert Groups(ms) == [];
    } else {
      var before := KeyMessages(n - 1, None);
      KeylessStandAlone(n - 1);
      GroupsOpen(before, Message(n, None, 1, 0));
      assert ms[..n - 1] == before;
    }
  }

  lemma {:induction false} SinglesHold(groups: seq<seq<Message>>)
    requires forall g :: 0 <= g < |groups| ==> |groups[g]| == 1
    ensures HeldIn(groups) == |groups|
  {
    if groups != [] {
      SinglesHold(groups[..|groups| - 1]);
    }
  }

  // The documented formula is no larger than it must be: a full batch in which no two messages
  // share a key takes exactly that time when each publish lasts until the timeout, whichever
  // way the groups take their turns.
  lemma TimedOutRoundTime(t: Timing, batchSize: nat, concurrency: nat, timeout: Seconds)
    returns (p: nat)
    requires concurrency > 0 && timeout >= 0.0 && t.Obeys(batchSize, concurrency, timeout)
    requires |t.Batch()| == batchSize && AllTimeOut(t.turns, timeout)
    requires forall g :: 0 <= g < |Groups(t.Batch())| ==> |Groups(t.Batch())[g]| == 1
    ensures
      var time := WorstCaseRound(batchSize, concurrency, Some(timeout)).value;
      && DoneBy(t.turns, concurrency, time)
      && p < concurrency && FreeAfter(t.turns, concurrency)[p] == time
  {
    var groups := Groups(t.Batch());
    assert |multiset(t.arranged)| == |t.arranged| && |multiset(groups)| == |groups|;
    BatchFlat(t.Batch(), groups);
    SinglesHold(groups);
    p := AllTimeOutTime(t.turns, concurrency, timeout);
  }

  lemma SinglesTurns(turns: seq<Turn>, n: nat, timeout: Seconds, oracle: Oracle)
    requires |turns| == n && AllTimeOut(turns, timeout)
    ensures TurnsOf(turns, KeyMessages(n, None), Singles(KeyMessages(n, None)), oracle)
  {
    KeylessStandAlone(n);
  }

  // There is such a round for every configuration.
  lemma TimedOutRound(batchSize: nat, concurrency: nat, timeout: Seconds, oracle: Oracle)
    returns (t: Timing)
    requires concurrency > 0 && timeout >= 0.0
    ensures t.Obeys(batchSize, concurrency, timeout) && t.oracle == oracle
    ensures |t.Batch()| == batchSize && AllTimeOut(t.turns, timeout)
    ensures forall g :: 0 <= g < |Groups(t.Batch())| ==> |Groups(t.Batch())[g]| == 1
  {
    var turns := TakeTurns(batchSize, concurrency, timeout);
    t := Timing(KeyRows(batchSize, None), Query("w", 0, 60, batchSize, true, None), oracle,
                Singles(KeyMessages(batchSize, None)), turns);
    KeyClaim(batchSize, None, t.q);
    SinglesTurns(turns, batchSize, timeout, oracle);
    KeylessStandAlone(batchSize);
  }

  // --------------------------------------------------- one key, slow successes

  lemma {:induction false} KeyIsOneGroup(n: nat)
    requires n > 0
    ensures
      var ms := KeyMessages(n, Some("k"));
      Groups(ms) == [ms] && Leaders(ms) == [0]
  {
    var before, m := KeyMessages(n - 1, Some("k")), Message(n, Some("k"), 1, 0);
    if n == 1 {
      assert before == [] && Groups(before) == [];
      GroupsOpen(before, m);
    } else {
      KeyIsOneGroup(n - 1);
      GroupsJoin(before, m, 0);
    }
  }

  lemma AllAccepted(group: seq<Message>, oracle: Oracle)
    requires forall id: Id :: oracle(id).Accepted?
    ensures Tries(group, oracle) == |group|
  {
  }

  lemma OneSlowTurn(batchSize: nat, concurrency: nat, timeout: Seconds, turns: seq<Turn>)
    requires concurrency > 0 && timeout >= 0.0
    requires turns == [Turn(Repeated(batchSize, timeout), 0)]
    ensures WorkConserving(turns, concurrency) && CutOff(turns, timeout)
    ensures FreeAfter(turns, concurrency)[0] == Times(batchSize, timeout)
  {
    assert turns[..0] == [];
    SumOfEqual(batchSize, timeout);
  }

  lemma KeyTurn(batchSize: nat, timeout: Seconds, oracle: Oracle, batch: seq<Message>,
                turns: seq<Turn>)
    requires batchSize > 0 && batch == KeyMessages(batchSize, Some("k"))
    requires turns == [Turn(Repeated(batchSize, timeout), 0)]
    requires forall id: Id :: oracle(id).Accepted?
    ensures TurnsOf(turns, batch, [batch], oracle)
  {
    KeyIsOneGroup(batchSize);
    AllAccepted(batch, oracle);
  }

  // One key with a full batch of slow successes takes `batchSize` timeouts.
  lemma OneLongKey(batchSize: nat, concurrency: nat, timeout: Seconds, oracle: Oracle)
    returns (t: Timing)
    requires batchSize > 0 && concurrency > 0 && timeout >= 0.0
    requires forall id: Id :: oracle(id).Accepted?
    ensures t.Obeys(batchSize, concurrency, timeout) && t.oracle == oracle
    ensures |t.Batch()| == batchSize && |Groups(t.Batch())| == 1
    ensures FreeAfter(t.turns, concurrency)[0] == Times(batchSize, timeout)
  {
    var turns, batch := [Turn(Repeated(batchSize, timeout), 0)], KeyMessages(batchSize, Some("k"));
    t := Timing(KeyRows(batchSize, Some("k")), Query("w", 0, 60, batchSize, true, None), oracle,
                [batch], turns);
    KeyClaim(batchSize, Some("k"), t.q);
    KeyIsOneGroup(batchSize);
    KeyTurn(batchSize, timeout, oracle, batch, turns);
    OneSlowTurn(batchSize, concurrency, timeout, turns);
  }

  // Without a publish timeout there is no formula, and no bound to be had: whatever time is
  // given, a batch of one key can take longer.
  lemma NoBoundWithoutTimeout(batchSize: nat, concurrency: nat, time: Seconds, oracle: Oracle)
    returns (t: Timing, longest: Seconds)
    requires batchSize > 0 && concurrency > 0 && time >= 0.0
    requires forall id: Id :: oracle(id).Accepted?
    ensures WorstCaseRound(batchSize, concurrency, None).None?
    ensures t.Obeys(batchSize, concurrency, longest) && t.oracle == oracle
    ensures !DoneBy(t.turns, concurrency, time)
  {
    longest := time + 1.0;
    t := OneLongKey(batchSize, concurrency, longest, oracle);
    TimesMore(1, batchSize, longest);
  }

  // ------------------------------------- when the documented formula is a bound

  // Whatever is claimed, however it is published and however long that takes, the round is
  // over in time.
  ghost predicate AlwaysBounded(batchSize: nat, concurrency: nat, timeout: Seconds)
    requires concurrency > 0
  {
    forall t: Timing :: t.Obeys(batchSize, concurrency, timeout) ==>
      DoneBy(t.turns, concurrency, WorstCaseRound(batchSize, concurrency, Some(timeout)).value)
  }

  lemma UnboundedOtherwise(batchSize: nat, concurrency: nat, timeout: Seconds)
    requires batchSize > 1 && concurrency > 1 && timeout > 0.0
    ensures !AlwaysBounded(batchSize, concurrency, timeout)
  {
    var t := OneLongKey(batchSize, concurrency, timeout, (id: Id) => Accepted);
    var k := CeilDiv(batchSize, concurrency);
    CeilIsSmall(batchSize, concurrency);
    WorstCaseIs(batchSize, concurrency, timeout, k);
    TimesMore(k, batchSize - 1, timeout);
    assert !DoneBy(t.turns, concurrency, Times(k, timeout));
  }

  // The formula bounds every round exactly when the batch size or the concurrency is one.
  lemma WorstCaseRoundBounds(batchSize: nat, concurrency: nat, timeout: Seconds)
    requires batchSize > 0 && concurrency > 0 && timeout > 0.0
    ensures AlwaysBounded(batchSize, concurrency, timeout) <==> batchSize == 1 || concurrency == 1
  {
    if batchSize == 1 || concurrency == 1 {
      forall t: Timing | t.Obeys(batchSize, concurrency, timeout)
        ensures DoneBy(t.turns, concurrency,
                       WorstCaseRound(batchSize, concurrency, Some(timeout)).value)
      {
        RoundPublishes(t, batchSize, concurrency, timeout);
        BoundedWhenOne(t.turns, batchSize, concurrency, timeout);
        WorstCaseIs(batchSize, concurrency, timeout, CeilDiv(batchSize, concurrency));
      }
    } else {
      UnboundedOtherwise(batchSize, concurrency, timeout);
    }
  }
}
