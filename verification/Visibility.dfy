// Ids are given at insert time, rows become visible at commit time: how old a row must be
// before it is claimed, so that no smaller id can still be in an open transaction.

module Visibility {
  import opened Wrappers
  import opened Rows
  import opened Claim

  // One insert into the outbox by one producer transaction.
  datatype Insert = Insert(id: Id, key: Option<Key>, startedAt: Time, insertedAt: Time,
                           endedAt: Time, committed: bool)

  // Which clock stamps `created_at`.
  datatype Stamp = InsertTime | TransactionStart

  function CreatedAt(i: Insert, stamp: Stamp): Time {
    match stamp
    case InsertTime => i.insertedAt
    case TransactionStart => i.startedAt
  }

  // Transactions last at most `longest`; ids are handed out in the order of the inserts,
  // with no time between two of them at the least.
  predicate Legal(history: seq<Insert>, longest: Time) {
    && (forall i :: 0 <= i < |history| ==>
          var t := history[i];
          t.startedAt <= t.insertedAt <= t.endedAt <= t.startedAt + longest)
    && (forall i, j :: 0 <= i < j < |history| ==>
          history[i].id < history[j].id && history[i].insertedAt <= history[j].insertedAt)
  }

  // The row comes from this insert; what relays did to it meanwhile does not matter.
  predicate ComesFrom(row: Row, i: Insert, stamp: Stamp) {
    row.id == i.id && row.key == i.key && row.createdAt == CreatedAt(i, stamp)
  }

  // One claim: it computes ages at `query.now` and sees what has committed by `snapshot`.
  // Row `r` came from insert `sources[r]`.
  datatype Scene = Scene(history: seq<Insert>, rows: seq<Row>, sources: seq<nat>, query: Query,
                         snapshot: Time)

  ghost predicate Possible(s: Scene, stamp: Stamp, delay: Time, longest: Time) {
    && Legal(s.history, longest) && Ascending(s.rows)
    && s.query.visibility == Some(delay) && s.query.now <= s.snapshot
    && |s.sources| == |s.rows|
    && forall r :: 0 <= r < |s.rows| ==>
         && s.sources[r] < |s.history|
         && var i := s.history[s.sources[r]];
            ComesFrom(s.rows[r], i, stamp) && i.committed && i.endedAt <= s.snapshot
  }

  // Every insert with a smaller id than a claimed row has ended when the claim looks.
  ghost predicate EarlierEnded(s: Scene) {
    forall r, j ::
      (0 <= r < |s.rows| && 0 <= j < |s.history| && Taken(s.rows[..r], s.rows[r], s.query) &&
       s.history[j].id < s.rows[r].id)
      ==> s.history[j].endedAt <= s.snapshot
  }

  ghost predicate DelaySuffices(stamp: Stamp, delay: Time, longest: Time) {
    forall s: Scene :: Possible(s, stamp, delay, longest) ==> EarlierEnded(s)
  }

  function RequiredDelay(stamp: Stamp, longest: Time): Time {
    match stamp
    case InsertTime => longest
    case TransactionStart => 2 * longest
  }

  lemma EnoughDelay(s: Scene, stamp: Stamp, delay: Time, longest: Time, r: nat, j: nat)
    requires Possible(s, stamp, delay, longest) && delay >= RequiredDelay(stamp, longest)
    requires r < |s.rows| && j < |s.history| && s.history[j].id < s.rows[r].id
    requires Taken(s.rows[..r], s.rows[r], s.query)
    ensures s.history[j].endedAt <= s.snapshot
  {
    var i := s.sources[r];
    assert j < i;
    var mine, earlier := s.history[i], s.history[j];
    assert mine.insertedAt <= CreatedAt(mine, stamp) + RequiredDelay(stamp, longest) - longest;
    assert earlier.endedAt <= earlier.insertedAt + longest;
  }

  // The worst pair of transactions: the first is still open when the second, inserted at the
  // same moment, has committed and is old enough.
  function WorstScene(stamp: Stamp, delay: Time, longest: Time): Scene {
    var start := match stamp case InsertTime => longest case TransactionStart => 0;
    var open := Insert(1, Some("k"), longest, longest, 2 * longest, true);
    var closed := Insert(2, Some("k"), start, longest, longest, true);
    var age := start + delay;
    Scene([open, closed], [NewRow(2, Some("k"), start)], [1],
          Query("w", age, 60, 10, true, Some(delay)), if age < longest then longest else age)
  }

  lemma TooLittleDelay(stamp: Stamp, delay: Time, longest: Time)
    requires 0 <= delay < RequiredDelay(stamp, longest)
    ensures Possible(WorstScene(stamp, delay, longest), stamp, delay, longest)
    ensures !EarlierEnded(WorstScene(stamp, delay, longest))
  {
    var s := WorstScene(stamp, delay, longest);
    assert ComesFrom(s.rows[0], s.history[1], stamp);
    assert s.rows[..0] == [];
    assert Taken(s.rows[..0], s.rows[0], s.query);
    assert s.history[0].id < s.rows[0].id && s.history[0].endedAt > s.snapshot;
  }

  // With insert-time stamps a delay of one longest transaction is exactly enough; with
  // transaction-start stamps it takes two.
  lemma DelayThreshold(stamp: Stamp, delay: Time, longest: Time)
    requires delay >= 0
    ensures DelaySuffices(stamp, delay, longest) <==> delay >= RequiredDelay(stamp, longest)
  {
    if delay >= RequiredDelay(stamp, longest) {
      forall s: Scene | Possible(s, stamp, delay, longest) ensures EarlierEnded(s) {
        forall r, j |
            0 <= r < |s.rows| && 0 <= j < |s.history| && s.history[j].id < s.rows[r].id &&
            Taken(s.rows[..r], s.rows[r], s.query)
          ensures s.history[j].endedAt <= s.snapshot
        {
          EnoughDelay(s, stamp, delay, longest, r, j);
        }
      }
    } else {
      TooLittleDelay(stamp, delay, longest);
    }
  }

  predicate RowOf(row: Row, i: Insert) {
    row.id == i.id && row.key == i.key
  }

  // Every committed insert the claim can see has its row.
  ghost predicate Complete(s: Scene) {
    forall j :: (0 <= j < |s.history| && s.history[j].committed && s.history[j].endedAt <= s.snapshot)
      ==> exists p :: 0 <= p < |s.rows| && RowOf(s.rows[p], s.history[j])
  }

  // Row `p` needs no claim any more, or is claimed now.
  predicate DealtWith(rows: seq<Row>, q: Query, p: nat)
    requires p < |rows|
  {
    !rows[p].status.Pending? || Taken(rows[..p], rows[p], q)
  }

  lemma PrefixDealtWith(rows: seq<Row>, q: Query, p: nat, r: nat)
    requires q.strict && p < r < |rows|
    requires rows[p].key.Some? && rows[p].key == rows[r].key
    requires Taken(rows[..r], rows[r], q)
    ensures DealtWith(rows, q, p)
  {
    if rows[p].status.Pending? {
      PrefixOfKey(rows, q, p, r);
    }
  }

  lemma SeenBefore(s: Scene, j: nat, r: nat) returns (p: nat)
    requires Complete(s) && Ascending(s.rows) && r < |s.rows|
    requires j < |s.history| && s.history[j].committed && s.history[j].endedAt <= s.snapshot
    requires s.history[j].id < s.rows[r].id
    ensures p < r && RowOf(s.rows[p], s.history[j])
  {
    p :| 0 <= p < |s.rows| && RowOf(s.rows[p], s.history[j]);
    assert p < r;
  }

  // Insertion order per key despite open transactions: when a row is claimed under strict
  // ordering, every earlier insert of its key was rolled back, is finished, or is claimed
  // with it.
  lemma {:induction false} InsertionOrderPerKey(s: Scene, stamp: Stamp, delay: Time, longest: Time,
                                                r: nat, j: nat)
    returns (p: nat)
    requires Possible(s, stamp, delay, longest) && delay >= RequiredDelay(stamp, longest)
    requires Complete(s) && s.query.strict
    requires r < |s.rows| && Taken(s.rows[..r], s.rows[r], s.query) && s.rows[r].key.Some?
    requires j < |s.history| && s.history[j].key == s.rows[r].key && s.history[j].id < s.rows[r].id
    ensures s.history[j].committed ==>
              p < r && RowOf(s.rows[p], s.history[j]) && DealtWith(s.rows, s.query, p)
  {
    EnoughDelay(s, stamp, delay, longest, r, j);
    p := 0;
    if s.history[j].committed {
      p := SeenBefore(s, j, r);
      PrefixDealtWith(s.rows, s.query, p, r);
    }
  }
}
