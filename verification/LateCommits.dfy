// Runs in which inserts become visible only when their transactions commit, in any order. With
// the required visibility delay such a run is a run of the system in which every insert is
// visible at once, so that everything proved of runs holds of it.

module LateCommits {
  import opened Wrappers
  import opened Rows
  import opened Claim
  import opened Round
  import opened RoundStart
  import opened OutboxSystem
  import opened Ordering
  import opened Visibility

  // The system, and the transaction of each of its rows. Rows whose transaction has not
  // committed are in the table already, but no claim sees them.
  datatype Late = Late(s: Sys, history: seq<Insert>)

  const NOTHING := Late(EMPTY, [])

  // Which clock stamps rows, how long transactions last at most, and the visibility delay.
  datatype Setup = Setup(stamp: Stamp, longest: Time, delay: Time) {
    predicate Sufficient() {
      delay >= RequiredDelay(stamp, longest)
    }
  }

  // A claim sees what has committed by `snapshot`.
  datatype LateStep =
    | Insertion(key: Option<Key>, startedAt: Time, insertedAt: Time, committedAt: Time)
    | Claiming(round: nat, q: Query, maxAttempts: int, snapshot: Time)
    | Other(step: Step)

  predicate Seen(i: Insert, snapshot: Time) {
    i.committed && i.endedAt <= snapshot
  }

  // The table as the claim sees it.
  function SeenRows(rows: seq<Row>, history: seq<Insert>, snapshot: Time): seq<Row>
    requires |rows| == |history|
  {
    if rows == [] then []
    else
      var n := |rows| - 1;
      SeenRows(rows[..n], history[..n], snapshot) +
      if Seen(history[n], snapshot) then [rows[n]] else []
  }

  // The whole table after a claim on the part that it sees.
  function LateClaimRows(rows: seq<Row>, history: seq<Insert>, snapshot: Time, q: Query): (r: seq<Row>)
    requires |rows| == |history|
    ensures |r| == |rows|
  {
    if rows == [] then []
    else
      var n := |rows| - 1;
      LateClaimRows(rows[..n], history[..n], snapshot, q) +
      [if Seen(history[n], snapshot)
       then AfterClaim(SeenRows(rows[..n], history[..n], snapshot), rows[n], q) else rows[n]]
  }

  // What the claim sees of the table afterwards is the claim of what it saw before.
  lemma {:induction false} LateClaimOfSeen(rows: seq<Row>, history: seq<Insert>, snapshot: Time,
                                           q: Query)
    requires |rows| == |history|
    ensures SeenRows(LateClaimRows(rows, history, snapshot, q), history, snapshot)
            == ClaimRows(SeenRows(rows, history, snapshot), q)
  {
    if rows != [] {
      var n := |rows| - 1;
      var after := LateClaimRows(rows, history, snapshot, q);
      var seen := SeenRows(rows[..n], history[..n], snapshot);
      LateClaimOfSeen(rows[..n], history[..n], snapshot, q);
      assert after[..n] == LateClaimRows(rows[..n], history[..n], snapshot, q);
      if Seen(history[n], snapshot) {
        ClaimSnoc(seen, rows[n], q);
      } else {
        assert SeenRows(rows, history, snapshot) == seen;
      }
    }
  }

  predicate LateEnabled(l: Late, step: LateStep) {
    match step
    case Insertion(_, _, _, _) => true
    case Claiming(r, _, _, _) => r !in l.s.rounds
    case Other(other) => !other.Produce? && !other.Begin? && Enabled(l.s, other)
  }

  function LateNext(l: Late, step: LateStep, setup: Setup): Late
    requires LateEnabled(l, step) && |l.s.tallies| == |l.s.rows| == |l.history|
  {
    match step
    case Insertion(key, startedAt, insertedAt, committedAt) =>
      var i := Insert(|l.s.rows| + 1, key, startedAt, insertedAt, committedAt, true);
      Late(Next(l.s, Produce(key, CreatedAt(i, setup.stamp))), l.history + [i])
    case Claiming(r, q, maxAttempts, snapshot) =>
      var batch := ClaimBatch(SeenRows(l.s.rows, l.history, snapshot), q);
      var s' := Changed(l.s, LateClaimRows(l.s.rows, l.history, snapshot, q));
      l.(s := s'.(rounds := l.s.rounds[r := LiveRound(Runner(q.worker, maxAttempts),
                                                      StartLanes(batch), [],
                                                      EpochsOf(batch, s'.tallies))]))
    case Other(other) => l.(s := Next(l.s, other))
  }

  // Transactions last at most `longest`, ids follow the inserts, and claims use the delay.
  predicate Proper(l: Late, step: LateStep, setup: Setup) {
    match step
    case Insertion(_, startedAt, insertedAt, committedAt) =>
      && startedAt <= insertedAt <= committedAt <= startedAt + setup.longest
      && (l.history != [] ==> l.history[|l.history| - 1].insertedAt <= insertedAt)
    case Claiming(_, q, _, snapshot) => q.visibility == Some(setup.delay) && q.now <= snapshot
    case Other(_) => true
  }

  // The same step when inserts are visible at once.
  function Eager(l: Late, step: LateStep, setup: Setup): Step {
    match step
    case Insertion(key, startedAt, insertedAt, committedAt) =>
      Produce(key, CreatedAt(Insert(0, key, startedAt, insertedAt, committedAt, true), setup.stamp))
    case Claiming(r, q, maxAttempts, _) => Begin(r, q, maxAttempts)
    case Other(other) => other
  }

  // ---------------------------------------------------------- claims see enough

  ghost predicate Recorded(l: Late, setup: Setup) {
    && TableShape(l.s) && |l.history| == |l.s.rows| && Legal(l.history, setup.longest)
    && forall i :: 0 <= i < |l.s.rows| ==>
         ComesFrom(l.s.rows[i], l.history[i], setup.stamp) && l.history[i].committed
  }

  // From the first row that the claim cannot see on, all rows are too young for it.
  lemma UnseenIsYoung(rows: seq<Row>, history: seq<Insert>, setup: Setup, q: Query, snapshot: Time,
                      i: nat, j: nat)
    requires |rows| == |history| && i <= j < |rows| && Legal(history, setup.longest)
    requires ComesFrom(rows[j], history[j], setup.stamp) && history[i].committed
    requires setup.Sufficient() && q.visibility == Some(setup.delay) && q.now <= snapshot
    requires !Seen(history[i], snapshot)
    ensures TooYoung(rows[j], q)
  {
    assert history[i].insertedAt <= history[j].insertedAt;
    assert history[i].endedAt <= history[i].startedAt + setup.longest;
    assert history[j].endedAt <= history[j].startedAt + setup.longest;
  }

  lemma {:induction false} AllSeen(rows: seq<Row>, history: seq<Insert>, snapshot: Time)
    requires |rows| == |history|
    requires forall i :: 0 <= i < |rows| ==> Seen(history[i], snapshot)
    ensures SeenRows(rows, history, snapshot) == rows
  {
    if rows != [] {
      AllSeen(rows[..|rows| - 1], history[..|rows| - 1], snapshot);
    }
  }

  // Whether row `n` is taken does not depend on the rows before it that the claim cannot see.
  lemma TakenAlike(rows: seq<Row>, history: seq<Insert>, setup: Setup, q: Query, snapshot: Time,
                   n: nat)
    requires |rows| == |history| && n < |rows| && Legal(history, setup.longest)
    requires forall i :: 0 <= i < |rows| ==>
      ComesFrom(rows[i], history[i], setup.stamp) && history[i].committed
    requires setup.Sufficient() && q.visibility == Some(setup.delay) && q.now <= snapshot
    ensures Taken(rows[..n], rows[n], q) <==>
            Seen(history[n], snapshot) &&
            Taken(SeenRows(rows[..n], history[..n], snapshot), rows[n], q)
  {
    if i :| 0 <= i <= n && !Seen(history[i], snapshot) {
      UnseenIsYoung(rows, history, setup, q, snapshot, i, n);
    } else {
      AllSeen(rows[..n], history[..n], snapshot);
    }
  }

  lemma {:induction false} LegalPrefix(history: seq<Insert>, longest: Time, n: nat)
    requires Legal(history, longest) && n <= |history|
    ensures Legal(history[..n], longest)
  {
  }

  // The claim of what is visible is the claim of everything.
  lemma {:induction false} LateClaimIsEager(rows: seq<Row>, history: seq<Insert>, setup: Setup,
                                            q: Query, snapshot: Time)
    requires |rows| == |history| && Legal(history, setup.longest)
    requires forall i :: 0 <= i < |rows| ==>
      ComesFrom(rows[i], history[i], setup.stamp) && history[i].committed
    requires setup.Sufficient() && q.visibility == Some(setup.delay) && q.now <= snapshot
    ensures LateClaimRows(rows, history, snapshot, q) == ClaimRows(rows, q)
    ensures ClaimBatch(SeenRows(rows, history, snapshot), q) == ClaimBatch(rows, q)
  {
    if rows != [] {
      var n := |rows| - 1;
      LegalPrefix(history, setup.longest, n);
      LateClaimIsEager(rows[..n], history[..n], setup, q, snapshot);
      TakenAlike(rows, history, setup, q, snapshot, n);
      if Seen(history[n], snapshot) {
        ClaimSnoc(SeenRows(rows[..n], history[..n], snapshot), rows[n], q);
      } else {
        assert SeenRows(rows, history, snapshot) == SeenRows(rows[..n], history[..n], snapshot);
      }
    }
  }

  // ------------------------------------------------------------------ whole runs

  lemma StepIsEager(l: Late, step: LateStep, setup: Setup)
    requires Recorded(l, setup) && setup.Sufficient()
    requires LateEnabled(l, step) && Proper(l, step, setup)
    ensures Enabled(l.s, Eager(l, step, setup))
    ensures LateNext(l, step, setup).s == Next(l.s, Eager(l, step, setup))
  {
    if step.Claiming? {
      LateClaimIsEager(l.s.rows, l.history, setup, step.q, step.snapshot);
    }
  }

  lemma LegalNext(history: seq<Insert>, longest: Time, i: Insert)
    requires Legal(history, longest)
    requires i.startedAt <= i.insertedAt <= i.endedAt <= i.startedAt + longest
    requires history != [] ==> history[|history| - 1].insertedAt <= i.insertedAt
    requires forall h :: 0 <= h < |history| ==> history[h].id < i.id
    ensures Legal(history + [i], longest)
  {
    forall h | 0 <= h < |history| ensures history[h].insertedAt <= i.insertedAt {
      assert history[h].insertedAt <= history[|history| - 1].insertedAt;
    }
  }

  lemma StepKeepsRecord(l: Late, step: LateStep, setup: Setup)
    requires Recorded(l, setup) && setup.Sufficient()
    requires LateEnabled(l, step) && Proper(l, step, setup)
    ensures Recorded(LateNext(l, step, setup), setup)
  {
    var l' := LateNext(l, step, setup);
    var eager := Eager(l, step, setup);
    StepIsEager(l, step, setup);
    StepKeepsTable(l.s, eager);
    forall i | 0 <= i < |l.s.rows| ensures ComesFrom(l'.s.rows[i], l.history[i], setup.stamp) {
      Absorbing(l.s, eager, i);
    }
    if step.Insertion? {
      LegalNext(l.history, setup.longest, l'.history[|l.history|]);
    } else {
      RowsStay(l, step, setup);
    }
  }

  lemma RowsStay(l: Late, step: LateStep, setup: Setup)
    requires LateEnabled(l, step) && |l.s.tallies| == |l.s.rows| == |l.history| && !step.Insertion?
    ensures |LateNext(l, step, setup).s.rows| == |l.s.rows|
    ensures LateNext(l, step, setup).history == l.history
  {
  }

  predicate LateRun(l: Late, steps: seq<LateStep>, setup: Setup)
    requires |l.s.tallies| == |l.s.rows| == |l.history|
    decreases |steps|
  {
    steps == [] ||
    (LateEnabled(l, steps[0]) && Proper(l, steps[0], setup) &&
     var l' := LateNext(l, steps[0], setup);
     |l'.s.tallies| == |l'.s.rows| == |l'.history| && LateRun(l', steps[1..], setup))
  }

  function LateExec(l: Late, steps: seq<LateStep>, setup: Setup): Late
    requires |l.s.tallies| == |l.s.rows| == |l.history| && LateRun(l, steps, setup)
    decreases |steps|
  {
    if steps == [] then l else LateExec(LateNext(l, steps[0], setup), steps[1..], setup)
  }

  function EagerSteps(l: Late, steps: seq<LateStep>, setup: Setup): seq<Step>
    requires |l.s.tallies| == |l.s.rows| == |l.history| && LateRun(l, steps, setup)
    decreases |steps|
  {
    if steps == [] then []
    else [Eager(l, steps[0], setup)] + EagerSteps(LateNext(l, steps[0], setup), steps[1..], setup)
  }

  lemma {:induction false} RunIsEager(l: Late, steps: seq<LateStep>, setup: Setup)
    requires Recorded(l, setup) && setup.Sufficient() && LateRun(l, steps, setup)
    ensures
      var eager := EagerSteps(l, steps, setup);
      Run(l.s, eager) && Exec(l.s, eager) == LateExec(l, steps, setup).s
    ensures Recorded(LateExec(l, steps, setup), setup)
    decreases |steps|
  {
    if steps != [] {
      var l' := LateNext(l, steps[0], setup);
      StepIsEager(l, steps[0], setup);
      StepKeepsRecord(l, steps[0], setup);
      RunIsEager(l', steps[1..], setup);
      var eager := EagerSteps(l, steps, setup);
      assert eager[0] == Eager(l, steps[0], setup);
      assert eager[1..] == EagerSteps(l', steps[1..], setup);
    }
  }

  // With the required delay, late commits cannot be noticed: every run with them ends in the
  // state of a run in which every insert is visible at once.
  lemma {:induction false} LateCommitsAreInvisible(steps: seq<LateStep>, setup: Setup)
    requires setup.Sufficient() && LateRun(NOTHING, steps, setup)
    ensures
      var eager := EagerSteps(NOTHING, steps, setup);
      Run(EMPTY, eager) && Exec(EMPTY, eager) == LateExec(NOTHING, steps, setup).s
  {
    RunIsEager(NOTHING, steps, setup);
  }

  predicate StrictClaims(steps: seq<LateStep>) {
    forall k :: 0 <= k < |steps| && steps[k].Claiming? ==> steps[k].q.strict
  }

  lemma {:induction false} EagerIsStrict(l: Late, steps: seq<LateStep>, setup: Setup)
    requires |l.s.tallies| == |l.s.rows| == |l.history| && LateRun(l, steps, setup)
    requires StrictClaims(steps)
    ensures Strict(EagerSteps(l, steps, setup))
    decreases |steps|
  {
    if steps != [] {
      assert StrictClaims(steps[1..]);
      EagerIsStrict(LateNext(l, steps[0], setup), steps[1..], setup);
    }
  }

  // Insertion order despite late commits: when a message is accepted, every earlier insert of
  // its key, whenever it commits, has been accepted before or is DEAD.
  lemma {:induction false} LateDeliveryOrder(steps: seq<LateStep>, setup: Setup, step: Step, id: Id,
                                             i: nat)
    requires setup.Sufficient() && LateRun(NOTHING, steps, setup) && StrictClaims(steps)
    requires Publishes(LateExec(NOTHING, steps, setup).s, step, id)
    requires
      var s := LateExec(NOTHING, steps, setup).s;
      i < |s.rows| && EarlierSibling(s, i, id)
    ensures
      var s := LateExec(NOTHING, steps, setup).s;
      s.rows[i].id in s.log || s.rows[i].status.Dead?
  {
    LateCommitsAreInvisible(steps, setup);
    EagerIsStrict(NOTHING, steps, setup);
    FirstDeliveryOrder(EagerSteps(NOTHING, steps, setup), step, id, i);
  }
}
