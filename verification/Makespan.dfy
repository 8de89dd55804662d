// Turns on a limited number of permits, as under a semaphore: when the last one is over if
// every publish is cut off after `timeout` seconds. Seconds are reals.

module Makespan {
  import opened Reals
  import opened Wrappers

  // One group's turn: how long each publish it makes lasts, and the permit it runs on.
  datatype Turn = Turn(publishes: seq<Seconds>, permit: nat)

  function Sum(xs: seq<Seconds>): Seconds {
    if xs == [] then 0.0 else Sum(xs[..|xs| - 1]) + xs[|xs| - 1]
  }

  // Publishes made in all the turns.
  function Publishes(turns: seq<Turn>): nat {
    if turns == [] then 0
    else Publishes(turns[..|turns| - 1]) + |turns[|turns| - 1].publishes|
  }

  // `n` spans of the same length.
  function Repeated(n: nat, x: Seconds): (xs: seq<Seconds>)
    ensures |xs| == n && forall i :: 0 <= i < n ==> xs[i] == x
  {
    if n == 0 then [] else Repeated(n - 1, x) + [x]
  }

  predicate OnPermits(turns: seq<Turn>, concurrency: nat) {
    forall j :: 0 <= j < |turns| ==> turns[j].permit < concurrency
  }

  // When each permit is free again after `turns`, in the order they got a permit.
  function FreeAfter(turns: seq<Turn>, concurrency: nat): (free: seq<Seconds>)
    requires OnPermits(turns, concurrency)
    ensures |free| == concurrency
  {
    if turns == [] then Repeated(concurrency, 0.0)
    else
      var n := |turns| - 1;
      var free := FreeAfter(turns[..n], concurrency);
      var p := turns[n].permit;
      free[p := free[p] + Sum(turns[n].publishes)]
  }

  // Permit `p` is the first to become free.
  predicate Earliest(free: seq<Seconds>, p: nat) {
    p < |free| && forall q :: 0 <= q < |free| ==> free[p] <= free[q]
  }

  // No permit idles while a group waits: each group in turn gets the permit that becomes
  // free first. The groups may come in any order.
  predicate WorkConserving(turns: seq<Turn>, concurrency: nat) {
    && OnPermits(turns, concurrency)
    && forall j :: 0 <= j < |turns| ==>
         Earliest(FreeAfter(turns[..j], concurrency), turns[j].permit)
  }

  predicate CutOff(turns: seq<Turn>, timeout: Seconds) {
    forall j, i :: 0 <= j < |turns| && 0 <= i < |turns[j].publishes| ==>
      0.0 <= turns[j].publishes[i] <= timeout
  }

  predicate DoneBy(turns: seq<Turn>, concurrency: nat, time: Seconds)
    requires OnPermits(turns, concurrency)
  {
    forall p :: 0 <= p < concurrency ==> FreeAfter(turns, concurrency)[p] <= time
  }

  function CeilDiv(a: nat, b: nat): nat
    requires b > 0
  {
    (a + b - 1) / b
  }

  // `RelayConfig.worst_case_round`; none without a publish timeout.
  function WorstCaseRound(batchSize: nat, concurrency: nat, timeout: Option<Seconds>)
    : (worst: Option<Seconds>)
    requires concurrency > 0
    ensures worst.None? <==> timeout.None?
  {
    match timeout
    case None => None
    case Some(t) => Some(CeilDiv(batchSize, concurrency) as real * t)
  }

  // ------------------------------------------------- counting in whole timeouts

  function Product(k: nat, c: nat): nat {
    if k == 0 then 0 else Product(k - 1, c) + c
  }

  lemma {:induction false} ProductIs(k: nat, c: nat)
    ensures Product(k, c) == k * c
  {
    if k > 0 {
      ProductIs(k - 1, c);
    }
  }

  lemma {:induction false} LongerTimeouts(k: nat, a: Seconds, b: Seconds)
    ensures Times(k, a + b) == Times(k, a) + Times(k, b)
    ensures a <= b ==> Times(k, a) <= Times(k, b)
    ensures k > 0 && a < b ==> Times(k, a) < Times(k, b)
  {
    if k > 0 {
      LongerTimeouts(k - 1, a, b);
    }
  }

  lemma {:induction false} TimesTimes(k: nat, m: nat, timeout: Seconds)
    ensures Times(k, Times(m, timeout)) == Times(Product(k, m), timeout)
  {
    if k > 0 {
      TimesTimes(k - 1, m, timeout);
      TimesAdd(Product(k - 1, m), m, timeout);
    }
  }

  // ------------------------------------------------------------- one group's time

  lemma {:induction false} SumWithin(xs: seq<Seconds>, timeout: Seconds)
    requires forall i :: 0 <= i < |xs| ==> 0.0 <= xs[i] <= timeout
    ensures 0.0 <= Sum(xs) <= Times(|xs|, timeout)
  {
    if xs != [] {
      SumWithin(xs[..|xs| - 1], timeout);
    }
  }

  // ------------------------------------------ when every group publishes at most once

  function Beyond(free: seq<Seconds>, time: Seconds): nat {
    if free == [] then 0
    else Beyond(free[..|free| - 1], time) + if free[|free| - 1] > time then 1 else 0
  }

  lemma {:induction false} BeyondUpdate(free: seq<Seconds>, p: nat, v: Seconds, time: Seconds)
    requires p < |free|
    ensures Beyond(free[p := v], time) + (if free[p] > time then 1 else 0) ==
            Beyond(free, time) + if v > time then 1 else 0
  {
    var n := |free| - 1;
    if p == n {
      assert free[p := v][..n] == free[..n];
    } else {
      assert free[p := v][..n] == free[..n][p := v];
      BeyondUpdate(free[..n], p, v, time);
    }
  }

  lemma {:induction false} AllBeyond(free: seq<Seconds>, time: Seconds)
    ensures Beyond(free, time) <= |free|
    ensures (forall q :: 0 <= q < |free| ==> free[q] > time) ==> Beyond(free, time) == |free|
  {
    if free != [] {
      AllBeyond(free[..|free| - 1], time);
    }
  }

  lemma {:induction false} NoneBeyond(free: seq<Seconds>, time: Seconds)
    ensures Beyond(free, time) == 0 ==> forall q :: 0 <= q < |free| ==> free[q] <= time
    ensures (forall q :: 0 <= q < |free| ==> free[q] <= time) ==> Beyond(free, time) == 0
  {
    if free != [] {
      NoneBeyond(free[..|free| - 1], time);
    }
  }

  lemma ShorterSchedule(turns: seq<Turn>, concurrency: nat, n: nat)
    requires WorkConserving(turns, concurrency) && n <= |turns|
    ensures WorkConserving(turns[..n], concurrency)
  {
    forall j | 0 <= j < n
      ensures Earliest(FreeAfter(turns[..n][..j], concurrency), turns[..n][j].permit)
    {
      assert turns[..n][..j] == turns[..j];
    }
  }

  // Handing permit `p`, the first free, a turn of at most one timeout. Counting permits
  // beyond a time: one more at most, and then all of them were beyond one timeout less.
  lemma BeyondStep(free: seq<Seconds>, p: nat, end: Seconds, timeout: Seconds, k: nat)
    requires Earliest(free, p) && end <= free[p] + timeout
    ensures
      var was, now := Beyond(free, Times(k, timeout)), Beyond(free[p := end], Times(k, timeout));
      || now <= was
      || (now == was + 1 && (k == 0 || Beyond(free, Times(k - 1, timeout)) == |free|))
  {
    BeyondUpdate(free, p, end, Times(k, timeout));
    if k > 0 {
      AllBeyond(free, Times(k - 1, timeout));
    }
  }

  // At most `turns - k * concurrency` permits are beyond `k` timeouts.
  predicate Level(free: seq<Seconds>, timeout: Seconds, k: nat, turns: nat) {
    var beyond := Beyond(free, Times(k, timeout));
    beyond == 0 || beyond + Product(k, |free|) <= turns
  }

  lemma LevelStep(free: seq<Seconds>, p: nat, end: Seconds, timeout: Seconds, k: nat, turns: nat,
                  free': seq<Seconds>)
    requires Earliest(free, p) && end <= free[p] + timeout && free' == free[p := end]
    requires Level(free, timeout, k, turns) && (k > 0 ==> Level(free, timeout, k - 1, turns))
    ensures Level(free', timeout, k, turns + 1)
  {
    BeyondStep(free, p, end, timeout, k);
    AllBeyond(free, Times(k, timeout));
  }

  lemma LevelAtStart(concurrency: nat, timeout: Seconds, k: nat)
    requires timeout >= 0.0
    ensures Level(FreeAfter([], concurrency), timeout, k, 0)
  {
    TimesNonNegative(k, timeout);
    NoneBeyond(FreeAfter([], concurrency), Times(k, timeout));
  }

  // What the last turn, of at most one publish, does to the permits.
  lemma LastTurn(turns: seq<Turn>, concurrency: nat, timeout: Seconds) returns (end: Seconds)
    requires turns != [] && WorkConserving(turns, concurrency) && CutOff(turns, timeout)
    requires |turns[|turns| - 1].publishes| <= 1 && timeout >= 0.0
    ensures
      var n := |turns| - 1;
      var free, p := FreeAfter(turns[..n], concurrency), turns[n].permit;
      && Earliest(free, p) && end <= free[p] + timeout
      && FreeAfter(turns, concurrency) == free[p := end]
  {
    var n := |turns| - 1;
    SinglePublish(turns[n].publishes, timeout);
    end := FreeAfter(turns[..n], concurrency)[turns[n].permit] + Sum(turns[n].publishes);
  }

  lemma {:induction false} BeyondLevel(turns: seq<Turn>, concurrency: nat, timeout: Seconds, k: nat)
    requires WorkConserving(turns, concurrency) && CutOff(turns, timeout)
    requires forall j :: 0 <= j < |turns| ==> |turns[j].publishes| <= 1
    requires timeout >= 0.0
    ensures Level(FreeAfter(turns, concurrency), timeout, k, |turns|)
    decreases |turns|
  {
    if turns == [] {
      LevelAtStart(concurrency, timeout, k);
    } else {
      var n := |turns| - 1;
      ShorterSchedule(turns, concurrency, n);
      BeyondLevel(turns[..n], concurrency, timeout, k);
      if k > 0 {
        BeyondLevel(turns[..n], concurrency, timeout, k - 1);
      }
      var end := LastTurn(turns, concurrency, timeout);
      LevelStep(FreeAfter(turns[..n], concurrency), turns[n].permit, end, timeout, k, n,
                FreeAfter(turns, concurrency));
    }
  }

  lemma SinglePublish(xs: seq<Seconds>, timeout: Seconds)
    requires |xs| <= 1 && timeout >= 0.0
    requires forall i :: 0 <= i < |xs| ==> 0.0 <= xs[i] <= timeout
    ensures 0.0 <= Sum(xs) <= timeout
  {
    if |xs| == 1 {
      assert xs[..0] == [];
    }
  }

  lemma CeilCovers(n: nat, b: nat, c: nat)
    requires n <= b && c > 0
    ensures Product(CeilDiv(b, c), c) >= n
  {
    ProductIs(CeilDiv(b, c), c);
    assert b + c - 1 == CeilDiv(b, c) * c + (b + c - 1) % c;
  }

  lemma {:induction false} SinglePublishesTime(turns: seq<Turn>, concurrency: nat,
                                               timeout: Seconds, k: nat)
    requires concurrency > 0 && timeout >= 0.0
    requires WorkConserving(turns, concurrency) && CutOff(turns, timeout)
    requires forall j :: 0 <= j < |turns| ==> |turns[j].publishes| <= 1
    requires Product(k, concurrency) >= |turns|
    ensures DoneBy(turns, concurrency, Times(k, timeout))
  {
    BeyondLevel(turns, concurrency, timeout, k);
    NoneBeyond(FreeAfter(turns, concurrency), Times(k, timeout));
  }

  lemma WorstCaseIs(batchSize: nat, concurrency: nat, timeout: Seconds, k: nat)
    requires concurrency > 0 && k == CeilDiv(batchSize, concurrency)
    ensures WorstCaseRound(batchSize, concurrency, Some(timeout)).value == Times(k, timeout)
  {
    TimesIs(k, timeout);
  }

  // If no group publishes more than once, the documented formula bounds the round.
  lemma SinglePublishesBound(turns: seq<Turn>, batchSize: nat, concurrency: nat, timeout: Seconds)
    requires concurrency > 0 && timeout >= 0.0
    requires WorkConserving(turns, concurrency) && CutOff(turns, timeout)
    requires |turns| <= batchSize
    requires forall j :: 0 <= j < |turns| ==> |turns[j].publishes| <= 1
    ensures DoneBy(turns, concurrency, WorstCaseRound(batchSize, concurrency, Some(timeout)).value)
  {
    CeilCovers(|turns|, batchSize, concurrency);
    SinglePublishesTime(turns, concurrency, timeout, CeilDiv(batchSize, concurrency));
    WorstCaseIs(batchSize, concurrency, timeout, CeilDiv(batchSize, concurrency));
  }

  // ------------------------------------- when every turn is one publish cut off

  lemma FreeSnoc(turns: seq<Turn>, last: Turn, concurrency: nat, all: seq<Turn>)
    requires OnPermits(turns, concurrency) && last.permit < concurrency && all == turns + [last]
    ensures OnPermits(all, concurrency)
    ensures
      var free := FreeAfter(turns, concurrency);
      FreeAfter(all, concurrency) ==
      free[last.permit := free[last.permit] + Sum(last.publishes)]
  {
    assert all[..|all| - 1] == turns;
  }

  lemma SumOfOne(x: Seconds)
    ensures Sum([x]) == x
  {
    assert [x][..0] == [];
  }

  // Every turn is one publish that lasts until the timeout.
  predicate AllTimeOut(turns: seq<Turn>, timeout: Seconds) {
    forall j :: 0 <= j < |turns| ==> turns[j].publishes == [timeout]
  }

  // Turns that permit `p` has had.
  function TurnsOn(turns: seq<Turn>, p: nat): nat {
    if turns == [] then 0
    else
      var n := |turns| - 1;
      TurnsOn(turns[..n], p) + if turns[n].permit == p then 1 else 0
  }

  lemma {:induction false} BusyForTurns(turns: seq<Turn>, concurrency: nat, timeout: Seconds, p: nat)
    requires OnPermits(turns, concurrency) && AllTimeOut(turns, timeout) && p < concurrency
    ensures FreeAfter(turns, concurrency)[p] == Times(TurnsOn(turns, p), timeout)
    decreases |turns|
  {
    if turns != [] {
      var n := |turns| - 1;
      BusyForTurns(turns[..n], concurrency, timeout, p);
      FreeSnoc(turns[..n], turns[n], concurrency, turns);
      SumOfOne(timeout);
    }
  }

  // Turns that the first `k` permits have had.
  function TurnsOnFirst(turns: seq<Turn>, k: nat): nat {
    if k == 0 then 0 else TurnsOnFirst(turns, k - 1) + TurnsOn(turns, k - 1)
  }

  lemma {:induction false} NoTurns(k: nat)
    ensures TurnsOnFirst([], k) == 0
  {
    if k > 0 {
      NoTurns(k - 1);
    }
  }

  lemma {:induction false} OneTurnMore(turns: seq<Turn>, k: nat)
    requires turns != []
    ensures
      var n := |turns| - 1;
      TurnsOnFirst(turns, k) == TurnsOnFirst(turns[..n], k) + if turns[n].permit < k then 1 else 0
  {
    if k > 0 {
      OneTurnMore(turns, k - 1);
    }
  }

  lemma {:induction false} EveryTurnOnce(turns: seq<Turn>, concurrency: nat)
    requires OnPermits(turns, concurrency)
    ensures TurnsOnFirst(turns, concurrency) == |turns|
    decreases |turns|
  {
    if turns == [] {
      NoTurns(concurrency);
    } else {
      EveryTurnOnce(turns[..|turns| - 1], concurrency);
      OneTurnMore(turns, concurrency);
    }
  }

  // Some permit has more than an even share.
  lemma {:induction false} Crowded(turns: seq<Turn>, k: nat, share: nat) returns (p: nat)
    requires TurnsOnFirst(turns, k) > Product(k, share)
    ensures p < k && TurnsOn(turns, p) > share
  {
    if TurnsOn(turns, k - 1) > share {
      p := k - 1;
    } else {
      p := Crowded(turns, k - 1, share);
    }
  }

  lemma CeilIsLeast(n: nat, c: nat)
    requires c > 0
    ensures Product(CeilDiv(n, c), c) < n + c
  {
    ProductIs(CeilDiv(n, c), c);
    assert n + c - 1 == CeilDiv(n, c) * c + (n + c - 1) % c;
  }

  lemma ProductCommutes(k: nat, c: nat)
    ensures Product(k, c) == Product(c, k)
  {
    ProductIs(k, c);
    ProductIs(c, k);
  }

  // Some permit has its share rounded up.
  lemma LargestShare(turns: seq<Turn>, concurrency: nat) returns (p: nat)
    requires concurrency > 0 && OnPermits(turns, concurrency)
    ensures p < concurrency && TurnsOn(turns, p) >= CeilDiv(|turns|, concurrency)
  {
    var ceil := CeilDiv(|turns|, concurrency);
    if ceil == 0 {
      p := 0;
    } else {
      CeilIsLeast(|turns|, concurrency);
      ProductCommutes(concurrency, ceil - 1);
      EveryTurnOnce(turns, concurrency);
      p := Crowded(turns, concurrency, ceil - 1);
    }
  }

  // Then the documented formula is the time of the last publish, not just a bound on it.
  lemma AllTimeOutTime(turns: seq<Turn>, concurrency: nat, timeout: Seconds) returns (p: nat)
    requires concurrency > 0 && timeout >= 0.0
    requires WorkConserving(turns, concurrency) && AllTimeOut(turns, timeout)
    ensures
      var time := WorstCaseRound(|turns|, concurrency, Some(timeout)).value;
      && DoneBy(turns, concurrency, time)
      && p < concurrency && FreeAfter(turns, concurrency)[p] == time
  {
    var ceil := CeilDiv(|turns|, concurrency);
    SinglePublishesBound(turns, |turns|, concurrency, timeout);
    WorstCaseIs(|turns|, concurrency, timeout, ceil);
    p := LargestShare(turns, concurrency);
    BusyForTurns(turns, concurrency, timeout, p);
    TimesMore(ceil, TurnsOn(turns, p), timeout);
  }

  lemma {:induction false} FirstFree(free: seq<Seconds>) returns (p: nat)
    requires free != []
    ensures Earliest(free, p)
  {
    var n := |free| - 1;
    p := n;
    if n > 0 {
      var q := FirstFree(free[..n]);
      p := if free[q] <= free[n] then q else n;
      assert forall k :: 0 <= k < n ==> free[..n][k] == free[k];
    }
  }

  lemma ConservesSnoc(before: seq<Turn>, last: Turn, concurrency: nat)
    requires WorkConserving(before, concurrency)
    requires Earliest(FreeAfter(before, concurrency), last.permit)
    ensures WorkConserving(before + [last], concurrency)
  {
    var all := before + [last];
    forall j | 0 <= j < |all| ensures Earliest(FreeAfter(all[..j], concurrency), all[j].permit) {
      if j < |before| {
        assert all[..j] == before[..j];
      } else {
        assert all[..j] == before;
      }
    }
  }

  // There are such turns, as many as one likes.
  lemma {:induction false} TakeTurns(n: nat, concurrency: nat, timeout: Seconds)
    returns (turns: seq<Turn>)
    requires concurrency > 0 && timeout >= 0.0
    ensures |turns| == n && WorkConserving(turns, concurrency)
    ensures AllTimeOut(turns, timeout) && CutOff(turns, timeout)
  {
    turns := [];
    if n > 0 {
      var before := TakeTurns(n - 1, concurrency, timeout);
      var p := FirstFree(FreeAfter(before, concurrency));
      ConservesSnoc(before, Turn([timeout], p), concurrency);
      turns := before + [Turn([timeout], p)];
    }
  }

  // --------------------------------------------------------------- any groups

  lemma {:induction false} SumUpdate(xs: seq<Seconds>, p: nat, v: Seconds)
    requires p < |xs|
    ensures Sum(xs[p := v]) == Sum(xs) - xs[p] + v
  {
    var n := |xs| - 1;
    if p == n {
      assert xs[p := v][..n] == xs[..n];
    } else {
      assert xs[p := v][..n] == xs[..n][p := v];
      SumUpdate(xs[..n], p, v);
    }
  }

  lemma {:induction false} SumAtLeast(xs: seq<Seconds>, least: Seconds)
    requires forall q :: 0 <= q < |xs| ==> least <= xs[q]
    ensures Times(|xs|, least) <= Sum(xs)
  {
    if xs != [] {
      SumAtLeast(xs[..|xs| - 1], least);
    }
  }

  lemma {:induction false} SumOfEqual(n: nat, t: Seconds)
    ensures Sum(Repeated(n, t)) == Times(n, t)
  {
    if n > 0 {
      SumOfEqual(n - 1, t);
      assert Repeated(n, t)[..n - 1] == Repeated(n - 1, t);
    }
  }

  // The permits together are busy for at most `publishes` timeouts.
  predicate Busy(free: seq<Seconds>, publishes: nat, timeout: Seconds) {
    Sum(free) <= Times(publishes, timeout)
  }

  lemma IdleAtStart(concurrency: nat)
    ensures Sum(FreeAfter([], concurrency)) == 0.0
  {
    SumOfEqual(concurrency, 0.0);
    TimesIs(concurrency, 0.0);
  }

  lemma BusyStep(free: seq<Seconds>, turn: Turn, publishes: nat, timeout: Seconds,
                 free': seq<Seconds>)
    requires turn.permit < |free| && Busy(free, publishes, timeout)
    requires forall i :: 0 <= i < |turn.publishes| ==> 0.0 <= turn.publishes[i] <= timeout
    requires free' == free[turn.permit := free[turn.permit] + Sum(turn.publishes)]
    ensures Busy(free', publishes + |turn.publishes|, timeout)
  {
    SumUpdate(free, turn.permit, free[turn.permit] + Sum(turn.publishes));
    SumWithin(turn.publishes, timeout);
    TimesAdd(publishes, |turn.publishes|, timeout);
  }

  lemma PublishesSnoc(before: seq<Turn>, turn: Turn, turns: seq<Turn>)
    requires turns == before + [turn]
    ensures Publishes(turns) == Publishes(before) + |turn.publishes|
  {
    assert turns[..|turns| - 1] == before;
  }

  lemma BusyNext(before: seq<Turn>, turn: Turn, turns: seq<Turn>, concurrency: nat,
                 timeout: Seconds)
    requires OnPermits(before, concurrency) && turn.permit < concurrency
    requires turns == before + [turn]
    requires forall i :: 0 <= i < |turn.publishes| ==> 0.0 <= turn.publishes[i] <= timeout
    requires Busy(FreeAfter(before, concurrency), Publishes(before), timeout)
    ensures OnPermits(turns, concurrency)
    ensures Busy(FreeAfter(turns, concurrency), Publishes(turns), timeout)
  {
    FreeSnoc(before, turn, concurrency, turns);
    PublishesSnoc(before, turn, turns);
    BusyStep(FreeAfter(before, concurrency), turn, Publishes(before), timeout,
             FreeAfter(turns, concurrency));
  }

  lemma {:induction false} BusyTime(turns: seq<Turn>, concurrency: nat, timeout: Seconds)
    requires OnPermits(turns, concurrency) && CutOff(turns, timeout)
    ensures Busy(FreeAfter(turns, concurrency), Publishes(turns), timeout)
  {
    if turns == [] {
      IdleAtStart(concurrency);
    } else {
      var n := |turns| - 1;
      BusyTime(turns[..n], concurrency, timeout);
      BusyNext(turns[..n], turns[n], turns, concurrency, timeout);
    }
  }

  // Timeouts that `concurrency` permits together may need for a batch of `total` messages
  // whose longest group has `longest`.
  function SharedWork(total: nat, longest: nat, concurrency: nat): nat
    requires longest <= total
  {
    total - longest + Product(concurrency, longest)
  }

  lemma {:induction false} ProductGrows(c: nat, a: nat, b: nat)
    requires a <= b && c > 0
    ensures Product(c, a) - a <= Product(c, b) - b
  {
    if c > 1 {
      ProductGrows(c - 1, a, b);
    }
  }

  // One turn starts no later than an even share of the work handed out before it.
  lemma TurnEnds(start: Seconds, work: Seconds, mine: nat, others: nat, total: nat, longest: nat,
                 concurrency: nat, timeout: Seconds)
    requires concurrency > 0 && timeout >= 0.0
    requires mine <= longest <= total && others + mine <= total
    requires Times(concurrency, start) <= Times(others, timeout)
    requires work <= Times(mine, timeout)
    ensures Times(concurrency, start + work)
            <= Times(SharedWork(total, longest, concurrency), timeout)
  {
    LongerTimeouts(concurrency, start, work);
    LongerTimeouts(concurrency, work, Times(mine, timeout));
    TimesTimes(concurrency, mine, timeout);
    TimesAdd(others, Product(concurrency, mine), timeout);
    ProductGrows(concurrency, mine, longest);
    TimesMore(others + Product(concurrency, mine), SharedWork(total, longest, concurrency),
                 timeout);
  }

  // The last turn, on the permit that is first free.
  lemma LastTurnShares(before: seq<Turn>, turn: Turn, total: nat, longest: nat, concurrency: nat,
                       timeout: Seconds)
    requires concurrency > 0 && timeout >= 0.0 && longest <= total
    requires OnPermits(before, concurrency) && CutOff(before, timeout)
    requires Earliest(FreeAfter(before, concurrency), turn.permit)
    requires forall i :: 0 <= i < |turn.publishes| ==> 0.0 <= turn.publishes[i] <= timeout
    requires |turn.publishes| <= longest && Publishes(before) + |turn.publishes| <= total
    ensures Times(concurrency, FreeAfter(before, concurrency)[turn.permit] + Sum(turn.publishes))
            <= Times(SharedWork(total, longest, concurrency), timeout)
  {
    var free := FreeAfter(before, concurrency);
    BusyTime(before, concurrency, timeout);
    SumAtLeast(free, free[turn.permit]);
    SumWithin(turn.publishes, timeout);
    TurnEnds(free[turn.permit], Sum(turn.publishes), |turn.publishes|, Publishes(before), total,
             longest, concurrency, timeout);
  }

  // No permit is needed longer than its even share of the work and the longest group.
  ghost predicate Shared(free: seq<Seconds>, total: nat, longest: nat, timeout: Seconds)
    requires longest <= total
  {
    forall p :: 0 <= p < |free| ==>
      Times(|free|, free[p]) <= Times(SharedWork(total, longest, |free|), timeout)
  }

  lemma SharedAtStart(total: nat, longest: nat, concurrency: nat, timeout: Seconds)
    requires timeout >= 0.0 && longest <= total
    ensures Shared(FreeAfter([], concurrency), total, longest, timeout)
  {
    LongerTimeouts(concurrency, 0.0, 0.0);
    TimesNonNegative(SharedWork(total, longest, concurrency), timeout);
  }

  lemma SharedStep(free: seq<Seconds>, p: nat, end: Seconds, total: nat, longest: nat,
                   timeout: Seconds)
    requires longest <= total && p < |free| && Shared(free, total, longest, timeout)
    requires Times(|free|, end) <= Times(SharedWork(total, longest, |free|), timeout)
    ensures Shared(free[p := end], total, longest, timeout)
  {
  }

  lemma SharedNext(before: seq<Turn>, turn: Turn, turns: seq<Turn>, total: nat, longest: nat,
                   concurrency: nat, timeout: Seconds)
    requires concurrency > 0 && timeout >= 0.0 && longest <= total
    requires OnPermits(before, concurrency) && CutOff(before, timeout)
    requires turns == before + [turn] && Earliest(FreeAfter(before, concurrency), turn.permit)
    requires forall i :: 0 <= i < |turn.publishes| ==> 0.0 <= turn.publishes[i] <= timeout
    requires |turn.publishes| <= longest && Publishes(before) + |turn.publishes| <= total
    requires Shared(FreeAfter(before, concurrency), total, longest, timeout)
    ensures OnPermits(turns, concurrency)
    ensures Shared(FreeAfter(turns, concurrency), total, longest, timeout)
  {
    var free := FreeAfter(before, concurrency);
    LastTurnShares(before, turn, total, longest, concurrency, timeout);
    FreeSnoc(before, turn, concurrency, turns);
    SharedStep(free, turn.permit, free[turn.permit] + Sum(turn.publishes), total, longest,
               timeout);
  }

  // The turns of a round with at most `total` publishes, `longest` in one turn.
  ghost predicate Within(turns: seq<Turn>, total: nat, longest: nat, concurrency: nat,
                         timeout: Seconds)
  {
    && WorkConserving(turns, concurrency) && CutOff(turns, timeout)
    && Publishes(turns) <= total
    && forall j :: 0 <= j < |turns| ==> |turns[j].publishes| <= longest
  }

  lemma WithinBefore(turns: seq<Turn>, total: nat, longest: nat, concurrency: nat,
                     timeout: Seconds)
    requires turns != [] && Within(turns, total, longest, concurrency, timeout)
    ensures
      var n := |turns| - 1;
      && Within(turns[..n], total, longest, concurrency, timeout)
      && Earliest(FreeAfter(turns[..n], concurrency), turns[n].permit)
  {
    ShorterSchedule(turns, concurrency, |turns| - 1);
  }

  lemma {:induction false} SharedTime(turns: seq<Turn>, total: nat, longest: nat,
                                      concurrency: nat, timeout: Seconds)
    requires concurrency > 0 && timeout >= 0.0 && longest <= total
    requires Within(turns, total, longest, concurrency, timeout)
    ensures Shared(FreeAfter(turns, concurrency), total, longest, timeout)
    decreases |turns|
  {
    if turns == [] {
      SharedAtStart(total, longest, concurrency, timeout);
    } else {
      var n := |turns| - 1;
      var before, turn := turns[..n], turns[n];
      WithinBefore(turns, total, longest, concurrency, timeout);
      SharedTime(before, total, longest, concurrency, timeout);
      SharedNext(before, turn, turns, total, longest, concurrency, timeout);
    }
  }

  // The bound for long groups: an even share of the other messages, then the longest group.
  function LongGroupBound(total: real, longest: real, concurrency: real, timeout: Seconds): Seconds
    requires concurrency > 0.0
  {
    ((total - longest) / concurrency + longest) * timeout
  }

  lemma EvenShare(end: real, total: real, longest: real, c: real, work: real, timeout: real)
    requires c > 0.0
    requires work == total - longest + c * longest && c * end <= work * timeout
    ensures end <= LongGroupBound(total, longest, c, timeout)
  {
    var share := (total - longest) / c;
    assert c * share == total - longest;
    assert c * (share + longest) == work;
    assert c * ((share + longest) * timeout) == work * timeout;
  }

  lemma SharedWorkIs(total: nat, longest: nat, concurrency: nat)
    requires longest <= total
    ensures SharedWork(total, longest, concurrency) as real
            == total as real - longest as real + concurrency as real * longest as real
  {
    ProductIs(concurrency, longest);
  }

  lemma EndOfShare(end: Seconds, total: nat, longest: nat, concurrency: nat, timeout: Seconds)
    requires concurrency > 0 && longest <= total
    requires Times(concurrency, end) <= Times(SharedWork(total, longest, concurrency), timeout)
    ensures end <= LongGroupBound(total as real, longest as real, concurrency as real, timeout)
  {
    TimesIs(concurrency, end);
    TimesIs(SharedWork(total, longest, concurrency), timeout);
    SharedWorkIs(total, longest, concurrency);
    EvenShare(end, total as real, longest as real, concurrency as real,
              SharedWork(total, longest, concurrency) as real, timeout);
  }

  // No round of at most `total` messages, no group longer than `longest`, takes longer.
  lemma LongTurnTime(turns: seq<Turn>, total: nat, longest: nat, concurrency: nat,
                     timeout: Seconds)
    requires concurrency > 0 && timeout >= 0.0 && longest <= total
    requires WorkConserving(turns, concurrency) && CutOff(turns, timeout)
    requires Publishes(turns) <= total
    requires forall j :: 0 <= j < |turns| ==> |turns[j].publishes| <= longest
    ensures DoneBy(turns, concurrency, LongGroupBound(total as real, longest as real,
                                                      concurrency as real, timeout))
  {
    var bound := LongGroupBound(total as real, longest as real, concurrency as real, timeout);
    SharedTime(turns, total, longest, concurrency, timeout);
    forall p | 0 <= p < concurrency ensures FreeAfter(turns, concurrency)[p] <= bound {
      EndOfShare(FreeAfter(turns, concurrency)[p], total, longest, concurrency, timeout);
    }
  }

  // --------------------------------------- when the documented formula is a bound

  lemma CeilIsSmall(b: nat, c: nat)
    requires b >= 2 && c >= 2
    ensures CeilDiv(b, c) < b
  {
    assert b * c >= b + c by {
      assert (b - 1) * (c - 1) >= 1;
    }
  }

  lemma {:induction false} PublishesBound(turns: seq<Turn>, j: nat)
    requires j < |turns|
    ensures |turns[j].publishes| <= Publishes(turns)
    decreases |turns|
  {
    if j < |turns| - 1 {
      PublishesBound(turns[..|turns| - 1], j);
    }
  }

  lemma OneAtATime(end: Seconds, batchSize: nat, concurrency: nat, timeout: Seconds)
    requires concurrency > 0
    requires Times(concurrency, end)
             <= Times(SharedWork(batchSize, batchSize, concurrency), timeout)
    ensures end <= Times(batchSize, timeout)
  {
    TimesTimes(concurrency, batchSize, timeout);
    LongerTimeouts(concurrency, Times(batchSize, timeout), end);
  }

  lemma BoundedWhenOne(turns: seq<Turn>, batchSize: nat, concurrency: nat, timeout: Seconds)
    requires batchSize > 0 && concurrency > 0 && timeout > 0.0
    requires batchSize == 1 || concurrency == 1
    requires WorkConserving(turns, concurrency) && CutOff(turns, timeout)
    requires Publishes(turns) <= batchSize
    ensures DoneBy(turns, concurrency, Times(CeilDiv(batchSize, concurrency), timeout))
  {
    forall j | 0 <= j < |turns| ensures |turns[j].publishes| <= batchSize {
      PublishesBound(turns, j);
    }
    CeilOfOne(batchSize, concurrency);
    SharedTime(turns, batchSize, batchSize, concurrency, timeout);
    forall p | 0 <= p < concurrency
      ensures FreeAfter(turns, concurrency)[p] <= Times(batchSize, timeout)
    {
      OneAtATime(FreeAfter(turns, concurrency)[p], batchSize, concurrency, timeout);
    }
  }

  lemma CeilOfOne(b: nat, c: nat)
    requires b > 0 && c > 0 && (b == 1 || c == 1)
    ensures CeilDiv(b, c) == b
  {
  }
}
