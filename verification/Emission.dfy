/** Block rewards: the staking pool drawn down by concurrent compare-and-swap calls, its closed
form, and the bound on the halving schedule. */
module Emission {
  import opened Options

  const HALVING_INTERVAL: nat := 21_024_000

  // ---- The pool under concurrent decrements ----

  /** One decrement call: not started, holding a loaded balance, or returned. */
  datatype Call = Idle | Loaded(balance: nat) | Returned

  datatype Pool = Pool(remaining: nat, calls: seq<Call>)

  /** One atomic action of one call: load the balance, or compare and swap. */
  datatype Action = Load(call: nat) | Swap(call: nat)

  function Drawn(balance: nat, amount: nat): nat {
    if balance < amount then balance else amount
  }

  predicate Enabled(p: Pool, a: Action) {
    a.call < |p.calls| && match a case Load(i) => p.calls[i].Idle? case Swap(i) => p.calls[i].Loaded?
  }

  /** Loading an empty pool returns at once; a failed swap starts over. */
  function Next(p: Pool, amount: nat, a: Action): Pool
    requires Enabled(p, a)
  {
    match a
    case Load(i) => p.(calls := p.calls[i := if p.remaining == 0 then Returned else Loaded(p.remaining)])
    case Swap(i) =>
      var cur := p.calls[i].balance;
      if p.remaining == cur then Pool(cur - Drawn(cur, amount), p.calls[i := Returned]) else p.(calls := p.calls[i := Idle])
  }

  /** The pool after a schedule of actions, if each was enabled. */
  function After(p: Pool, amount: nat, actions: seq<Action>): Option<Pool> {
    if |actions| == 0 then Some(p)
    else
      var before := After(p, amount, actions[..|actions| - 1]);
      if before.None? || !Enabled(before.value, actions[|actions| - 1]) then None
      else Some(Next(before.value, amount, actions[|actions| - 1]))
  }

  function Finished(calls: seq<Call>): nat {
    if |calls| == 0 then 0 else Finished(calls[..|calls| - 1]) + if calls[|calls| - 1].Returned? then 1 else 0
  }

  /** What is left after `n` full draws. */
  function Left(init: nat, amount: nat, n: nat): nat {
    if init < n * amount then 0 else init - n * amount
  }

  lemma {:induction false} FinishedPut(calls: seq<Call>, i: nat, c: Call)
    requires i < |calls| && !calls[i].Returned?
    ensures Finished(calls[i := c]) == Finished(calls) + if c.Returned? then 1 else 0
  {
    var init := calls[..|calls| - 1];
    if i < |init| {
      FinishedPut(init, i, c);
      assert calls[i := c][..|calls| - 1] == init[i := c];
    } else {
      assert calls[i := c][..|calls| - 1] == init;
    }
  }

  lemma LeftStep(init: nat, amount: nat, n: nat)
    ensures Left(init, amount, n + 1) == Left(init, amount, n) - Drawn(Left(init, amount, n), amount)
  {
    assert (n + 1) * amount == n * amount + amount;
  }

  /** The balance is the initial one less one draw per returned call; a loaded balance is never empty. */
  predicate Balanced(init: nat, amount: nat, p: Pool) {
    p.remaining == Left(init, amount, Finished(p.calls)) && forall i :: 0 <= i < |p.calls| && p.calls[i].Loaded? ==> p.calls[i].balance > 0
  }

  /** Every interleaving keeps the balance. */
  lemma {:induction false} DrawsAddUp(init: nat, amount: nat, start: seq<Call>, actions: seq<Action>)
    requires (forall i :: 0 <= i < |start| ==> start[i] == Idle) && After(Pool(init, start), amount, actions).Some?
    ensures Balanced(init, amount, After(Pool(init, start), amount, actions).value)
    ensures |After(Pool(init, start), amount, actions).value.calls| == |start|
    decreases |actions|
  {
    if |actions| == 0 {
      NoneFinished(start);
    } else {
      var before, a := After(Pool(init, start), amount, actions[..|actions| - 1]).value, actions[|actions| - 1];
      DrawsAddUp(init, amount, start, actions[..|actions| - 1]);
      FinishedPut(before.calls, a.call, Next(before, amount, a).calls[a.call]);
      LeftStep(init, amount, Finished(before.calls));
    }
  }

  lemma {:induction false} NoneFinished(calls: seq<Call>)
    requires forall i :: 0 <= i < |calls| ==> calls[i] == Idle
    ensures Finished(calls) == 0
  {
    if |calls| > 0 {
      NoneFinished(calls[..|calls| - 1]);
    }
  }

  lemma {:induction false} AllFinished(calls: seq<Call>)
    requires forall i :: 0 <= i < |calls| ==> calls[i].Returned?
    ensures Finished(calls) == |calls|
  {
    if |calls| > 0 {
      AllFinished(calls[..|calls| - 1]);
    }
  }

  /** Once all concurrent calls have returned, exactly that many rewards are gone, or the pool is empty. */
  lemma ConcurrentDraws(init: nat, amount: nat, start: seq<Call>, actions: seq<Action>)
    requires (forall i :: 0 <= i < |start| ==> start[i] == Idle) && After(Pool(init, start), amount, actions).Some?
    requires forall c :: c in After(Pool(init, start), amount, actions).value.calls ==> c.Returned?
    ensures After(Pool(init, start), amount, actions).value.remaining == Left(init, amount, |start|)
  {
    DrawsAddUp(init, amount, start, actions);
    AllFinished(After(Pool(init, start), amount, actions).value.calls);
  }

  // ---- The pool era ----

  class Engine {
    const reward: nat
    const tail: nat
    var remaining: nat
    ghost var blocks: nat
    ghost var drawn: nat
    ghost var minted: nat
    ghost const init: nat

    /** After `blocks` blocks: the closed form of the balance, conservation of the pool, and one
    tail reward for every block that found it empty. */
    ghost predicate Valid()
      reads this
    {
      && reward > 0 && remaining == Left(init, reward, blocks) && drawn + remaining == init
      && minted == (blocks - Funded(init, reward, blocks)) * tail
    }

    constructor (pool: nat, reward: nat, tail: nat)
      requires reward > 0
      ensures Valid() && remaining == init == pool && blocks == 0 && drawn == 0 && minted == 0
      ensures this.reward == reward && this.tail == tail
    {
      this.reward, this.tail, remaining, init := reward, tail, pool, pool;
      blocks, drawn, minted := 0, 0, 0;
    }

    /** The producer reads the balance before the block's own deduction. */
    method RewardForNextBlock() returns (amount: nat)
      ensures amount == if remaining > 0 then Drawn(remaining, reward) else tail
    {
      if remaining > 0 {
        amount := reward;
        if amount > remaining {
          amount := remaining;
        }
      } else {
        amount := tail;
      }
    }

    /** A block pays its reward and then takes it off the pool: what is paid is exactly what pool
    and tail account for. */
    method PayBlock() returns (paid: nat)
      requires Valid()
      modifies this
      ensures Valid() && blocks == old(blocks) + 1
      ensures drawn + minted == old(drawn + minted) + paid
      ensures old(remaining) > 0 ==> remaining + paid == old(remaining) && 0 < paid <= reward
      ensures old(remaining) == 0 ==> remaining == 0 && paid == tail
    {
      paid := RewardForNextBlock();
      DecrementPool();
    }

    /** Called once per accepted block. */
    method DecrementPool()
      requires Valid()
      modifies this
      ensures Valid() && blocks == old(blocks) + 1
      ensures old(remaining) > 0 ==> drawn == old(drawn) + Drawn(old(remaining), reward) && minted == old(minted)
      ensures old(remaining) == 0 ==> drawn == old(drawn) && minted == old(minted) + tail
    {
      LeftStep(init, reward, blocks);
      FundedStep(init, reward, blocks);
      Distribute(blocks - Funded(init, reward, blocks), tail);
      blocks := blocks + 1;
      if remaining == 0 {
        minted := minted + tail;
        return;
      }
      var deduct := reward;
      if remaining < deduct {
        deduct := remaining;
      }
      remaining, drawn := remaining - deduct, drawn + deduct;
    }
  }

  /** How many of the first `n` blocks the pool pays: all until it is empty, the last one perhaps partly. */
  function Funded(init: nat, reward: nat, n: nat): (r: nat)
    ensures r <= n
  {
    if n == 0 then 0 else Funded(init, reward, n - 1) + if Left(init, reward, n - 1) > 0 then 1 else 0
  }

  lemma FundedStep(init: nat, reward: nat, n: nat)
    ensures Funded(init, reward, n + 1) == Funded(init, reward, n) + if Left(init, reward, n) > 0 then 1 else 0
  {
  }

  lemma {:induction false} FundedAll(init: nat, reward: nat, n: nat)
    requires n > 0 ==> (n - 1) * reward < init
    ensures Funded(init, reward, n) == n
  {
    if n > 0 {
      if n > 1 {
        Grow(n - 2, n - 1, reward);
      }
      FundedAll(init, reward, n - 1);
    }
  }

  lemma {:induction false} FundedStops(init: nat, reward: nat, q: nat, n: nat)
    requires q <= n && init <= q * reward
    ensures Funded(init, reward, n) == Funded(init, reward, q)
    decreases n
  {
    if q < n {
      FundedStops(init, reward, q, n - 1);
      Grow(q, n - 1, reward);
    }
  }

  /** The number of rewards the pool holds, the last one perhaps partial. */
  function Rewards(init: nat, reward: nat): nat
    requires reward > 0
  {
    (init + reward - 1) / reward
  }

  /** The pool pays the first ceil(init / reward) blocks and no other. */
  lemma {:induction false} FundedClosedForm(init: nat, reward: nat, n: nat)
    requires reward > 0
    ensures Funded(init, reward, n) == if n < Rewards(init, reward) then n else Rewards(init, reward)
  {
    var q, r := Rewards(init, reward), (init + reward - 1) % reward;
    assert init + reward - 1 == reward * q + r && 0 <= r < reward;
    assert q > 0 ==> (q - 1) * reward < init by { assert reward * q == reward * (q - 1) + reward; }
    if n < q {
      Grow(n, q - 1, reward);
      if n > 0 {
        Grow(n - 1, n, reward);
      }
      FundedAll(init, reward, n);
    } else {
      FundedAll(init, reward, q);
      FundedStops(init, reward, q, n);
    }
  }

  lemma Apart(a: nat, b: nat, d: nat)
    requires a < b
    ensures d * a + d <= d * b
  {
    assert d * b == d * a + d * (b - a);
    Grow(1, b - a, d);
  }

  lemma Grow(a: nat, b: nat, d: nat)
    requires a <= b
    ensures d * a <= d * b
  {
  }

  // ---- The halving schedule ----

  /** Shifting right by one place per era. */
  function Halved(base: nat, era: nat): nat {
    if era == 0 then base else Halved(base, era - 1) / 2
  }

  function EraReward(base: nat, era: nat): nat {
    if era >= 64 then 0 else Halved(base, era)
  }

  function RewardAt(base: nat, height: nat): nat {
    EraReward(base, height / HALVING_INTERVAL)
  }

  function Pow2(n: nat): (r: nat)
    ensures r > 0
  {
    if n == 0 then 1 else 2 * Pow2(n - 1)
  }

  /** Halving a quotient divides by twice as much. */
  lemma HalfQuotient(x: nat, d: nat)
    requires d > 0
    ensures x / d / 2 == x / (2 * d)
  {
    var q, r := x / d, x % d;
    assert x == d * q + r && r < d;
    SplitEven(d, q, q / 2);
    QuotientIs(x, 2 * d, q / 2);
  }

  lemma SplitEven(d: nat, q: nat, h: nat)
    requires 2 * h <= q <= 2 * h + 1
    ensures 2 * d * h <= d * q <= 2 * d * h + d
  {
    assert d * (2 * h) == 2 * d * h;
    Grow(2 * h, q, d);
    Grow(q, 2 * h + 1, d);
    assert d * (2 * h + 1) == d * (2 * h) + d;
  }

  lemma {:induction false} HalvedIsQuotient(base: nat, era: nat)
    ensures Halved(base, era) == base / Pow2(era)
  {
    if era > 0 {
      HalvedIsQuotient(base, era - 1);
      HalfQuotient(base, Pow2(era - 1));
    }
  }

  lemma {:induction false} Pow2Add(m: nat, n: nat)
    ensures Pow2(m + n) == Pow2(m) * Pow2(n)
  {
    if n > 0 {
      Pow2Add(m, n - 1);
      assert Pow2(m) * (2 * Pow2(n - 1)) == 2 * (Pow2(m) * Pow2(n - 1));
    }
  }

  lemma Pow2Of64()
    ensures Pow2(64) == 0x1_0000_0000_0000_0000
  {
    assert Pow2(4) == 16;
    Pow2Add(4, 4);
    Pow2Add(8, 8);
    Pow2Add(16, 16);
    Pow2Add(32, 32);
  }

  lemma {:induction false} Pow2Grows(m: nat, n: nat)
    requires m <= n
    ensures Pow2(m) <= Pow2(n)
  {
    if m < n {
      Pow2Grows(m, n - 1);
    }
  }

  /** The reward at a height is the base reward divided by two to the number of its era, for every
  64-bit base: from era 64 on that quotient is zero by itself. */
  lemma RewardIsQuotient(base: nat, height: nat)
    requires base < 0x1_0000_0000_0000_0000
    ensures RewardAt(base, height) == base / Pow2(height / 21_024_000)
  {
    var era := height / 21_024_000;
    HalvedIsQuotient(base, era);
    if era >= 64 {
      Pow2Of64();
      Pow2Grows(64, era);
      QuotientIs(base, Pow2(era), 0);
    }
  }

  /** Rewards of the first `n` heights. */
  function Issued(base: nat, n: nat): nat {
    if n == 0 then 0 else Issued(base, n - 1) + RewardAt(base, n - 1)
  }

  function EraSum(base: nat, eras: nat): nat {
    if eras == 0 then 0 else EraSum(base, eras - 1) + EraReward(base, eras - 1)
  }

  lemma EraHalves(base: nat, era: nat)
    ensures 2 * EraReward(base, era + 1) <= EraReward(base, era)
  {
  }

  lemma {:induction false} EraSumBound(base: nat, eras: nat)
    requires base > 0 && eras > 0
    ensures EraSum(base, eras) + EraReward(base, eras - 1) <= 2 * base && EraSum(base, eras) < 2 * base
  {
    if eras > 1 {
      EraSumBound(base, eras - 1);
      EraHalves(base, eras - 2);
    } else {
      assert EraSum(base, 0) == 0 && EraReward(base, 0) == base;
    }
  }

  /** A quotient stays or moves to the next value at a multiple. */
  lemma NextQuotient(n: nat, d: nat)
    requires n > 0 && d > 0
    ensures n / d == (n - 1) / d || (n / d == (n - 1) / d + 1 && n == (n / d) * d)
  {
    var q, r := (n - 1) / d, (n - 1) % d;
    assert n - 1 == d * q + r && r < d;
    if r + 1 < d {
      QuotientIs(n, d, q);
    } else {
      assert d * (q + 1) == d * q + d;
      QuotientIs(n, d, q + 1);
    }
  }

  lemma QuotientIs(x: nat, d: nat, k: nat)
    requires d > 0 && d * k <= x < d * k + d
    ensures x / d == k
  {
    var q, r := x / d, x % d;
    assert x == d * q + r && r < d;
    if q < k {
      Apart(q, k, d);
      assert false;
    }
    if k < q {
      Apart(k, q, d);
      assert false;
    }
  }

  function IssuedAt(base: nat, n: nat, era: nat): int {
    HALVING_INTERVAL * EraSum(base, era) + (n - era * HALVING_INTERVAL) * EraReward(base, era)
  }

  /** Issuance so far, era by era. */
  lemma {:induction false} IssuedByEra(base: nat, n: nat)
    ensures Issued(base, n) == IssuedAt(base, n, n / HALVING_INTERVAL)
  {
    if n > 0 {
      IssuedByEra(base, n - 1);
      var e := (n - 1) / HALVING_INTERVAL;
      IssuedGrows(base, n - 1, e);
      NextQuotient(n, HALVING_INTERVAL);
      if n / HALVING_INTERVAL != e {
        IssuedCarries(base, n, e);
      }
    }
  }

  lemma IssuedGrows(base: nat, n: nat, era: nat)
    ensures IssuedAt(base, n + 1, era) == IssuedAt(base, n, era) + EraReward(base, era)
  {
    var k, r := n - era * HALVING_INTERVAL, EraReward(base, era);
    assert (k + 1) * r == k * r + r;
  }

  lemma IssuedCarries(base: nat, n: nat, era: nat)
    requires n == (era + 1) * HALVING_INTERVAL
    ensures IssuedAt(base, n, era) == IssuedAt(base, n, era + 1)
  {
    var r := EraReward(base, era);
    assert EraSum(base, era + 1) == EraSum(base, era) + r;
  }

  lemma Distribute(k: nat, r: nat)
    ensures (k + 1) * r == k * r + r
  {
  }

  /** However long the chain runs, the halving schedule issues less than two base intervals. */
  lemma IssuanceBounded(base: nat, n: nat)
    requires base > 0
    ensures Issued(base, n) < 2 * base * HALVING_INTERVAL
  {
    var era := n / HALVING_INTERVAL;
    IssuedByEra(base, n);
    EraSumBound(base, era + 1);
    Combine(HALVING_INTERVAL, EraSum(base, era), EraReward(base, era), n - era * HALVING_INTERVAL, 2 * base);
  }

  lemma Combine(interval: nat, sum: nat, last: nat, inside: nat, bound: nat)
    requires 0 < interval && inside <= interval && sum + last < bound
    ensures interval * sum + inside * last < bound * interval
  {
    Grow(inside, interval, last);
    assert interval * sum + interval * last == interval * (sum + last);
    Grow(sum + last, bound - 1, interval);
    assert interval * (bound - 1) == interval * bound - interval;
  }
}
