/** The base fee: its update rule in exact rationals, and its independence of restarts. */
module BaseFee {
  import opened Options

  const INITIAL: nat := 200
  const MINIMUM: nat := 50
  const TARGET: nat := 500_000

  // ---- The update rule ----

  /** Nearest integer to n/d, halves away from zero. */
  function Round(n: int, d: nat): int
    requires d > 0
  {
    if n >= 0 then (2 * n + d) / (2 * d) else -((-2 * n + d) / (2 * d))
  }

  /** The rounded change: an eighth of the fee at twice the target, minus an eighth at zero. */
  function Change(current: nat, size: nat): int {
    Round(current * (size - TARGET), 8 * TARGET)
  }

  function NextBaseFee(current: nat, size: nat): nat {
    var fee := if current == 0 then INITIAL else current;
    if fee + Change(fee, size) < MINIMUM then MINIMUM else fee + Change(fee, size)
  }

  /** `k` is the integer nearest to n/d, the one further from zero if two are. */
  predicate Nearest(k: int, n: int, d: nat) {
    if n >= 0 then 2 * d * k - d <= 2 * n < 2 * d * k + d else 2 * d * k - d < 2 * n <= 2 * d * k + d
  }

  lemma RoundIsNearest(n: int, d: nat, k: int)
    requires d > 0
    ensures Round(n, d) == k <==> Nearest(k, n, d)
  {
    var m := if n >= 0 then n else -n;
    var q, r := (2 * m + d) / (2 * d), (2 * m + d) % (2 * d);
    assert 2 * m + d == 2 * d * q + r && 0 <= r < 2 * d;
    assert Nearest(Round(n, d), n, d) by {
      assert 2 * d * (-q) == -(2 * d * q);
    }
    if Nearest(k, n, d) {
      NearestUnique(k, Round(n, d), n, d);
    }
  }

  lemma NearestUnique(j: int, k: int, n: int, d: nat)
    requires d > 0 && Nearest(j, n, d) && Nearest(k, n, d)
    ensures j == k
  {
    if j < k {
      Apart(j, k, 2 * d);
    }
    if k < j {
      Apart(k, j, 2 * d);
    }
  }

  /** The rule in numbers: from a fee of 200 if there is none yet, the fee moves by the integer nearest
  to fee * (size - 500000) / 4000000, and not below 50. */
  lemma NextFeeExactly(current: nat, size: nat, k: int)
    requires Nearest(k, (if current == 0 then 200 else current) * (size - 500_000), 4_000_000)
    ensures
      var fee := if current == 0 then 200 else current;
      NextBaseFee(current, size) == if fee + k < 50 then 50 else fee + k
  {
    RoundIsNearest((if current == 0 then 200 else current) * (size - 500_000), 4_000_000, k);
  }

  lemma {:induction false} RoundMonotone(m: int, n: int, d: nat)
    requires d > 0 && m <= n
    ensures Round(m, d) <= Round(n, d)
  {
    if m >= 0 {
      DivMonotone(2 * m + d, 2 * n + d, 2 * d);
    } else if n < 0 {
      DivMonotone(-2 * n + d, -2 * m + d, 2 * d);
    }
  }

  lemma DivMonotone(a: int, b: int, d: nat)
    requires d > 0 && a <= b
    ensures a / d <= b / d
  {
    var p, q := a / d, b / d;
    assert a == d * p + a % d && b == d * q + b % d;
    if q < p {
      Apart(q, p, d);
      assert false;
    }
  }

  lemma Apart(x: int, y: int, d: nat)
    requires x < y
    ensures d * x + d <= d * y
  {
    Scale(x + 1, y, d);
  }

  lemma Scale(x: int, y: int, d: nat)
    requires x <= y
    ensures d * x <= d * y
  {
  }

  /** Fuller blocks never lower the next fee. */
  lemma MonotoneInSize(current: nat, small: nat, large: nat)
    requires small <= large
    ensures NextBaseFee(current, small) <= NextBaseFee(current, large)
  {
    var fee := if current == 0 then INITIAL else current;
    Scale(small - TARGET, large - TARGET, fee);
    RoundMonotone(fee * (small - TARGET), fee * (large - TARGET), 8 * TARGET);
  }

  /** At the target the fee stays, and it never leaves the floor. */
  lemma FixedAtTarget(current: nat)
    requires current >= MINIMUM
    ensures NextBaseFee(current, TARGET) == current
  {
  }

  lemma NeverBelowMinimum(current: nat, size: nat)
    ensures NextBaseFee(current, size) >= MINIMUM
  {
  }

  lemma RoundExtremes(fee: nat)
    ensures Change(fee, 2 * TARGET) == Round(fee, 8) && Change(fee, 0) == -Round(fee, 8)
  {
    RoundScaled(fee, 8, TARGET);
    assert fee * (2 * TARGET - TARGET) == TARGET * fee;
    assert fee * (0 - TARGET) == -(TARGET * fee);
  }

  lemma RoundScaled(n: nat, d: nat, k: nat)
    requires d > 0 && k > 0
    ensures Round(k * n, d * k) == Round(n, d)
  {
    var q, r := (2 * n + d) / (2 * d), (2 * n + d) % (2 * d);
    assert 2 * n + d == (2 * d) * q + r;
    assert 2 * (k * n) + d * k == k * (2 * n + d);
    assert k * (2 * n + d) == (2 * (d * k)) * q + k * r;
    assert 0 <= k * r < k * (2 * d) by { Strict(r, 2 * d, k); }
    Quotient(2 * (k * n) + d * k, 2 * (d * k), q, k * r);
  }

  lemma Strict(x: nat, y: nat, k: nat)
    requires x < y && k > 0
    ensures k * x < k * y
  {
  }

  lemma Quotient(n: nat, d: nat, q: nat, r: nat)
    requires d > 0 && n == d * q + r && r < d
    ensures n / d == q
  {
    var p, s := n / d, n % d;
    assert n == d * p + s && s < d;
    if p < q {
      Apart(p, q, d);
      assert false;
    }
    if q < p {
      Apart(q, p, d);
      assert false;
    }
  }

  /** Up to twice the target a block moves the fee by at most one eighth, rounded. */
  lemma MovesAnEighth(current: nat, size: nat)
    requires current >= MINIMUM && size <= 2 * TARGET
    ensures current - Round(current, 8) <= NextBaseFee(current, size) <= current + Round(current, 8)
  {
    RoundExtremes(current);
    MonotoneInSize(current, size, 2 * TARGET);
    MonotoneInSize(current, 0, size);
  }

  /** Beyond it nothing caps the rise: the cap holds exactly while the rounded change does. */
  lemma RiseCap(current: nat, size: nat)
    requires current >= MINIMUM && size >= TARGET
    ensures NextBaseFee(current, size) <= current + Round(current, 8)
       <==> current * (size - TARGET) < (2 * Round(current, 8) + 1) * (4 * TARGET)
  {
    var n, k, d := current * (size - TARGET), Round(current, 8), 8 * TARGET;
    Scale(0, size - TARGET, current);
    assert n >= 0;
    assert NextBaseFee(current, size) == current + Round(n, d);
    var q, r := (2 * n + d) / (2 * d), (2 * n + d) % (2 * d);
    assert 2 * n + d == 2 * d * q + r && 0 <= r < 2 * d;
  }

  lemma NoCapAboveTwiceTarget()
    ensures NextBaseFee(200, 4 * TARGET) == 275 && 200 + Round(200, 8) == 225
  {
  }

  // ---- The fee an engine expects ----

  datatype Block = Block(height: nat, baseFee: nat, size: nat)

  /** `activation` is the strict-fee fork, zero for none; `migration` the height from which the
  expectation is read off the parent block. */
  datatype Config = Config(activation: nat, migration: Option<nat>)

  datatype Engine = Engine(tip: Block, baseFee: nat)

  /** What construction computes from the tip. */
  function Restarted(tip: Block): Engine {
    Engine(tip, if tip.height == 0 then INITIAL else NextBaseFee(if tip.baseFee == 0 then INITIAL else tip.baseFee, tip.size))
  }

  function Expected(e: Engine): nat {
    if e.baseFee == 0 then INITIAL else e.baseFee
  }

  function ExpectedAt(c: Config, e: Engine, height: nat): nat {
    if c.activation > 0 && height == c.activation then INITIAL
    else if c.migration.Some? && height >= c.migration.value && e.tip.height + 1 == height then NextBaseFee(e.tip.baseFee, e.tip.size)
    else Expected(e)
  }

  /** Blocks at these heights must commit the expected fee. */
  predicate StrictAt(c: Config, height: nat) {
    c.activation == 0 || height >= c.activation
  }

  predicate Accepts(c: Config, e: Engine, b: Block) {
    b.height == e.tip.height + 1 && (StrictAt(c, b.height) ==> b.baseFee != 0 && b.baseFee == ExpectedAt(c, e, b.height))
  }

  /** The in-place update after a block; a produced block without a fee falls back differently
  from a received one. */
  function Updated(c: Config, e: Engine, b: Block, produced: bool): Engine {
    var fee := if b.baseFee != 0 then b.baseFee else if produced then ExpectedAt(c, e, b.height) else Expected(e);
    Engine(b, NextBaseFee(fee, b.size))
  }

  datatype Event = Accept(block: Block, produced: bool) | Restart

  function StepEvent(c: Config, e: Engine, event: Event): Engine {
    match event
    case Accept(b, produced) => if Accepts(c, e, b) then Updated(c, e, b, produced) else e
    case Restart => Restarted(e.tip)
  }

  function RunEvents(c: Config, e: Engine, events: seq<Event>): Engine {
    if |events| == 0 then e else StepEvent(c, RunEvents(c, e, events[..|events| - 1]), events[|events| - 1])
  }

  /** What an accepted block leaves: the rule applied to its own fee, and for a block without one
  (before the strict rule) to the fee its kind falls back on. */
  lemma FeeAfter(c: Config, e: Engine, b: Block, produced: bool)
    requires b.height == e.tip.height + 1 && ((c.activation == 0 || b.height >= c.activation) ==> b.baseFee != 0 && b.baseFee == ExpectedAt(c, e, b.height))
    ensures
      var after := StepEvent(c, e, Accept(b, produced));
      && after.tip == b
      && (b.baseFee > 0 ==> after.baseFee == NextBaseFee(b.baseFee, b.size))
      && (b.baseFee == 0 && produced ==> after.baseFee == NextBaseFee(ExpectedAt(c, e, b.height), b.size))
      && (b.baseFee == 0 && !produced ==> after.baseFee == NextBaseFee(if e.baseFee == 0 then 200 else e.baseFee, b.size))
  {
  }

  /** Once the tip is strict, the running engine is the one a restart would build. */
  predicate Settled(c: Config, e: Engine) {
    (c.activation == 0 || e.tip.height >= c.activation) && e.tip.height > 0 ==> e == Restarted(e.tip)
  }

  lemma {:induction false} StaysSettled(c: Config, e: Engine, events: seq<Event>)
    requires Settled(c, e)
    ensures Settled(c, RunEvents(c, e, events))
  {
    if |events| > 0 {
      StaysSettled(c, e, events[..|events| - 1]);
    }
  }

  /** From activation on, any mix of blocks and restarts leads to the fee that an engine
  restarted at the tip expects, for every height. */
  lemma {:induction false} RestartChangesNothing(c: Config, e: Engine, events: seq<Event>, height: nat)
    requires Settled(c, e)
    ensures
      var now := RunEvents(c, e, events);
      (c.activation == 0 || now.tip.height >= c.activation) && now.tip.height > 0 ==> ExpectedAt(c, now, height) == ExpectedAt(c, Restarted(now.tip), height)
  {
    StaysSettled(c, e, events);
  }

  // ---- The committed fees as a function of block sizes ----

  /** Fees from a first one on, by the update rule. */
  function FeeFrom(first: nat, sizes: seq<nat>): nat {
    if |sizes| == 0 then first else NextBaseFee(FeeFrom(first, sizes[..|sizes| - 1]), sizes[|sizes| - 1])
  }

  /** A chain of blocks accepted one after another, whatever restarts happen in between. */
  function Extend(c: Config, e: Engine, blocks: seq<Block>): Option<Engine> {
    if |blocks| == 0 then Some(e)
    else
      var before := Extend(c, e, blocks[..|blocks| - 1]);
      if before.None? || !Accepts(c, before.value, blocks[|blocks| - 1]) then None
      else Some(Updated(c, before.value, blocks[|blocks| - 1], false))
  }

  function Sizes(blocks: seq<Block>): (r: seq<nat>)
    ensures |r| == |blocks| && forall i :: 0 <= i < |r| ==> r[i] == blocks[i].size
  {
    seq(|blocks|, i requires 0 <= i < |blocks| => blocks[i].size)
  }

  /** The first strict fee: the initial one at the activation height, and after the genesis block
  of a chain that is strict from the start, unless the migration already reads it off genesis. */
  lemma FirstFee(c: Config, e: Engine)
    requires c.activation == 0 || e.tip.height + 1 >= c.activation
    ensures c.activation > 0 && e.tip.height + 1 == c.activation ==> ExpectedAt(c, e, e.tip.height + 1) == 200
    ensures
      c.activation == 0 && e.tip.height == 0 && e == Restarted(e.tip) ==>
        ExpectedAt(c, e, 1) == if c.migration.Some? && c.migration.value <= 1 then NextBaseFee(e.tip.baseFee, e.tip.size) else 200
  {
  }

  /** Wherever the fee rule is strict, from activation or from genesis, every committed fee depends
  on the first one and the block sizes alone. */
  lemma {:induction false} FeeIsFunctionOfSizes(c: Config, e: Engine, blocks: seq<Block>)
    requires (c.activation == 0 || e.tip.height + 1 >= c.activation) && |blocks| > 0 && Extend(c, e, blocks).Some?
    ensures
      var first := ExpectedAt(c, e, e.tip.height + 1);
      && first > 0 && blocks[|blocks| - 1].baseFee == FeeFrom(first, Sizes(blocks[..|blocks| - 1]))
      && blocks[|blocks| - 1].height == e.tip.height + |blocks|
      && Extend(c, e, blocks).value == Engine(blocks[|blocks| - 1], FeeFrom(first, Sizes(blocks)))
  {
    var init, b := blocks[..|blocks| - 1], blocks[|blocks| - 1];
    assert Sizes(blocks)[..|init|] == Sizes(init);
    if |init| > 0 {
      FeeIsFunctionOfSizes(c, e, init);
      FeePositive(ExpectedAt(c, e, e.tip.height + 1), Sizes(init));
    } else {
      assert Sizes(init) == [];
    }
  }

  lemma FeePositive(first: nat, sizes: seq<nat>)
    requires first > 0
    ensures FeeFrom(first, sizes) > 0
  {
  }

  // ---- The engine's own state ----

  class FeeEngine {
    const config: Config
    var tip: Block
    var baseFee: nat

    ghost function State(): Engine
      reads this
    {
      Engine(tip, baseFee)
    }

    constructor (config: Config, tip: Block)
      ensures this.config == config && State() == Restarted(tip)
    {
      this.config, this.tip := config, tip;
      var fee := INITIAL;
      if tip.height > 0 {
        fee := NextBaseFee(if tip.baseFee == 0 then INITIAL else tip.baseFee, tip.size);
      }
      baseFee := fee;
    }

    method ExpectedBaseFeeAt(height: nat) returns (fee: nat)
      ensures fee == ExpectedAt(config, State(), height)
    {
      if config.activation > 0 && height == config.activation {
        return INITIAL;
      }
      if config.migration.Some? && height >= config.migration.value {
        if tip.height + 1 == height {
          return NextBaseFee(tip.baseFee, tip.size);
        }
      }
      fee := if baseFee == 0 then INITIAL else baseFee;
    }

    /** Validates the committed fee and advances the fee state. */
    method AcceptBlock(b: Block, produced: bool) returns (ok: bool)
      modifies this
      ensures ok <==>
        && b.height == old(tip.height) + 1
        && ((config.activation == 0 || b.height >= config.activation) ==> b.baseFee != 0 && b.baseFee == ExpectedAt(config, old(State()), b.height))
      ensures State() == StepEvent(config, old(State()), Accept(b, produced))
    {
      if b.height != tip.height + 1 {
        return false;
      }
      var expected := ExpectedBaseFeeAt(b.height);
      if config.activation == 0 || b.height >= config.activation {
        if b.baseFee == 0 || b.baseFee != expected {
          return false;
        }
      }
      var fee := b.baseFee;
      if fee == 0 {
        fee := if produced then expected else if baseFee == 0 then INITIAL else baseFee;
      }
      tip, baseFee := b, NextBaseFee(fee, b.size);
      ok := true;
    }
  }
}
