/** Fees of a block: for every block that passes the economics rules, burned plus tips is the
sum of the fees, and the burn totals computed by consensus, audit and API are the same. */
module Fees {
  import opened Options

  const UINT64: nat := 0x1_0000_0000_0000_0000
  const MAX: nat := UINT64 - 1
  const INITIAL_BASE_FEE: nat := 200
  const GAS_PRICE: nat := 10
  const MAX_BLOCK_GAS: nat := 10_000_000

  /** Protocol stands for the exempt LPoD, position, payout and sale transactions, Fund for the
  guardian fund. */
  datatype Kind = Coinbase | Stake | Protocol | Fund | Standard | Contract(gasLimit: nat)

  /** `marked` says that the extra field starts with the burn marker, `burn` is its well-formed amount. */
  datatype Tx = Tx(kind: Kind, fee: nat, size: nat, marked: bool, burn: Option<nat>)

  /** Amounts are 64-bit; a burn amount is positive and needs its marker. */
  predicate Wellformed(txs: seq<Tx>) {
    forall tx :: tx in txs ==>
      && tx.fee < UINT64 && (tx.burn.Some? ==> tx.marked && 0 < tx.burn.value < UINT64)
      && (tx.kind.Contract? ==> tx.kind.gasLimit < UINT64)
  }

  predicate Skipped(tx: Tx) {
    tx.kind.Coinbase? || tx.kind.Stake?
  }

  /** The exact minimum: size times rate, where a zero rate means the initial one. */
  function ExactMinimum(tx: Tx, baseFee: nat): nat {
    tx.size * if baseFee == 0 then INITIAL_BASE_FEE else baseFee
  }

  /** The 64-bit minimum saturates instead of wrapping. */
  function MinFeeAt(tx: Tx, baseFee: nat): nat {
    var rate := if baseFee == 0 then INITIAL_BASE_FEE else baseFee;
    if tx.size != 0 && rate > MAX / tx.size then MAX else tx.size * rate
  }

  function Saturated(tx: Tx, baseFee: nat): nat {
    if ExactMinimum(tx, baseFee) > MAX then MAX else ExactMinimum(tx, baseFee)
  }

  lemma Saturates(tx: Tx, baseFee: nat)
    ensures MinFeeAt(tx, baseFee) == Saturated(tx, baseFee)
  {
    var rate := if baseFee == 0 then INITIAL_BASE_FEE else baseFee;
    if tx.size != 0 {
      if rate > MAX / tx.size {
        assert rate >= MAX / tx.size + 1;
        Above(tx.size, rate);
      } else {
        Below(tx.size, rate);
      }
    }
  }

  lemma Above(size: nat, rate: nat)
    requires size > 0 && rate >= MAX / size + 1
    ensures size * rate > MAX
  {
    assert MAX == size * (MAX / size) + MAX % size;
    assert size * rate >= size * (MAX / size + 1) by { Grows(size, MAX / size + 1, rate); }
    assert size * (MAX / size + 1) == size * (MAX / size) + size;
  }

  lemma Below(size: nat, rate: nat)
    requires size > 0 && rate <= MAX / size
    ensures size * rate <= MAX
  {
    assert MAX == size * (MAX / size) + MAX % size;
    Grows(size, rate, MAX / size);
  }

  lemma Grows(a: nat, x: nat, y: nat)
    requires x <= y
    ensures a * x <= a * y
  {
  }

  function GasFee(limit: nat): Option<nat> {
    if limit > MAX / GAS_PRICE then None else Some(limit * GAS_PRICE)
  }

  // ---- The economics rules ----

  function Gas(tx: Tx): nat {
    if tx.kind.Contract? then tx.kind.gasLimit else 0
  }

  function Burn(tx: Tx): nat {
    if tx.burn.Some? then tx.burn.value else 0
  }

  predicate Charged(tx: Tx) {
    !Skipped(tx) && !tx.kind.Protocol?
  }

  datatype Charge = Charge(fees: nat, minimum: nat, gas: nat)

  function Charges(txs: seq<Tx>, baseFee: nat): Charge {
    if |txs| == 0 then Charge(0, 0, 0)
    else
      var c, tx := Charges(txs[..|txs| - 1], baseFee), txs[|txs| - 1];
      if Charged(tx) then Charge(c.fees + tx.fee, c.minimum + MinFeeAt(tx, baseFee), c.gas + Gas(tx)) else c
  }

  predicate Priced(tx: Tx, baseFee: nat) {
    Charged(tx) ==> MinFeeAt(tx, baseFee) + Gas(tx) * GAS_PRICE + Burn(tx) <= tx.fee
  }

  predicate Bounded(c: Charge) {
    c.fees < UINT64 && c.minimum < UINT64 && c.gas <= MAX_BLOCK_GAS
  }

  /** What a block must satisfy, in exact arithmetic. */
  predicate Economic(txs: seq<Tx>, baseFee: nat) {
    (forall tx :: tx in txs ==> Priced(tx, baseFee)) && Bounded(Charges(txs, baseFee))
  }

  lemma {:induction false} ChargesGrow(txs: seq<Tx>, baseFee: nat, n: nat)
    requires n <= |txs| && Bounded(Charges(txs, baseFee))
    ensures Bounded(Charges(txs[..n], baseFee))
    decreases |txs| - n
  {
    if n == |txs| {
      assert txs[..n] == txs;
    } else {
      ChargesGrow(txs, baseFee, n + 1);
      assert txs[..n + 1][..n] == txs[..n];
    }
  }

  /** The economics rules transaction by transaction: all but coinbase, stake and protocol transactions
  pay size times rate, ten units for each unit of gas and their signed burn; sums stay in 64 bits and
  gas within ten million. */
  lemma EconomicSnoc(txs: seq<Tx>, tx: Tx, baseFee: nat)
    ensures
      var c, d := Charges(txs, baseFee), Charges(txs + [tx], baseFee);
      var exact := tx.size * if baseFee == 0 then 200 else baseFee;
      var minimum := if exact > MAX then MAX else exact;
      var gas, burn := if tx.kind.Contract? then tx.kind.gasLimit else 0, if tx.burn.Some? then tx.burn.value else 0;
      if tx.kind.Coinbase? || tx.kind.Stake? || tx.kind.Protocol? then d == c && (Economic(txs + [tx], baseFee) <==> Economic(txs, baseFee))
      else
        && d == Charge(c.fees + tx.fee, c.minimum + minimum, c.gas + gas)
        && (Economic(txs + [tx], baseFee) <==>
              && Economic(txs, baseFee) && minimum + gas * 10 + burn <= tx.fee
              && d.fees <= MAX && d.minimum <= MAX && d.gas <= 10_000_000)
  {
    var all := txs + [tx];
    assert all[..|txs|] == txs;
    Saturates(tx, baseFee);
    assert all[|txs|] == tx && tx in all && forall x :: x in all <==> x in txs || x == tx;
    if Bounded(Charges(all, baseFee)) {
      ChargesGrow(all, baseFee, |txs|);
    }
    assert (forall x :: x in all ==> Priced(x, baseFee)) <==> (forall x :: x in txs ==> Priced(x, baseFee)) && Priced(tx, baseFee);
  }

  /** The validator's loop, with its overflow guards, accepts exactly the economic blocks. */
  method ValidateEconomics(txs: seq<Tx>, baseFee: nat) returns (ok: bool)
    requires Wellformed(txs)
    ensures ok <==> Economic(txs, baseFee)
  {
    var fees: nat, minimum: nat, gas: nat := 0, 0, 0;
    for i := 0 to |txs|
      invariant Charge(fees, minimum, gas) == Charges(txs[..i], baseFee) && Bounded(Charge(fees, minimum, gas))
      invariant forall j :: 0 <= j < i ==> Priced(txs[j], baseFee)
    {
      var tx := txs[i];
      assert tx in txs && txs[..i + 1][..i] == txs[..i];
      if Economic(txs, baseFee) {
        ChargesGrow(txs, baseFee, i + 1);
      }
      if Charged(tx) {
        var accepted := CheckCharge(tx, baseFee, fees, minimum, gas);
        if !accepted {
          return false;
        }
        fees, minimum, gas := fees + tx.fee, minimum + MinFeeAt(tx, baseFee), gas + Gas(tx);
      }
    }
    assert txs[..|txs|] == txs;
    ok := true;
  }

  method CheckCharge(tx: Tx, baseFee: nat, fees: nat, minimum: nat, gas: nat) returns (ok: bool)
    requires Charged(tx) && tx.fee < UINT64 && Bounded(Charge(fees, minimum, gas)) && (tx.burn.Some? ==> tx.burn.value < UINT64)
    ensures ok <==> Priced(tx, baseFee) && Bounded(Charge(fees + tx.fee, minimum + MinFeeAt(tx, baseFee), gas + Gas(tx)))
  {
    Saturates(tx, baseFee);
    var minFee := MinFeeAt(tx, baseFee);
    var required := minFee;
    if tx.kind.Contract? {
      if tx.kind.gasLimit > MAX_BLOCK_GAS - gas {
        return false;
      }
      var gasFee := GasFee(tx.kind.gasLimit);
      if gasFee.None? || required > MAX - gasFee.value {
        return false;
      }
      required := required + gasFee.value;
    }
    if tx.burn.Some? {
      if required > MAX - tx.burn.value {
        return false;
      }
      required := required + tx.burn.value;
    }
    ok := tx.fee >= required && fees <= MAX - tx.fee && minimum <= MAX - minFee;
  }

  // ---- The reference split ----

  datatype Split = Split(base: nat, intentional: nat, avm: nat)

  function TotalOf(s: Split): nat {
    s.base + s.intentional + s.avm
  }

  /** What one transaction burns: at most its fee as base fee, its signed burn, and its gas once active. */
  function TxBurn(tx: Tx, baseFee: nat, gasBurned: bool): Split {
    Split(if ExactMinimum(tx, baseFee) > tx.fee then tx.fee else ExactMinimum(tx, baseFee), Burn(tx),
          if gasBurned then Gas(tx) * GAS_PRICE else 0)
  }

  type Rule = Tx -> Split

  function BurnRule(baseFee: nat, gasBurned: bool): Rule {
    (tx: Tx) => TxBurn(tx, baseFee, gasBurned)
  }

  function Joined(s: Split, b: Split): Split {
    Split(s.base + b.base, s.intentional + b.intentional, s.avm + b.avm)
  }

  /** What a block burns under a rule. */
  function Burns(txs: seq<Tx>, rule: Rule): Split {
    if |txs| == 0 then Split(0, 0, 0)
    else
      var s, tx := Burns(txs[..|txs| - 1], rule), txs[|txs| - 1];
      if Skipped(tx) then s else Joined(s, rule(tx))
  }

  function Fees(txs: seq<Tx>): nat {
    if |txs| == 0 then 0 else Fees(txs[..|txs| - 1]) + if Skipped(txs[|txs| - 1]) then 0 else txs[|txs| - 1].fee
  }

  /** The reference split transaction by transaction: coinbase and stake transactions count for nothing;
  of the others the fee up to size times rate is burned, the signed burn, and gas at ten units. */
  lemma ReferenceSnoc(txs: seq<Tx>, tx: Tx, baseFee: nat, gasBurned: bool)
    ensures
      var counted := !tx.kind.Coinbase? && !tx.kind.Stake?;
      var exact := tx.size * if baseFee == 0 then 200 else baseFee;
      var b, c := Burns(txs, BurnRule(baseFee, gasBurned)), Burns(txs + [tx], BurnRule(baseFee, gasBurned));
      && Fees(txs + [tx]) == Fees(txs) + (if counted then tx.fee else 0)
      && c.base == b.base + (if !counted then 0 else if exact <= tx.fee then exact else tx.fee)
      && c.intentional == b.intentional + (if counted && tx.burn.Some? then tx.burn.value else 0)
      && c.avm == b.avm + if counted && gasBurned && tx.kind.Contract? then tx.kind.gasLimit * 10 else 0
  {
    assert (txs + [tx])[..|txs|] == txs;
  }

  /** What structural validation leaves of fees and burn markers: protocol and fund transactions
  pay nothing, only standard ones carry a marker, and a standard one's marker is well formed. */
  predicate KindRules(tx: Tx) {
    && tx.size > 0
    && match tx.kind
       case Coinbase => !tx.marked
       case Stake => !tx.marked
       case Protocol => !tx.marked && tx.fee == 0
       case Fund => tx.fee == 0
       case Standard => tx.marked ==> tx.burn.Some?
       case Contract(_) => !tx.marked
  }

  /** A block that passes structural validation and the economics rules. */
  predicate Accepted(txs: seq<Tx>, baseFee: nat) {
    Wellformed(txs) && (forall tx :: tx in txs ==> KindRules(tx)) && Economic(txs, baseFee)
  }

  lemma MinimumPositive(tx: Tx, baseFee: nat)
    requires tx.size > 0
    ensures MinFeeAt(tx, baseFee) > 0
  {
    var rate := if baseFee == 0 then INITIAL_BASE_FEE else baseFee;
    Grows(tx.size, 1, rate);
  }

  /** In an accepted block every marker belongs to a charged transaction and is well formed. */
  lemma AcceptedMarked(txs: seq<Tx>, baseFee: nat, tx: Tx)
    requires Accepted(txs, baseFee) && tx in txs
    ensures Priced(tx, baseFee) && !tx.kind.Fund? && (tx.marked ==> Charged(tx) && tx.burn.Some?) && (tx.kind.Protocol? ==> tx.fee == 0)
  {
    assert KindRules(tx) && Priced(tx, baseFee);
    MinimumPositive(tx, baseFee);
  }

  /** The fees of an accepted block fit 64 bits although the validator adds up charged ones only. */
  lemma AcceptedFees(txs: seq<Tx>, baseFee: nat)
    requires Accepted(txs, baseFee)
    ensures Fees(txs) < UINT64
  {
    forall tx | tx in txs ensures tx.kind.Protocol? ==> tx.fee == 0 {
      AcceptedMarked(txs, baseFee, tx);
    }
    FreeProtocolFees(txs, baseFee);
  }

  /** Every counted transaction burns at most its fee. */
  predicate Covered(txs: seq<Tx>, rule: Rule) {
    forall i :: 0 <= i < |txs| && !Skipped(txs[i]) ==> TotalOf(rule(txs[i])) <= txs[i].fee
  }

  lemma AcceptedCovered(txs: seq<Tx>, baseFee: nat, gasBurned: bool)
    requires Accepted(txs, baseFee)
    ensures Covered(txs, BurnRule(baseFee, gasBurned))
  {
    forall i | 0 <= i < |txs| && !Skipped(txs[i]) ensures TotalOf(TxBurn(txs[i], baseFee, gasBurned)) <= txs[i].fee {
      assert txs[i] in txs;
      GoodTx(txs, baseFee, txs[i]);
      Saturates(txs[i], baseFee);
    }
  }

  lemma BurnsSnoc(txs: seq<Tx>, rule: Rule, n: nat)
    requires n < |txs|
    ensures Fees(txs[..n + 1]) == Fees(txs[..n]) + if Skipped(txs[n]) then 0 else txs[n].fee
    ensures Burns(txs[..n + 1], rule) == if Skipped(txs[n]) then Burns(txs[..n], rule) else Joined(Burns(txs[..n], rule), rule(txs[n]))
  {
    assert txs[..n + 1][..n] == txs[..n];
  }

  lemma {:induction false} BurnsWithinFees(txs: seq<Tx>, rule: Rule, n: nat)
    requires Covered(txs, rule) && n <= |txs|
    ensures TotalOf(Burns(txs[..n], rule)) <= Fees(txs[..n])
    decreases n
  {
    if n > 0 {
      BurnsWithinFees(txs, rule, n - 1);
      BurnsSnoc(txs, rule, n - 1);
    }
  }

  lemma {:induction false} FeesGrow(txs: seq<Tx>, n: nat)
    requires n <= |txs|
    ensures Fees(txs[..n]) <= Fees(txs)
    decreases |txs| - n
  {
    if n == |txs| {
      assert txs[..n] == txs;
    } else {
      FeesGrow(txs, n + 1);
      assert txs[..n + 1][..n] == txs[..n];
    }
  }

  /** When protocol transactions are free, the validator's own bound is the bound on all fees. */
  lemma {:induction false} FreeProtocolFees(txs: seq<Tx>, baseFee: nat)
    requires forall tx :: tx in txs && tx.kind.Protocol? ==> tx.fee == 0
    ensures Fees(txs) == Charges(txs, baseFee).fees
  {
    if |txs| > 0 {
      assert txs[|txs| - 1] in txs && forall tx :: tx in txs[..|txs| - 1] ==> tx in txs;
      FreeProtocolFees(txs[..|txs| - 1], baseFee);
    }
  }

  lemma {:induction false} BurnsGrow(txs: seq<Tx>, rule: Rule, n: nat)
    requires n <= |txs|
    ensures
      var part, all := Burns(txs[..n], rule), Burns(txs, rule);
      part.base <= all.base && part.intentional <= all.intentional && part.avm <= all.avm
    decreases |txs| - n
  {
    if n == |txs| {
      assert txs[..n] == txs;
    } else {
      BurnsGrow(txs, rule, n + 1);
      BurnsSnoc(txs, rule, n);
    }
  }

  // ---- Consensus ----

  /** What a transaction owes before any tip. */
  function Required(tx: Tx, baseFee: nat, gasBurned: bool): nat {
    Saturated(tx, baseFee) + Burn(tx) + if gasBurned then Gas(tx) * 10 else 0
  }

  function Tip(tx: Tx, baseFee: nat, gasBurned: bool): nat {
    var required := Required(tx, baseFee, gasBurned);
    if tx.fee > required then tx.fee - required else 0
  }

  method MinFee(tx: Tx, baseFee: nat) returns (fee: nat)
    ensures fee == Saturated(tx, baseFee)
  {
    Saturates(tx, baseFee);
    fee := MinFeeAt(tx, baseFee);
  }

  /** The consensus split of one transaction: its burn and its tip, or the overflow sentinel exactly
  when what it owes exceeds 64 bits. */
  method ConsensusTx(tx: Tx, baseFee: nat, gasBurned: bool) returns (r: Option<(nat, nat)>)
    requires tx.fee < UINT64
    ensures r == if Required(tx, baseFee, gasBurned) > MAX then None else Some((TotalOf(TxBurn(tx, baseFee, gasBurned)), Tip(tx, baseFee, gasBurned)))
  {
    var minFee := MinFee(tx, baseFee);
    var burned, required := if tx.fee < minFee then tx.fee else minFee, minFee;
    if tx.burn.Some? {
      if burned > MAX - tx.burn.value || required > MAX - tx.burn.value {
        return None;
      }
      burned, required := burned + tx.burn.value, required + tx.burn.value;
    }
    if gasBurned && tx.kind.Contract? {
      var gasFee := GasFee(tx.kind.gasLimit);
      if gasFee.None? || burned > MAX - gasFee.value || required > MAX - gasFee.value {
        return None;
      }
      burned, required := burned + gasFee.value, required + gasFee.value;
    }
    r := Some((burned, if tx.fee > required then tx.fee - required else 0));
  }

  /** The burn and the tip of a transaction whose fee covers what it owes are its fee. */
  lemma TipIsRest(tx: Tx, baseFee: nat, gasBurned: bool)
    requires tx.fee < UINT64 && Splits(tx, baseFee) && (tx.kind.Protocol? ==> tx.fee == 0) && !Skipped(tx)
    ensures Required(tx, baseFee, gasBurned) <= MAX
    ensures TotalOf(TxBurn(tx, baseFee, gasBurned)) + Tip(tx, baseFee, gasBurned) == tx.fee
  {
    Saturates(tx, baseFee);
  }

  /** A 64-bit sum. */
  function Wrapped(a: nat, b: nat): (r: nat)
    requires a < UINT64 && b < UINT64
    ensures r < UINT64 && (r == a + b || r + UINT64 == a + b)
  {
    if a + b < UINT64 then a + b else a + b - UINT64
  }

  /** Adding one transaction's share to the running sums; tips wrap, a burn overflow is reported. */
  method AddShares(burned: nat, tips: nat, burn: nat, tip: nat) returns (r: Option<(nat, nat)>)
    requires tips < UINT64 && tip < UINT64
    ensures r == if burned + burn > MAX then None else Some((burned + burn, Wrapped(tips, tip)))
  {
    var sum := Wrapped(tips, tip);
    if burned > MAX - burn {
      return None;
    }
    r := Some((burned + burn, sum));
  }

  /** What the consensus loop needs to know about one transaction of an accepted block. */
  lemma AcceptedStep(txs: seq<Tx>, baseFee: nat, i: nat)
    requires i < |txs| && Accepted(txs, baseFee)
    ensures txs[i].fee < UINT64 && Splits(txs[i], baseFee) && (txs[i].kind.Protocol? ==> txs[i].fee == 0)
  {
    GoodTx(txs, baseFee, txs[i]);
    AcceptedMarked(txs, baseFee, txs[i]);
  }

  /** A transaction whose fee covers what it burns. */
  predicate Splits(tx: Tx, baseFee: nat) {
    Priced(tx, baseFee) && (!Charged(tx) ==> tx.burn.None?)
  }

  /** One transaction's burn and tip added to the running sums; an overflow shows as the largest burn. */
  method ConsensusStep(tx: Tx, baseFee: nat, gasBurned: bool, burned: nat, tips: nat) returns (stop: bool, b: nat, t: nat)
    requires tx.fee < UINT64 && tips < UINT64
    ensures stop <==> Required(tx, baseFee, gasBurned) > MAX || burned + TotalOf(TxBurn(tx, baseFee, gasBurned)) > MAX
    ensures b == if stop then MAX else burned + TotalOf(TxBurn(tx, baseFee, gasBurned))
    ensures t == if Required(tx, baseFee, gasBurned) > MAX then 0 else Wrapped(tips, Tip(tx, baseFee, gasBurned))
  {
    var split := ConsensusTx(tx, baseFee, gasBurned);
    if split.None? {
      return true, MAX, 0;
    }
    var sums := AddShares(burned, tips, split.value.0, split.value.1);
    if sums.None? {
      return true, MAX, Wrapped(tips, split.value.1);
    }
    return false, sums.value.0, sums.value.1;
  }

  /** The sum of all burns, component by component the reference split. */
  function Burned(txs: seq<Tx>, rule: Rule): nat {
    if |txs| == 0 then 0 else Burned(txs[..|txs| - 1], rule) + if Skipped(txs[|txs| - 1]) then 0 else TotalOf(rule(txs[|txs| - 1]))
  }

  lemma {:induction false} BurnedIsTotal(txs: seq<Tx>, rule: Rule)
    ensures Burned(txs, rule) == TotalOf(Burns(txs, rule))
  {
    if |txs| > 0 {
      BurnedIsTotal(txs[..|txs| - 1], rule);
    }
  }

  lemma {:induction false} BurnedGrows(txs: seq<Tx>, rule: Rule, n: nat)
    requires n <= |txs|
    ensures Burned(txs[..n], rule) <= Burned(txs, rule)
    decreases |txs| - n
  {
    if n == |txs| {
      assert txs[..n] == txs;
    } else {
      BurnedGrows(txs, rule, n + 1);
      assert txs[..n + 1][..n] == txs[..n];
    }
  }

  /** What each transaction owes, burns and tips. */
  datatype Policy = Policy(owed: Tx -> nat, burned: Rule, tip: Tx -> nat)

  function PolicyOf(baseFee: nat, gasBurned: bool): Policy {
    Policy((tx: Tx) => Required(tx, baseFee, gasBurned), BurnRule(baseFee, gasBurned), (tx: Tx) => Tip(tx, baseFee, gasBurned))
  }

  /** Nothing overflows: neither what a transaction owes nor the sum of the burns. */
  predicate Fits(txs: seq<Tx>, policy: Policy) {
    (forall i :: 0 <= i < |txs| && !Skipped(txs[i]) ==> policy.owed(txs[i]) <= MAX) && Burned(txs, policy.burned) <= MAX
  }

  /** The tips of a block. */
  function Tips(txs: seq<Tx>, policy: Policy): nat {
    if |txs| == 0 then 0
    else Tips(txs[..|txs| - 1], policy) + if Skipped(txs[|txs| - 1]) then 0 else policy.tip(txs[|txs| - 1])
  }

  /** The same for the first transactions. */
  predicate FitsTo(txs: seq<Tx>, policy: Policy, n: nat)
    requires n <= |txs|
  {
    (forall i :: 0 <= i < n && !Skipped(txs[i]) ==> policy.owed(txs[i]) <= MAX) && Burned(txs[..n], policy.burned) <= MAX
  }

  lemma FitsDown(txs: seq<Tx>, policy: Policy, n: nat)
    requires n <= |txs|
    ensures Fits(txs, policy) ==> FitsTo(txs, policy, n)
    ensures n == |txs| && FitsTo(txs, policy, n) ==> Fits(txs, policy)
  {
    BurnedGrows(txs, policy.burned, n);
    assert txs[..|txs|] == txs;
  }

  lemma FitsStep(txs: seq<Tx>, policy: Policy, n: nat)
    requires n < |txs| && FitsTo(txs, policy, n)
    ensures
      var tx, sum := txs[n], Burned(txs[..n], policy.burned) + TotalOf(policy.burned(txs[n]));
      && (FitsTo(txs, policy, n + 1) <==> Skipped(tx) || (policy.owed(tx) <= MAX && sum <= MAX))
      && Burned(txs[..n + 1], policy.burned) == if Skipped(tx) then Burned(txs[..n], policy.burned) else sum
  {
    assert txs[..n + 1][..n] == txs[..n];
  }

  lemma TipsSnoc(txs: seq<Tx>, policy: Policy, n: nat)
    requires n < |txs|
    ensures Tips(txs[..n + 1], policy) == Tips(txs[..n], policy) + if Skipped(txs[n]) then 0 else policy.tip(txs[n])
  {
    assert txs[..n + 1][..n] == txs[..n];
  }

  /** Running 64-bit tips are the exact tips while those fit. */
  predicate Wraps(tips: nat, exact: nat) {
    exact < UINT64 ==> tips == exact
  }

  lemma TipsWrap(txs: seq<Tx>, policy: Policy, n: nat, tips: nat)
    requires n < |txs| && tips < UINT64 && Wraps(tips, Tips(txs[..n], policy))
    ensures Tips(txs[..n + 1], policy) == Tips(txs[..n], policy) + if Skipped(txs[n]) then 0 else policy.tip(txs[n])
    ensures !Skipped(txs[n]) && policy.tip(txs[n]) < UINT64 ==> Wraps(Wrapped(tips, policy.tip(txs[n])), Tips(txs[..n + 1], policy))
  {
    TipsSnoc(txs, policy, n);
  }

  /** The running sums after some transactions, none of which overflowed. */
  predicate Counted(txs: seq<Tx>, policy: Policy, n: nat, burned: nat, tips: nat)
    requires n <= |txs|
  {
    FitsTo(txs, policy, n) && burned == Burned(txs[..n], policy.burned) && Wraps(tips, Tips(txs[..n], policy))
  }

  lemma NothingCounted(txs: seq<Tx>, policy: Policy)
    ensures Counted(txs, policy, 0, 0, 0)
  {
  }

  /** What a round returns for a transaction. */
  predicate Round(tx: Tx, policy: Policy, burned: nat, tips: nat, stop: bool, b: nat, t: nat)
    requires tips < UINT64
  {
    if Skipped(tx) then !stop && b == burned && t == tips
    else
      && (stop <==> policy.owed(tx) > MAX || burned + TotalOf(policy.burned(tx)) > MAX)
      && (!stop ==> b == burned + TotalOf(policy.burned(tx)) && policy.tip(tx) < UINT64 && t == Wrapped(tips, policy.tip(tx)))
  }

  lemma CountedNext(txs: seq<Tx>, policy: Policy, n: nat, burned: nat, tips: nat, stop: bool, b: nat, t: nat)
    requires n < |txs| && tips < UINT64 && Counted(txs, policy, n, burned, tips) && Round(txs[n], policy, burned, tips, stop, b, t)
    ensures if stop then !Fits(txs, policy) else Counted(txs, policy, n + 1, b, t)
  {
    FitsStep(txs, policy, n);
    TipsWrap(txs, policy, n, tips);
    FitsDown(txs, policy, n + 1);
  }

  lemma AllCounted(txs: seq<Tx>, policy: Policy, burned: nat, tips: nat)
    requires Counted(txs, policy, |txs|, burned, tips)
    ensures Fits(txs, policy) && burned == Burned(txs, policy.burned) && Wraps(tips, Tips(txs, policy))
  {
    assert txs[..|txs|] == txs;
    FitsDown(txs, policy, |txs|);
  }

  /** One round of the loop. */
  method ConsensusNext(tx: Tx, baseFee: nat, gasBurned: bool, burned: nat, tips: nat, ghost policy: Policy) returns (stop: bool, b: nat, t: nat)
    requires tx.fee < UINT64 && tips < UINT64 && policy == PolicyOf(baseFee, gasBurned)
    ensures Round(tx, policy, burned, tips, stop, b, t) && t < UINT64 && (stop ==> b == MAX)
  {
    if Skipped(tx) {
      return false, burned, tips;
    }
    stop, b, t := ConsensusStep(tx, baseFee, gasBurned, burned, tips);
  }

  method ConsensusLoop(txs: seq<Tx>, baseFee: nat, gasBurned: bool, ghost policy: Policy) returns (ok: bool, burned: nat, tips: nat)
    requires policy == PolicyOf(baseFee, gasBurned) && forall i :: 0 <= i < |txs| ==> txs[i].fee < UINT64
    ensures if ok then Counted(txs, policy, |txs|, burned, tips) else !Fits(txs, policy) && burned == MAX
  {
    ok, burned, tips := true, 0, 0;
    NothingCounted(txs, policy);
    for i := 0 to |txs|
      invariant Counted(txs, policy, i, burned, tips) && tips < UINT64
    {
      var stop, b, t := ConsensusNext(txs[i], baseFee, gasBurned, burned, tips, policy);
      CountedNext(txs, policy, i, burned, tips, stop, b, t);
      if stop {
        return false, b, t;
      }
      burned, tips := b, t;
    }
  }

  /** Consensus: burned and tips, 64-bit. For every block they are the reference totals, and the burn
  is the largest number exactly when something overflows; for an accepted block burned plus tips is
  the sum of the fees. */
  method ConsensusBurns(txs: seq<Tx>, baseFee: nat, gasBurned: bool) returns (burned: nat, tips: nat)
    requires Wellformed(txs)
    ensures burned == if Fits(txs, PolicyOf(baseFee, gasBurned)) then TotalOf(Burns(txs, BurnRule(baseFee, gasBurned))) else MAX
    ensures Fits(txs, PolicyOf(baseFee, gasBurned)) && Tips(txs, PolicyOf(baseFee, gasBurned)) < UINT64 ==> tips == Tips(txs, PolicyOf(baseFee, gasBurned))
    ensures Accepted(txs, baseFee) ==> Fits(txs, PolicyOf(baseFee, gasBurned)) && burned + tips == Fees(txs)
  {
    ghost var policy := PolicyOf(baseFee, gasBurned);
    var ok;
    ok, burned, tips := ConsensusLoop(txs, baseFee, gasBurned, policy);
    BurnedIsTotal(txs, policy.burned);
    if ok {
      AllCounted(txs, policy, burned, tips);
    }
    if Accepted(txs, baseFee) {
      AcceptedConserves(txs, baseFee, policy, gasBurned);
    }
  }

  /** A policy under which every transaction of these burns and tips its fee. */
  predicate Shares(txs: seq<Tx>, policy: Policy) {
    forall i :: 0 <= i < |txs| && !Skipped(txs[i]) ==>
      policy.owed(txs[i]) <= MAX && TotalOf(policy.burned(txs[i])) + policy.tip(txs[i]) == txs[i].fee
  }

  lemma {:induction false} SharesSum(txs: seq<Tx>, policy: Policy, n: nat)
    requires Shares(txs, policy) && Fees(txs) < UINT64 && n <= |txs|
    ensures Burned(txs[..n], policy.burned) + Tips(txs[..n], policy) == Fees(txs[..n]) < UINT64
    ensures FitsTo(txs, policy, n)
  {
    FeesGrow(txs, n);
    if n > 0 {
      SharesSum(txs, policy, n - 1);
      assert txs[..n][..n - 1] == txs[..n - 1];
      TipsSnoc(txs, policy, n - 1);
      FitsStep(txs, policy, n - 1);
    }
  }

  /** Conservation: burned plus tips is the sum of the fees, and nothing wraps. */
  lemma AcceptedConserves(txs: seq<Tx>, baseFee: nat, policy: Policy, gasBurned: bool)
    requires Accepted(txs, baseFee) && policy == PolicyOf(baseFee, gasBurned)
    ensures Fits(txs, policy)
    ensures TotalOf(Burns(txs, policy.burned)) + Tips(txs, policy) == Fees(txs) < UINT64
  {
    forall i | 0 <= i < |txs| && !Skipped(txs[i])
      ensures policy.owed(txs[i]) <= MAX && TotalOf(policy.burned(txs[i])) + policy.tip(txs[i]) == txs[i].fee
    {
      AcceptedStep(txs, baseFee, i);
      TipIsRest(txs[i], baseFee, gasBurned);
    }
    AcceptedFees(txs, baseFee);
    assert txs[..|txs|] == txs;
    SharesSum(txs, policy, |txs|);
    BurnedIsTotal(txs, policy.burned);
    FitsDown(txs, policy, |txs|);
  }

  // ---- Audit and API ----

  /** What audit and API count of one transaction: a signed burn only if the fee covers the minimum. */
  function SeenBurn(tx: Tx, baseFee: nat, gasBurned: bool): Split {
    var minimum := baseFee * tx.size;
    Split(if minimum > tx.fee then tx.fee else minimum, if minimum > tx.fee then 0 else Burn(tx), if gasBurned then Gas(tx) * 10 else 0)
  }

  function SeenRule(baseFee: nat, gasBurned: bool): Rule {
    (tx: Tx) => SeenBurn(tx, baseFee, gasBurned)
  }

  lemma SeenIsBurned(tx: Tx, baseFee: nat, gasBurned: bool)
    requires baseFee > 0 && (tx.burn.Some? ==> ExactMinimum(tx, baseFee) <= tx.fee)
    ensures SeenBurn(tx, baseFee, gasBurned) == TxBurn(tx, baseFee, gasBurned)
  {
    assert baseFee * tx.size == tx.size * baseFee;
  }

  /** In an accepted block audit and API count what consensus burns. */
  lemma {:induction false} AcceptedSeen(txs: seq<Tx>, baseFee: nat, gasBurned: bool, n: nat)
    requires Accepted(txs, baseFee) && baseFee > 0 && n <= |txs|
    ensures Burns(txs[..n], SeenRule(baseFee, gasBurned)) == Burns(txs[..n], BurnRule(baseFee, gasBurned))
  {
    if n > 0 {
      AcceptedSeen(txs, baseFee, gasBurned, n - 1);
      BurnsSnoc(txs, SeenRule(baseFee, gasBurned), n - 1);
      BurnsSnoc(txs, BurnRule(baseFee, gasBurned), n - 1);
      assert txs[n - 1] in txs;
      GoodTx(txs, baseFee, txs[n - 1]);
      if !Skipped(txs[n - 1]) {
        SeenIsBurned(txs[n - 1], baseFee, gasBurned);
      }
    }
  }

  predicate AmountsFit(s: Split) {
    s.base < UINT64 && s.intentional < UINT64 && s.avm < UINT64
  }

  /** One transaction of the audit's count, in exact arithmetic with 64-bit guards. */
  method AuditTx(tx: Tx, baseFee: nat, gasBurned: bool, sums: Split) returns (r: Option<Split>)
    requires tx.fee < UINT64 && AmountsFit(sums)
    ensures r ==
      var next := Joined(sums, SeenBurn(tx, baseFee, gasBurned));
      if (tx.marked ==> tx.burn.Some?) && AmountsFit(next) then Some(next) else None
  {
    if tx.marked && tx.burn.None? {
      return None;
    }
    var minimum := baseFee * tx.size;
    var s := sums;
    var protocol := tx.fee;
    if minimum <= tx.fee {
      protocol := minimum;
      if tx.burn.Some? {
        if s.intentional + tx.burn.value >= UINT64 {
          return None;
        }
        s := s.(intentional := s.intentional + tx.burn.value);
      }
    }
    if s.base + protocol >= UINT64 {
      return None;
    }
    s := s.(base := s.base + protocol);
    if gasBurned && tx.kind.Contract? {
      var gasFee := GasFee(tx.kind.gasLimit);
      if gasFee.None? || s.avm + gasFee.value >= UINT64 {
        return None;
      }
      s := s.(avm := s.avm + gasFee.value);
    }
    r := Some(s);
  }

  /** What the audit accepts: with no base fee nothing may be paid, markers are well formed and not on
  coinbase or stake transactions, and the total fits. */
  predicate Auditable(txs: seq<Tx>, baseFee: nat, gasBurned: bool) {
    && (baseFee == 0 ==> forall tx :: tx in txs && !tx.kind.Coinbase? && !tx.kind.Stake? ==> tx.fee == 0)
    && (forall tx :: tx in txs && tx.marked ==> tx.burn.Some? && !tx.kind.Coinbase? && !tx.kind.Stake?)
    && TotalOf(Burns(txs, SeenRule(baseFee, gasBurned))) < UINT64
  }

  /** What the audit's loop has passed. */
  predicate Marked(txs: seq<Tx>) {
    forall i :: 0 <= i < |txs| && txs[i].marked ==> txs[i].burn.Some? && !Skipped(txs[i])
  }

  /** The audit: components and their total for exactly the auditable blocks; for accepted ones they
  are the reference split. */
  method AuditBurns(txs: seq<Tx>, baseFee: nat, gasBurned: bool) returns (r: Option<(Split, nat)>)
    requires Wellformed(txs)
    ensures r ==
      var seen := Burns(txs, SeenRule(baseFee, gasBurned));
      if Auditable(txs, baseFee, gasBurned) then Some((seen, TotalOf(seen))) else None
    ensures Accepted(txs, baseFee) && baseFee > 0 ==>
      r == Some((Burns(txs, BurnRule(baseFee, gasBurned)), TotalOf(Burns(txs, BurnRule(baseFee, gasBurned)))))
  {
    if Accepted(txs, baseFee) && baseFee > 0 {
      AcceptedAuditable(txs, baseFee, gasBurned);
    }
    if baseFee == 0 {
      if exists tx :: tx in txs && !Skipped(tx) && tx.fee > 0 {
        return None;
      }
    }
    var sums := AuditLoop(txs, baseFee, gasBurned, SeenRule(baseFee, gasBurned));
    assert txs[..|txs|] == txs;
    if sums.None? || TotalOf(sums.value) >= UINT64 {
      return None;
    }
    r := Some((sums.value, TotalOf(sums.value)));
  }

  /** The first transactions are audited: their sums fit and their markers are in order. */
  predicate Audited(txs: seq<Tx>, rule: Rule, n: nat, sums: Split)
    requires n <= |txs|
  {
    && sums == Burns(txs[..n], rule) && AmountsFit(sums)
    && forall i :: 0 <= i < n && txs[i].marked ==> txs[i].burn.Some? && !Skipped(txs[i])
  }

  lemma NothingAudited(txs: seq<Tx>, rule: Rule)
    ensures Audited(txs, rule, 0, Split(0, 0, 0))
  {
    assert txs[..0] == [];
  }

  lemma AuditedNext(txs: seq<Tx>, rule: Rule, n: nat, sums: Split)
    requires n < |txs| && Audited(txs, rule, n, sums)
    ensures
      var tx, next := txs[n], if Skipped(txs[n]) then sums else Joined(sums, rule(txs[n]));
      if (tx.marked ==> tx.burn.Some? && !Skipped(tx)) && AmountsFit(next) then Audited(txs, rule, n + 1, next)
      else !Marked(txs) || !AmountsFit(Burns(txs, rule))
  {
    BurnsSnoc(txs, rule, n);
    BurnsGrow(txs, rule, n + 1);
  }

  method AuditLoop(txs: seq<Tx>, baseFee: nat, gasBurned: bool, ghost rule: Rule) returns (r: Option<Split>)
    requires rule == SeenRule(baseFee, gasBurned) && forall i :: 0 <= i < |txs| ==> txs[i].fee < UINT64
    ensures if r.Some? then Audited(txs, rule, |txs|, r.value) else !Marked(txs) || !AmountsFit(Burns(txs, rule))
  {
    var sums := Split(0, 0, 0);
    NothingAudited(txs, rule);
    for i := 0 to |txs|
      invariant Audited(txs, rule, i, sums)
    {
      AuditedNext(txs, rule, i, sums);
      if Skipped(txs[i]) {
        if txs[i].marked {
          return None;
        }
      } else {
        var next := AuditTx(txs[i], baseFee, gasBurned, sums);
        if next.None? {
          return None;
        }
        sums := next.value;
      }
    }
    r := Some(sums);
  }

  lemma AcceptedAuditable(txs: seq<Tx>, baseFee: nat, gasBurned: bool)
    requires Accepted(txs, baseFee) && baseFee > 0
    ensures Auditable(txs, baseFee, gasBurned)
    ensures Burns(txs, SeenRule(baseFee, gasBurned)) == Burns(txs, BurnRule(baseFee, gasBurned))
  {
    assert txs[..|txs|] == txs;
    AcceptedSeen(txs, baseFee, gasBurned, |txs|);
    AcceptedCovered(txs, baseFee, gasBurned);
    AcceptedFees(txs, baseFee);
    BurnsWithinFees(txs, BurnRule(baseFee, gasBurned), |txs|);
    forall tx | tx in txs && tx.marked ensures tx.burn.Some? && !Skipped(tx) {
      AcceptedMarked(txs, baseFee, tx);
    }
  }

  lemma GoodTx(txs: seq<Tx>, baseFee: nat, tx: Tx)
    requires Accepted(txs, baseFee) && tx in txs
    ensures Priced(tx, baseFee) && (!Charged(tx) ==> tx.burn.None?) && (tx.marked ==> !Skipped(tx) && tx.burn.Some?)
    ensures !Skipped(tx) ==> GasFee(Gas(tx)).Some? && (tx.burn.Some? ==> ExactMinimum(tx, baseFee) <= tx.fee)
  {
    Saturates(tx, baseFee);
    AcceptedMarked(txs, baseFee, tx);
  }

  /** The API's first pass: markers and gas limits. */
  predicate Presentable(tx: Tx, gasBurned: bool) {
    && (tx.marked ==> tx.burn.Some? && !Skipped(tx))
    && (gasBurned && tx.kind.Contract? ==> GasFee(tx.kind.gasLimit).Some?)
  }

  /** The API: the same components in unbounded integers, for exactly the blocks whose markers and gas
  limits are in order; wherever the audit answers, the API answers the same. */
  method ApiBurns(txs: seq<Tx>, baseFee: nat, gasBurned: bool) returns (r: Option<(Split, nat)>)
    requires Wellformed(txs)
    ensures r.Some? <==>
      && (forall tx :: tx in txs && tx.marked ==> tx.burn.Some? && !tx.kind.Coinbase? && !tx.kind.Stake?)
      && (forall tx :: tx in txs && gasBurned && tx.kind.Contract? ==> tx.kind.gasLimit * 10 < UINT64)
    ensures r.Some? ==> r.value == (Burns(txs, SeenRule(baseFee, gasBurned)), TotalOf(Burns(txs, SeenRule(baseFee, gasBurned))))
    ensures Auditable(txs, baseFee, gasBurned) ==> r.Some?
  {
    if Auditable(txs, baseFee, gasBurned) {
      forall tx | tx in txs && gasBurned && tx.kind.Contract? ensures tx.kind.gasLimit * 10 < UINT64 {
        GasWithin(txs, baseFee, tx);
      }
    }
    if exists tx :: tx in txs && !Presentable(tx, gasBurned) {
      return None;
    }
    var sums := Split(0, 0, 0);
    for i := 0 to |txs|
      invariant sums == Burns(txs[..i], SeenRule(baseFee, gasBurned))
    {
      var tx := txs[i];
      assert tx in txs;
      BurnsSnoc(txs, SeenRule(baseFee, gasBurned), i);
      if !Skipped(tx) {
        sums := ApiTx(tx, baseFee, gasBurned, sums);
      }
    }
    assert txs[..|txs|] == txs;
    r := Some((sums, TotalOf(sums)));
  }

  lemma GasWithin(txs: seq<Tx>, baseFee: nat, tx: Tx)
    requires tx in txs && tx.kind.Contract?
    ensures tx.kind.gasLimit * 10 <= Burns(txs, SeenRule(baseFee, true)).avm
  {
    var rule := SeenRule(baseFee, true);
    var i :| 0 <= i < |txs| && txs[i] == tx;
    BurnsSnoc(txs, rule, i);
    BurnsGrow(txs, rule, i + 1);
  }

  method ApiTx(tx: Tx, baseFee: nat, gasBurned: bool, sums: Split) returns (s: Split)
    requires gasBurned && tx.kind.Contract? ==> GasFee(tx.kind.gasLimit).Some?
    ensures s == Joined(sums, SeenBurn(tx, baseFee, gasBurned))
  {
    var minFee := baseFee * tx.size;
    s := sums;
    if minFee > tx.fee {
      s := s.(base := s.base + tx.fee);
    } else {
      s := s.(base := s.base + minFee);
      if tx.burn.Some? {
        s := s.(intentional := s.intentional + tx.burn.value);
      }
    }
    if gasBurned && tx.kind.Contract? {
      s := s.(avm := s.avm + GasFee(tx.kind.gasLimit).value);
    }
  }

  /** Together: audit and API agree wherever the audit answers; for every block the validator accepts,
  conservation and three equal burn totals, with and without the gas-burn rule. */
  method CompareBurns(txs: seq<Tx>, baseFee: nat, gasBurned: bool) returns (burned: nat, tips: nat, shown: bool, agree: bool)
    requires Wellformed(txs)
    ensures Auditable(txs, baseFee, gasBurned) ==> shown
    ensures Accepted(txs, baseFee) && baseFee > 0 ==> agree && burned + tips == Fees(txs)
  {
    burned, tips := ConsensusBurns(txs, baseFee, gasBurned);
    var audit := AuditBurns(txs, baseFee, gasBurned);
    var api := ApiBurns(txs, baseFee, gasBurned);
    shown := audit.Some? && api == audit;
    agree := shown && audit.value.1 == burned;
  }
}
