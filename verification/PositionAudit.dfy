/** The audit of one block's position rows, vault rows and payout outputs against the
checkpoints before and after it: integer accrual with a carried remainder, due balances,
checkpoint deltas and payouts. */
module PositionAudit {
  import opened Bytes
  import opened Options
  import opened Sums

  /** Identifiers and addresses as text bytes. */
  type Text = ByteString

  /** A vault is named by its public key, so its text is never empty. */
  type VaultId = t: ByteString | t != [] witness [0]

  const UINT64: nat := 0x1_0000_0000_0000_0000
  const UNIT: nat := 100_000_000
  const YEAR_SECONDS: nat := 365 * 24 * 60 * 60
  const APR_DENOMINATOR: nat := 100 * YEAR_SECONDS * 1_000_000_000
  const MAX_ELAPSED_NS: nat := 15_000_000_000
  const MAX_TIER_STAKE: nat := 100_000_000 * UNIT

  /** The signed opening of a position; it never changes. */
  datatype Deposit = Deposit(amount: nat, vault: VaultId, beneficiary: Text)

  datatype Position = Position(deposit: Deposit, nonce: nat, unlockHeight: nat, returned: bool, due: nat, carry: nat,
                               withdrawn: nat, effective: Option<VaultId>)

  datatype Action = Open(deposit: Deposit) | Withdraw(deposit: Deposit, nonce: nat, amount: nat)

  /** The counters and positions of one accounting checkpoint. */
  datatype Checkpoint = Checkpoint(positions: map<Text, Position>, accrued: nat, leaderPaid: nat, guardianPaid: nat,
                                   principalReturned: nat)

  datatype VaultRow = VaultRow(id: Text, validatorStake: nat, guardianStake: nat, totalStake: nat, tierStake: nat,
                               aprPercent: nat, leaderPercent: nat, accrued: nat, leaderPaid: nat, guardianPaid: nat,
                               unfunded: nat)

  datatype Row = Row(id: Text, beneficiary: Text, signedVault: Text, vaultBefore: Text, vaultAfter: Text,
                     dueBefore: nat, dueAfter: nat, accrued: nat, paid: nat, principal: nat, carryBefore: nat,
                     carryAfter: nat)

  datatype Payout = Payout(beneficiary: Text, amount: nat)

  function Vault(p: Position): VaultId {
    if p.effective.Some? then p.effective.value else p.deposit.vault
  }

  // ---- Accrual ----

  /** Remaining principal, as a 64-bit difference. */
  function Remaining(p: Position): nat {
    (p.deposit.amount - p.withdrawn) % UINT64
  }

  /** The exact interest numerator of one block: zero for a closed position or an idle vault. */
  function Numerator(p: Position, vaults: map<Text, VaultRow>, elapsed: nat): nat {
    if p.returned || p.unlockHeight != 0 || Vault(p) !in vaults || vaults[Vault(p)].validatorStake == 0 then 0
    else Remaining(p) * vaults[Vault(p)].aprPercent * elapsed
  }

  /** Whole units accrued and the remainder carried on. */
  function Accrue(p: Position, vaults: map<Text, VaultRow>, elapsed: nat): Option<(nat, nat)> {
    if p.returned || p.unlockHeight != 0 then Some((0, p.carry))
    else if Vault(p) !in vaults then None
    else if vaults[Vault(p)].validatorStake == 0 then Some((0, p.carry))
    else
      var n := Numerator(p, vaults, elapsed) + p.carry;
      if n / APR_DENOMINATOR >= UINT64 then None else Some((n / APR_DENOMINATOR, n % APR_DENOMINATOR))
  }

  /** Nothing is lost to rounding in one block. */
  lemma AccrueConserves(p: Position, vaults: map<Text, VaultRow>, elapsed: nat)
    requires Accrue(p, vaults, elapsed).Some?
    ensures
      var r := Accrue(p, vaults, elapsed).value;
      APR_DENOMINATOR * r.0 + r.1 == Numerator(p, vaults, elapsed) + p.carry
  {
    var n := Numerator(p, vaults, elapsed) + p.carry;
    assert n == APR_DENOMINATOR * (n / APR_DENOMINATOR) + n % APR_DENOMINATOR;
  }

  /** Elapsed time between parent and block, capped. */
  function Elapsed(parentTs: int, ts: int): nat
    requires parentTs < ts
  {
    if ts - parentTs > MAX_ELAPSED_NS then MAX_ELAPSED_NS else ts - parentTs
  }

  // ---- One position row ----

  function WithdrawalAmount(p: Position, a: Action): Option<nat> {
    if p.returned || p.unlockHeight != 0 || p.withdrawn >= p.deposit.amount || p.nonce == UINT64 - 1 then None
    else if !a.Withdraw? || a.deposit != p.deposit || a.nonce != p.nonce + 1 then None
    else
      var amount := if a.amount == 0 then p.deposit.amount - p.withdrawn else a.amount;
      if amount > p.deposit.amount - p.withdrawn then None else Some(amount)
  }

  /** A withdrawal returns the whole remainder if and only if it names none or names it. */
  lemma WholeRemainder(p: Position, a: Action)
    requires WithdrawalAmount(p, a).Some?
    ensures WithdrawalAmount(p, a).value <= p.deposit.amount - p.withdrawn
    ensures WithdrawalAmount(p, a).value == p.deposit.amount - p.withdrawn <==> a.amount == 0 || a.amount == p.deposit.amount - p.withdrawn
  {
  }

  /** The opening balances a row must show, from the checkpoint before the block. */
  datatype Opening = Opening(deposit: Deposit, due: nat, carry: nat, vault: Text, accrued: nat, carryAfter: nat, withdrawn: nat)

  function OpeningOf(prior: Option<Position>, post: Option<Position>, action: Option<Action>,
                     vaults: map<Text, VaultRow>, elapsed: nat): Option<Opening> {
    if prior.Some? then
      var p := prior.value;
      var r := Accrue(p, vaults, elapsed);
      if r.None? then None
      else Some(Opening(p.deposit, p.due, p.carry, Vault(p), r.value.0, r.value.1, p.withdrawn))
    else if post.Some? && action == Some(Open(post.value.deposit)) && post.value.due == 0 && post.value.withdrawn == 0
            && post.value.carry == 0
    then Some(Opening(post.value.deposit, 0, 0, Vault(post.value), 0, 0, 0))
    else None
  }

  /** Principal returned in the block: the growth of `withdrawn`, or a verified final withdrawal. */
  function PrincipalOf(o: Opening, prior: Option<Position>, post: Option<Position>, action: Option<Action>): Option<nat> {
    if post.Some? then if post.value.withdrawn < o.withdrawn then None else Some(post.value.withdrawn - o.withdrawn)
    else if prior.Some? && action.Some? then WithdrawalAmount(prior.value, action.value)
    else None
  }

  /** The row agrees with both checkpoints. */
  predicate RowAgrees(row: Row, prior: Option<Position>, post: Option<Position>, action: Option<Action>,
                      vaults: map<Text, VaultRow>, elapsed: nat) {
    var opening := OpeningOf(prior, post, action, vaults, elapsed);
    && opening.Some?
    && var o := opening.value;
       var dueAfter := if post.Some? then post.value.due else 0;
       && (post.Some? ==> post.value.deposit == o.deposit && post.value.carry == o.carryAfter)
       && row.signedVault == o.deposit.vault && row.vaultBefore == o.vault
       && row.vaultAfter == (if post.Some? then Vault(post.value) else o.vault)
       && row.dueBefore == o.due && row.accrued == o.accrued && row.carryBefore == o.carry && row.carryAfter == o.carryAfter
       && PrincipalOf(o, prior, post, action) == Some(row.principal)
       && o.due + o.accrued < UINT64 && row.paid <= o.due + o.accrued && o.due + o.accrued - row.paid == dueAfter == row.dueAfter
       && o.deposit.beneficiary != [] && row.beneficiary == o.deposit.beneficiary
  }

  // ---- All rows of a block ----

  datatype Totals = Totals(accrued: nat, paid: nat, principal: nat)

  function RowTotals(rows: seq<Row>): Totals {
    if |rows| == 0 then Totals(0, 0, 0)
    else
      var t, row := RowTotals(rows[..|rows| - 1]), rows[|rows| - 1];
      Totals(t.accrued + row.accrued, t.paid + row.paid, t.principal + row.principal)
  }

  function Credit(owed: map<Text, nat>, who: Text, amount: nat): map<Text, nat> {
    owed[who := (if who in owed then owed[who] else 0) + amount]
  }

  /** What each beneficiary receives. */
  function Owed(rows: seq<Row>): map<Text, nat> {
    if |rows| == 0 then map[]
    else Credit(Owed(rows[..|rows| - 1]), rows[|rows| - 1].beneficiary, rows[|rows| - 1].paid + rows[|rows| - 1].principal)
  }

  function At<V>(m: map<Text, V>, id: Text): Option<V> {
    if id in m then Some(m[id]) else None
  }

  /** A closed and settled position that is already gone needs no row. */
  function ExpectedIds(before: Checkpoint, after: Checkpoint): set<Text> {
    (set id | id in before.positions && !(before.positions[id].returned && before.positions[id].due == 0 && id !in after.positions)) +
    after.positions.Keys
  }

  predicate UniqueIds(rows: seq<Row>) {
    forall i, j :: 0 <= i < j < |rows| ==> rows[i].id != rows[j].id
  }

  function Ids(rows: seq<Row>): set<Text> {
    set row | row in rows :: row.id
  }

  /** Inputs of a block's audit besides the rows. */
  datatype Context = Context(before: Checkpoint, after: Checkpoint, actions: map<Text, Action>)

  predicate Agrees(c: Context, vaults: map<Text, VaultRow>, elapsed: nat, row: Row) {
    RowAgrees(row, At(c.before.positions, row.id), At(c.after.positions, row.id), At(c.actions, row.id), vaults, elapsed)
  }

  predicate Fits(rows: seq<Row>) {
    && RowTotals(rows).accrued < UINT64 && RowTotals(rows).paid < UINT64 && RowTotals(rows).principal < UINT64
    && forall who :: who in Owed(rows) ==> Owed(rows)[who] < UINT64
  }

  /** The rows are exactly the expected positions, each passes, and no total overflows. */
  predicate Listed(rows: seq<Row>, expected: set<Text>, check: Row -> bool) {
    && UniqueIds(rows) && (forall i :: 0 <= i < |rows| ==> rows[i].id != [])
    && Ids(rows) == expected
    && (forall i :: 0 <= i < |rows| ==> check(rows[i]))
    && Fits(rows)
  }

  function Agreement(c: Context, vaults: map<Text, VaultRow>, elapsed: nat): Row -> bool {
    row => Agrees(c, vaults, elapsed, row)
  }

  predicate RowsAgree(c: Context, vaults: map<Text, VaultRow>, elapsed: nat, rows: seq<Row>) {
    Listed(rows, ExpectedIds(c.before, c.after), Agreement(c, vaults, elapsed))
  }

  lemma {:induction false} PrefixFits(rows: seq<Row>, n: nat)
    requires n <= |rows| && Fits(rows)
    ensures Fits(rows[..n])
    decreases |rows| - n
  {
    if n == |rows| {
      assert rows[..n] == rows;
    } else {
      PrefixFits(rows, n + 1);
      assert rows[..n + 1][..n] == rows[..n];
      var before, after := Owed(rows[..n]), Owed(rows[..n + 1]);
      forall who | who in before ensures before[who] < UINT64 {
        assert before[who] <= after[who];
      }
    }
  }

  /** The loop over the rows: each is checked and enters the running totals and payouts. */
  method SumRows(rows: seq<Row>, check: Row -> bool) returns (r: Option<(map<Text, nat>, Totals)>)
    ensures r.Some? <==> (forall i :: 0 <= i < |rows| ==> check(rows[i])) && Fits(rows)
    ensures r.Some? ==> r.value == (Owed(rows), RowTotals(rows))
  {
    var owed: map<Text, nat>, t := map[], Totals(0, 0, 0);
    var i := 0;
    while i < |rows|
      invariant 0 <= i <= |rows| && owed == Owed(rows[..i]) && t == RowTotals(rows[..i])
      invariant Fits(rows[..i]) && forall j :: 0 <= j < i ==> check(rows[j])
    {
      var row := rows[i];
      if !check(row) {
        return None;
      }
      assert rows[..i + 1][..i] == rows[..i];
      t := Totals(t.accrued + row.accrued, t.paid + row.paid, t.principal + row.principal);
      owed := Credit(owed, row.beneficiary, row.paid + row.principal);
      assert t == RowTotals(rows[..i + 1]) && owed == Owed(rows[..i + 1]);
      if t.accrued >= UINT64 || t.paid >= UINT64 || t.principal >= UINT64 || owed[row.beneficiary] >= UINT64 {
        if Fits(rows) {
          PrefixFits(rows, i + 1);
          assert false;
        }
        return None;
      }
      i := i + 1;
    }
    assert rows[..i] == rows;
    r := Some((owed, t));
  }

  /** Identity, checks, totals and payouts of all position rows. */
  method VerifyRows(rows: seq<Row>, expected: set<Text>, check: Row -> bool) returns (r: Option<(map<Text, nat>, Totals)>)
    ensures r.Some? <==> Listed(rows, expected, check)
    ensures r.Some? ==> r.value == (Owed(rows), RowTotals(rows))
  {
    var unique := CheckIds(rows);
    UniqueCount(rows, |rows|);
    assert rows[..|rows|] == rows;
    if !unique || |rows| != |expected| {
      return None;
    }
    if exists row :: row in rows && row.id !in expected {
      var row :| row in rows && row.id !in expected;
      assert row.id in Ids(rows);
      return None;
    }
    SameSize(Ids(rows), expected);
    r := SumRows(rows, check);
  }

  method CheckIds(rows: seq<Row>) returns (ok: bool)
    ensures ok <==> UniqueIds(rows) && forall i :: 0 <= i < |rows| ==> rows[i].id != []
  {
    var seen: set<Text> := {};
    for i := 0 to |rows|
      invariant forall j :: 0 <= j < i ==> rows[j].id != []
      invariant forall j, k :: 0 <= j < k < i ==> rows[j].id != rows[k].id
      invariant forall id :: id in seen <==> exists j :: 0 <= j < i && rows[j].id == id
    {
      if rows[i].id == [] || rows[i].id in seen {
        return false;
      }
      seen := seen + {rows[i].id};
    }
    ok := true;
  }

  lemma {:induction false} UniqueCount(rows: seq<Row>, n: nat)
    requires n <= |rows|
    ensures UniqueIds(rows) ==> |Ids(rows[..n])| == n
  {
    if n > 0 && UniqueIds(rows) {
      UniqueCount(rows, n - 1);
      assert rows[..n] == rows[..n - 1] + [rows[n - 1]];
      IdsSnoc(rows[..n - 1], rows[n - 1]);
    }
  }

  lemma IdsSnoc(rows: seq<Row>, row: Row)
    ensures Ids(rows + [row]) == Ids(rows) + {row.id}
  {
    assert forall r :: r in rows + [row] <==> r in rows || r == row;
  }

  lemma SameSize(a: set<Text>, b: set<Text>)
    requires a <= b && |a| == |b|
    ensures a == b
  {
    assert b == a + (b - a);
  }

  // ---- Payouts ----

  /** The rows credit exactly what they pay out and return. */
  lemma {:induction false} OwedTotal(rows: seq<Row>)
    ensures Sum(Owed(rows)) == RowTotals(rows).paid + RowTotals(rows).principal
  {
    if |rows| > 0 {
      var init, row := rows[..|rows| - 1], rows[|rows| - 1];
      OwedTotal(init);
      SumPut(Owed(init), row.beneficiary, (if row.beneficiary in Owed(init) then Owed(init)[row.beneficiary] else 0) + row.paid + row.principal);
    }
  }

  function Paid(outputs: seq<Payout>): nat {
    if |outputs| == 0 then 0 else Paid(outputs[..|outputs| - 1]) + outputs[|outputs| - 1].amount
  }

  /** One output per beneficiary with a positive amount. */
  predicate PaysExactly(outputs: seq<Payout>, owed: map<Text, nat>) {
    && (forall i, j :: 0 <= i < j < |outputs| ==> outputs[i].beneficiary != outputs[j].beneficiary)
    && (forall i :: 0 <= i < |outputs| ==> outputs[i].beneficiary in owed && outputs[i].amount == owed[outputs[i].beneficiary])
    && (forall who :: who in owed && owed[who] > 0 ==> exists i :: 0 <= i < |outputs| && outputs[i].beneficiary == who)
  }

  function Recipients(outputs: seq<Payout>): (r: seq<Text>)
    ensures |r| == |outputs| && forall i :: 0 <= i < |r| ==> r[i] == outputs[i].beneficiary
  {
    seq(|outputs|, i requires 0 <= i < |outputs| => outputs[i].beneficiary)
  }

  lemma {:induction false} PaidIsAmounts(outputs: seq<Payout>, owed: map<Text, nat>)
    requires forall i :: 0 <= i < |outputs| ==> outputs[i].beneficiary in owed && outputs[i].amount == owed[outputs[i].beneficiary]
    ensures Paid(outputs) == Amounts(owed, Recipients(outputs))
  {
    if |outputs| > 0 {
      PaidIsAmounts(outputs[..|outputs| - 1], owed);
      assert Recipients(outputs)[..|outputs| - 1] == Recipients(outputs[..|outputs| - 1]);
    }
  }

  /** The outputs of a payout transaction add up to everything owed. */
  lemma PayoutTotal(outputs: seq<Payout>, owed: map<Text, nat>)
    requires PaysExactly(outputs, owed)
    ensures Paid(outputs) == Sum(owed)
  {
    PaidIsAmounts(outputs, owed);
    var ks := Recipients(outputs);
    forall who | who in owed && owed[who] > 0 ensures who in ks {
      var i :| 0 <= i < |outputs| && outputs[i].beneficiary == who;
      assert ks[i] == who;
    }
    ListingSum(owed, ks);
  }
}
