/** The ledger of every single position over a whole audited pass: interest, due balance and
principal between the opening and the closing checkpoint, with openings and removals. */
module PositionLedger {
  import opened BlockAudit
  import opened DayFold
  import opened DayReport
  import opened Options
  import opened PositionAudit

  // ---- What one checkpoint holds of a position ----

  function Carry(c: Checkpoint, id: Text): nat {
    if id in c.positions then c.positions[id].carry else 0
  }

  function Due(c: Checkpoint, id: Text): nat {
    if id in c.positions then c.positions[id].due else 0
  }

  /** Principal not yet returned. */
  function Outstanding(c: Checkpoint, id: Text): int {
    if id in c.positions then c.positions[id].deposit.amount - c.positions[id].withdrawn else 0
  }

  // ---- What one block does to a position ----

  /** Exact interest, the carry that disappears with a removed position, principal deposited, and
  principal that a removal leaves unreturned. */
  datatype Flow = Flow(interest: nat, forfeited: nat, deposited: int, left: int)

  function Joined(a: Flow, b: Flow): Flow {
    Flow(a.interest + b.interest, a.forfeited + b.forfeited, a.deposited + b.deposited, a.left + b.left)
  }

  predicate Settled(p: Position) {
    p.returned && p.due == 0
  }

  function Withdrawn(p: Position, action: Option<Action>): nat {
    if !Settled(p) && action.Some? && WithdrawalAmount(p, action.value).Some? then WithdrawalAmount(p, action.value).value else 0
  }

  function CarriedOn(p: Position, vaults: map<Text, VaultRow>, elapsed: nat): nat {
    if Accrue(p, vaults, elapsed).Some? then Accrue(p, vaults, elapsed).value.1 else 0
  }

  function PositionFlow(prior: Option<Position>, post: Option<Position>, action: Option<Action>, vaults: map<Text, VaultRow>, elapsed: nat): Flow {
    if prior.None? then Flow(0, 0, if post.Some? then post.value.deposit.amount else 0, 0)
    else
      var p := prior.value;
      if post.Some? then Flow(Numerator(p, vaults, elapsed), 0, 0, 0)
      else Flow(Numerator(p, vaults, elapsed), CarriedOn(p, vaults, elapsed), 0, p.deposit.amount - p.withdrawn - Withdrawn(p, action))
  }

  function RecordFlow(r: Record, elapsed: nat, id: Text): Flow {
    PositionFlow(At(r.context.before.positions, id), At(r.context.after.positions, id), At(r.context.actions, id), VaultMap(r.vaults), elapsed)
  }

  function Plus(a: Totals, b: Totals): Totals {
    Totals(a.accrued + b.accrued, a.paid + b.paid, a.principal + b.principal)
  }

  function Share(row: Row, id: Text): Totals {
    if row.id == id then Totals(row.accrued, row.paid, row.principal) else Totals(0, 0, 0)
  }

  /** The rows of one position. */
  function RowsOf(rows: seq<Row>, id: Text): Totals {
    if |rows| == 0 then Totals(0, 0, 0) else Plus(RowsOf(rows[..|rows| - 1], id), Share(rows[|rows| - 1], id))
  }

  lemma {:induction false} NoRows(rows: seq<Row>, id: Text)
    requires id !in Ids(rows)
    ensures RowsOf(rows, id) == Totals(0, 0, 0)
  {
    if |rows| > 0 {
      var init, row := rows[..|rows| - 1], rows[|rows| - 1];
      assert rows == init + [row];
      IdsSnoc(init, row);
      NoRows(init, id);
    }
  }

  lemma {:induction false} OneRow(rows: seq<Row>, i: nat)
    requires UniqueIds(rows) && i < |rows|
    ensures RowsOf(rows, rows[i].id) == Totals(rows[i].accrued, rows[i].paid, rows[i].principal)
  {
    var init, row := rows[..|rows| - 1], rows[|rows| - 1];
    if i == |rows| - 1 {
      assert rows[i].id !in Ids(init);
      NoRows(init, rows[i].id);
    } else {
      OneRow(init, i);
    }
  }

  /** The three ledger equations of one position. */
  predicate Balanced(before: Checkpoint, after: Checkpoint, t: Totals, f: Flow, id: Text) {
    && APR_DENOMINATOR * t.accrued + Carry(after, id) + f.forfeited == Carry(before, id) + f.interest
    && Due(after, id) + t.paid == Due(before, id) + t.accrued
    && Outstanding(after, id) + t.principal + f.left == Outstanding(before, id) + f.deposited
  }

  lemma AgreedRowBalances(c: Context, vaults: map<Text, VaultRow>, elapsed: nat, row: Row)
    requires Agrees(c, vaults, elapsed, row)
    ensures
      var f := PositionFlow(At(c.before.positions, row.id), At(c.after.positions, row.id), At(c.actions, row.id), vaults, elapsed);
      Balanced(c.before, c.after, Totals(row.accrued, row.paid, row.principal), f, row.id)
  {
    if row.id in c.before.positions {
      AccrueConserves(c.before.positions[row.id], vaults, elapsed);
    }
  }

  /** A position without a row is in neither checkpoint, or settled before and gone after. */
  lemma UnlistedBalances(c: Context, vaults: map<Text, VaultRow>, elapsed: nat, id: Text)
    requires id !in ExpectedIds(c.before, c.after)
    ensures
      var f := PositionFlow(At(c.before.positions, id), At(c.after.positions, id), At(c.actions, id), vaults, elapsed);
      Balanced(c.before, c.after, Totals(0, 0, 0), f, id)
  {
    assert id !in c.after.positions;
    if id in c.before.positions {
      assert Settled(c.before.positions[id]);
    }
  }

  /** The record's rows of one position balance between its checkpoints. */
  predicate RecordBalanced(r: Record, elapsed: nat, id: Text) {
    Balanced(r.context.before, r.context.after, RowsOf(r.rows, id), RecordFlow(r, elapsed, id), id)
  }

  /** In a reconciled record every position balances, listed or not, new, removed or kept. */
  lemma RecordBalances(r: Record, elapsed: nat, id: Text)
    requires Reconciled(r, elapsed)
    ensures RecordBalanced(r, elapsed, id)
  {
    if id in Ids(r.rows) {
      var row :| row in r.rows && row.id == id;
      var i :| 0 <= i < |r.rows| && r.rows[i] == row;
      OneRow(r.rows, i);
      assert Agreement(r.context, VaultMap(r.vaults), elapsed)(r.rows[i]);
      AgreedRowBalances(r.context, VaultMap(r.vaults), elapsed, row);
    } else {
      NoRows(r.rows, id);
      UnlistedBalances(r.context, VaultMap(r.vaults), elapsed, id);
    }
  }

  /** A removal with a row returns the whole remainder if and only if its withdrawal names no
  amount or names the remainder. */
  lemma RemovalExact(c: Context, vaults: map<Text, VaultRow>, elapsed: nat, row: Row)
    requires Agrees(c, vaults, elapsed, row) && row.id in c.before.positions && row.id !in c.after.positions
    requires !Settled(c.before.positions[row.id])
    ensures row.id in c.actions && c.actions[row.id].Withdraw?
    ensures
      var p, a := c.before.positions[row.id], c.actions[row.id];
      var f := PositionFlow(Some(p), None, Some(a), vaults, elapsed);
      && row.principal == p.deposit.amount - p.withdrawn - f.left && 0 <= f.left
      && (f.left == 0 <==> a.amount == 0 || a.amount == p.deposit.amount - p.withdrawn)
  {
    WholeRemainder(c.before.positions[row.id], c.actions[row.id]);
  }

  /** A position of `d.amount` whose last withdrawal names `part` is gone after the block. */
  function PartialContext(id: Text, d: Deposit, part: nat): Context {
    Context(Checkpoint(map[id := Position(d, 0, 0, false, 0, 0, 0, None)], 0, 0, 0, 0), Checkpoint(map[], 0, 0, 0, part),
            map[id := Withdraw(d, 1, part)])
  }

  function PartialRow(id: Text, d: Deposit, part: nat): Row {
    Row(id, d.beneficiary, d.vault, d.vault, d.vault, 0, 0, 0, 0, part, 0, 0)
  }

  function PartialRecord(id: Text, d: Deposit, part: nat, v: VaultRow, leader: Text): Record {
    Record(PartialContext(id, d, part), [v], [PartialRow(id, d, part)], leader, [Payout(d.beneficiary, part)], [Payout(d.beneficiary, part)],
           Some(map[v.id := v.validatorStake]))
  }

  lemma SingleRow(row: Row)
    ensures RowTotals([row]) == Totals(row.accrued, row.paid, row.principal)
    ensures Owed([row]) == map[row.beneficiary := row.paid + row.principal] && Ids([row]) == {row.id}
  {
    assert [row][..0] == [] && row in [row];
    assert Owed([]) == map[];
  }

  lemma SingleVault(v: VaultRow)
    ensures VaultMap([v]) == map[v.id := v] && VaultSums([v]) == VaultTotals(v.accrued, v.leaderPaid, v.guardianPaid)
  {
    assert [v][..0] == [];
    assert VaultMap([]) == map[];
  }

  lemma PartialAgrees(id: Text, d: Deposit, part: nat, v: VaultRow)
    requires v.id == d.vault && v.validatorStake == 0 && 0 < part < d.amount < UINT64 && d.beneficiary != []
    ensures
      var c := PartialContext(id, d, part);
      && Agrees(c, map[v.id := v], 1, PartialRow(id, d, part)) && ExpectedIds(c.before, c.after) == {id}
      && PositionFlow(At(c.before.positions, id), At(c.after.positions, id), At(c.actions, id), map[v.id := v], 1).left == d.amount - part
  {
  }

  lemma SingleAgrees(c: Context, vaults: map<Text, VaultRow>, elapsed: nat, row: Row)
    requires Agrees(c, vaults, elapsed, row) && ExpectedIds(c.before, c.after) == {row.id} && row.id != []
    requires row.accrued < UINT64 && row.paid < UINT64 && row.principal < UINT64 && row.paid + row.principal < UINT64
    ensures RowsAgree(c, vaults, elapsed, [row])
  {
    SingleRow(row);
  }

  lemma SinglePayout(who: Text, amount: nat)
    requires amount > 0
    ensures PayoutList([Payout(who, amount)], map[who := amount])
  {
    assert [Payout(who, amount)][0].beneficiary == who;
  }

  /** A record with one vault, one row and one output, and no leader reward. */
  lemma SingleRecord(c: Context, v: VaultRow, row: Row, leader: Text, projected: Option<map<Text, nat>>, elapsed: nat)
    requires RowsAgree(c, VaultMap([v]), elapsed, [row]) && VaultsOk([v], projected) && projected.Some?
    requires v.leaderPaid == 0 && v.accrued == row.accrued < UINT64 && v.guardianPaid == row.paid < UINT64
    requires row.paid + row.principal > 0 && leader != row.beneficiary
    requires c.after.accrued == c.before.accrued + row.accrued && c.after.leaderPaid == c.before.leaderPaid
    requires c.after.guardianPaid == c.before.guardianPaid + row.paid && c.after.principalReturned == c.before.principalReturned + row.principal
    ensures
      var pay := Payout(row.beneficiary, row.paid + row.principal);
      Reconciled(Record(c, [v], [row], leader, [pay], [pay], projected), elapsed)
  {
    SingleRow(row);
    SingleVault(v);
    SinglePayout(row.beneficiary, row.paid + row.principal);
  }

  /** The audit accepts a whole record in which a removal returns any part of the remainder. */
  lemma PartialRemoval(id: Text, d: Deposit, part: nat, v: VaultRow, leader: Text)
    requires id != [] && d.beneficiary != [] && leader != d.beneficiary && 0 < part < d.amount < UINT64
    requires v.id == d.vault && v.validatorStake == 0 && v.accrued == v.leaderPaid == v.guardianPaid == 0
    requires VaultsOk([v], Some(map[v.id := v.validatorStake]))
    ensures Verified(PartialRecord(id, d, part, v, leader), 0, 1)
    ensures RecordFlow(PartialRecord(id, d, part, v, leader), 1, id).left == d.amount - part
  {
    PartialAgrees(id, d, part, v);
    SingleVault(v);
    SingleAgrees(PartialContext(id, d, part), VaultMap([v]), 1, PartialRow(id, d, part));
    SingleRecord(PartialContext(id, d, part), v, PartialRow(id, d, part), leader, Some(map[v.id := v.validatorStake]), 1);
  }

  /** Such a vault row: no validator stake, and guardian stake of the highest tier. */
  lemma IdleVault(id: VaultId)
    ensures VaultsOk([VaultRow(id, 0, MAX_TIER_STAKE, MAX_TIER_STAKE, MAX_TIER_STAKE, 10, 20, 0, 0, 0, 0)], Some(map[id := 0]))
  {
    assert TierOf(MAX_TIER_STAKE) == HighestTier(MAX_TIER_STAKE, |TIERS| - 1) == Some(TIERS[8]);
  }

  // ---- A whole pass ----

  /** What the blocks of the interval up to `next` did to a position. */
  function Flows(env: Env, view: seq<Block>, next: nat, id: Text): Flow
    requires env.anchor <= next <= |view|
  {
    if next == env.anchor then Flow(0, 0, 0, 0)
    else
      var f, b, parentTs := Flows(env, view, next - 1, id), view[next - 1], ParentTs(view, next - 1);
      if Within(env, b) && b.record.Some? && parentTs < b.ts then Joined(f, RecordFlow(b.record.value.record, Elapsed(parentTs, b.ts), id)) else f
  }

  function Reported(positions: map<Text, PositionSum>, id: Text): Totals {
    if id in positions then Totals(positions[id].accrued, positions[id].paid, positions[id].principal) else Totals(0, 0, 0)
  }

  /** The reported totals of a position grew by `t`. */
  predicate Grew(m: map<Text, PositionSum>, n: map<Text, PositionSum>, id: Text, t: Totals) {
    Reported(n, id) == Plus(Reported(m, id), t)
  }

  lemma AddPositionGrows(m: map<Text, PositionSum>, row: Row, id: Text)
    requires AddPosition(m, row).Some?
    ensures Grew(m, AddPosition(m, row).value, id, Share(row, id))
  {
  }

  lemma GrewJoin(m: map<Text, PositionSum>, n: map<Text, PositionSum>, o: map<Text, PositionSum>, id: Text, t: Totals, u: Totals)
    requires Grew(m, n, id, t) && Grew(n, o, id, u)
    ensures Grew(m, o, id, Plus(t, u))
  {
  }

  lemma AddPositionsSnoc(m: map<Text, PositionSum>, rows: seq<Row>, after: map<Text, PositionSum>, id: Text) returns (n: map<Text, PositionSum>)
    requires AddPositions(m, rows) == Some(after) && |rows| > 0
    ensures AddPositions(m, rows[..|rows| - 1]) == Some(n) && Grew(n, after, id, Share(rows[|rows| - 1], id))
  {
    n := AddPositions(m, rows[..|rows| - 1]).value;
    AddPositionGrows(n, rows[|rows| - 1], id);
  }

  lemma {:induction false} AddPositionsGrow(m: map<Text, PositionSum>, rows: seq<Row>, after: map<Text, PositionSum>, id: Text)
    requires AddPositions(m, rows) == Some(after)
    ensures Grew(m, after, id, RowsOf(rows, id))
    decreases |rows|
  {
    if |rows| > 0 {
      var n := AddPositionsSnoc(m, rows, after, id);
      AddPositionsGrow(m, rows[..|rows| - 1], n, id);
      GrewJoin(m, n, after, id, RowsOf(rows[..|rows| - 1], id), Share(rows[|rows| - 1], id));
    }
  }

  lemma BalancedJoin(opening: Checkpoint, middle: Checkpoint, closing: Checkpoint, t: Totals, u: Totals, f: Flow, g: Flow, id: Text)
    requires Balanced(opening, middle, t, f, id) && Balanced(middle, closing, u, g, id)
    ensures Balanced(opening, closing, Plus(t, u), Joined(f, g), id)
  {
  }

  /** The ledger of a position up to a height of a pass. */
  predicate Ledger(env: Env, view: seq<Block>, next: nat, acc: Acc, id: Text)
    requires env.anchor <= next <= |view|
  {
    if acc.included == 0 then Reported(acc.positions, id) == Totals(0, 0, 0) && Flows(env, view, next, id) == Flow(0, 0, 0, 0)
    else
      && acc.first < |view| && view[acc.first].record.Some? && acc.closing.Some?
      && Balanced(view[acc.first].record.value.record.context.before, acc.closing.value, Reported(acc.positions, id), Flows(env, view, next, id), id)
  }

  lemma FlowsSnoc(env: Env, view: seq<Block>, next: nat, id: Text)
    requires env.anchor < next <= |view| && Within(env, view[next - 1]) && view[next - 1].record.Some?
    requires ParentTs(view, next - 1) < view[next - 1].ts
    ensures
      var b := view[next - 1];
      Flows(env, view, next, id) == Joined(Flows(env, view, next - 1, id), RecordFlow(b.record.value.record, Elapsed(ParentTs(view, next - 1), b.ts), id))
  {
  }

  /** What the pass so far says about a position, up to the checkpoint `reached`. */
  predicate LedgerTo(opening: Checkpoint, reached: Checkpoint, positions: map<Text, PositionSum>, f: Flow, id: Text) {
    Balanced(opening, reached, Reported(positions, id), f, id)
  }

  lemma RecordLedger(opening: Checkpoint, r: Record, elapsed: nat, m: map<Text, PositionSum>, n: map<Text, PositionSum>, f: Flow, id: Text)
    requires RecordBalanced(r, elapsed, id) && AddPositions(m, r.rows) == Some(n)
    requires LedgerTo(opening, r.context.before, m, f, id)
    ensures LedgerTo(opening, r.context.after, n, Joined(f, RecordFlow(r, elapsed, id)), id)
  {
    AddPositionsGrow(m, r.rows, n, id);
    BalancedJoin(opening, r.context.before, r.context.after, Reported(m, id), RowsOf(r.rows, id), f, RecordFlow(r, elapsed, id), id);
  }

  /** The checkpoint a pass measures from when it includes this record. */
  function OpeningOf(view: seq<Block>, acc: Acc, r: Record): Checkpoint {
    if acc.included > 0 && acc.first < |view| && view[acc.first].record.Some? then view[acc.first].record.value.record.context.before
    else r.context.before
  }

  lemma LedgerBefore(env: Env, view: seq<Block>, next: nat, acc: Acc, r: Record, id: Text)
    requires env.anchor <= next <= |view| && Ledger(env, view, next, acc, id)
    requires acc.closing.Some? ==> r.context.before == acc.closing.value
    ensures LedgerTo(OpeningOf(view, acc, r), r.context.before, acc.positions, Flows(env, view, next, id), id)
  {
  }

  lemma LedgerAfter(env: Env, view: seq<Block>, next: nat, acc: Acc, after: Acc, r: Record, id: Text)
    requires env.anchor < next <= |view| && Ledger(env, view, next - 1, acc, id)
    requires view[next - 1].record.Some? && r == view[next - 1].record.value.record
    requires after.closing == Some(r.context.after) && after.included > 0 && after.first == if acc.included == 0 then next - 1 else acc.first
    requires LedgerTo(OpeningOf(view, acc, r), r.context.after, after.positions, Flows(env, view, next, id), id)
    ensures Ledger(env, view, next, after, id)
  {
  }

  predicate TimedBalance(r: Record, parentTs: int, ts: int, id: Text) {
    parentTs < ts && RecordBalanced(r, Elapsed(parentTs, ts), id)
  }

  /** The flow of the pass up to and with the block at `next - 1`. */
  lemma FlowLedger(env: Env, view: seq<Block>, next: nat, opening: Checkpoint, r: Record, m: map<Text, PositionSum>, n: map<Text, PositionSum>, id: Text)
    requires env.anchor < next <= |view| && Within(env, view[next - 1])
    requires view[next - 1].record.Some? && r == view[next - 1].record.value.record
    requires TimedBalance(r, ParentTs(view, next - 1), view[next - 1].ts, id) && AddPositions(m, r.rows) == Some(n)
    requires LedgerTo(opening, r.context.before, m, Flows(env, view, next - 1, id), id)
    ensures LedgerTo(opening, r.context.after, n, Flows(env, view, next, id), id)
  {
    RecordLedger(opening, r, Elapsed(ParentTs(view, next - 1), view[next - 1].ts), m, n, Flows(env, view, next - 1, id), id);
    FlowsSnoc(env, view, next, id);
  }

  /** What including a block hands to the ledger. */
  predicate Took(h: nat, parentTs: int, b: Block, acc: Acc, after: Acc, id: Text) {
    && b.record.Some? && TimedBalance(b.record.value.record, parentTs, b.ts, id) && after.closing == Some(b.record.value.record.context.after)
    && (acc.closing.Some? ==> b.record.value.record.context.before == acc.closing.value)
    && AddPositions(acc.positions, b.record.value.record.rows) == Some(after.positions)
    && after.included > 0 && after.first == if acc.included == 0 then h else acc.first
  }

  lemma IncludedRecord(env: Env, h: nat, parentTs: int, b: Block, acc: Acc, id: Text)
    requires Include(env, h, parentTs, b, acc).Some?
    ensures Took(h, parentTs, b, acc, Include(env, h, parentTs, b, acc).value, id)
  {
    RecordBalances(b.record.value.record, Elapsed(parentTs, b.ts), id);
  }

  lemma IncludeLedger(env: Env, view: seq<Block>, next: nat, acc: Acc, after: Acc, id: Text)
    requires env.anchor < next <= |view| && Ledger(env, view, next - 1, acc, id) && Within(env, view[next - 1])
    requires Took(next - 1, ParentTs(view, next - 1), view[next - 1], acc, after, id)
    ensures Ledger(env, view, next, after, id)
  {
    var r := view[next - 1].record.value.record;
    LedgerBefore(env, view, next - 1, acc, r, id);
    FlowLedger(env, view, next, OpeningOf(view, acc, r), r, acc.positions, after.positions, id);
    LedgerAfter(env, view, next, acc, after, r, id);
  }

  /** Over every pass, cut or not, and for every position: the divisor times the reported accrual
  plus the closing carry and what removals forfeited is the opening carry plus the exact
  interest; due balances move by accrued minus paid; principal moves by what was deposited,
  returned and left unreturned. */
  lemma {:induction false} NothingLost(env: Env, view: seq<Block>, next: nat, id: Text)
    requires env.anchor <= next <= |view| && FoldTo(env, view, next).Some?
    ensures Ledger(env, view, next, FoldTo(env, view, next).value, id)
  {
    if next > env.anchor {
      NothingLost(env, view, next - 1, id);
      FoldCovers(env, view, next - 1);
      var acc, b := FoldTo(env, view, next - 1).value, view[next - 1];
      var seen := acc.(prev := Digest(b), priorTs := b.ts);
      assert Ledger(env, view, next - 1, seen, id);
      if Within(env, b) {
        IncludedRecord(env, next - 1, acc.priorTs, b, seen, id);
        IncludeLedger(env, view, next, seen, FoldTo(env, view, next).value, id);
      }
    }
  }
}
