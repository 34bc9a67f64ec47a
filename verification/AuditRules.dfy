/** The rules of the daily audit in numbers: when a record, a vault row and a block are accepted, and
what an accepted block adds to the pass. */
module AuditRules {
  import opened BlockAudit
  import opened DayFold
  import opened Options
  import opened PositionAudit

  // ---- One record ----

  /** Time counts from the parent, and for at most fifteen seconds. */
  lemma ElapsedExactly(parentTs: int, ts: int)
    requires parentTs < ts
    ensures Elapsed(parentTs, ts) == if ts - parentTs <= 15_000_000_000 then ts - parentTs else 15_000_000_000
  {
  }

  /** A row is due for every position after the block, and for every one before it that was not
  returned and settled. */
  lemma ExpectedExactly(before: Checkpoint, after: Checkpoint, id: Text)
    ensures id in ExpectedIds(before, after) <==>
      id in after.positions || (id in before.positions && (!before.positions[id].returned || before.positions[id].due > 0))
  {
  }

  /** A vault row is sound exactly if validator and guardian stake make up its total, the total capped
  at 100M is in a tier, its rates are those of the tier, and its stake is the registry's. */
  lemma VaultRowExactly(v: VaultRow, projected: Option<map<Text, nat>>)
    ensures VaultRowOk(v, projected) <==>
      && v.id != [] && v.validatorStake + v.guardianStake == v.totalStake
      && v.tierStake == (if v.totalStake <= 100_000_000 * UNIT then v.totalStake else 100_000_000 * UNIT)
      && 100_000 * UNIT <= v.tierStake && TierOf(v.tierStake).Some?
      && v.aprPercent == TierOf(v.tierStake).value.aprPercent && v.leaderPercent == TierOf(v.tierStake).value.leaderPercent
      && (projected.None? || (v.id in projected.value && projected.value[v.id] == v.validatorStake))
  {
  }

  lemma VaultsExactly(vaults: seq<VaultRow>, projected: Option<map<Text, nat>>)
    ensures VaultsOk(vaults, projected) <==>
      && (forall v :: v in vaults ==> VaultRowOk(v, projected))
      && (forall i, j :: 0 <= i < |vaults| && 0 <= j < |vaults| && i != j ==> vaults[i].id != vaults[j].id)
  {
  }

  /** Row sums and what each beneficiary receives fit 64 bits. */
  lemma FitsExactly(rows: seq<Row>, t: Totals, owed: map<Text, nat>)
    requires t == RowTotals(rows) && owed == Owed(rows)
    ensures Fits(rows) <==>
      && t.accrued < 0x1_0000_0000_0000_0000 && t.paid < 0x1_0000_0000_0000_0000 && t.principal < 0x1_0000_0000_0000_0000
      && (forall who :: who in owed ==> owed[who] < 0x1_0000_0000_0000_0000)
  {
  }

  /** The rows of a record are accepted exactly if each expected position has one, each passes, and
  nothing overflows. */
  lemma RowsExactly(rows: seq<Row>, expected: set<Text>, check: Row -> bool, fit: bool)
    requires fit == Fits(rows)
    ensures Listed(rows, expected, check) <==>
      && (forall i :: 0 <= i < |rows| ==> rows[i].id != [] && check(rows[i]))
      && (forall i, j :: 0 <= i < j < |rows| ==> rows[i].id != rows[j].id)
      && Ids(rows) == expected && fit
  {
  }

  /** Row and vault sums are the growth of the checkpoint counters. */
  lemma DeltasExactly(r: Record)
    ensures
      var b, a, v, t := r.context.before, r.context.after, VaultSums(r.vaults), RowTotals(r.rows);
      DeltasAgree(r) <==>
        && a.accrued - b.accrued == v.accrued == t.accrued && a.leaderPaid - b.leaderPaid == v.leader
        && a.guardianPaid - b.guardianPaid == v.guardian == t.paid && a.principalReturned - b.principalReturned == t.principal
  {
  }

  /** The block owes what its rows owe, and to its leader what the vaults paid it. */
  lemma OwedExactly(r: Record, who: Text)
    ensures
      var leader := VaultSums(r.vaults).leader;
      var amount := (if who in Owed(r.rows) then Owed(r.rows)[who] else 0) + (if who == r.leader then leader else 0);
      (if who in AllOwed(r) then AllOwed(r)[who] else 0) == amount
  {
  }

  lemma SmallExactly(t: VaultTotals)
    ensures Small(t) <==> t.accrued < 0x1_0000_0000_0000_0000 && t.leader < 0x1_0000_0000_0000_0000 && t.guardian < 0x1_0000_0000_0000_0000
  {
  }

  // ---- Sums of a day ----

  /** A vault row enters the sums of its vault, from nothing or from what is there, while they fit. */
  lemma AddVaultExactly(vaults: map<Text, VaultSum>, v: VaultRow)
    ensures
      var s := if v.id in vaults then vaults[v.id] else VaultSum(0, 0, 0, 0);
      var n := VaultSum(s.accrued + v.accrued, s.leader + v.leaderPaid, s.guardian + v.guardianPaid, s.unfunded + v.unfunded);
      var fits := n.accrued < 0x1_0000_0000_0000_0000 && n.leader < 0x1_0000_0000_0000_0000
                  && n.guardian < 0x1_0000_0000_0000_0000 && n.unfunded < 0x1_0000_0000_0000_0000;
      AddVault(vaults, v) == if fits then Some(vaults[v.id := n]) else None
  {
  }

  /** A position row enters the sums of its position while they fit; its beneficiary is named and stays. */
  lemma AddPositionExactly(positions: map<Text, PositionSum>, row: Row)
    ensures
      var known := row.id in positions;
      var s := if known then positions[row.id] else PositionSum(row.beneficiary, row.vaultBefore, [], 0, 0, 0);
      var n := PositionSum(s.beneficiary, s.vault, row.vaultAfter, s.accrued + row.accrued, s.paid + row.paid, s.principal + row.principal);
      var fits := n.accrued < 0x1_0000_0000_0000_0000 && n.paid < 0x1_0000_0000_0000_0000 && n.principal < 0x1_0000_0000_0000_0000;
      AddPosition(positions, row)
      == if row.id != [] && row.beneficiary != [] && (!known || positions[row.id].beneficiary == row.beneficiary) && fits
         then Some(positions[row.id := n]) else None
  {
  }

  // ---- One block of the pass ----

  /** The block links to the one before it, and after the anchor its time does not fall. */
  predicate Links(env: Env, h: nat, b: Block, acc: Acc) {
    if h == env.anchor then h == 0 || b.prev == acc.prev else b.prev == acc.prev && acc.priorTs <= b.ts
  }

  /** What the pass demands of the record of a block inside the day. */
  lemma RecordExactly(env: Env, h: nat, parentTs: int, b: Block, acc: Acc)
    ensures Auditable(env, h, parentTs, b, acc) <==>
      && h > 0 && b.record.Some?
      && var r := b.record.value;
         && r.available && r.burns.total == r.burns.base + r.burns.intentional + r.burns.avm
         && (acc.included > 0 || r.funded) && (acc.closing.None? || r.record.context.before == acc.closing.value)
         && env.evidence(b, acc.registry).Some? && Verified(r.record, parentTs, b.ts)
         && |acc.vaults| + |acc.positions| + |r.record.vaults| + |r.record.rows| <= 100_000
  {
  }

  /** What an audited block adds while every sum fits: one block, its sums, its closing checkpoint and
  its registry. */
  lemma TakenExactly(env: Env, h: nat, b: Block, acc: Acc)
    requires b.record.Some?
    ensures
      var r, so := b.record.value, acc.burns;
      var burns := Burns(so.base + r.burns.base, so.intentional + r.burns.intentional, so.avm + r.burns.avm, so.total + r.burns.total);
      var vaults, positions := AddVaults(acc.vaults, r.record.vaults), AddPositions(acc.positions, r.record.rows);
      var fit := burns.base < 0x1_0000_0000_0000_0000 && burns.intentional < 0x1_0000_0000_0000_0000
                 && burns.avm < 0x1_0000_0000_0000_0000 && burns.total < 0x1_0000_0000_0000_0000;
      var none := acc.included == 0;
      Taken(env, h, b, acc)
      == if vaults.Some? && positions.Some? && fit
         then Some(Acc(acc.prev, acc.priorTs, vaults.value, positions.value, burns, acc.included + 1, if none then h else acc.first, h,
                       if none then b.ts else acc.firstTs, b.ts, Some(r.record.context.after), env.evidence(b, acc.registry)))
         else None
  {
  }

  /** The pass goes on exactly over a linked block that is outside the day, where only the identity of
  the last block moves, or that is audited below 40000 blocks and whose sums fit. */
  lemma StepExactly(env: Env, h: nat, b: Block, acc: Acc)
    ensures
      var seen := acc.(prev := Digest(b), priorTs := b.ts);
      StepBlock(env, h, b, acc)
      == if !Links(env, h, b, acc) then None
         else if b.ts < env.start || env.end <= b.ts then Some(seen)
         else if acc.included < 40_000 && Auditable(env, h, acc.priorTs, b, seen) then Taken(env, h, b, seen)
         else None
  {
    assert Links(env, h, b, acc) <==> Continues(env, h, b, acc);
  }
}
