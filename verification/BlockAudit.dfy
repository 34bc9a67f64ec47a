/** One block's audit record as a whole: vault tiers, position rows, checkpoint deltas and the
payout transaction, and what they conserve together. */
module BlockAudit {
  import opened Bytes
  import opened Options
  import opened PositionAudit
  import opened Sums

  // ---- Vault rows ----

  datatype Tier = Tier(threshold: nat, minimumDeposit: nat, leaderPercent: nat, aprPercent: nat)

  const TIERS: seq<Tier> := [
    Tier(100_000 * UNIT, 100 * UNIT, 8, 3), Tier(500_000 * UNIT, 1_000 * UNIT, 10, 5),
    Tier(1_000_000 * UNIT, 10_000 * UNIT, 12, 6), Tier(5_000_000 * UNIT, 20_000 * UNIT, 15, 8),
    Tier(10_000_000 * UNIT, 50_000 * UNIT, 16, 9), Tier(30_000_000 * UNIT, 80_000 * UNIT, 16, 9),
    Tier(50_000_000 * UNIT, 100_000 * UNIT, 16, 9), Tier(80_000_000 * UNIT, 150_000 * UNIT, 16, 9),
    Tier(100_000_000 * UNIT, 200_000 * UNIT, 20, 10)]

  method TierFor(total: nat) returns (r: Option<Tier>)
    ensures r == TierOf(total)
  {
    if total < TIERS[0].threshold || total > TIERS[|TIERS| - 1].threshold {
      return None;
    }
    var i := |TIERS| - 1;
    while TIERS[i].threshold > total
      invariant 0 <= i < |TIERS| && (i < |TIERS| - 1 ==> TIERS[0].threshold <= total)
      invariant TierOf(total) == HighestTier(total, i)
    {
      i := i - 1;
    }
    r := Some(TIERS[i]);
  }

  function HighestTier(total: nat, i: nat): Option<Tier>
    requires i < |TIERS|
  {
    if TIERS[i].threshold <= total then Some(TIERS[i]) else if i == 0 then None else HighestTier(total, i - 1)
  }

  function TierOf(total: nat): Option<Tier> {
    if total < TIERS[0].threshold || total > MAX_TIER_STAKE then None else HighestTier(total, |TIERS| - 1)
  }

  lemma {:induction false} HighestBelow(total: nat, i: nat, j: nat)
    requires j <= i < |TIERS| && TIERS[j].threshold <= total
    ensures HighestTier(total, i).Some? && HighestTier(total, i).value in TIERS
    ensures TIERS[j].threshold <= HighestTier(total, i).value.threshold <= total
  {
    if TIERS[i].threshold > total {
      HighestBelow(total, i - 1, j);
    } else {
      ThresholdsRise(j, i);
    }
  }

  lemma ThresholdsRise(j: nat, i: nat)
    requires j <= i < |TIERS|
    ensures TIERS[j].threshold <= TIERS[i].threshold
  {
  }

  /** A stake between 100K and 100M has a tier, and it is the highest one the stake reaches. */
  lemma TierOfIsHighest(total: nat, j: nat)
    requires TIERS[0].threshold <= total <= MAX_TIER_STAKE && j < |TIERS| && TIERS[j].threshold <= total
    ensures TierOf(total).Some? && TierOf(total).value in TIERS
    ensures TIERS[j].threshold <= TierOf(total).value.threshold <= total
  {
    HighestBelow(total, |TIERS| - 1, j);
  }

  /** Stake arithmetic, tier and the registry projection of one vault row. */
  predicate VaultRowOk(v: VaultRow, projected: Option<map<Text, nat>>) {
    && v.id != []
    && v.validatorStake <= v.totalStake && v.totalStake - v.validatorStake == v.guardianStake
    && v.tierStake == (if v.totalStake > MAX_TIER_STAKE then MAX_TIER_STAKE else v.totalStake)
    && TierOf(v.tierStake).Some?
    && TierOf(v.tierStake).value.aprPercent == v.aprPercent && TierOf(v.tierStake).value.leaderPercent == v.leaderPercent
    && (projected.Some? ==> v.id in projected.value && projected.value[v.id] == v.validatorStake)
  }

  predicate VaultsOk(vaults: seq<VaultRow>, projected: Option<map<Text, nat>>) {
    && (forall i :: 0 <= i < |vaults| ==> VaultRowOk(vaults[i], projected))
    && (forall i, j :: 0 <= i < j < |vaults| ==> vaults[i].id != vaults[j].id)
  }

  function VaultMap(vaults: seq<VaultRow>): map<Text, VaultRow> {
    if |vaults| == 0 then map[] else VaultMap(vaults[..|vaults| - 1])[vaults[|vaults| - 1].id := vaults[|vaults| - 1]]
  }

  lemma {:induction false} VaultMapKeys(vaults: seq<VaultRow>, n: nat)
    requires n <= |vaults|
    ensures forall id :: id in VaultMap(vaults[..n]) <==> exists i :: 0 <= i < n && vaults[i].id == id
  {
    if n > 0 {
      VaultMapKeys(vaults, n - 1);
      assert vaults[..n][..n - 1] == vaults[..n - 1];
    }
  }

  /** The rows by vault, if every row is sound and none repeats. */
  method CheckVaults(vaults: seq<VaultRow>, projected: Option<map<Text, nat>>) returns (r: Option<map<Text, VaultRow>>)
    ensures r.Some? <==> VaultsOk(vaults, projected)
    ensures r.Some? ==> r.value == VaultMap(vaults)
  {
    var byId: map<Text, VaultRow> := map[];
    for i := 0 to |vaults|
      invariant byId == VaultMap(vaults[..i])
      invariant forall j :: 0 <= j < i ==> VaultRowOk(vaults[j], projected)
      invariant forall j, k :: 0 <= j < k < i ==> vaults[j].id != vaults[k].id
    {
      VaultMapKeys(vaults, i);
      var ok := CheckVault(vaults[i], projected);
      if !ok || vaults[i].id in byId {
        return None;
      }
      assert vaults[..i + 1][..i] == vaults[..i];
      byId := byId[vaults[i].id := vaults[i]];
    }
    assert vaults[..|vaults|] == vaults;
    r := Some(byId);
  }

  method CheckVault(v: VaultRow, projected: Option<map<Text, nat>>) returns (ok: bool)
    ensures ok == VaultRowOk(v, projected)
  {
    if v.id == [] || v.totalStake < v.validatorStake || v.totalStake - v.validatorStake != v.guardianStake {
      return false;
    }
    var tier := TierFor(v.tierStake);
    if tier.None? || tier.value.aprPercent != v.aprPercent || tier.value.leaderPercent != v.leaderPercent {
      return false;
    }
    if v.tierStake != (if v.totalStake > MAX_TIER_STAKE then MAX_TIER_STAKE else v.totalStake) {
      return false;
    }
    ok := projected.Some? ==> v.id in projected.value && projected.value[v.id] == v.validatorStake;
  }

  // ---- Vault totals ----

  datatype VaultTotals = VaultTotals(accrued: nat, leader: nat, guardian: nat)

  function VaultSums(vaults: seq<VaultRow>): VaultTotals {
    if |vaults| == 0 then VaultTotals(0, 0, 0)
    else
      var t, v := VaultSums(vaults[..|vaults| - 1]), vaults[|vaults| - 1];
      VaultTotals(t.accrued + v.accrued, t.leader + v.leaderPaid, t.guardian + v.guardianPaid)
  }

  predicate Small(t: VaultTotals) {
    t.accrued < UINT64 && t.leader < UINT64 && t.guardian < UINT64
  }

  lemma {:induction false} VaultSumsGrow(vaults: seq<VaultRow>, n: nat)
    requires n <= |vaults| && Small(VaultSums(vaults))
    ensures Small(VaultSums(vaults[..n]))
    decreases |vaults| - n
  {
    if n == |vaults| {
      assert vaults[..n] == vaults;
    } else {
      VaultSumsGrow(vaults, n + 1);
      assert vaults[..n + 1][..n] == vaults[..n];
    }
  }

  method SumVaults(vaults: seq<VaultRow>) returns (r: Option<VaultTotals>)
    ensures r.Some? <==> Small(VaultSums(vaults))
    ensures r.Some? ==> r.value == VaultSums(vaults)
  {
    var t := VaultTotals(0, 0, 0);
    for i := 0 to |vaults|
      invariant t == VaultSums(vaults[..i]) && Small(t)
    {
      assert vaults[..i + 1][..i] == vaults[..i];
      t := VaultTotals(t.accrued + vaults[i].accrued, t.leader + vaults[i].leaderPaid, t.guardian + vaults[i].guardianPaid);
      assert t == VaultSums(vaults[..i + 1]);
      if t.accrued >= UINT64 || t.leader >= UINT64 || t.guardian >= UINT64 {
        if Small(VaultSums(vaults)) {
          VaultSumsGrow(vaults, i + 1);
          assert false;
        }
        return None;
      }
    }
    assert vaults[..|vaults|] == vaults;
    r := Some(t);
  }

  // ---- Payout outputs ----

  /** The canonical output list: one per positive amount, by address. */
  predicate PayoutList(outputs: seq<Payout>, owed: map<Text, nat>) {
    && (forall i, j :: 0 <= i < j < |outputs| ==> Less(outputs[i].beneficiary, outputs[j].beneficiary))
    && (forall i :: 0 <= i < |outputs| ==>
          outputs[i].beneficiary in owed && outputs[i].amount == owed[outputs[i].beneficiary] && outputs[i].amount > 0)
    && (forall who :: who in owed && owed[who] > 0 ==> exists i :: 0 <= i < |outputs| && outputs[i].beneficiary == who)
  }

  lemma PayoutListPays(outputs: seq<Payout>, owed: map<Text, nat>)
    requires PayoutList(outputs, owed)
    ensures PaysExactly(outputs, owed)
  {
    forall i, j | 0 <= i < j < |outputs| ensures outputs[i].beneficiary != outputs[j].beneficiary {
      LessIrreflexive(outputs[i].beneficiary);
    }
  }

  lemma PayoutListSorted(outputs: seq<Payout>, owed: map<Text, nat>, sorted: seq<Text>)
    requires PayoutList(outputs, owed) && StrictlySorted(sorted)
    requires forall who :: who in sorted <==> who in owed && owed[who] > 0
    ensures Recipients(outputs) == sorted
  {
    var rs := Recipients(outputs);
    forall who ensures who in rs <==> who in sorted {
      if who in sorted {
        var i :| 0 <= i < |outputs| && outputs[i].beneficiary == who;
        assert rs[i] == who;
      }
    }
    SortedUnique(rs, sorted);
  }

  predicate Positive(sorted: seq<Text>, owed: map<Text, nat>) {
    forall i :: 0 <= i < |sorted| ==> sorted[i] in owed && owed[sorted[i]] > 0
  }

  lemma SortedIsPayoutList(outputs: seq<Payout>, owed: map<Text, nat>, sorted: seq<Text>)
    requires StrictlySorted(sorted) && Positive(sorted, owed) && |outputs| == |sorted|
    requires forall who :: who in owed && owed[who] > 0 ==> who in sorted
    requires forall i :: 0 <= i < |sorted| ==> outputs[i] == Payout(sorted[i], owed[sorted[i]])
    ensures PayoutList(outputs, owed)
  {
    forall who | who in owed && owed[who] > 0 ensures exists i :: 0 <= i < |outputs| && outputs[i].beneficiary == who {
      var i :| 0 <= i < |sorted| && sorted[i] == who;
      assert outputs[i].beneficiary == who;
    }
  }

  /** The recorded references and the transaction's outputs are both the canonical list. */
  method VerifyPayouts(owed: map<Text, nat>, references: seq<Payout>, outputs: seq<Payout>) returns (ok: bool)
    ensures ok <==> PayoutList(references, owed) && outputs == references
  {
    var sorted := SortKeys(set who | who in owed && owed[who] > 0);
    assert Positive(sorted, owed) by {
      forall i | 0 <= i < |sorted| ensures sorted[i] in owed && owed[sorted[i]] > 0 {
        assert sorted[i] in sorted;
      }
    }
    if PayoutList(references, owed) {
      PayoutListSorted(references, owed, sorted);
    }
    if |sorted| != |outputs| || |sorted| != |references| {
      return false;
    }
    for i := 0 to |sorted|
      invariant forall j :: 0 <= j < i ==> references[j] == Payout(sorted[j], owed[sorted[j]]) && outputs[j] == references[j]
    {
      if references[i] != Payout(sorted[i], owed[sorted[i]]) || outputs[i] != references[i] {
        assert PayoutList(references, owed) ==> Recipients(references)[i] == sorted[i];
        return false;
      }
    }
    SortedIsPayoutList(references, owed, sorted);
    ok := true;
  }

  // ---- The whole record ----

  /** An audit record with what the canonical block and registry say about it. */
  datatype Record = Record(context: Context, vaults: seq<VaultRow>, rows: seq<Row>, leader: Text, references: seq<Payout>,
                           outputs: seq<Payout>, projected: Option<map<Text, nat>>)

  /** What the block pays: position rows, and the leader if it receives anything. */
  function AllOwed(r: Record): map<Text, nat> {
    if VaultSums(r.vaults).leader > 0 then Credit(Owed(r.rows), r.leader, VaultSums(r.vaults).leader) else Owed(r.rows)
  }

  predicate DeltasAgree(r: Record) {
    var b, a, v, t := r.context.before, r.context.after, VaultSums(r.vaults), RowTotals(r.rows);
    && a.accrued == b.accrued + v.accrued == b.accrued + t.accrued
    && a.leaderPaid == b.leaderPaid + v.leader
    && a.guardianPaid == b.guardianPaid + v.guardian == b.guardianPaid + t.paid
    && a.principalReturned == b.principalReturned + t.principal
  }

  /** Everything the audit of one block demands of its accounting, given the time since its parent. */
  predicate Reconciled(r: Record, elapsed: nat) {
    && VaultsOk(r.vaults, r.projected) && RowsAgree(r.context, VaultMap(r.vaults), elapsed, r.rows)
    && Small(VaultSums(r.vaults)) && DeltasAgree(r)
    && (r.leader in AllOwed(r) ==> AllOwed(r)[r.leader] < UINT64)
    && PayoutList(r.references, AllOwed(r)) && r.outputs == r.references
    && (|r.rows| > 0 ==> r.projected.Some?)
  }

  /** The record of a block at `ts` whose parent is at `parentTs`. */
  predicate Verified(r: Record, parentTs: int, ts: int) {
    parentTs < ts && Reconciled(r, Elapsed(parentTs, ts))
  }

  method VerifyRecord(r: Record, parentTs: int, ts: int) returns (ok: bool)
    ensures ok <==> Verified(r, parentTs, ts)
  {
    if ts <= parentTs {
      return false;
    }
    var elapsed := CapElapsed(parentTs, ts);
    ok := ReconcileRecord(r, elapsed);
  }

  method CapElapsed(parentTs: int, ts: int) returns (elapsed: nat)
    requires parentTs < ts
    ensures elapsed == Elapsed(parentTs, ts)
  {
    elapsed := ts - parentTs;
    if elapsed > MAX_ELAPSED_NS {
      elapsed := MAX_ELAPSED_NS;
    }
  }

  method ReconcileRecord(r: Record, elapsed: nat) returns (ok: bool)
    ensures ok <==> Reconciled(r, elapsed)
  {
    var vaults := CheckVaults(r.vaults, r.projected);
    if vaults.None? {
      return false;
    }
    var checked := VerifyRows(r.rows, ExpectedIds(r.context.before, r.context.after), Agreement(r.context, vaults.value, elapsed));
    var sums := SumVaults(r.vaults);
    if checked.None? || sums.None? {
      return false;
    }
    var amounts := VerifyDeltas(r, sums.value, checked.value.1, checked.value.0);
    if amounts.None? {
      return false;
    }
    var paid := VerifyPayouts(amounts.value, r.references, r.outputs);
    ok := paid && (|r.rows| > 0 ==> r.projected.Some?);
  }

  /** The comparison with the checkpoint deltas, and the leader's credit. */
  method VerifyDeltas(r: Record, v: VaultTotals, t: Totals, owed: map<Text, nat>) returns (amounts: Option<map<Text, nat>>)
    requires v == VaultSums(r.vaults) && t == RowTotals(r.rows) && owed == Owed(r.rows)
    requires forall who :: who in owed ==> owed[who] < UINT64
    ensures amounts.Some? <==> DeltasAgree(r) && (r.leader in AllOwed(r) ==> AllOwed(r)[r.leader] < UINT64)
    ensures amounts.Some? ==> amounts.value == AllOwed(r)
  {
    var b, a := r.context.before, r.context.after;
    if a.accrued < b.accrued || a.leaderPaid < b.leaderPaid || a.guardianPaid < b.guardianPaid
       || a.principalReturned < b.principalReturned
    {
      return None;
    }
    if v.accrued != a.accrued - b.accrued || v.leader != a.leaderPaid - b.leaderPaid
       || v.guardian != a.guardianPaid - b.guardianPaid || t.accrued != a.accrued - b.accrued
       || t.paid != a.guardianPaid - b.guardianPaid || t.principal != a.principalReturned - b.principalReturned
    {
      return None;
    }
    if v.leader > 0 {
      var credited := Credit(owed, r.leader, v.leader);
      return if credited[r.leader] >= UINT64 then None else Some(credited);
    }
    amounts := Some(owed);
  }

  lemma AllOwedTotal(r: Record)
    ensures Sum(AllOwed(r)) == RowTotals(r.rows).paid + RowTotals(r.rows).principal + VaultSums(r.vaults).leader
  {
    OwedTotal(r.rows);
    var owed, leader := Owed(r.rows), VaultSums(r.vaults).leader;
    SumPut(owed, r.leader, (if r.leader in owed then owed[r.leader] else 0) + leader);
  }

  lemma OutputsTotal(outputs: seq<Payout>, owed: map<Text, nat>)
    requires PayoutList(outputs, owed)
    ensures Paid(outputs) == Sum(owed)
  {
    PayoutListPays(outputs, owed);
    PayoutTotal(outputs, owed);
  }

  /** The payout transaction pays out exactly what the counters say: leader, guardians and
  returned principal. */
  lemma PayoutsConserve(r: Record, elapsed: nat)
    requires Reconciled(r, elapsed)
    ensures
      var b, a := r.context.before, r.context.after;
      Paid(r.outputs) == (a.leaderPaid - b.leaderPaid) + (a.guardianPaid - b.guardianPaid) + (a.principalReturned - b.principalReturned)
  {
    AllOwedTotal(r);
    OutputsTotal(r.outputs, AllOwed(r));
  }
}
