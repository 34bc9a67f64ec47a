/** What a finished daily audit reports: exactly the blocks between anchor and witness, sums
that telescope to checkpoint deltas, and saved progress that passes its own validation. */
module DayReport {
  import opened BlockAudit
  import opened DayFold
  import opened Options
  import opened PositionAudit
  import opened Sums

  // ---- Coverage ----

  /** How a block moves the coverage counters. */
  lemma StepCounts(env: Env, h: nat, b: Block, acc: Acc)
    requires StepBlock(env, h, b, acc).Some?
    ensures
      var after := StepBlock(env, h, b, acc).value;
      && after.prev == Digest(b) && after.priorTs == b.ts && (h != env.anchor ==> b.ts >= acc.priorTs)
      && (Within(env, b) ==>
            && after.included == acc.included + 1 && after.last == h && after.lastTs == b.ts
            && after.first == (if acc.included == 0 then h else acc.first)
            && after.firstTs == (if acc.included == 0 then b.ts else acc.firstTs))
      && (!Within(env, b) ==> after == acc.(prev := Digest(b), priorTs := b.ts))
  {
  }

  predicate Rising(view: seq<Block>, from: nat, to: nat) {
    to <= |view| && forall h, k :: from <= h <= k < to ==> view[h].ts <= view[k].ts
  }

  /** The blocks counted so far are one stretch of heights, and it is every block in the interval. */
  predicate Covers(env: Env, view: seq<Block>, next: nat, acc: Acc)
    requires env.anchor <= next <= |view|
  {
    && Rising(view, env.anchor, next)
    && acc.priorTs == ParentTs(view, next)
    && (forall h :: env.anchor <= h < next ==> (Within(env, view[h]) <==> acc.included > 0 && acc.first <= h <= acc.last))
    && (acc.included > 0 ==>
          && env.anchor <= acc.first <= acc.last < next && acc.included == acc.last - acc.first + 1
          && acc.firstTs == view[acc.first].ts && acc.lastTs == view[acc.last].ts)
  }

  lemma {:induction false} FoldCovers(env: Env, view: seq<Block>, next: nat)
    requires env.anchor <= next <= |view| && FoldTo(env, view, next).Some?
    ensures Covers(env, view, next, FoldTo(env, view, next).value)
  {
    if next > env.anchor {
      FoldCovers(env, view, next - 1);
      var acc := FoldTo(env, view, next - 1).value;
      StepCounts(env, next - 1, view[next - 1], acc);
      StepCovers(env, view, next, acc, FoldTo(env, view, next).value);
    }
  }

  /** The coverage part of one step, on the counters alone. */
  lemma StepCovers(env: Env, view: seq<Block>, next: nat, acc: Acc, after: Acc)
    requires env.anchor < next <= |view| && Covers(env, view, next - 1, acc)
    requires
      var b, h := view[next - 1], next - 1;
      && after.priorTs == b.ts && (h != env.anchor ==> b.ts >= acc.priorTs)
      && (Within(env, b) ==>
            && after.included == acc.included + 1 && after.last == h && after.lastTs == b.ts
            && after.first == (if acc.included == 0 then h else acc.first)
            && after.firstTs == (if acc.included == 0 then b.ts else acc.firstTs))
      && (!Within(env, b) ==> after == acc.(prev := Digest(b), priorTs := b.ts))
    ensures Covers(env, view, next, after)
  {
    var h := next - 1;
    assert Rising(view, env.anchor, next);
    if Within(env, view[h]) && acc.included > 0 {
      assert Within(env, view[acc.last]) && view[acc.last].ts <= view[h - 1].ts <= view[h].ts;
      assert Within(env, view[h - 1]);
    }
  }

  /** The checks at the end of a pass. */
  predicate Complete(env: Env, acc: Acc, closer: nat) {
    && acc.included > 0 && BurnsAddUp(acc.burns)
    && acc.first == env.anchor + 1 && acc.last + 1 == closer
  }

  /** A completed audit has included exactly the heights strictly between anchor and witness,
  and these are exactly the certified blocks of the interval. */
  lemma CompleteCoversInterval(env: Env, view: seq<Block>, cert: nat, closer: nat)
    requires env.anchor <= cert < |view| && FoldTo(env, view, cert + 1).Some?
    requires Complete(env, FoldTo(env, view, cert + 1).value, closer)
    ensures forall h :: env.anchor <= h <= cert ==> (Within(env, view[h]) <==> env.anchor < h < closer)
    ensures FoldTo(env, view, cert + 1).value.included == closer - env.anchor - 1
  {
    FoldCovers(env, view, cert + 1);
  }

  // ---- Boundary search ----

  /** Binary search for the first height at or after a time. */
  method FirstAtOrAfter(view: seq<Block>, floor: nat, cert: nat, target: int) returns (r: Option<nat>)
    requires floor <= cert < |view|
    ensures r.Some? ==> floor <= r.value <= cert && view[r.value].ts >= target
    ensures r.Some? && floor < r.value ==> view[r.value - 1].ts < target
    ensures Rising(view, floor, cert + 1) ==>
      && (r.None? <==> forall h :: floor <= h <= cert ==> view[h].ts < target)
      && (r.Some? ==> forall h :: floor <= h < r.value ==> view[h].ts < target)
  {
    var low, high := floor, cert;
    while low < high
      invariant floor <= low <= high <= cert
      invariant floor < low ==> view[low - 1].ts < target
      invariant Rising(view, floor, cert + 1) ==> forall h :: floor <= h < low ==> view[h].ts < target
      invariant Rising(view, floor, cert + 1) && high < cert ==> view[high].ts >= target
    {
      var mid := low + (high - low) / 2;
      if view[mid].ts < target {
        low := mid + 1;
      } else {
        high := mid;
      }
    }
    if view[low].ts < target {
      return None;
    }
    r := Some(low);
  }

  /** Anchor and witness as the boundary searches define them. */
  predicate Bounds(env: Env, view: seq<Block>, closer: nat, cert: nat) {
    && env.anchor < closer <= cert < |view| && Rising(view, env.anchor, cert + 1)
    && view[env.anchor].ts < env.start <= view[env.anchor + 1].ts
    && env.end <= view[closer].ts && forall h :: env.anchor < h < closer ==> view[h].ts < env.end
  }

  /** Where the search may begin: above the prune cursor and close enough to the certificate. */
  function SearchFloor(pruned: nat, cert: nat): (floor: nat)
    ensures pruned < floor && cert + 2 <= floor + 40_000 && (floor == pruned + 1 || floor + 40_000 == cert + 2)
  {
    if cert >= MAX_BLOCKS && cert - MAX_BLOCKS + 2 > pruned + 1 then cert - MAX_BLOCKS + 2 else pruned + 1
  }

  /** Anchor and witness of a day: the block before the first one at or after its start, and the
  first one at or after its end. On nondecreasing timestamps they exist exactly if some block
  reaches the end and the block before the floor, or the floor itself, lies before the start. */
  method FindBounds(env: Env, view: seq<Block>, pruned: nat, cert: nat) returns (r: Option<(nat, nat)>)
    requires cert < |view| && Linked(view) && env.start < env.end
    ensures r.Some? ==> r.value.0 < cert && r.value.1 <= cert && cert - r.value.0 + 1 <= MAX_BLOCKS
    ensures r.Some? && r.value.0 < r.value.1 && Rising(view, r.value.0, cert + 1) ==> Bounds(env.(anchor := r.value.0), view, r.value.1, cert)
    ensures
      var floor := SearchFloor(pruned, cert);
      floor <= cert && Rising(view, floor, cert + 1) ==>
        && (r.Some? <==>
              && (exists h :: floor <= h <= cert && view[h].ts >= env.end)
              && (view[floor].ts < env.start || view[floor - 1].ts < env.start))
        && (r.Some? ==> r.value.0 < r.value.1)
    ensures SearchFloor(pruned, cert) > cert ==> r.None?
  {
    var floor := SearchFloor(pruned, cert);
    if floor > cert {
      return None;
    }
    var opening := FirstAtOrAfter(view, floor, cert, env.start);
    if opening.None? {
      return None;
    }
    var anchor := opening.value - 1;
    if view[anchor].ts >= env.start || view[opening.value].prev != Digest(view[anchor]) {
      return None;
    }
    var closer := FirstAtOrAfter(view, floor, cert, env.end);
    if closer.None? {
      return None;
    }
    r := Some((anchor, closer.value));
  }

  /** A pass that starts at a searched anchor and is complete has searched bounds: the pass itself
  has seen the timestamps rise. */
  lemma CompleteHasBounds(env: Env, view: seq<Block>, closer: nat, cert: nat)
    requires env.anchor <= cert < |view| && FoldTo(env, view, cert + 1).Some? && Complete(env, FoldTo(env, view, cert + 1).value, closer)
    requires env.anchor < closer && Rising(view, env.anchor, cert + 1) ==> Bounds(env, view, closer, cert)
    ensures Bounds(env, view, closer, cert)
  {
    FoldCovers(env, view, cert + 1);
  }

  function Min(a: nat, b: nat): nat { if a < b then a else b }

  /** With searched bounds the included blocks up to any height are those after the anchor and
  before the witness; so the closing checks on first and last can fail on an empty day only. */
  lemma {:induction false} BoundsFixCoverage(env: Env, view: seq<Block>, closer: nat, cert: nat, next: nat)
    requires Bounds(env, view, closer, cert) && env.anchor < next <= cert + 1 && FoldTo(env, view, next).Some?
    ensures
      var acc := FoldTo(env, view, next).value;
      && acc.included == Min(next, closer) - (env.anchor + 1)
      && (acc.included > 0 ==> acc.first == env.anchor + 1 && acc.last == acc.first + acc.included - 1)
      && (acc.included > 0 ==> env.start <= acc.firstTs <= acc.lastTs < env.end && acc.lastTs <= acc.priorTs)
  {
    FoldCovers(env, view, next);
    var acc, stop := FoldTo(env, view, next).value, Min(next, closer);
    forall h | env.anchor <= h < next ensures Within(env, view[h]) <==> env.anchor < h < stop {
      if h > env.anchor {
        assert view[env.anchor + 1].ts <= view[h].ts;
      }
      if h >= closer {
        assert view[closer].ts <= view[h].ts;
      }
    }
    if acc.included > 0 {
      assert Within(env, view[acc.first]) && Within(env, view[acc.last]);
      assert Within(env, view[env.anchor + 1]) && Within(env, view[stop - 1]);
    }
    assert env.anchor + 1 < stop ==> Within(env, view[env.anchor + 1]);
  }

  // ---- Sums telescope to checkpoint deltas ----

  function VaultAccrued(m: map<Text, VaultSum>): map<Text, nat> { map id | id in m :: m[id].accrued }
  function VaultLeader(m: map<Text, VaultSum>): map<Text, nat> { map id | id in m :: m[id].leader }
  function VaultGuardian(m: map<Text, VaultSum>): map<Text, nat> { map id | id in m :: m[id].guardian }

  lemma AddVaultSums(m: map<Text, VaultSum>, v: VaultRow)
    requires AddVault(m, v).Some?
    ensures Sum(VaultAccrued(AddVault(m, v).value)) == Sum(VaultAccrued(m)) + v.accrued
    ensures Sum(VaultLeader(AddVault(m, v).value)) == Sum(VaultLeader(m)) + v.leaderPaid
    ensures Sum(VaultGuardian(AddVault(m, v).value)) == Sum(VaultGuardian(m)) + v.guardianPaid
  {
    var s, n := PlusVault(VaultBefore(m, v.id), v), AddVault(m, v).value;
    assert VaultAccrued(n) == VaultAccrued(m)[v.id := s.accrued];
    SumPut(VaultAccrued(m), v.id, s.accrued);
    assert VaultLeader(n) == VaultLeader(m)[v.id := s.leader];
    SumPut(VaultLeader(m), v.id, s.leader);
    assert VaultGuardian(n) == VaultGuardian(m)[v.id := s.guardian];
    SumPut(VaultGuardian(m), v.id, s.guardian);
  }

  lemma {:induction false} AddVaultsSums(m: map<Text, VaultSum>, rows: seq<VaultRow>)
    requires AddVaults(m, rows).Some?
    ensures Sum(VaultAccrued(AddVaults(m, rows).value)) == Sum(VaultAccrued(m)) + VaultSums(rows).accrued
    ensures Sum(VaultLeader(AddVaults(m, rows).value)) == Sum(VaultLeader(m)) + VaultSums(rows).leader
    ensures Sum(VaultGuardian(AddVaults(m, rows).value)) == Sum(VaultGuardian(m)) + VaultSums(rows).guardian
  {
    if |rows| > 0 {
      AddVaultsSums(m, rows[..|rows| - 1]);
      AddVaultSums(AddVaults(m, rows[..|rows| - 1]).value, rows[|rows| - 1]);
    }
  }

  function PositionAccrued(m: map<Text, PositionSum>): map<Text, nat> { map id | id in m :: m[id].accrued }
  function PositionPaid(m: map<Text, PositionSum>): map<Text, nat> { map id | id in m :: m[id].paid }
  function PositionPrincipal(m: map<Text, PositionSum>): map<Text, nat> { map id | id in m :: m[id].principal }

  lemma AddPositionSums(m: map<Text, PositionSum>, row: Row)
    requires AddPosition(m, row).Some?
    ensures Sum(PositionAccrued(AddPosition(m, row).value)) == Sum(PositionAccrued(m)) + row.accrued
    ensures Sum(PositionPaid(AddPosition(m, row).value)) == Sum(PositionPaid(m)) + row.paid
    ensures Sum(PositionPrincipal(AddPosition(m, row).value)) == Sum(PositionPrincipal(m)) + row.principal
  {
    var s, n := PlusPosition(PositionBefore(m, row), row), AddPosition(m, row).value;
    assert PositionAccrued(n) == PositionAccrued(m)[row.id := s.accrued];
    SumPut(PositionAccrued(m), row.id, s.accrued);
    assert PositionPaid(n) == PositionPaid(m)[row.id := s.paid];
    SumPut(PositionPaid(m), row.id, s.paid);
    assert PositionPrincipal(n) == PositionPrincipal(m)[row.id := s.principal];
    SumPut(PositionPrincipal(m), row.id, s.principal);
  }

  lemma {:induction false} AddPositionsSums(m: map<Text, PositionSum>, rows: seq<Row>)
    requires AddPositions(m, rows).Some?
    ensures Sum(PositionAccrued(AddPositions(m, rows).value)) == Sum(PositionAccrued(m)) + RowTotals(rows).accrued
    ensures Sum(PositionPaid(AddPositions(m, rows).value)) == Sum(PositionPaid(m)) + RowTotals(rows).paid
    ensures Sum(PositionPrincipal(AddPositions(m, rows).value)) == Sum(PositionPrincipal(m)) + RowTotals(rows).principal
  {
    if |rows| > 0 {
      AddPositionsSums(m, rows[..|rows| - 1]);
      AddPositionSums(AddPositions(m, rows[..|rows| - 1]).value, rows[|rows| - 1]);
    }
  }

  /** The reported sums are the growth of the checkpoint counters since `opening`. */
  ghost predicate Telescopes(acc: Acc, opening: Checkpoint, closing: Checkpoint) {
    && opening.accrued + Sum(VaultAccrued(acc.vaults)) == closing.accrued
    && opening.accrued + Sum(PositionAccrued(acc.positions)) == closing.accrued
    && opening.leaderPaid + Sum(VaultLeader(acc.vaults)) == closing.leaderPaid
    && opening.guardianPaid + Sum(VaultGuardian(acc.vaults)) == closing.guardianPaid
    && opening.guardianPaid + Sum(PositionPaid(acc.positions)) == closing.guardianPaid
    && opening.principalReturned + Sum(PositionPrincipal(acc.positions)) == closing.principalReturned
  }

  /** What including a block does to the sums and the checkpoint chain. */
  lemma IncludeSums(env: Env, h: nat, parentTs: int, b: Block, acc: Acc)
    requires Include(env, h, parentTs, b, acc).Some?
    ensures
      var after, r := Include(env, h, parentTs, b, acc).value, b.record.value.record;
      && DeltasAgree(r) && after.closing == Some(r.context.after)
      && (acc.closing.Some? ==> r.context.before == acc.closing.value)
      && AddVaults(acc.vaults, r.vaults) == Some(after.vaults) && AddPositions(acc.positions, r.rows) == Some(after.positions)
  {
  }

  lemma StepTelescopes(acc: Acc, after: Acc, r: Record, opening: Checkpoint)
    requires Telescopes(acc, opening, r.context.before) && DeltasAgree(r)
    requires AddVaults(acc.vaults, r.vaults) == Some(after.vaults) && AddPositions(acc.positions, r.rows) == Some(after.positions)
    ensures Telescopes(after, opening, r.context.after)
  {
    AddVaultsSums(acc.vaults, r.vaults);
    AddPositionsSums(acc.positions, r.rows);
  }

  /** Before anything is included the sums are zero and no checkpoint is pending. */
  predicate Fresh(acc: Acc) {
    acc.included == 0 && acc.vaults == map[] && acc.positions == map[] && acc.closing.None? && acc.registry.None?
    && acc.burns == Burns(0, 0, 0, 0) && acc.first == 0 && acc.last == 0 && acc.firstTs == 0 && acc.lastTs == 0
  }

  ghost predicate Tallied(view: seq<Block>, acc: Acc) {
    if acc.included == 0 then Fresh(acc)
    else
      && acc.first < |view| && view[acc.first].record.Some? && acc.closing.Some?
      && Telescopes(acc, view[acc.first].record.value.record.context.before, acc.closing.value)
  }

  lemma FreshTelescopes(acc: Acc, c: Checkpoint)
    requires Fresh(acc)
    ensures Telescopes(acc, c, c)
  {
  }

  lemma IncludeTallied(env: Env, view: seq<Block>, h: nat, parentTs: int, acc: Acc)
    requires h < |view| && Tallied(view, acc) && Include(env, h, parentTs, view[h], acc).Some?
    ensures Tallied(view, Include(env, h, parentTs, view[h], acc).value)
  {
    var after, r := Include(env, h, parentTs, view[h], acc).value, view[h].record.value.record;
    IncludeSums(env, h, parentTs, view[h], acc);
    if acc.included == 0 {
      FreshTelescopes(acc, r.context.before);
      StepTelescopes(acc, after, r, r.context.before);
    } else {
      StepTelescopes(acc, after, r, view[acc.first].record.value.record.context.before);
    }
  }

  /** In every pass, cut or not, the row sums equal the closing minus the opening counters. */
  lemma {:induction false} SumsTelescope(env: Env, view: seq<Block>, next: nat)
    requires env.anchor <= next <= |view| && FoldTo(env, view, next).Some?
    ensures Tallied(view, FoldTo(env, view, next).value)
  {
    if next > env.anchor {
      SumsTelescope(env, view, next - 1);
      var acc, b := FoldTo(env, view, next - 1).value, view[next - 1];
      var seen := acc.(prev := Digest(b), priorTs := b.ts);
      assert Tallied(view, seen);
      if Within(env, b) {
        IncludeTallied(env, view, next - 1, acc.priorTs, seen);
      }
    }
  }

  // ---- Saved progress passes its validation ----

  predicate Named(acc: Acc) {
    && (forall id :: id in acc.vaults ==> id != [])
    && (forall id :: id in acc.positions ==>
          id != [] && acc.positions[id].vault != [] && acc.positions[id].vaultAfter != [] && acc.positions[id].beneficiary != [])
  }

  /** The shape of the accumulated state. */
  predicate Stocked(acc: Acc) {
    && |acc.vaults| + |acc.positions| <= MAX_ENTRIES && Named(acc)
    && BurnsAddUp(acc.burns) && BurnsFit(acc.burns)
    && (acc.included > 0 ==> acc.registry.Some? && acc.closing.Some?)
  }

  lemma {:induction false} AddVaultsShape(m: map<Text, VaultSum>, rows: seq<VaultRow>)
    requires AddVaults(m, rows).Some?
    requires (forall id :: id in m ==> id != []) && forall i :: 0 <= i < |rows| ==> rows[i].id != []
    ensures |AddVaults(m, rows).value| <= |m| + |rows|
    ensures forall id :: id in AddVaults(m, rows).value ==> id != []
  {
    if |rows| > 0 {
      AddVaultsShape(m, rows[..|rows| - 1]);
      PutSize(AddVaults(m, rows[..|rows| - 1]).value, rows[|rows| - 1].id, AddVaults(m, rows).value[rows[|rows| - 1].id]);
    }
  }

  lemma PutSize<V>(m: map<Text, V>, k: Text, v: V)
    ensures |m[k := v]| <= |m| + 1
  {
    assert m[k := v].Keys == m.Keys + {k};
  }

  predicate RowNamed(row: Row) {
    row.vaultBefore != [] && row.vaultAfter != []
  }

  predicate PositionsNamed(m: map<Text, PositionSum>) {
    forall id :: id in m ==> id != [] && m[id].vault != [] && m[id].vaultAfter != [] && m[id].beneficiary != []
  }

  lemma {:induction false} AddPositionsShape(m: map<Text, PositionSum>, rows: seq<Row>)
    requires AddPositions(m, rows).Some? && PositionsNamed(m) && forall i :: 0 <= i < |rows| ==> RowNamed(rows[i])
    ensures |AddPositions(m, rows).value| <= |m| + |rows| && PositionsNamed(AddPositions(m, rows).value)
  {
    if |rows| > 0 {
      AddPositionsShape(m, rows[..|rows| - 1]);
      PutSize(AddPositions(m, rows[..|rows| - 1]).value, rows[|rows| - 1].id, AddPositions(m, rows).value[rows[|rows| - 1].id]);
    }
  }

  lemma AgreedRowNamed(c: Context, vaults: map<Text, VaultRow>, elapsed: nat, row: Row)
    requires Agrees(c, vaults, elapsed, row)
    ensures RowNamed(row)
  {
  }

  lemma AgreedRowsNamed(r: Record, elapsed: nat)
    requires Reconciled(r, elapsed)
    ensures forall i :: 0 <= i < |r.rows| ==> RowNamed(r.rows[i])
    ensures forall i :: 0 <= i < |r.vaults| ==> r.vaults[i].id != []
  {
    forall i | 0 <= i < |r.rows| ensures RowNamed(r.rows[i]) {
      assert Agreement(r.context, VaultMap(r.vaults), elapsed)(r.rows[i]);
      AgreedRowNamed(r.context, VaultMap(r.vaults), elapsed, r.rows[i]);
    }
    assert forall i :: 0 <= i < |r.vaults| ==> VaultRowOk(r.vaults[i], r.projected);
  }

  /** The parts of an included record that shape the accumulated state. */
  lemma IncludeShape(env: Env, h: nat, parentTs: int, b: Block, acc: Acc)
    requires Include(env, h, parentTs, b, acc).Some?
    ensures
      var after, r := Include(env, h, parentTs, b, acc).value, b.record.value;
      && (forall i :: 0 <= i < |r.record.rows| ==> RowNamed(r.record.rows[i]))
      && (forall i :: 0 <= i < |r.record.vaults| ==> r.record.vaults[i].id != [])
      && |acc.vaults| + |acc.positions| + |r.record.vaults| + |r.record.rows| <= MAX_ENTRIES
      && after.registry.Some? && after.closing.Some? && BurnsAddUp(r.burns)
      && after.burns == PlusBurns(acc.burns, r.burns) && BurnsFit(after.burns)
      && AddVaults(acc.vaults, r.record.vaults) == Some(after.vaults)
      && AddPositions(acc.positions, r.record.rows) == Some(after.positions)
  {
    AgreedRowsNamed(b.record.value.record, Elapsed(parentTs, b.ts));
  }

  lemma ShapeStocked(acc: Acc, after: Acc, vaults: seq<VaultRow>, rows: seq<Row>)
    requires Stocked(acc) && |acc.vaults| + |acc.positions| + |vaults| + |rows| <= MAX_ENTRIES
    requires (forall i :: 0 <= i < |rows| ==> RowNamed(rows[i])) && forall i :: 0 <= i < |vaults| ==> vaults[i].id != []
    requires AddVaults(acc.vaults, vaults) == Some(after.vaults) && AddPositions(acc.positions, rows) == Some(after.positions)
    ensures |after.vaults| + |after.positions| <= MAX_ENTRIES && Named(after)
  {
    AddVaultsShape(acc.vaults, vaults);
    AddPositionsShape(acc.positions, rows);
  }

  lemma IncludeStocked(env: Env, h: nat, parentTs: int, b: Block, acc: Acc)
    requires Stocked(acc) && Include(env, h, parentTs, b, acc).Some?
    ensures Stocked(Include(env, h, parentTs, b, acc).value)
  {
    IncludeShape(env, h, parentTs, b, acc);
    ShapeStocked(acc, Include(env, h, parentTs, b, acc).value, b.record.value.record.vaults, b.record.value.record.rows);
  }

  lemma {:induction false} FoldStocked(env: Env, view: seq<Block>, next: nat)
    requires env.anchor <= next <= |view| && FoldTo(env, view, next).Some?
    ensures Stocked(FoldTo(env, view, next).value)
  {
    if next > env.anchor {
      FoldStocked(env, view, next - 1);
      var acc, b := FoldTo(env, view, next - 1).value, view[next - 1];
      var seen := acc.(prev := Digest(b), priorTs := b.ts);
      assert Stocked(seen);
      if Within(env, b) {
        IncludeStocked(env, next - 1, acc.priorTs, b, seen);
      }
    }
  }

  /** Where saved progress stands: heights, counts and times fit the bounds of the day. */
  predicate Placed(env: Env, p: Progress, closer: nat, cert: nat, certHash: Hash) {
    var acc := p.acc;
    && env.anchor < closer <= cert && env.anchor < p.next <= cert + 1 && cert - env.anchor + 1 <= MAX_BLOCKS
    && acc.prev != Zero && (p.next == cert + 1 ==> acc.prev == certHash)
    && acc.included == Min(p.next, closer) - (env.anchor + 1)
    && (acc.included > 0 ==>
          && acc.first == env.anchor + 1 && acc.last == acc.first + acc.included - 1
          && env.start <= acc.firstTs <= acc.lastTs < env.end && acc.lastTs <= acc.priorTs)
  }

  /** What the job loader demands of saved progress. */
  predicate ValidProgress(env: Env, p: Progress, closer: nat, cert: nat, certHash: Hash) {
    Placed(env, p, closer, cert, certHash) && Stocked(p.acc) && (p.acc.included == 0 ==> Fresh(p.acc))
  }

  /** A finished job's progress must also have reached the certificate and the witness. */
  predicate ValidFinished(p: Progress, closer: nat, cert: nat) {
    p.next == cert + 1 && p.acc.included > 0 && p.acc.last + 1 == closer
  }

  /** The accumulated state of a pass, by itself. */
  lemma PassStocked(env: Env, view: seq<Block>, next: nat, acc: Acc)
    requires env.anchor < next <= |view| && FoldTo(env, view, next) == Some(acc)
    ensures Stocked(acc) && (acc.included == 0 ==> Fresh(acc))
  {
    SumsTelescope(env, view, next);
    FoldStocked(env, view, next);
  }

  lemma PassPlaced(env: Env, view: seq<Block>, p: Progress, closer: nat, cert: nat)
    requires Bounds(env, view, closer, cert) && cert - env.anchor + 1 <= MAX_BLOCKS
    requires env.anchor < p.next <= cert + 1 && FoldTo(env, view, p.next) == Some(p.acc)
    ensures Placed(env, p, closer, cert, Digest(view[cert]))
  {
    BoundsFixCoverage(env, view, closer, cert, p.next);
    FoldEndsAt(env, view, p.next);
  }

  /** Every progress a batch can save passes validation. */
  lemma SavedProgressIsValid(env: Env, view: seq<Block>, p: Progress, closer: nat, cert: nat)
    requires Bounds(env, view, closer, cert) && cert - env.anchor + 1 <= MAX_BLOCKS
    requires env.anchor < p.next <= cert + 1 && FoldTo(env, view, p.next) == Some(p.acc)
    ensures ValidProgress(env, p, closer, cert, Digest(view[cert]))
  {
    PassPlaced(env, view, p, closer, cert);
    PassStocked(env, view, p.next, p.acc);
  }

  /** A pass with searched bounds that reaches the certificate completes, and its progress passes
  as that of a finished job, if and only if the day has a block. */
  lemma FinishedProgressIsValid(env: Env, view: seq<Block>, p: Progress, closer: nat, cert: nat)
    requires Bounds(env, view, closer, cert) && p.next == cert + 1 && FoldTo(env, view, cert + 1) == Some(p.acc)
    ensures ValidFinished(p, closer, cert) <==> env.anchor + 1 < closer
    ensures Complete(env, p.acc, closer) <==> env.anchor + 1 < closer
  {
    BoundsFixCoverage(env, view, closer, cert, p.next);
    FoldStocked(env, view, p.next);
  }
}
