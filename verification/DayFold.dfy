/** The daily audit as a fold over certified ancestry: what a pass accumulates, which blocks it
includes, and why cutting it into saved batches changes nothing. */
module DayFold {
  import opened BlockAudit
  import opened Options
  import opened PositionAudit

  const MAX_BLOCKS: nat := 40000
  const MAX_ENTRIES: nat := 100000

  datatype Hash = Zero | Digest(block: Block)

  datatype Block = Block(prev: Hash, ts: int, record: Option<DayRecord>)

  datatype Burns = Burns(base: nat, intentional: nat, avm: nat, total: nat)

  /** A block's audit record; `funded` says that its funding identity is the marker's. */
  datatype DayRecord = DayRecord(record: Record, burns: Burns, available: bool, funded: bool)

  /** Sums per vault and per position. */
  datatype VaultSum = VaultSum(accrued: nat, leader: nat, guardian: nat, unfunded: nat)

  datatype PositionSum = PositionSum(beneficiary: Text, vault: Text, vaultAfter: Text, accrued: nat, paid: nat, principal: nat)

  /** Registry evidence: from the expected snapshot before a block to the one after it. */
  type Evidence = (Block, Option<nat>) -> Option<nat>

  /** The half-open interval, the opening anchor's height and the registry replay. */
  datatype Env = Env(start: int, end: int, anchor: nat, evidence: Evidence)

  /** Everything a pass carries from block to block. */
  datatype Acc = Acc(prev: Hash, priorTs: int, vaults: map<Text, VaultSum>, positions: map<Text, PositionSum>, burns: Burns,
                     included: nat, first: nat, last: nat, firstTs: int, lastTs: int, closing: Option<Checkpoint>,
                     registry: Option<nat>)

  // ---- Accumulation ----

  function PlusVault(s: VaultSum, v: VaultRow): VaultSum {
    VaultSum(s.accrued + v.accrued, s.leader + v.leaderPaid, s.guardian + v.guardianPaid, s.unfunded + v.unfunded)
  }

  predicate VaultFits(s: VaultSum) {
    s.accrued < UINT64 && s.leader < UINT64 && s.guardian < UINT64 && s.unfunded < UINT64
  }

  function VaultBefore(vaults: map<Text, VaultSum>, id: Text): VaultSum {
    if id in vaults then vaults[id] else VaultSum(0, 0, 0, 0)
  }

  function AddVault(vaults: map<Text, VaultSum>, v: VaultRow): Option<map<Text, VaultSum>> {
    var s := PlusVault(VaultBefore(vaults, v.id), v);
    if VaultFits(s) then Some(vaults[v.id := s]) else None
  }

  function AddVaults(vaults: map<Text, VaultSum>, rows: seq<VaultRow>): Option<map<Text, VaultSum>> {
    if |rows| == 0 then Some(vaults)
    else
      var before := AddVaults(vaults, rows[..|rows| - 1]);
      if before.None? then None else AddVault(before.value, rows[|rows| - 1])
  }

  function PositionBefore(positions: map<Text, PositionSum>, row: Row): PositionSum {
    if row.id in positions then positions[row.id] else PositionSum(row.beneficiary, row.vaultBefore, [], 0, 0, 0)
  }

  function PlusPosition(s: PositionSum, row: Row): PositionSum {
    s.(vaultAfter := row.vaultAfter, accrued := s.accrued + row.accrued, paid := s.paid + row.paid, principal := s.principal + row.principal)
  }

  predicate PositionFits(s: PositionSum) {
    s.accrued < UINT64 && s.paid < UINT64 && s.principal < UINT64
  }

  /** One position row; its beneficiary must never change. */
  function AddPosition(positions: map<Text, PositionSum>, row: Row): Option<map<Text, PositionSum>> {
    var before := PositionBefore(positions, row);
    if row.id == [] || row.beneficiary == [] || before.beneficiary != row.beneficiary then None
    else if !PositionFits(PlusPosition(before, row)) then None
    else Some(positions[row.id := PlusPosition(before, row)])
  }

  function AddPositions(positions: map<Text, PositionSum>, rows: seq<Row>): Option<map<Text, PositionSum>> {
    if |rows| == 0 then Some(positions)
    else
      var before := AddPositions(positions, rows[..|rows| - 1]);
      if before.None? then None else AddPosition(before.value, rows[|rows| - 1])
  }

  function PlusBurns(a: Burns, b: Burns): Burns {
    Burns(a.base + b.base, a.intentional + b.intentional, a.avm + b.avm, a.total + b.total)
  }

  predicate BurnsFit(b: Burns) {
    b.base < UINT64 && b.intentional < UINT64 && b.avm < UINT64 && b.total < UINT64
  }

  predicate BurnsAddUp(b: Burns) {
    b.total == b.base + b.intentional + b.avm
  }

  // ---- One block ----

  predicate Within(env: Env, b: Block) {
    env.start <= b.ts < env.end
  }

  /** Linkage to the block before; the anchor of a chain that starts at genesis has none. */
  predicate Continues(env: Env, h: nat, b: Block, acc: Acc) {
    if h == env.anchor then h > 0 ==> b.prev == acc.prev else b.prev == acc.prev && b.ts >= acc.priorTs
  }

  /** Counting a block in, before its record is looked at. */
  function Counted(h: nat, b: Block, acc: Acc): Acc {
    acc.(first := if acc.included == 0 then h else acc.first, firstTs := if acc.included == 0 then b.ts else acc.firstTs,
         last := h, lastTs := b.ts, included := acc.included + 1)
  }

  /** The record continues the checkpoint and registry chains and reconciles with the time since
  the parent; genesis has none. */
  predicate Auditable(env: Env, h: nat, parentTs: int, b: Block, acc: Acc) {
    && h > 0
    && b.record.Some? && b.record.value.available && BurnsAddUp(b.record.value.burns)
    && (acc.included == 0 ==> b.record.value.funded)
    && (acc.closing.Some? ==> b.record.value.record.context.before == acc.closing.value)
    && env.evidence(b, acc.registry).Some?
    && Verified(b.record.value.record, parentTs, b.ts)
    && |acc.vaults| + |acc.positions| + |b.record.value.record.vaults| + |b.record.value.record.rows| <= MAX_ENTRIES
  }

  /** The sums after an audited block, while they fit. */
  function Taken(env: Env, h: nat, b: Block, acc: Acc): Option<Acc>
    requires b.record.Some?
  {
    var r := b.record.value;
    var vaults := AddVaults(acc.vaults, r.record.vaults);
    var positions := AddPositions(acc.positions, r.record.rows);
    var burns := PlusBurns(acc.burns, r.burns);
    if vaults.None? || positions.None? || !BurnsFit(burns) then None
    else Some(Counted(h, b, acc).(vaults := vaults.value, positions := positions.value, burns := burns,
                                  closing := Some(r.record.context.after), registry := env.evidence(b, acc.registry)))
  }

  function Include(env: Env, h: nat, parentTs: int, b: Block, acc: Acc): Option<Acc> {
    if acc.included + 1 > MAX_BLOCKS || !Auditable(env, h, parentTs, b, acc) then None else Taken(env, h, b, acc)
  }

  function StepBlock(env: Env, h: nat, b: Block, acc: Acc): Option<Acc> {
    if !Continues(env, h, b, acc) then None
    else
      var seen := acc.(prev := Digest(b), priorTs := b.ts);
      if Within(env, b) then Include(env, h, acc.priorTs, b, seen) else Some(seen)
  }

  // ---- A pass ----

  function ParentHash(view: seq<Block>, h: nat): Hash
    requires h <= |view|
  {
    if h == 0 then Zero else Digest(view[h - 1])
  }

  function ParentTs(view: seq<Block>, h: nat): int
    requires h <= |view|
  {
    if h == 0 then 0 else view[h - 1].ts
  }

  /** The state before the anchor: nothing counted, linked to the anchor's parent. */
  function Opened(env: Env, view: seq<Block>): Acc
    requires env.anchor <= |view|
  {
    Acc(ParentHash(view, env.anchor), ParentTs(view, env.anchor), map[], map[], Burns(0, 0, 0, 0), 0, 0, 0, 0, 0, None, None)
  }

  function Then(env: Env, before: Option<Acc>, h: nat, b: Block): Option<Acc> {
    if before.None? then None else StepBlock(env, h, b, before.value)
  }

  /** One uninterrupted pass over the heights from the anchor up to `next`. */
  function FoldTo(env: Env, view: seq<Block>, next: nat): Option<Acc>
    requires env.anchor <= next <= |view|
  {
    if next == env.anchor then Some(Opened(env, view)) else Then(env, FoldTo(env, view, next - 1), next - 1, view[next - 1])
  }

  /** The canonical chain by height. */
  predicate Linked(view: seq<Block>) {
    forall h :: 0 < h < |view| ==> view[h].prev == Digest(view[h - 1])
  }

  /** A hash fixes everything below it. */
  lemma {:induction false} HashFixesPrefix(p: seq<Block>, q: seq<Block>, n: nat)
    requires Linked(p) && Linked(q) && 0 < n <= |p| && n <= |q| && p[n - 1] == q[n - 1]
    ensures p[..n] == q[..n]
  {
    if n > 1 {
      HashFixesPrefix(p, q, n - 1);
      assert p[..n] == p[..n - 1] + [p[n - 1]];
      assert q[..n] == q[..n - 1] + [q[n - 1]];
    }
  }

  lemma {:induction false} FoldPrefix(env: Env, p: seq<Block>, q: seq<Block>, next: nat)
    requires env.anchor <= next <= |p| && next <= |q| && p[..next] == q[..next]
    ensures FoldTo(env, p, next) == FoldTo(env, q, next)
  {
    if next == env.anchor {
      if next > 0 {
        assert p[..next][next - 1] == q[..next][next - 1];
      }
    } else {
      assert p[..next][next - 1] == q[..next][next - 1];
      assert p[..next - 1] == p[..next][..next - 1] && q[..next - 1] == q[..next][..next - 1];
      FoldPrefix(env, p, q, next - 1);
    }
  }

  // ---- Batches ----

  /** Saved progress: the accumulator, and the next height to audit. */
  datatype Progress = Progress(acc: Acc, next: nat)

  /** One batch: the chain as it was then, its certificate, and where the batch stopped. */
  datatype Batch = Batch(view: seq<Block>, cert: nat, stop: nat)

  function FoldFrom(env: Env, view: seq<Block>, p: Progress, stop: nat): Option<Acc>
    requires p.next <= stop <= |view|
    decreases stop
  {
    if stop == p.next then Some(p.acc) else Then(env, FoldFrom(env, view, p, stop - 1), stop - 1, view[stop - 1])
  }

  /** A batch may resume when the saved predecessor is still canonical. */
  predicate Resumable(env: Env, p: Progress, b: Batch) {
    && env.anchor < p.next < b.stop <= b.cert + 1 <= |b.view|
    && p.acc.prev == Digest(b.view[p.next - 1])
  }

  function RunBatches(env: Env, batches: seq<Batch>): Option<Progress> {
    if |batches| == 0 then None
    else
      var b := batches[|batches| - 1];
      if |batches| == 1 then
        if !(env.anchor < b.stop <= b.cert + 1 <= |b.view|) then None
        else
          var acc := FoldTo(env, b.view, b.stop);
          if acc.None? then None else Some(Progress(acc.value, b.stop))
      else
        var p := RunBatches(env, batches[..|batches| - 1]);
        if p.None? || !Resumable(env, p.value, b) then None
        else
          var acc := FoldFrom(env, b.view, p.value, b.stop);
          if acc.None? then None else Some(Progress(acc.value, b.stop))
  }

  lemma {:induction false} FoldContinues(env: Env, view: seq<Block>, p: Progress, stop: nat)
    requires env.anchor <= p.next <= stop <= |view| && FoldTo(env, view, p.next) == Some(p.acc)
    ensures FoldFrom(env, view, p, stop) == FoldTo(env, view, stop)
    decreases stop
  {
    if stop > p.next {
      FoldContinues(env, view, p, stop - 1);
    }
  }

  lemma FoldEndsAt(env: Env, view: seq<Block>, next: nat)
    requires env.anchor < next <= |view| && FoldTo(env, view, next).Some?
    ensures FoldTo(env, view, next).value.prev == Digest(view[next - 1])
  {
  }

  /** Cutting the pass at any boundaries, with the chain and its certificate growing in between,
  gives what one uninterrupted pass over the last chain gives. */
  lemma {:induction false} BatchesAreOnePass(env: Env, batches: seq<Batch>)
    requires (forall i :: 0 <= i < |batches| ==> Linked(batches[i].view)) && RunBatches(env, batches).Some?
    ensures
      var p, b := RunBatches(env, batches).value, batches[|batches| - 1];
      env.anchor < p.next == b.stop <= |b.view| && FoldTo(env, b.view, p.next) == Some(p.acc)
  {
    if |batches| > 1 {
      var init, b := batches[..|batches| - 1], batches[|batches| - 1];
      BatchesAreOnePass(env, init);
      var p, c := RunBatches(env, init).value, init[|init| - 1];
      FoldEndsAt(env, c.view, p.next);
      assert Linked(c.view) && Linked(b.view);
      HashFixesPrefix(c.view, b.view, p.next);
      FoldPrefix(env, c.view, b.view, p.next);
      FoldContinues(env, b.view, p, b.stop);
    }
  }
}
