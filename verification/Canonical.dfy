/** The canonical block transition over outputs, stake, chain and durable store: what one step
does under every pattern of failures, and what memory is after any run of steps. */
module Canonical {
  import opened BlockUndo
  import opened Options
  import opened Reversal
  import opened StakeBurns
  import opened Utxos

  datatype Parent = Root | Of(block: Block)

  datatype Block = Block(height: nat, parent: Parent, txs: seq<Tx>)

  // ---- The in-memory chain window ----

  datatype ChainView = ChainView(tip: Block, byHeight: map<nat, Block>)

  /** What the last AddBlock needs to be undone. */
  datatype Added = Added(block: Block, previous: Block, evicted: Option<Block>)

  predicate Linked(c: ChainView) {
    && c.tip.height in c.byHeight && c.byHeight[c.tip.height] == c.tip
    && forall h :: h in c.byHeight ==> c.byHeight[h].height == h && h <= c.tip.height
  }

  predicate ExtendsTip(c: ChainView, b: Block) {
    b.height == c.tip.height + 1 && b.parent == Of(c.tip)
  }

  /** The block that leaves the window when `b` enters. */
  function Leaving(c: ChainView, b: Block, window: nat): Option<Block> {
    if b.height >= window && b.height - window in c.byHeight then Some(c.byHeight[b.height - window]) else None
  }

  function After(c: ChainView, b: Block, window: nat): ChainView {
    var leaving := Leaving(c, b, window);
    ChainView(b, c.byHeight[b.height := b] - if leaving.Some? then {b.height - window} else {})
  }

  /** The window holds the last `window` heights from `low` on. */
  ghost predicate Windowed(c: ChainView, low: nat, window: nat) {
    forall h: nat :: h in c.byHeight <==> low <= h <= c.tip.height && c.tip.height < h + window
  }

  /** A block that extends the tip moves the window by one height and leaves the other blocks as they are. */
  lemma WindowMoves(c: ChainView, b: Block, low: nat, window: nat)
    requires window > 0 && low <= c.tip.height && Windowed(c, low, window) && ExtendsTip(c, b)
    ensures
      var after := After(c, b, window);
      && after.tip == b && Windowed(after, low, window)
      && forall h :: h in after.byHeight ==> after.byHeight[h] == if h == b.height then b else c.byHeight[h]
  {
  }

  class Chain {
    var tip: Block
    var byHeight: map<nat, Block>
    var known: set<Block>
    var lastAdd: Option<Added>
    const window: nat

    function View(): ChainView
      reads this
    {
      ChainView(tip, byHeight)
    }

    /** The view that undoing the latest AddBlock brings back. */
    function Reverted(): ChainView
      requires lastAdd.Some?
      reads this
    {
      var restored := (byHeight - {tip.height})[lastAdd.value.previous.height := lastAdd.value.previous];
      var evicted := lastAdd.value.evicted;
      ChainView(lastAdd.value.previous, if evicted.Some? then restored[evicted.value.height := evicted.value] else restored)
    }

    /** The undo record belongs to the tip and clashes with nothing in the window. */
    predicate Undoable()
      reads this
    {
      lastAdd.Some? ==>
        var a := lastAdd.value;
        && a.block == tip && ExtendsTip(Reverted(), tip) && Linked(Reverted())
        && (a.previous.height in byHeight ==> byHeight[a.previous.height] == a.previous)
        && (a.evicted.Some? ==> a.evicted.value.height !in byHeight && (a.evicted.value.height == a.previous.height ==> a.evicted.value == a.previous))
    }

    predicate Valid()
      reads this
    {
      window >= 1 && Linked(View()) && known == byHeight.Values && Undoable()
    }

    constructor (genesis: Block, window: nat)
      requires window >= 1
      ensures Valid() && View() == ChainView(genesis, map[genesis.height := genesis]) && this.window == window
    {
      tip, byHeight, known, lastAdd := genesis, map[genesis.height := genesis], {genesis}, None;
      this.window := window;
    }

    /** Appends a block that extends the tip and evicts the one that falls out of the window. */
    method AddBlock(b: Block) returns (ok: bool)
      requires Valid()
      modifies this
      ensures Valid()
      ensures ok == ExtendsTip(old(View()), b)
      ensures !ok ==> View() == old(View())
      ensures ok ==> View() == After(old(View()), b, window) && lastAdd.Some? && Reverted() == old(View())
    {
      if b.height != tip.height + 1 || b.parent != Of(tip) {
        return false;
      }
      var evicted := None;
      var previous := tip;
      ghost var before := View();
      known := known + {b};
      byHeight := byHeight[b.height := b];
      tip := b;
      ValuesPut(before.byHeight, b.height, b);
      if b.height >= window && b.height - window in byHeight {
        evicted := Some(byHeight[b.height - window]);
        ValuesDrop(byHeight, b.height - window);
        byHeight := byHeight - {b.height - window};
        known := known - {evicted.value};
      }
      lastAdd := Some(Added(b, previous, evicted));
      assert Reverted() == before;
      ok := true;
    }

    /** Reverses the latest AddBlock, bringing back the block it pushed out of the window. */
    method RollbackLastBlock(b: Block) returns (ok: bool)
      requires Valid()
      modifies this
      ensures Valid()
      ensures ok == (old(tip) == b && old(lastAdd).Some?)
      ensures View() == if ok then old(Reverted()) else old(View())
    {
      if tip != b || lastAdd.None? || lastAdd.value.block != b {
        return false;
      }
      var previous, evicted := lastAdd.value.previous, lastAdd.value.evicted;
      if b.height == 0 || previous.height + 1 != b.height || b.parent != Of(previous) {
        return false;
      }
      ValuesDrop(byHeight, b.height);
      known := known - {b};
      byHeight := byHeight - {b.height};
      ValuesPut(byHeight, previous.height, previous);
      known := known + {previous};
      byHeight := byHeight[previous.height := previous];
      if evicted.Some? && evicted.value != previous {
        ValuesPut(byHeight, evicted.value.height, evicted.value);
        known := known + {evicted.value};
        byHeight := byHeight[evicted.value.height := evicted.value];
      }
      tip := previous;
      lastAdd := None;
      ok := true;
    }
  }

  lemma ValuesPut(m: map<nat, Block>, h: nat, b: Block)
    requires h in m ==> m[h] == b
    ensures m[h := b].Values == m.Values + {b}
  {
    var n := m[h := b];
    forall x | x in m.Values ensures x in n.Values {
      var k :| k in m && m[k] == x;
      assert n[k] == x;
    }
    assert n[h] == b;
  }

  lemma ValuesDrop(m: map<nat, Block>, h: nat)
    requires h in m && forall k :: k in m ==> m[k].height == k
    ensures (m - {h}).Values == m.Values - {m[h]}
  {
    forall x | x in m.Values - {m[h]} ensures x in (m - {h}).Values {
      var k :| k in m && m[k] == x;
      assert (m - {h})[k] == x;
    }
  }

  // ---- Stake transactions ----

  /** The stake side of a block: outputs burned so far, in order. */
  datatype Staking = Staking(view: View, registry: Registry, burned: seq<Key>)

  /** All stake transactions applied, or the view after the burns in `marks` are undone in `order`. */
  datatype Outcome = Staked(st: Staking) | Declined(marks: seq<Key>, order: seq<Key>, view: View)

  function GiveUp(st: Staking): Outcome {
    Declined(st.burned, st.burned, UnmarkAll(st.view, st.burned))
  }

  /** Burn, then registry; a refusal takes this burn back first and then the earlier ones. */
  function StakeTx(rules: Rules, st: Staking, tx: Tx, height: nat, denied: bool): Outcome {
    if !tx.kind.Stake? then Staked(st)
    else
      var registry := if denied then None else rules(st.registry, tx, height);
      if tx.kind.burn.None? then if registry.None? then GiveUp(st) else Staked(st.(registry := registry.value))
      else
        var k := tx.kind.burn.value;
        var marked := MarkStaked(st.view, k);
        if marked.None? then GiveUp(st)
        else if registry.None? then Declined(st.burned + [k], [k] + st.burned, UnmarkAll(marked.value, [k] + st.burned))
        else Staked(Staking(marked.value, registry.value, st.burned + [k]))
  }

  /** `denied` is the transaction, if any, refused because the minimum changed meanwhile. */
  function StakeTxs(rules: Rules, st: Staking, txs: seq<Tx>, height: nat, denied: Option<nat>): Outcome {
    if |txs| == 0 then Staked(st)
    else
      var before := StakeTxs(rules, st, txs[..|txs| - 1], height, denied);
      if before.Declined? then before else StakeTx(rules, before.st, txs[|txs| - 1], height, denied == Some(|txs| - 1))
  }

  /** What an outcome has marked and unmarked, starting from `v`. */
  ghost predicate Marks(v: View, o: Outcome) {
    if o.Staked? then MarkAll(v, o.st.burned) == Some(o.st.view)
    else
      && MarkAll(v, o.marks).Some? && Distinct(o.order) && KeySet(o.order) == KeySet(o.marks)
      && o.view == UnmarkAll(MarkAll(v, o.marks).value, o.order)
  }

  lemma GiveUpMarks(v: View, st: Staking)
    requires MarkAll(v, st.burned) == Some(st.view)
    ensures Marks(v, GiveUp(st))
  {
    MarkAllBurns(v, st.burned);
  }

  lemma MarkAllSnoc(v: View, ks: seq<Key>, k: Key)
    requires MarkAll(v, ks).Some?
    ensures MarkAll(v, ks + [k]) == MarkStaked(MarkAll(v, ks).value, k)
  {
    assert (ks + [k])[..|ks + [k]| - 1] == ks;
  }

  lemma RotatedMarks(v: View, ks: seq<Key>, k: Key)
    requires MarkAll(v, ks + [k]).Some?
    ensures Distinct([k] + ks) && KeySet([k] + ks) == KeySet(ks + [k])
  {
    MarkAllBurns(v, ks + [k]);
    assert (ks + [k])[|ks|] == k;
    assert forall i :: 0 <= i < |ks| ==> (ks + [k])[i] == ks[i];
  }

  lemma StakeTxMarks(rules: Rules, v: View, st: Staking, tx: Tx, height: nat, denied: bool)
    requires MarkAll(v, st.burned) == Some(st.view)
    ensures Marks(v, StakeTx(rules, st, tx, height, denied))
  {
    GiveUpMarks(v, st);
    if tx.kind.Stake? && tx.kind.burn.Some? && MarkStaked(st.view, tx.kind.burn.value).Some? {
      MarkAllSnoc(v, st.burned, tx.kind.burn.value);
      RotatedMarks(v, st.burned, tx.kind.burn.value);
    }
  }

  lemma {:induction false} StakeTxsMark(rules: Rules, v: View, registry: Registry, txs: seq<Tx>, height: nat, denied: Option<nat>)
    ensures Marks(v, StakeTxs(rules, Staking(v, registry, []), txs, height, denied))
  {
    if |txs| == 0 {
    } else {
      var init := txs[..|txs| - 1];
      StakeTxsMark(rules, v, registry, init, height, denied);
      var before := StakeTxs(rules, Staking(v, registry, []), init, height, denied);
      if before.Staked? {
        StakeTxMarks(rules, v, before.st, txs[|txs| - 1], height, denied == Some(|txs| - 1));
      }
    }
  }

  /** A denial that does not stop the block changes nothing. */
  lemma {:induction false} DenialIrrelevant(rules: Rules, st: Staking, txs: seq<Tx>, height: nat, denied: Option<nat>)
    requires StakeTxs(rules, st, txs, height, denied).Staked?
    ensures StakeTxs(rules, st, txs, height, None) == StakeTxs(rules, st, txs, height, denied)
  {
    if |txs| > 0 {
      DenialIrrelevant(rules, st, txs[..|txs| - 1], height, denied);
    }
  }

  lemma {:induction false} DeclinedPrefix(rules: Rules, st: Staking, txs: seq<Tx>, height: nat, denied: Option<nat>, n: nat)
    requires n <= |txs| && StakeTxs(rules, st, txs[..n], height, denied).Declined?
    ensures StakeTxs(rules, st, txs, height, denied) == StakeTxs(rules, st, txs[..n], height, denied)
    decreases |txs| - n
  {
    if n == |txs| {
      assert txs[..n] == txs;
    } else {
      assert txs[..n + 1][..n] == txs[..n];
      DeclinedPrefix(rules, st, txs, height, denied, n + 1);
    }
  }

  lemma StakeTxsStep(rules: Rules, st: Staking, txs: seq<Tx>, height: nat, denied: Option<nat>, i: nat, before: Staking)
    requires i < |txs| && StakeTxs(rules, st, txs[..i], height, denied) == Staked(before)
    ensures StakeTxs(rules, st, txs[..i + 1], height, denied) == StakeTx(rules, before, txs[i], height, denied == Some(i))
  {
    assert txs[..i + 1][..i] == txs[..i];
  }

  /** Refused stake transactions leave no trace in the applied outputs if and only if every burned
  public key found the output that is put back last. */
  lemma DeclinedExact(rules: Rules, v: View, registry: Registry, txs: seq<Tx>, height: nat, denied: Option<nat>)
    requires StakeTxs(rules, Staking(v, registry, []), txs, height, denied).Declined?
    ensures
      var o := StakeTxs(rules, Staking(v, registry, []), txs, height, denied);
      o.view == v <==> Owned(v, v.active, o.order)
  {
    StakeTxsMark(rules, v, registry, txs, height, denied);
    var o := StakeTxs(rules, Staking(v, registry, []), txs, height, denied);
    UnmarkExact(v, o.marks, o.order);
  }

  /** Stake validation looks burned outputs up before the block is applied. */
  predicate BurnsExist(v: View, txs: seq<Tx>) {
    forall tx :: tx in txs && tx.kind.Stake? && tx.kind.burn.Some? ==> tx.kind.burn.value in v.active
  }

  // ---- The reference transition ----

  /** What API readers see, with the recency list that later blocks depend on. */
  datatype Memory = Memory(view: View, recent: seq<Key>, activation: nat, registry: Registry, chain: ChainView)

  /** The outputs after a block, which depend on the outputs and the recency list before it only. */
  function Applied(m: Memory, height: nat, txs: seq<Tx>): Set {
    ApplyTxs(Set(m.view, map[], m.recent, m.activation, map[], {}), height, txs)
  }

  /** The whole transition, or nothing. */
  function Advance(rules: Rules, window: nat, m: Memory, b: Block): Option<Memory> {
    if !ExtendsTip(m.chain, b) || !BurnsExist(m.view, b.txs) || CheckTxs(m.view, b.txs).None? then None
    else
      var a := Applied(m, b.height, b.txs);
      var o := StakeTxs(rules, Staking(a.view, m.registry, []), b.txs, b.height, None);
      if o.Declined? then None
      else Some(Memory(o.st.view, a.recent, m.activation, o.st.registry, After(m.chain, b, window)))
  }

  /** The state of a durable chain. */
  function Fold(rules: Rules, window: nat, genesis: Memory, blocks: seq<Block>): Option<Memory> {
    if |blocks| == 0 then Some(genesis)
    else
      var before := Fold(rules, window, genesis, blocks[..|blocks| - 1]);
      if before.None? then None else Advance(rules, window, before.value, blocks[|blocks| - 1])
  }

  lemma FoldSnoc(rules: Rules, window: nat, genesis: Memory, blocks: seq<Block>, b: Block)
    requires Fold(rules, window, genesis, blocks).Some?
    ensures Fold(rules, window, genesis, blocks + [b]) == Advance(rules, window, Fold(rules, window, genesis, blocks).value, b)
  {
    assert (blocks + [b])[..|blocks + [b]| - 1] == blocks;
  }

  // ---- One step under every pattern of failures ----

  /** How the durability callback ends; a refused commit may still have reached the disk. */
  datatype Persistence = Done | Failed(written: bool)

  /** Outcomes of the steps outside the model: contract execution, a denied stake transaction,
  persistent rollback updates, durability, notification. */
  datatype Faults = Faults(avm: bool, denied: Option<nat>, disk: bool, persistence: Persistence, notified: bool)

  datatype Verdict = Committed | Refused | Stopped

  datatype Machine = Machine(utxos: Set, registry: Registry, chain: ChainView, durable: seq<Block>, halted: bool)

  datatype Stepped = Stepped(machine: Machine, verdict: Verdict)

  function Remembered(m: Machine): Memory {
    Memory(m.utxos.view, m.utxos.recent, m.utxos.activation, m.registry, m.chain)
  }

  /** The block passes every check that comes before the first change. */
  predicate Attempts(m: Machine, b: Block, f: Faults) {
    && !m.halted && b.height == m.chain.tip.height + 1 && BurnsExist(m.utxos.view, b.txs) && f.avm
    && CheckTxs(m.utxos.view, b.txs).Some?
  }

  function Outcomes(rules: Rules, m: Machine, b: Block, f: Faults): Outcome {
    StakeTxs(rules, Staking(ApplyTxs(m.utxos, b.height, b.txs).view, m.registry, []), b.txs, b.height, f.denied)
  }

  /** The block undone first, then the burns. */
  function UndoneSet(a: Set, b: Block, burned: seq<Key>, disk: bool): Set {
    var r := RollbackBlock(a, b.height, b.txs, disk);
    r.(view := UnmarkAll(r.view, burned))
  }

  /** Chain insertion and durability, after outputs and stake have been applied. */
  function Inserted(window: nat, m: Machine, b: Block, f: Faults, a: Set, st: Staking): Stepped {
    if !ExtendsTip(m.chain, b) then
      Stepped(m.(utxos := UndoneSet(a, b, st.burned, f.disk), halted := !f.disk), if f.disk then Refused else Stopped)
    else if f.persistence.Failed? then
      Stepped(m.(utxos := UndoneSet(a, b, st.burned, f.disk), durable := if f.persistence.written then m.durable + [b] else m.durable,
                 halted := true), Stopped)
    else
      Stepped(Machine(a, st.registry, After(m.chain, b, window), m.durable + [b], !f.notified), if f.notified then Committed else Stopped)
  }

  /** The canonical transition of a produced or received block. */
  function StepBlock(rules: Rules, window: nat, m: Machine, b: Block, f: Faults): Stepped {
    if !Attempts(m, b, f) then Stepped(m, Refused)
    else
      var a := ApplyTxs(m.utxos, b.height, b.txs);
      var o := Outcomes(rules, m, b, f);
      if o.Declined? then
        Stepped(m.(utxos := RollbackBlock(a.(view := o.view), b.height, b.txs, f.disk), halted := !f.disk), if f.disk then Refused else Stopped)
      else Inserted(window, m, b, f, a.(view := o.st.view), o.st)
  }

  // ---- The engine ----

  lemma {:induction false} UnmarkCons(v: View, k: Key, ks: seq<Key>)
    ensures UnmarkAll(v, [k] + ks) == UnmarkAll(UnmarkStaked(v, k), ks)
  {
    if |ks| == 0 {
      assert [k] + ks == [k] && [k][..0] == [];
      assert UnmarkAll(v, [k]) == UnmarkStaked(UnmarkAll(v, []), k);
    } else {
      UnmarkCons(v, k, ks[..|ks| - 1]);
      assert ([k] + ks)[..|[k] + ks| - 1] == [k] + ks[..|ks| - 1];
    }
  }

  class Engine {
    const chain: Chain
    const rules: Rules
    var utxos: Set
    var registry: Registry
    var durable: seq<Block>
    var halted: bool

    ghost function State(): Machine
      reads this, chain
    {
      Machine(utxos, registry, chain.View(), durable, halted)
    }

    constructor (chain: Chain, rules: Rules, utxos: Set, registry: Registry)
      requires chain.Valid()
      ensures this.chain == chain && this.rules == rules
      ensures State() == Machine(utxos, registry, chain.View(), [], false)
    {
      this.chain, this.rules, this.utxos, this.registry := chain, rules, utxos, registry;
      durable, halted := [], false;
    }

    method UnmarkKeys(ks: seq<Key>)
      modifies this`utxos
      ensures utxos == old(utxos).(view := UnmarkAll(old(utxos.view), ks))
    {
      var i := 0;
      while i < |ks|
        invariant 0 <= i <= |ks| && utxos == old(utxos).(view := UnmarkAll(old(utxos.view), ks[..i]))
      {
        assert ks[..i + 1][..i] == ks[..i];
        utxos := utxos.(view := UnmarkStaked(utxos.view, ks[i]));
        i := i + 1;
      }
      assert ks[..i] == ks;
    }

    /** One stake transaction: burn, then registry; a registry refusal takes the burn back. */
    method ApplyOneStake(tx: Tx, height: nat, denied: bool, ghost burned: seq<Key>) returns (ok: bool, burn: Option<Key>)
      modifies this`utxos, this`registry
      ensures utxos == old(utxos).(view := utxos.view)
      ensures ok ==>
        StakeTx(rules, Staking(old(utxos.view), old(registry), burned), tx, height, denied)
        == Staked(Staking(utxos.view, registry, if burn.Some? then burned + [burn.value] else burned))
      ensures !ok ==>
        var o := StakeTx(rules, Staking(old(utxos.view), old(registry), burned), tx, height, denied);
        o.Declined? && UnmarkAll(utxos.view, burned) == o.view && registry == old(registry)
    {
      if !tx.kind.Stake? {
        return true, None;
      }
      burn := tx.kind.burn;
      if burn.Some? {
        var marked := MarkStaked(utxos.view, burn.value);
        if marked.None? {
          return false, None;
        }
        utxos := utxos.(view := marked.value);
      }
      var applied := if denied then None else rules(registry, tx, height);
      if applied.None? {
        if burn.Some? {
          UnmarkCons(utxos.view, burn.value, burned);
          utxos := utxos.(view := UnmarkStaked(utxos.view, burn.value));
        }
        return false, None;
      }
      registry := applied.value;
      ok := true;
    }

    /** All stake transactions of a block, or every burn of this block undone. */
    method ApplyStakeTxs(b: Block, denied: Option<nat>) returns (ok: bool, burned: seq<Key>)
      modifies this`utxos, this`registry
      ensures utxos == old(utxos).(view := utxos.view)
      ensures
        var o := StakeTxs(rules, Staking(old(utxos.view), old(registry), []), b.txs, b.height, denied);
        if ok then o == Staked(Staking(utxos.view, registry, burned))
        else o.Declined? && utxos.view == o.view && registry == old(registry)
    {
      var snapshot := registry;
      ghost var start := Staking(utxos.view, registry, []);
      burned := [];
      var i := 0;
      while i < |b.txs|
        invariant 0 <= i <= |b.txs|
        invariant utxos == old(utxos).(view := utxos.view)
        invariant StakeTxs(rules, start, b.txs[..i], b.height, denied) == Staked(Staking(utxos.view, registry, burned))
      {
        StakeTxsStep(rules, start, b.txs, b.height, denied, i, Staking(utxos.view, registry, burned));
        var applied, burn := ApplyOneStake(b.txs[i], b.height, denied == Some(i), burned);
        if !applied {
          DeclinedPrefix(rules, start, b.txs, b.height, denied, i + 1);
          registry := snapshot;
          UnmarkKeys(burned);
          return false, [];
        }
        burned := if burn.Some? then burned + [burn.value] else burned;
        i := i + 1;
      }
      assert b.txs[..i] == b.txs;
      ok := true;
    }

    /** Chain insertion and durability; a failure undoes the block, then the burns. */
    method Insert(b: Block, f: Faults, burned: seq<Key>, snapshot: Registry) returns (r: Verdict)
      requires chain.Valid() && !halted
      modifies this`utxos, this`registry, this`durable, this`halted, chain
      ensures chain.Valid()
      ensures
        Stepped(State(), r) == Inserted(chain.window, Machine(old(utxos), snapshot, old(chain.View()), old(durable), false), b, f, old(utxos),
                                        Staking(old(utxos.view), old(registry), burned))
    {
      var added := chain.AddBlock(b);
      if !added {
        Undo(b, burned, snapshot, f.disk);
        halted := !f.disk;
        return if halted then Stopped else Refused;
      }
      if f.persistence.Failed? {
        if f.persistence.written {
          durable := durable + [b];
        }
        var _ := chain.RollbackLastBlock(b);
        Undo(b, burned, snapshot, f.disk);
        halted := true;
        return Stopped;
      }
      durable := durable + [b];
      if !f.notified {
        halted := true;
        return Stopped;
      }
      r := Committed;
    }

    /** The canonical transition of a produced or received block. */
    method Accept(b: Block, f: Faults) returns (r: Verdict)
      requires chain.Valid()
      modifies this, chain
      ensures chain.Valid() && Stepped(State(), r) == StepBlock(rules, chain.window, old(State()), b, f)
    {
      if halted || b.height != chain.tip.height + 1 || !BurnsExist(utxos.view, b.txs) || !f.avm {
        return Refused;
      }
      if CheckTxs(utxos.view, b.txs).None? {
        return Refused;
      }
      var snapshot := registry;
      utxos := ApplyTxs(utxos, b.height, b.txs);
      var staked, burned := ApplyStakeTxs(b, f.denied);
      if !staked {
        utxos := RollbackBlock(utxos, b.height, b.txs, f.disk);
        halted := !f.disk;
        return if halted then Stopped else Refused;
      }
      r := Insert(b, f, burned, snapshot);
    }

    /** The engine's rollback: outputs first, then registry and burns. */
    method Undo(b: Block, burned: seq<Key>, snapshot: Registry, disk: bool)
      modifies this`utxos, this`registry
      ensures utxos == UndoneSet(old(utxos), b, burned, disk) && registry == snapshot
    {
      utxos := RollbackBlock(utxos, b.height, b.txs, disk);
      registry := snapshot;
      UnmarkKeys(burned);
    }
  }
}
