/** Runs of the canonical transition: exactly when an undone block leaves memory unchanged, and
what memory is, relative to the durable chain, after every run. */
module CanonicalRun {
  import opened BlockUndo
  import opened Canonical
  import opened Divergence
  import opened Options
  import opened Recency
  import opened Reversal
  import opened StakeBurns
  import opened Utxos

  // ---- An undone block ----

  /** The step applies the block and then takes it back. */
  predicate Undoes(rules: Rules, m: Machine, b: Block, f: Faults) {
    Attempts(m, b, f) && (Outcomes(rules, m, b, f).Declined? || !ExtendsTip(m.chain, b) || f.persistence.Failed?)
  }

  /** The exact condition for the way back that the step takes. */
  ghost predicate Reversible(rules: Rules, m: Machine, b: Block, f: Faults) {
    var o := Outcomes(rules, m, b, f);
    if o.Declined? then EarlyBack(m.utxos, b.height, b.txs, o.order) else LateBack(m.utxos, b.height, b.txs, o.st.burned)
  }

  /** Whether the persistent index could be updated does not touch memory. */
  lemma DiskIrrelevant(s: Set, height: nat, txs: seq<Tx>, disk: bool)
    ensures RollbackBlock(s, height, txs, disk) == RollbackBlock(s, height, txs, true).(spent := RollbackBlock(s, height, txs, disk).spent)
  {
  }

  lemma UndoneView(rules: Rules, window: nat, m: Machine, b: Block, f: Faults)
    requires Undoes(rules, m, b, f)
    ensures
      var o, t := Outcomes(rules, m, b, f), StepBlock(rules, window, m, b, f).machine;
      && Marks(ApplyTxs(m.utxos, b.height, b.txs).view, o)
      && t.registry == m.registry && t.chain == m.chain
      && t.utxos.view == if o.Declined? then UndoneEarly(m.utxos, b.height, b.txs, o.marks, o.order) else UndoneLate(m.utxos, b.height, b.txs, o.st.burned)
  {
    var o, a := Outcomes(rules, m, b, f), ApplyTxs(m.utxos, b.height, b.txs);
    StakeTxsMark(rules, a.view, m.registry, b.txs, b.height, f.denied);
    DiskIrrelevant(a.(view := if o.Declined? then o.view else o.st.view), b.height, b.txs, f.disk);
  }

  /** A block that is taken back, for whatever reason and by either way, leaves outputs, registry
  and chain as they were if and only if it is reversible. */
  lemma UndoneExactly(rules: Rules, window: nat, m: Machine, b: Block, f: Faults)
    requires Undoes(rules, m, b, f) && Sound(m.utxos, b.height) && NoneRecreated(m.utxos, b.txs)
    ensures
      var t := StepBlock(rules, window, m, b, f).machine;
      t.utxos.view == m.utxos.view && t.registry == m.registry && t.chain == m.chain <==> Reversible(rules, m, b, f)
  {
    var o := Outcomes(rules, m, b, f);
    UndoneView(rules, window, m, b, f);
    if o.Declined? {
      EarlyExact(m.utxos, b.height, b.txs, o.marks, o.order);
    } else {
      LateExact(m.utxos, b.height, b.txs, o.st.burned);
    }
  }

  /** Applying the block leaves the recency list as it was. */
  predicate Unshifted(s: Set, height: nat, txs: seq<Tx>) {
    Newest(Listed(s, height, Tracked(txs))) == s.recent
  }

  lemma NewestMoves(list: seq<Key>, keys: seq<Key>)
    requires |list| <= RECENT_LIMIT && |keys| > 0 && (|list| < RECENT_LIMIT || keys[|keys| - 1] !in list)
    ensures Newest(list + keys) != list
  {
    if |list| == RECENT_LIMIT {
      var all := list + keys;
      assert Newest(all)[RECENT_LIMIT - 1] == all[|all| - 1] == keys[|keys| - 1];
      assert list[RECENT_LIMIT - 1] in list;
    }
  }

  /** A list with room, or without keys of the block, is left as it was if and only if nothing is
  tracked. */
  lemma UnshiftedExactly(s: Set, height: nat, txs: seq<Tx>)
    requires |s.recent| <= RECENT_LIMIT && (|s.recent| < RECENT_LIMIT || forall k :: k in Tracked(txs) ==> k !in s.recent)
    ensures Unshifted(s, height, txs) <==> !Tracks(s, height) || Tracked(txs) == []
  {
    var keys := Tracked(txs);
    if Tracks(s, height) && |keys| > 0 {
      assert keys[|keys| - 1] in keys;
      NewestMoves(s.recent, keys);
    } else {
      assert s.recent + [] == s.recent;
    }
  }

  /** A block that is taken back leaves all of memory as it was if and only if it is reversible and
  does not move the recency list. */
  lemma UndoneRemembers(rules: Rules, window: nat, m: Machine, b: Block, f: Faults)
    requires Undoes(rules, m, b, f) && Sound(m.utxos, b.height) && NoneRecreated(m.utxos, b.txs)
    ensures Remembered(StepBlock(rules, window, m, b, f).machine) == Remembered(m) <==>
            Reversible(rules, m, b, f) && Unshifted(m.utxos, b.height, b.txs)
  {
    UndoneExactly(rules, window, m, b, f);
    if Reversible(rules, m, b, f) {
      UndoneList(rules, window, m, b, f);
    }
  }

  lemma UndoneList(rules: Rules, window: nat, m: Machine, b: Block, f: Faults)
    requires Undoes(rules, m, b, f) && Sound(m.utxos, b.height) && Reversible(rules, m, b, f)
    ensures
      var t := StepBlock(rules, window, m, b, f).machine;
      t.utxos.recent == Newest(Listed(m.utxos, b.height, Tracked(b.txs))) && t.utxos.activation == m.utxos.activation
  {
    var o, a := Outcomes(rules, m, b, f), ApplyTxs(m.utxos, b.height, b.txs);
    var v := if o.Declined? then o.view else o.st.view;
    DiskIrrelevant(a.(view := v), b.height, b.txs, f.disk);
    RolledRest(m.utxos, b.height, b.txs, v);
  }

  /** Besides the view, an undone block can change the recency list, which never shrinks. */
  lemma UndoneRest(rules: Rules, window: nat, m: Machine, b: Block, f: Faults)
    requires Undoes(rules, m, b, f) && Sound(m.utxos, b.height) && NewIds(m.utxos, b.txs) && Reversible(rules, m, b, f)
    ensures
      var t := StepBlock(rules, window, m, b, f).machine;
      && |m.utxos.recent| <= |t.utxos.recent| && t.utxos.activation == m.utxos.activation
      && (f.disk ==> Sound(t.utxos, b.height) && t.utxos.spent == m.utxos.spent)
  {
    var o, t, a := Outcomes(rules, m, b, f), StepBlock(rules, window, m, b, f).machine, ApplyTxs(m.utxos, b.height, b.txs);
    var v := if o.Declined? then o.view else o.st.view;
    NewKeys(m.utxos, b.txs);
    UndoneExactly(rules, window, m, b, f);
    DiskIrrelevant(a.(view := v), b.height, b.txs, f.disk);
    RolledRest(m.utxos, b.height, b.txs, v);
    RolledSound(m.utxos, b.height, b.txs, v);
    var r := RolledBack(m.utxos, b.height, b.txs, v);
    assert f.disk ==> t.utxos == r.(view := m.utxos.view);
  }

  // ---- Ordinary blocks ----

  /** The outputs that a block's stake transactions name. */
  function BurnKeys(txs: seq<Tx>): set<Key> {
    set tx | tx in txs && tx.kind.Stake? && tx.kind.burn.Some? :: tx.kind.burn.value
  }

  function Touched(o: Outcome): seq<Key> {
    if o.Staked? then o.st.burned else o.order
  }

  lemma {:induction false} StakeTxsBurn(rules: Rules, st: Staking, txs: seq<Tx>, height: nat, denied: Option<nat>)
    requires st.burned == []
    ensures forall k :: k in Touched(StakeTxs(rules, st, txs, height, denied)) ==> k in BurnKeys(txs)
  {
    if |txs| > 0 {
      var init, tx := txs[..|txs| - 1], txs[|txs| - 1];
      StakeTxsBurn(rules, st, init, height, denied);
      assert tx in txs && forall t :: t in init ==> t in txs;
      assert BurnKeys(init) <= BurnKeys(txs);
      assert tx.kind.Stake? && tx.kind.burn.Some? ==> tx.kind.burn.value in BurnKeys(txs);
    }
  }

  /** New hashes and public keys, room on the recency list, a silent fallback, and burns of outputs
  that their public keys find. */
  ghost predicate Ordinary(s: Set, b: Block) {
    && NewIds(s, b.txs) && Plain(b.txs) && Pubs(b.txs) !! s.view.byPub.Keys
    && |s.recent| + |Tracked(b.txs)| <= RECENT_LIMIT && Silent(s, b.height, b.txs)
    && forall k :: k in BurnKeys(b.txs) && k in s.view.active ==> At(s.view.byPub, s.view.active[k].pub) == Some(s.view.active[k])
  }

  lemma BurnFinds(s: Set, height: nat, txs: seq<Tx>, ks: seq<Key>, p: nat)
    requires Sound(s, height) && Keys(txs) !! s.view.active.Keys
    requires forall k :: k in ks ==> k in s.view.active && At(s.view.byPub, s.view.active[k].pub) == Some(s.view.active[k])
    requires LastBurn(ApplyTxs(s, height, txs).view.active, ks, p).Some?
    ensures
      var a := ApplyTxs(s, height, txs).view.active;
      At(s.view.byPub, p) == Some(a[LastBurn(a, ks, p).value])
  {
    ApplyExplained(s, height, txs);
    var k := LastBurn(ApplyTxs(s, height, txs).view.active, ks, p).value;
    assert k in ks && k !in Keys(txs);
  }

  lemma OrdinaryKeys(s: Set, b: Block)
    requires Ordinary(s, b) && CheckTxs(s.view, b.txs).Some?
    ensures Keys(b.txs) !! s.view.active.Keys && Images(b.txs) !! s.view.images && Evicted(s, b.height, b.txs) == []
    ensures NothingLost(s.view, Evicted(s, b.height, b.txs), Spends(s, b.height, b.txs), CreatedIn(b.txs))
  {
    NewKeys(s, b.txs);
    CheckedFresh(s.view, b.txs);
  }

  /** Ordinary blocks are reversible, whichever step takes them back. */
  lemma OrdinaryIsReversible(rules: Rules, m: Machine, b: Block, f: Faults)
    requires Attempts(m, b, f) && Sound(m.utxos, b.height) && Ordinary(m.utxos, b)
    ensures Reversible(rules, m, b, f)
  {
    var s, o := m.utxos, Outcomes(rules, m, b, f);
    var a, ks := ApplyTxs(s, b.height, b.txs).view, Touched(o);
    OrdinaryKeys(s, b);
    StakeTxsBurn(rules, Staking(a, m.registry, []), b.txs, b.height, f.denied);
    forall k | k in ks ensures k in s.view.active && At(s.view.byPub, s.view.active[k].pub) == Some(s.view.active[k]) {
      var tx :| tx in b.txs && tx.kind.Stake? && tx.kind.burn == Some(k);
    }
    forall p | LastBurn(a.active, ks, p).Some? ensures At(s.view.byPub, p) == Some(a.active[LastBurn(a.active, ks, p).value]) {
      BurnFinds(s, b.height, b.txs, ks, p);
    }
  }

  // ---- A kept block ----

  lemma BurnedSound(s: Set, height: nat, ks: seq<Key>)
    requires Sound(s, height)
    ensures Sound(s.(view := Burned(s.view, ks)), height)
  {
    var v := Burned(s.view, ks);
    assert Tied(v, {}) by {
      forall p | p in v.byPub ensures v.byPub[p].key in v.active && v.active[v.byPub[p].key] == v.byPub[p] {
        assert p in s.view.byPub && p !in PubSet(s.view, ks);
      }
    }
  }

  lemma CommittedSound(rules: Rules, window: nat, m: Machine, b: Block, f: Faults)
    requires Attempts(m, b, f) && !Undoes(rules, m, b, f) && Sound(m.utxos, b.height) && NewIds(m.utxos, b.txs)
    ensures
      var t := StepBlock(rules, window, m, b, f).machine;
      Sound(t.utxos, b.height + 1) && t.utxos.activation == m.utxos.activation
  {
    var o, a := Outcomes(rules, m, b, f), ApplyTxs(m.utxos, b.height, b.txs);
    StakeTxsMark(rules, a.view, m.registry, b.txs, b.height, f.denied);
    MarkAllBurns(a.view, o.st.burned);
    AppliedSound(m.utxos, b.height, b.txs);
    ApplyExplained(m.utxos, b.height, b.txs);
    BurnedSound(a, b.height + 1, o.st.burned);
  }

  // ---- The reference transition on another recency list ----

  /** The set that a state of a durable chain stands for. */
  function Bare(g: Memory): Set {
    Set(g.view, map[], g.recent, g.activation, map[], {})
  }

  /** The block takes the same outputs from memory and from the durable chain: the lists lose the
  same keys, or, where the rings name one output each, the same active outputs. */
  ghost predicate DropsAgree(s: Set, g: Memory, b: Block) {
    || Evicted(s, b.height, b.txs) == Evicted(Bare(g), b.height, b.txs)
    || (&& Steady(s, Bare(g), b.height, b.txs) && AllAimed(s.view, b.txs, Pubs(b.txs))
        && Found(s, Evicted(s, b.height, b.txs)) && Found(Bare(g), Evicted(Bare(g), b.height, b.txs))
        && SamePushed(s, Bare(g), b.height, b.txs))
  }

  lemma NewestLonger(p: seq<Key>, q: seq<Key>)
    requires |p| <= |q|
    ensures |Newest(p)| <= |Newest(q)|
  {
  }

  lemma BareSound(s: Set, g: Memory, height: nat)
    requires Sound(s, height) && g.view == s.view && |g.recent| <= |s.recent|
    ensures Sound(Bare(g), height)
  {
  }

  lemma AppliedAlike(s: Set, g: Memory, b: Block)
    requires Sound(s, b.height) && g.view == s.view && g.activation == s.activation && |g.recent| <= |s.recent| && DropsAgree(s, g, b)
    ensures
      var a := ApplyTxs(s, b.height, b.txs);
      a.view == Applied(g, b.height, b.txs).view && |Applied(g, b.height, b.txs).recent| <= |a.recent|
  {
    BareSound(s, g, b.height);
    ApplyExplained(s, b.height, b.txs);
    ApplyExplained(Bare(g), b.height, b.txs);
    NewestLonger(Listed(Bare(g), b.height, Tracked(b.txs)), Listed(s, b.height, Tracked(b.txs)));
    if Evicted(s, b.height, b.txs) == Evicted(Bare(g), b.height, b.txs) {
      SameDropsSameView(s, Bare(g), b.height, b.txs);
    } else {
      PushedExactly(s, Bare(g), b.height, b.txs);
    }
  }

  /** Without failures a block is committed exactly if the reference transition accepts it. */
  lemma CommitsExactly(rules: Rules, window: nat, m: Machine, b: Block)
    requires !m.halted
    ensures
      var t := StepBlock(rules, window, m, b, Faults(true, None, true, Done, true));
      var next := Advance(rules, window, Remembered(m), b);
      && (t.verdict.Committed? <==> next.Some?)
      && (next.Some? ==> Remembered(t.machine) == next.value && t.machine.durable == m.durable + [b])
  {
    var bare := Set(m.utxos.view, map[], m.utxos.recent, m.utxos.activation, map[], {});
    ApplyAlike(bare, m.utxos, b.height, b.txs);
    ApplyActivation(m.utxos, b.height, b.txs);
  }

  // ---- Runs ----

  /** Memory shows this state of a durable chain; its recency list may hold more. */
  predicate Shows(o: Option<Memory>, m: Machine) {
    && o.Some? && o.value.view == m.utxos.view && o.value.registry == m.registry && o.value.chain == m.chain
    && o.value.activation == m.utxos.activation && |o.value.recent| <= |m.utxos.recent|
  }

  /** Memory is the fold of the durable chain, or, once halted, perhaps of it without its last block. */
  predicate Mirrors(rules: Rules, window: nat, genesis: Memory, m: Machine) {
    || Shows(Fold(rules, window, genesis, m.durable), m)
    || (m.halted && |m.durable| > 0 && Shows(Fold(rules, window, genesis, m.durable[..|m.durable| - 1]), m))
  }

  /** A block that is attempted has new transaction hashes; if it is taken back it is reversible,
  and if it is kept it takes the same outputs from memory and from the durable chain. */
  ghost predicate Regular(rules: Rules, window: nat, genesis: Memory, m: Machine, b: Block, f: Faults) {
    Attempts(m, b, f) ==>
      && NewIds(m.utxos, b.txs)
      && (Undoes(rules, m, b, f) ==> Reversible(rules, m, b, f))
      && (!Undoes(rules, m, b, f) && Fold(rules, window, genesis, m.durable).Some? ==>
            DropsAgree(m.utxos, Fold(rules, window, genesis, m.durable).value, b))
  }

  lemma KeptMirrors(rules: Rules, window: nat, genesis: Memory, m: Machine, b: Block, f: Faults)
    requires Mirrors(rules, window, genesis, m) && Regular(rules, window, genesis, m, b, f)
    requires Attempts(m, b, f) && !Undoes(rules, m, b, f) && Sound(m.utxos, b.height)
    ensures
      var t := StepBlock(rules, window, m, b, f).machine;
      Shows(Fold(rules, window, genesis, t.durable), t)
  {
    var g := Fold(rules, window, genesis, m.durable).value;
    FoldSnoc(rules, window, genesis, m.durable, b);
    AppliedAlike(m.utxos, g, b);
    ApplyActivation(m.utxos, b.height, b.txs);
    DenialIrrelevant(rules, Staking(ApplyTxs(m.utxos, b.height, b.txs).view, m.registry, []), b.txs, b.height, f.denied);
  }

  lemma StepMirrors(rules: Rules, window: nat, genesis: Memory, m: Machine, b: Block, f: Faults)
    requires Mirrors(rules, window, genesis, m) && Regular(rules, window, genesis, m, b, f)
    requires !m.halted ==> Sound(m.utxos, m.chain.tip.height + 1)
    ensures
      var t := StepBlock(rules, window, m, b, f).machine;
      Mirrors(rules, window, genesis, t) && (!t.halted ==> Sound(t.utxos, t.chain.tip.height + 1))
  {
    var t := StepBlock(rules, window, m, b, f).machine;
    if Undoes(rules, m, b, f) {
      NewKeys(m.utxos, b.txs);
      UndoneExactly(rules, window, m, b, f);
      UndoneRest(rules, window, m, b, f);
      assert Shows(Fold(rules, window, genesis, m.durable), t);
      assert t.durable == m.durable || t.durable[..|t.durable| - 1] == m.durable;
    } else if Attempts(m, b, f) {
      KeptMirrors(rules, window, genesis, m, b, f);
      CommittedSound(rules, window, m, b, f);
    }
  }

  ghost predicate Run(rules: Rules, window: nat, genesis: Memory, states: seq<Machine>, blocks: seq<Block>, faults: seq<Faults>) {
    && |states| == |blocks| + 1 == |faults| + 1
    && Remembered(states[0]) == genesis && states[0].durable == [] && !states[0].halted
    && Sound(states[0].utxos, genesis.chain.tip.height + 1)
    && forall i :: 0 <= i < |blocks| ==>
         && states[i + 1] == StepBlock(rules, window, states[i], blocks[i], faults[i]).machine
         && Regular(rules, window, genesis, states[i], blocks[i], faults[i])
  }

  /** In every run, whatever fails, memory is the fold of the durable chain while the engine is
  not halted; a halted engine is at most one block behind its disk and never moves again. */
  lemma {:induction false} MemoryIsFoldOfDisk(rules: Rules, window: nat, genesis: Memory, states: seq<Machine>,
                                              blocks: seq<Block>, faults: seq<Faults>, i: nat)
    requires Run(rules, window, genesis, states, blocks, faults) && i < |states|
    ensures Mirrors(rules, window, genesis, states[i])
    ensures !states[i].halted ==> Sound(states[i].utxos, states[i].chain.tip.height + 1)
    ensures forall j :: i <= j < |states| && states[i].halted ==> states[j] == states[i]
  {
    if i == 0 {
      assert Fold(rules, window, genesis, []) == Some(genesis);
    } else {
      MemoryIsFoldOfDisk(rules, window, genesis, states, blocks, faults, i - 1);
      StepMirrors(rules, window, genesis, states[i - 1], blocks[i - 1], faults[i - 1]);
    }
    HaltedStays(rules, window, genesis, states, blocks, faults, i, |states| - 1);
  }

  lemma {:induction false} HaltedStays(rules: Rules, window: nat, genesis: Memory, states: seq<Machine>,
                                       blocks: seq<Block>, faults: seq<Faults>, i: nat, n: nat)
    requires Run(rules, window, genesis, states, blocks, faults) && i <= n < |states|
    ensures forall j :: i <= j <= n && states[i].halted ==> states[j] == states[i]
  {
    if i < n {
      HaltedStays(rules, window, genesis, states, blocks, faults, i, n - 1);
      assert states[n] == StepBlock(rules, window, states[n - 1], blocks[n - 1], faults[n - 1]).machine;
    }
  }

  // ---- Outside the condition ----

  /** A block with a wrong parent is refused only after it has been applied; if it repeats an
  indexed public key, the engine goes on without that entry. */
  lemma WrongParentLeaks(rules: Rules, window: nat)
    ensures
      var u, root := Utxo(Key(0, 0), 7, 1, false), Block(0, Root, []);
      var m := Machine(OneOutput(u, [], 0), map[], ChainView(root, map[0 := root]), [], false);
      var b := Block(1, Root, [Tx(1, Coinbase, [], [Output(7, 2)])]);
      var t := StepBlock(rules, window, m, b, Faults(true, None, true, Done, true));
      t.verdict.Refused? && !t.machine.halted && 7 in m.utxos.view.byPub && 7 !in t.machine.utxos.view.byPub
  {
    var u, root := Utxo(Key(0, 0), 7, 1, false), Block(0, Root, []);
    var m := Machine(OneOutput(u, [], 0), map[], ChainView(root, map[0 := root]), [], false);
    var tx := Tx(1, Coinbase, [], [Output(7, 2)]);
    var b, f := Block(1, Root, [tx]), Faults(true, None, true, Done, true);
    ReusedPubInput();
    assert CheckTxs(m.utxos.view, [tx]) == CheckTx(m.utxos.view, tx, CheckTxs(m.utxos.view, []).value);
    assert Attempts(m, b, f);
    var a := ApplyTxs(m.utxos, 1, [tx]);
    var st := Staking(a.view, map[], []);
    assert StakeTxs(rules, st, [tx], 1, None) == StakeTx(rules, StakeTxs(rules, st, [], 1, None).st, tx, 1, false);
    assert a.(view := a.view) == a;
    assert UndoneSet(a, b, [], true).view == RollbackBlock(a, 1, [tx], true).view;
  }

  // ---- A refused block that moves the recency list ----

  const ROOT: Block := Block(0, Root, [])
  const STRAY: Block := Block(1, Root, [Minted(1, 8)])
  const GOOD: Block := Block(1, Of(ROOT), [Minted(2, 9)])

  function Minted(id: nat, pub: nat): Tx {
    Tx(id, Coinbase, [], [Output(pub, 0)])
  }

  function FullList(): seq<Key> {
    seq(RECENT_LIMIT, (i: nat) => Key(0, i))
  }

  /** A full list whose oldest output is gone and whose second one is active. */
  function Full(recent: seq<Key>): Set {
    OneOutput(Utxo(Key(0, 1), 7, 1, false), recent, 1)
  }

  function FullMachine(recent: seq<Key>): Machine {
    Machine(Full(recent), map[], ChainView(ROOT, map[0 := ROOT]), [], false)
  }

  lemma MintedApplied(s: Set, id: nat, pub: nat)
    ensures ApplyTxs(s, 1, [Minted(id, pub)]) == AddOutput(s, 1, Utxo(Key(id, 0), pub, 0, false))
    ensures CheckTxs(s.view, [Minted(id, pub)]).Some?
  {
    var tx := Minted(id, pub);
    assert ApplyTxs(s, 1, [tx]) == ApplyTx(ApplyTxs(s, 1, []), 1, tx);
    assert AddOutputs(s, 1, tx, 1) == AddOutput(AddOutputs(s, 1, tx, 0), 1, UtxoOf(tx, 0));
    assert CheckTxs(s.view, [tx]) == CheckTx(s.view, tx, CheckTxs(s.view, []).value);
  }

  lemma MintedStakes(rules: Rules, v: View, id: nat, pub: nat)
    ensures StakeTxs(rules, Staking(v, map[], []), [Minted(id, pub)], 1, None) == Staked(Staking(v, map[], []))
  {
    var st, tx := Staking(v, map[], []), Minted(id, pub);
    assert StakeTxs(rules, st, [tx], 1, None) == StakeTx(rules, StakeTxs(rules, st, [], 1, None).st, tx, 1, false);
  }

  /** One output on a full list: the oldest key goes, and its output if it is still active. */
  lemma MintedOnFull(recent: seq<Key>, id: nat, pub: nat)
    requires |recent| == RECENT_LIMIT && id > 0 && pub != 7
    ensures
      var u, a := Utxo(Key(id, 0), pub, 0, false), ApplyTxs(Full(recent), 1, [Minted(id, pub)]);
      && a.recent == recent[1..] + [u.key] && a.journal == map[] && a.decoys == map[]
      && a.view == Drop(Placed(Full(recent).view, u), recent[0])
  {
    MintedApplied(Full(recent), id, pub);
    var u := Utxo(Key(id, 0), pub, 0, false);
    assert (recent + [u.key])[1..] == recent[1..] + [u.key];
  }

  lemma StrayUndone(rules: Rules, window: nat)
    ensures
      var t := StepBlock(rules, window, FullMachine(FullList()), STRAY, Faults(true, None, true, Done, true));
      t.verdict.Refused? && t.machine == FullMachine(FullList()[1..] + [Key(1, 0)])
  {
    var s, f := Full(FullList()), Faults(true, None, true, Done, true);
    var tx, a := Minted(1, 8), ApplyTxs(Full(FullList()), 1, [Minted(1, 8)]);
    MintedApplied(s, 1, 8);
    MintedOnFull(FullList(), 1, 8);
    MintedStakes(rules, a.view, 1, 8);
    assert Attempts(FullMachine(FullList()), STRAY, f);
    assert FullList()[0] == Key(0, 0);
    assert a.view == Placed(s.view, Utxo(Key(1, 0), 8, 0, false));
    StrayRolled(a);
  }

  lemma StrayRolled(a: Set)
    requires a == Full(FullList()[1..] + [Key(1, 0)]).(view := Placed(Full([]).view, Utxo(Key(1, 0), 8, 0, false)))
    ensures RollbackBlock(a, 1, [Minted(1, 8)], true) == Full(FullList()[1..] + [Key(1, 0)])
  {
    var tx := Minted(1, 8);
    assert Entries(a, 1) == [] && EntryMembers([]) == {} && RestoreEntries(a, []) == a;
    assert TxKeys(tx) == {Key(1, 0)} && TxPubs(tx) == {8} by {
      assert tx.outputs[0].pub == 8;
    }
    assert UndoTxs(a, {}, [tx]) == UndoTx(UndoTxs(a, {}, []), {}, tx);
    var v := Full([]).view;
    assert Placed(v, Utxo(Key(1, 0), 8, 0, false)).active - {Key(1, 0)} == v.active;
    assert Placed(v, Utxo(Key(1, 0), 8, 0, false)).byPub - {8} == v.byPub;
    assert a.journal - {1} == a.journal;
  }

  /** The good block on a full list. */
  lemma GoodKept(rules: Rules, window: nat, recent: seq<Key>)
    requires |recent| == RECENT_LIMIT
    ensures
      var m, v := FullMachine(recent), Drop(Placed(Full(recent).view, Utxo(Key(2, 0), 9, 0, false)), recent[0]);
      var t := StepBlock(rules, window, m, GOOD, Faults(true, None, true, Done, true));
      && t.verdict.Committed? && !t.machine.halted && t.machine.durable == [GOOD] && t.machine.utxos.view == v
      && Advance(rules, window, Remembered(m), GOOD).Some? && Advance(rules, window, Remembered(m), GOOD).value.view == v
  {
    var m, a := FullMachine(recent), ApplyTxs(Full(recent), 1, GOOD.txs);
    MintedApplied(Full(recent), 2, 9);
    MintedOnFull(recent, 2, 9);
    MintedStakes(rules, a.view, 2, 9);
    assert Attempts(m, GOOD, Faults(true, None, true, Done, true));
    assert [] + [GOOD] == [GOOD];
    assert Applied(Remembered(m), 1, GOOD.txs) == a;
  }

  /** A block refused for its parent leaves the view as it was and the full recency list shifted.
  The next block is committed, nothing has failed, and memory has lost an output that the state of
  the durable chain still holds. */
  lemma ShiftedListDiverges(rules: Rules, window: nat)
    ensures
      var m, f := FullMachine(FullList()), Faults(true, None, true, Done, true);
      var first := StepBlock(rules, window, m, STRAY, f);
      var second := StepBlock(rules, window, first.machine, GOOD, f);
      var fold := Fold(rules, window, Remembered(m), second.machine.durable);
      && Sound(m.utxos, 1) && first.verdict.Refused? && first.machine.utxos.view == m.utxos.view
      && second.verdict.Committed? && !second.machine.halted && second.machine.durable == [GOOD]
      && fold.Some? && Key(0, 1) in fold.value.view.active && Key(0, 1) !in second.machine.utxos.view.active
  {
    var shifted := FullList()[1..] + [Key(1, 0)];
    StrayUndone(rules, window);
    assert FullList()[0] == Key(0, 0) && FullList()[1] == Key(0, 1) && shifted[0] == Key(0, 1);
    GoodKept(rules, window, shifted);
    GoodKept(rules, window, FullList());
    FoldSnoc(rules, window, Remembered(FullMachine(FullList())), [], GOOD);
    assert [] + [GOOD] == [GOOD];
  }
}
