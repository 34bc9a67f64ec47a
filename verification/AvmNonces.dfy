/** Replay protection: over any chain each signer's executed nonces are 0, 1, 2, ... as long
as contract namespaces keep away from the nonce keys. */
module AvmNonces {
  import opened Bytes
  import opened AvmState
  import opened AvmCodec
  import opened AvmExecutor
  import opened Options

  /** A contract whose keys cannot be nonce keys. */
  predicate Separate(contract: ByteString) {
    |contract| == 32 && contract[..7] != NONCE_PREFIX
  }

  predicate AllSeparate(txs: seq<Tx>) {
    forall i :: 0 <= i < |txs| && txs[i].Contract? ==> Separate(txs[i].payload.contract)
  }

  /** Exactly when some key of a contract is a metadata key: the contract's identity spells the
  prefix and the first bytes of the name, and the separator falls on the name's next byte. */
  lemma PrefixClash(prefix: ByteString, contract: ByteString, name: ByteString)
    requires |prefix| == 7 && |contract| == 32 && |name| == 32
    ensures (exists key :: StateKey(contract, key) == prefix + name) <==>
            contract[..7] == prefix && contract[7..] == name[..25] && name[25] == 0x2f
  {
    if key :| StateKey(contract, key) == prefix + name {
      var s, n := StateKey(contract, key), prefix + name;
      assert s[..7] == contract[..7] && n[..7] == prefix;
      assert s[7..32] == contract[7..] && n[7..32] == name[..25];
      assert s[32] == 0x2f && n[32] == name[25];
    }
    if contract[..7] == prefix && contract[7..] == name[..25] && name[25] == 0x2f {
      assert contract == contract[..7] + contract[7..];
      assert name == name[..25] + [name[25]] + name[26..];
      assert StateKey(contract, name[26..]) == prefix + name;
    }
  }

  /** Exactly when some key of a contract is the nonce key of a signer. */
  lemma NamespaceClash(contract: ByteString, signer: ByteString)
    requires |contract| == 32 && |signer| == 32
    ensures (exists key :: StateKey(contract, key) == NonceKey(signer)) <==>
            contract[..7] == NONCE_PREFIX && contract[7..] == signer[..25] && signer[25] == 0x2f
  {
    PrefixClash(NONCE_PREFIX, contract, signer);
  }

  lemma {:induction false} ApplyMisses(m: State, ws: seq<Write>, key: ByteString)
    requires forall i :: 0 <= i < |ws| ==> ws[i].key != key
    ensures Lookup(ApplyWrites(m, ws), key) == Lookup(m, key)
  {
    if |ws| > 0 {
      ApplyMisses(m, ws[..|ws| - 1], key);
    }
  }

  /** Key prefixes keep the three kinds of metadata apart, and signers from each other. */
  lemma MetadataKeys(signer: ByteString, other: ByteString, any: ByteString)
    ensures NonceKey(signer) == NonceKey(other) <==> signer == other
    ensures NonceKey(signer) != CodeKey(any) && NonceKey(signer) != ReceiptKey(any)
  {
    assert NonceKey(signer)[7..] == signer && NonceKey(other)[7..] == other;
    assert NonceKey(signer)[5] == 0x6e && CodeKey(any)[5] == 0x63 && ReceiptKey(any)[5] == 0x72;
  }

  /** The call's own writes leave every nonce alone. */
  lemma CallKeepsNonces(m: State, contract: ByteString, puts: seq<HostWrite>, signer: ByteString)
    requires Separate(contract)
    ensures Lookup(Overlaid(m, CallWrites(contract, puts)), NonceKey(signer)) == Lookup(m, NonceKey(signer))
  {
    CallKeysNonEmpty(contract, puts);
    forall k | k in CallWrites(contract, puts) ensures k != NonceKey(signer) {
      assert k[..33][..7] == k[..7] && (contract + [0x2f])[..7] == contract[..7];
      assert NonceKey(signer)[..7] == NONCE_PREFIX;
    }
  }

  /** One executed payload moves its signer's nonce by one and nobody else's. */
  lemma PayloadNonce(vm: Machine, m: State, p: Payload, signer: ByteString)
    requires RunPayload(vm, m, p).Some? && Separate(p.contract)
    ensures LoadNonce(Overlaid(m, RunPayload(vm, m, p).value.0), signer)
            == if signer == p.signer then Some((p.nonce + 1) % UINT64) else LoadNonce(m, signer)
    ensures LoadNonce(m, p.signer) == Some(p.nonce)
  {
    var r := vm(p, CodeFor(m, p).value, m).value;
    EffectNonce(m, p, r, signer);
  }

  lemma EffectNonce(m: State, p: Payload, r: CallResult, signer: ByteString)
    requires Separate(p.contract)
    ensures LoadNonce(Overlaid(m, CallWrites(p.contract, r.puts) + AsMap(Metadata(p, r))), signer)
            == if signer == p.signer then Some((p.nonce + 1) % UINT64) else LoadNonce(m, signer)
  {
    var mid := Overlaid(m, CallWrites(p.contract, r.puts));
    var ws := Metadata(p, r);
    OverlaidTwice(m, CallWrites(p.contract, r.puts), AsMap(ws));
    AsMapApplies(mid, ws);
    CallKeepsNonces(m, p.contract, r.puts, signer);
    MetadataNonce(mid, p, r, signer);
  }

  lemma MetadataNonce(mid: State, p: Payload, r: CallResult, signer: ByteString)
    ensures
      var k := NonceKey(signer);
      Lookup(ApplyWrites(mid, Metadata(p, r)), k)
      == if signer == p.signer then Some(LittleEndian((p.nonce + 1) % UINT64, 8)) else Lookup(mid, k)
    ensures FromLittleEndian(LittleEndian((p.nonce + 1) % UINT64, 8)) == (p.nonce + 1) % UINT64
  {
    var ws := Metadata(p, r);
    MetadataKeys(p.signer, signer, p.contract);
    MetadataKeys(signer, signer, p.contract);
    MetadataKeys(signer, signer, p.txHash);
    Width8();
    LittleEndianRoundTrip((p.nonce + 1) % UINT64, 8);
    if signer == p.signer {
      assert ws == [ws[0]] + ws[1..];
      ApplyAppend(mid, [ws[0]], ws[1..]);
      ApplyMisses(ApplyWrites(mid, [ws[0]]), ws[1..], NonceKey(signer));
      assert [ws[0]][..0] == [];
    } else {
      ApplyMisses(mid, ws, NonceKey(signer));
    }
  }

  lemma Width8()
    ensures Pow256(8) == UINT64
  {
    assert Pow256(2) == 0x1_0000;
    assert Pow256(4) == 0x1_0000_0000;
    assert Pow256(6) == 0x1_0000_0000_0000;
  }

  /** The nonces a signer's executed transactions carried, in order. */
  function NoncesOf(txs: seq<Tx>, signer: ByteString): seq<nat> {
    if |txs| == 0 then []
    else
      var before, tx := NoncesOf(txs[..|txs| - 1], signer), txs[|txs| - 1];
      if tx.Contract? && tx.payload.signer == signer then before + [tx.payload.nonce] else before
  }

  function Flatten(blocks: seq<seq<Tx>>): seq<Tx> {
    if |blocks| == 0 then [] else Flatten(blocks[..|blocks| - 1]) + blocks[|blocks| - 1]
  }

  /** The state after a chain of blocks, each prepared on the state of the one before. */
  function RunChain(run: Runner, m: State, blocks: seq<seq<Tx>>): Option<State> {
    if |blocks| == 0 then Some(m)
    else
      var before := RunChain(run, m, blocks[..|blocks| - 1]);
      if before.None? then None
      else
        var r := RunTxs(run, before.value, blocks[|blocks| - 1]);
        if r.None? then None else Some(r.value.state)
  }

  lemma {:induction false} RunTxsAppend(run: Runner, m: State, p: seq<Tx>, q: seq<Tx>)
    requires RunTxs(run, m, p).Some?
    ensures
      var l, r := RunTxs(run, m, p + q), RunTxs(run, RunTxs(run, m, p).value.state, q);
      l.Some? == r.Some? && (l.Some? ==> l.value.state == r.value.state)
    decreases |q|
  {
    if |q| == 0 {
      assert p + q == p;
    } else {
      assert (p + q)[..|p + q| - 1] == p + q[..|q| - 1];
      RunTxsAppend(run, m, p, q[..|q| - 1]);
    }
  }

  lemma {:induction false} ChainIsOneRun(run: Runner, m: State, blocks: seq<seq<Tx>>)
    requires RunChain(run, m, blocks).Some?
    ensures RunTxs(run, m, Flatten(blocks)).Some? && RunTxs(run, m, Flatten(blocks)).value.state == RunChain(run, m, blocks).value
  {
    if |blocks| > 0 {
      ChainIsOneRun(run, m, blocks[..|blocks| - 1]);
      RunTxsAppend(run, m, Flatten(blocks[..|blocks| - 1]), blocks[|blocks| - 1]);
    }
  }

  /** A runner that checks and advances the signer's nonce, as `PayloadNonce` shows of ours. */
  ghost predicate Counts(run: Runner, signer: ByteString) {
    forall m: State, p: Payload :: run(m, p).Some? && Separate(p.contract) ==>
      && LoadNonce(m, p.signer) == Some(p.nonce)
      && LoadNonce(Overlaid(m, run(m, p).value.0), signer)
         == if signer == p.signer then Some((p.nonce + 1) % UINT64) else LoadNonce(m, signer)
  }

  lemma {:induction false} RunCountsNonces(run: Runner, txs: seq<Tx>, signer: ByteString)
    requires Counts(run, signer) && RunTxs(run, map[], txs).Some? && AllSeparate(txs)
    requires |NoncesOf(txs, signer)| <= UINT64
    ensures CountUp(NoncesOf(txs, signer), LoadNonce(RunTxs(run, map[], txs).value.state, signer))
  {
    if |txs| > 0 {
      var init, tx := txs[..|txs| - 1], txs[|txs| - 1];
      assert forall i :: 0 <= i < |init| ==> init[i] == txs[i];
      RunCountsNonces(run, init, signer);
      NoncesStep(run, RunTxs(run, map[], init).value, tx, signer, NoncesOf(init, signer));
    }
  }

  /** The nonces are 0, 1, 2, ... and the stored nonce is the next one. */
  predicate CountUp(nonces: seq<nat>, stored: Option<nat>) {
    (forall i :: 0 <= i < |nonces| ==> nonces[i] == i) && stored == Some(|nonces| % UINT64)
  }

  lemma NoncesStep(run: Runner, o: Outcome, tx: Tx, signer: ByteString, nonces: seq<nat>)
    requires Counts(run, signer) && StepTx(run, o, tx).Some? && (tx.Contract? ==> Separate(tx.payload.contract))
    requires CountUp(nonces, LoadNonce(o.state, signer))
    ensures
      var sent := tx.Contract? && tx.payload.signer == signer;
      (sent ==> |nonces| < UINT64) ==>
        CountUp(if sent then nonces + [tx.payload.nonce] else nonces, LoadNonce(StepTx(run, o, tx).value.state, signer))
  {
    StepCountsNonces(run, o, tx, signer);
  }

  /** One transaction moves the signer's stored nonce exactly when the signer sent it. */
  lemma StepCountsNonces(run: Runner, o: Outcome, tx: Tx, signer: ByteString)
    requires Counts(run, signer) && StepTx(run, o, tx).Some? && (tx.Contract? ==> Separate(tx.payload.contract))
    ensures
      var after := LoadNonce(StepTx(run, o, tx).value.state, signer);
      if tx.Contract? && tx.payload.signer == signer
      then LoadNonce(o.state, signer) == Some(tx.payload.nonce) && after == Some((tx.payload.nonce + 1) % UINT64)
      else after == LoadNonce(o.state, signer)
  {
    if tx.Contract? {
      assert run(o.state, tx.payload).Some?;
    }
  }

  /** Over every chain that executes, a signer's nonces run 0, 1, 2, ... with none repeated. */
  lemma NoncesNeverRepeat(vm: Machine, blocks: seq<seq<Tx>>, signer: ByteString)
    requires RunChain(RunnerOf(vm), map[], blocks).Some? && AllSeparate(Flatten(blocks))
    requires |NoncesOf(Flatten(blocks), signer)| <= UINT64
    ensures forall i :: 0 <= i < |NoncesOf(Flatten(blocks), signer)| ==> NoncesOf(Flatten(blocks), signer)[i] == i
    ensures LoadNonce(RunChain(RunnerOf(vm), map[], blocks).value, signer) == Some(|NoncesOf(Flatten(blocks), signer)| % UINT64)
  {
    ChainIsOneRun(RunnerOf(vm), map[], blocks);
    forall m: State, p: Payload | RunnerOf(vm)(m, p).Some? && Separate(p.contract)
      ensures LoadNonce(m, p.signer) == Some(p.nonce)
      ensures LoadNonce(Overlaid(m, RunnerOf(vm)(m, p).value.0), signer)
              == if signer == p.signer then Some((p.nonce + 1) % UINT64) else LoadNonce(m, signer)
    {
      PayloadNonce(vm, m, p, signer);
    }
    RunCountsNonces(RunnerOf(vm), Flatten(blocks), signer);
  }
}
