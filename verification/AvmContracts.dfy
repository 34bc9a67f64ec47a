/** What contract transactions leave behind: the exact value of every key after one payload, the code
and the receipts that a run stores, and that a contract only ever runs the code it was deployed with. */
module AvmContracts {
  import opened Bytes
  import opened AvmState
  import opened AvmCodec
  import opened AvmExecutor
  import opened AvmNonces
  import opened Options

  // ---- The host writes of one call ----

  /** The put at `i` is the last one under its key. */
  predicate LastPut(puts: seq<HostWrite>, i: int) {
    0 <= i < |puts| && forall j :: i < j < |puts| ==> puts[j].key != puts[i].key
  }

  /** A call leaves the last value of every key it wrote. */
  lemma {:induction false} CallLeaves(contract: ByteString, puts: seq<HostWrite>, i: int)
    requires LastPut(puts, i)
    ensures StateKey(contract, puts[i].key) in CallWrites(contract, puts)
    ensures CallWrites(contract, puts)[StateKey(contract, puts[i].key)] == Some(puts[i].value)
  {
    if i < |puts| - 1 {
      CallLeaves(contract, puts[..|puts| - 1], i);
      SameKey(contract, puts[i].key, puts[|puts| - 1].key);
    }
  }

  /** A call writes nothing but its puts, inside the contract's own namespace. */
  lemma {:induction false} CallOnly(contract: ByteString, puts: seq<HostWrite>, k: ByteString)
    requires forall i :: 0 <= i < |puts| ==> StateKey(contract, puts[i].key) != k
    ensures k !in CallWrites(contract, puts)
  {
    if |puts| > 0 {
      CallOnly(contract, puts[..|puts| - 1], k);
    }
  }

  lemma SameKey(contract: ByteString, a: ByteString, b: ByteString)
    ensures StateKey(contract, a) == StateKey(contract, b) <==> a == b
  {
    assert StateKey(contract, a)[|contract| + 1..] == a && StateKey(contract, b)[|contract| + 1..] == b;
  }

  function PutKeys(puts: seq<HostWrite>): set<ByteString> {
    set i | 0 <= i < |puts| :: puts[i].key
  }

  /** A call is charged one state write for every different key. */
  lemma {:induction false} CallCounts(contract: ByteString, puts: seq<HostWrite>, key: ByteString)
    ensures |CallWrites(contract, puts).Keys| == |PutKeys(puts)|
    ensures StateKey(contract, key) in CallWrites(contract, puts) <==> key in PutKeys(puts)
  {
    if |puts| > 0 {
      var init, last := puts[..|puts| - 1], puts[|puts| - 1];
      CallCounts(contract, init, key);
      CallCounts(contract, init, last.key);
      PutKeysSnoc(puts);
      SameKey(contract, key, last.key);
      var before, k := CallWrites(contract, init), StateKey(contract, last.key);
      assert before[k := Some(last.value)].Keys == before.Keys + {k};
    }
  }

  lemma PutKeysSnoc(puts: seq<HostWrite>)
    requires |puts| > 0
    ensures PutKeys(puts) == PutKeys(puts[..|puts| - 1]) + {puts[|puts| - 1].key}
  {
    forall key | key in PutKeys(puts) ensures key in PutKeys(puts[..|puts| - 1]) + {puts[|puts| - 1].key} {
      var i :| 0 <= i < |puts| && puts[i].key == key;
      assert i < |puts| - 1 ==> puts[..|puts| - 1][i].key == key;
    }
    forall key | key in PutKeys(puts[..|puts| - 1]) ensures key in PutKeys(puts) {
      var i :| 0 <= i < |puts| - 1 && puts[..|puts| - 1][i].key == key;
      assert puts[i].key == key;
    }
  }

  // ---- One payload ----

  /** The nonce that the state holds for a signer: eight bytes, or nothing before the first call. */
  predicate NonceIs(m: State, signer: ByteString, nonce: nat) {
    var k := NONCE_PREFIX + signer;
    if k in m then |m[k]| == 8 && FromLittleEndian(m[k]) == nonce else nonce == 0
  }

  /** The code that a payload runs: its own for a new contract, the stored one for an old contract. */
  predicate CodeIs(m: State, p: Payload, code: ByteString) {
    var k := CODE_PREFIX + p.contract;
    || (p.action.Deploy? && k !in m && code == p.code)
    || (p.action.Execute? && k in m && code == m[k])
  }

  /** A payload succeeds exactly when it is valid, carries the next nonce, has code, and the machine
  runs that code. */
  lemma PayloadRuns(vm: Machine, m: State, p: Payload)
    ensures RunPayload(vm, m, p).Some? <==>
      p.valid && NonceIs(m, p.signer, p.nonce) && exists code :: CodeIs(m, p, code) && vm(p, code, m).Some?
    ensures RunPayload(vm, m, p).Some? ==> CodeFor(m, p).Some? && CodeIs(m, p, CodeFor(m, p).value)
  {
    if RunPayload(vm, m, p).Some? {
      assert CodeIs(m, p, CodeFor(m, p).value);
    }
  }

  /** The value under every key after a payload: the new nonce, the code of a deployment and the
  receipt, then the call's last write of the key, and otherwise what was there. */
  ghost predicate Leaves(m: State, p: Payload, r: CallResult, receipt: Receipt, after: State) {
    && Lookup(after, NONCE_PREFIX + p.signer) == Some(LittleEndian((p.nonce + 1) % UINT64, 8))
    && (p.action.Deploy? ==> Lookup(after, CODE_PREFIX + p.contract) == Some(p.code))
    && Lookup(after, RECEIPT_PREFIX + p.txHash) == Some(EncodeReceipt(receipt))
    && (forall i :: LastPut(r.puts, i) && !Meta(p, StateKey(p.contract, r.puts[i].key)) ==>
          Lookup(after, StateKey(p.contract, r.puts[i].key)) == Some(r.puts[i].value))
    && (forall k :: !Meta(p, k) && (forall i :: 0 <= i < |r.puts| ==> StateKey(p.contract, r.puts[i].key) != k) ==>
          Lookup(after, k) == Lookup(m, k))
  }

  /** The keys that the executor itself writes for a payload. */
  predicate Meta(p: Payload, k: ByteString) {
    k == NONCE_PREFIX + p.signer || k == RECEIPT_PREFIX + p.txHash || (p.action.Deploy? && k == CODE_PREFIX + p.contract)
  }

  lemma MetaKeys(a: ByteString, b: ByteString, c: ByteString)
    ensures NONCE_PREFIX + a != CODE_PREFIX + b && NONCE_PREFIX + a != RECEIPT_PREFIX + c && CODE_PREFIX + b != RECEIPT_PREFIX + c
  {
    assert (NONCE_PREFIX + a)[5] == 0x6e && (CODE_PREFIX + b)[5] == 0x63 && (RECEIPT_PREFIX + c)[5] == 0x72;
  }

  lemma AsMapSnoc(ws: seq<Write>, w: Write)
    ensures AsMap(ws + [w]) == AsMap(ws)[w.key := w.value]
  {
    assert (ws + [w])[..|ws|] == ws;
  }

  /** A list of two writes with perhaps one between them. */
  lemma AsMapLayers(a: Write, middle: seq<Write>, c: Write)
    requires |middle| <= 1
    ensures
      var base := map[a.key := a.value];
      AsMap([a] + middle + [c]) == (if |middle| == 1 then base[middle[0].key := middle[0].value] else base)[c.key := c.value]
  {
    AsMapSnoc([], a);
    assert [] + [a] == [a];
    if |middle| == 1 {
      AsMapSnoc([a], middle[0]);
      assert middle == [middle[0]];
    } else {
      assert [a] + middle == [a];
    }
    AsMapSnoc([a] + middle, c);
  }

  /** The metadata buffer, key by key. */
  lemma MetadataMap(p: Payload, r: CallResult)
    ensures
      var base := map[NONCE_PREFIX + p.signer := Some(LittleEndian((p.nonce + 1) % UINT64, 8))];
      var coded := if p.action.Deploy? then base[CODE_PREFIX + p.contract := Some(p.code)] else base;
      AsMap(Metadata(p, r)) == coded[RECEIPT_PREFIX + p.txHash := Some(EncodeReceipt(ReceiptOf(p, r)))]
  {
    AsMapLayers(Write(NonceKey(p.signer), Some(LittleEndian((p.nonce + 1) % UINT64, 8))),
                if p.action.Deploy? then [Write(CodeKey(p.contract), Some(p.code))] else [],
                Write(ReceiptKey(p.txHash), Some(EncodeReceipt(ReceiptOf(p, r)))));
  }

  /** Two layers over a state: the upper one wins, then the lower one, then the state. */
  lemma LayerLookup(m: State, lower: WriteMap, upper: WriteMap, k: ByteString)
    ensures k in upper ==> Lookup(Overlaid(m, lower + upper), k) == upper[k]
    ensures k !in upper && k in lower ==> Lookup(Overlaid(m, lower + upper), k) == lower[k]
    ensures k !in upper && k !in lower ==> Lookup(Overlaid(m, lower + upper), k) == Lookup(m, k)
  {
  }

  lemma EffectLeaves(m: State, p: Payload, r: CallResult)
    ensures Leaves(m, p, r, ReceiptOf(p, r), Overlaid(m, CallWrites(p.contract, r.puts) + AsMap(Metadata(p, r))))
  {
    var lower, upper := CallWrites(p.contract, r.puts), AsMap(Metadata(p, r));
    MetaKeys(p.signer, p.contract, p.txHash);
    MetadataMap(p, r);
    assert forall k :: k in upper <==> Meta(p, k);
    LayerLookup(m, lower, upper, NONCE_PREFIX + p.signer);
    LayerLookup(m, lower, upper, CODE_PREFIX + p.contract);
    LayerLookup(m, lower, upper, RECEIPT_PREFIX + p.txHash);
    forall i | LastPut(r.puts, i) && !Meta(p, StateKey(p.contract, r.puts[i].key))
      ensures Lookup(Overlaid(m, lower + upper), StateKey(p.contract, r.puts[i].key)) == Some(r.puts[i].value)
    {
      CallLeaves(p.contract, r.puts, i);
      LayerLookup(m, lower, upper, StateKey(p.contract, r.puts[i].key));
    }
    forall k | !Meta(p, k) && forall i :: 0 <= i < |r.puts| ==> StateKey(p.contract, r.puts[i].key) != k
      ensures Lookup(Overlaid(m, lower + upper), k) == Lookup(m, k)
    {
      CallOnly(p.contract, r.puts, k);
      LayerLookup(m, lower, upper, k);
    }
  }

  /** What a successful payload does to the whole state, and what its receipt says. */
  lemma PayloadLeaves(vm: Machine, m: State, p: Payload)
    requires RunPayload(vm, m, p).Some?
    ensures
      var r, done := vm(p, CodeFor(m, p).value, m).value, RunPayload(vm, m, p).value;
      && Leaves(m, p, r, done.1, Overlaid(m, done.0))
      && done.1 == Receipt(p.txHash, p.contract, r.gasUsed, |PutKeys(r.puts)|, r.returnData)
  {
    var r := vm(p, CodeFor(m, p).value, m).value;
    EffectLeaves(m, p, r);
    CallCounts(p.contract, r.puts, []);
    assert |CallWrites(p.contract, r.puts)| == |CallWrites(p.contract, r.puts).Keys|;
  }

  // ---- Code ----

  /** A contract whose keys cannot be code keys. */
  predicate Inside(contract: ByteString) {
    |contract| == 32 && contract[..7] != CODE_PREFIX
  }

  predicate AllInside(txs: seq<Tx>) {
    forall i :: 0 <= i < |txs| && txs[i].Contract? ==> Inside(txs[i].payload.contract)
  }

  /** Exactly when some key of a contract is the code key of another. */
  lemma CodeClash(contract: ByteString, other: ByteString)
    requires |contract| == 32 && |other| == 32
    ensures (exists key :: StateKey(contract, key) == CODE_PREFIX + other) <==>
            contract[..7] == CODE_PREFIX && contract[7..] == other[..25] && other[25] == 0x2f
  {
    PrefixClash(CODE_PREFIX, contract, other);
  }

  lemma OutsideCode(contract: ByteString, key: ByteString, other: ByteString)
    requires Inside(contract)
    ensures StateKey(contract, key) != CODE_PREFIX + other
  {
    assert StateKey(contract, key)[..7] == contract[..7] && (CODE_PREFIX + other)[..7] == CODE_PREFIX;
  }

  lemma SameCodeKey(a: ByteString, b: ByteString)
    ensures CODE_PREFIX + a == CODE_PREFIX + b <==> a == b
  {
    assert (CODE_PREFIX + a)[7..] == a && (CODE_PREFIX + b)[7..] == b;
  }

  lemma CodeAfter(m: State, p: Payload, r: CallResult, receipt: Receipt, after: State, contract: ByteString)
    requires Leaves(m, p, r, receipt, after) && Inside(p.contract)
    ensures
      var k := CODE_PREFIX + contract;
      Lookup(after, k) == if p.action.Deploy? && p.contract == contract then Some(p.code) else Lookup(m, k)
  {
    MetaKeys(p.signer, contract, p.txHash);
    SameCodeKey(p.contract, contract);
    forall i | 0 <= i < |r.puts| ensures StateKey(p.contract, r.puts[i].key) != CODE_PREFIX + contract {
      OutsideCode(p.contract, r.puts[i].key, contract);
    }
  }

  /** A payload changes the code of a contract only by deploying it, and only if it had none. */
  lemma PayloadCode(vm: Machine, m: State, p: Payload, contract: ByteString)
    requires RunPayload(vm, m, p).Some? && Inside(p.contract)
    ensures
      var k, after := CODE_PREFIX + contract, Overlaid(m, RunPayload(vm, m, p).value.0);
      if p.action.Deploy? && p.contract == contract then Lookup(m, k).None? && Lookup(after, k) == Some(p.code)
      else Lookup(after, k) == Lookup(m, k)
  {
    PayloadRuns(vm, m, p);
    PayloadLeaves(vm, m, p);
    var done := RunPayload(vm, m, p).value;
    CodeAfter(m, p, vm(p, CodeFor(m, p).value, m).value, done.1, Overlaid(m, done.0), contract);
  }

  /** The code of the deployment of a contract in a list. */
  function Deployed(txs: seq<Tx>, contract: ByteString): Option<ByteString> {
    if |txs| == 0 then None
    else
      var tx := txs[|txs| - 1];
      if tx.Contract? && tx.payload.action.Deploy? && tx.payload.contract == contract then Some(tx.payload.code)
      else Deployed(txs[..|txs| - 1], contract)
  }

  /** A runner that touches code as `PayloadCode` shows of ours. */
  ghost predicate KeepsCode(run: Runner, contract: ByteString) {
    forall m: State, p: Payload :: run(m, p).Some? && Inside(p.contract) ==>
      var k, after := CODE_PREFIX + contract, Overlaid(m, run(m, p).value.0);
      if p.action.Deploy? && p.contract == contract then Lookup(m, k).None? && Lookup(after, k) == Some(p.code)
      else Lookup(after, k) == Lookup(m, k)
  }

  lemma {:induction false} RunCode(run: Runner, m: State, txs: seq<Tx>, contract: ByteString)
    requires KeepsCode(run, contract) && RunTxs(run, m, txs).Some? && AllInside(txs)
    ensures
      var k := CODE_PREFIX + contract;
      Lookup(RunTxs(run, m, txs).value.state, k) == if Deployed(txs, contract).Some? then Deployed(txs, contract) else Lookup(m, k)
  {
    if |txs| > 0 {
      var init, tx := txs[..|txs| - 1], txs[|txs| - 1];
      assert forall i :: 0 <= i < |init| ==> init[i] == txs[i];
      RunCode(run, m, init, contract);
      if tx.Contract? {
        assert run(RunTxs(run, m, init).value.state, tx.payload).Some?;
      }
    }
  }

  lemma MachineKeepsCode(vm: Machine, contract: ByteString)
    ensures KeepsCode(RunnerOf(vm), contract)
  {
    forall m: State, p: Payload | RunnerOf(vm)(m, p).Some? && Inside(p.contract)
      ensures
        var k, after := CODE_PREFIX + contract, Overlaid(m, RunnerOf(vm)(m, p).value.0);
        if p.action.Deploy? && p.contract == contract then Lookup(m, k).None? && Lookup(after, k) == Some(p.code)
        else Lookup(after, k) == Lookup(m, k)
    {
      PayloadCode(vm, m, p, contract);
    }
  }

  /** Over every chain from the empty state, the stored code of a contract is that of its deployment. */
  lemma ChainCode(vm: Machine, blocks: seq<seq<Tx>>, contract: ByteString)
    requires RunChain(RunnerOf(vm), map[], blocks).Some? && AllInside(Flatten(blocks))
    ensures Lookup(RunChain(RunnerOf(vm), map[], blocks).value, CODE_PREFIX + contract) == Deployed(Flatten(blocks), contract)
  {
    ChainIsOneRun(RunnerOf(vm), map[], blocks);
    MachineKeepsCode(vm, contract);
    RunCode(RunnerOf(vm), map[], Flatten(blocks), contract);
  }

  /** After any chain, a further payload runs exactly the code its contract was deployed with: a call
  needs that deployment, and a deployment needs that there was none. */
  lemma RunsDeployedCode(vm: Machine, blocks: seq<seq<Tx>>, p: Payload)
    requires RunChain(RunnerOf(vm), map[], blocks).Some? && AllInside(Flatten(blocks))
    ensures
      var m, code := RunChain(RunnerOf(vm), map[], blocks).value, Deployed(Flatten(blocks), p.contract);
      RunPayload(vm, m, p).Some? <==>
        && p.valid && NonceIs(m, p.signer, p.nonce)
        && match p.action
           case Deploy => code.None? && vm(p, p.code, m).Some?
           case Execute => code.Some? && vm(p, code.value, m).Some?
           case Unknown => false
  {
    ChainCode(vm, blocks, p.contract);
    PayloadRuns(vm, RunChain(RunnerOf(vm), map[], blocks).value, p);
  }

  // ---- Receipts ----

  /** The newest receipt of a transaction. */
  function ReceiptFor(receipts: seq<Receipt>, txHash: ByteString): Option<Receipt> {
    if |receipts| == 0 then None
    else if receipts[|receipts| - 1].txHash == txHash then Some(receipts[|receipts| - 1])
    else ReceiptFor(receipts[..|receipts| - 1], txHash)
  }

  predicate OffReceipts(contract: ByteString) {
    |contract| == 32 && contract[..7] != RECEIPT_PREFIX
  }

  predicate AllOffReceipts(txs: seq<Tx>) {
    forall i :: 0 <= i < |txs| && txs[i].Contract? ==> OffReceipts(txs[i].payload.contract)
  }

  lemma ReceiptAfter(m: State, p: Payload, r: CallResult, receipt: Receipt, after: State, txHash: ByteString)
    requires Leaves(m, p, r, receipt, after) && OffReceipts(p.contract)
    ensures
      var k := RECEIPT_PREFIX + txHash;
      Lookup(after, k) == if p.txHash == txHash then Some(EncodeReceipt(receipt)) else Lookup(m, k)
  {
    MetaKeys(p.signer, p.contract, txHash);
    assert (RECEIPT_PREFIX + txHash)[7..] == txHash && (RECEIPT_PREFIX + p.txHash)[7..] == p.txHash;
    forall i | 0 <= i < |r.puts| ensures StateKey(p.contract, r.puts[i].key) != RECEIPT_PREFIX + txHash {
      assert StateKey(p.contract, r.puts[i].key)[..7] == p.contract[..7] && (RECEIPT_PREFIX + txHash)[..7] == RECEIPT_PREFIX;
    }
  }

  lemma PayloadReceipt(vm: Machine, m: State, p: Payload, txHash: ByteString)
    requires RunPayload(vm, m, p).Some? && OffReceipts(p.contract)
    ensures
      var k, done := RECEIPT_PREFIX + txHash, RunPayload(vm, m, p).value;
      && done.1.txHash == p.txHash
      && Lookup(Overlaid(m, done.0), k) == if p.txHash == txHash then Some(EncodeReceipt(done.1)) else Lookup(m, k)
  {
    PayloadLeaves(vm, m, p);
    var done := RunPayload(vm, m, p).value;
    ReceiptAfter(m, p, vm(p, CodeFor(m, p).value, m).value, done.1, Overlaid(m, done.0), txHash);
  }

  /** A runner that stores receipts as `PayloadReceipt` shows of ours. */
  ghost predicate StoresReceipts(run: Runner, txHash: ByteString) {
    forall m: State, p: Payload :: run(m, p).Some? && OffReceipts(p.contract) ==>
      var k, done := RECEIPT_PREFIX + txHash, run(m, p).value;
      && done.1.txHash == p.txHash
      && Lookup(Overlaid(m, done.0), k) == if p.txHash == txHash then Some(EncodeReceipt(done.1)) else Lookup(m, k)
  }

  lemma MachineStoresReceipts(vm: Machine, txHash: ByteString)
    ensures StoresReceipts(RunnerOf(vm), txHash)
  {
    forall m: State, p: Payload | RunnerOf(vm)(m, p).Some? && OffReceipts(p.contract)
      ensures
        var k, done := RECEIPT_PREFIX + txHash, RunnerOf(vm)(m, p).value;
        && done.1.txHash == p.txHash
        && Lookup(Overlaid(m, done.0), k) == if p.txHash == txHash then Some(EncodeReceipt(done.1)) else Lookup(m, k)
    {
      PayloadReceipt(vm, m, p, txHash);
    }
  }

  lemma ReceiptForSnoc(receipts: seq<Receipt>, r: Receipt, txHash: ByteString)
    ensures ReceiptFor(receipts + [r], txHash) == if r.txHash == txHash then Some(r) else ReceiptFor(receipts, txHash)
  {
    assert (receipts + [r])[..|receipts|] == receipts;
  }

  /** The receipts that a run returns are the receipts that it stores, the newest of a transaction
  counting. */
  lemma {:induction false} RunReceipts(run: Runner, m: State, txs: seq<Tx>, txHash: ByteString)
    requires StoresReceipts(run, txHash) && RunTxs(run, m, txs).Some? && AllOffReceipts(txs)
    ensures
      var o, k := RunTxs(run, m, txs).value, RECEIPT_PREFIX + txHash;
      var receipt := ReceiptFor(o.receipts, txHash);
      Lookup(o.state, k) == if receipt.Some? then Some(EncodeReceipt(receipt.value)) else Lookup(m, k)
  {
    if |txs| > 0 {
      var init, tx := txs[..|txs| - 1], txs[|txs| - 1];
      assert forall i :: 0 <= i < |init| ==> init[i] == txs[i];
      RunReceipts(run, m, init, txHash);
      if tx.Contract? {
        var before := RunTxs(run, m, init).value;
        ReceiptForSnoc(before.receipts, run(before.state, tx.payload).value.1, txHash);
      }
    }
  }

  /** A stored receipt reads back as the returned one exactly for return data under 2^32 bytes. */
  lemma StoredReceiptReadsBack(vm: Machine, m: State, txs: seq<Tx>, txHash: ByteString)
    requires RunTxs(RunnerOf(vm), m, txs).Some? && AllOffReceipts(txs)
    requires ReceiptFor(RunTxs(RunnerOf(vm), m, txs).value.receipts, txHash).Some?
    requires Fields(ReceiptFor(RunTxs(RunnerOf(vm), m, txs).value.receipts, txHash).value)
    ensures
      var o, k := RunTxs(RunnerOf(vm), m, txs).value, RECEIPT_PREFIX + txHash;
      var receipt := ReceiptFor(o.receipts, txHash).value;
      && Lookup(o.state, k).Some?
      && (DecodeReceipt(Lookup(o.state, k).value) == Some(receipt) <==> |receipt.returnData| < 0x1_0000_0000)
  {
    MachineStoresReceipts(vm, txHash);
    RunReceipts(RunnerOf(vm), m, txs, txHash);
    ReceiptRoundTrip(ReceiptFor(RunTxs(RunnerOf(vm), m, txs).value.receipts, txHash).value);
    assert Pow256(2) == 0x1_0000;
    assert Pow256(4) == 0x1_0000_0000;
  }

  /** The hashes of the contract transactions of a list. */
  function Hashes(txs: seq<Tx>): seq<ByteString> {
    if |txs| == 0 then []
    else
      var before, tx := Hashes(txs[..|txs| - 1]), txs[|txs| - 1];
      if tx.Contract? then before + [tx.payload.txHash] else before
  }

  /** A runner that names the transaction in its receipt. */
  ghost predicate NamesReceipts(run: Runner) {
    forall m: State, p: Payload :: run(m, p).Some? ==> run(m, p).value.1.txHash == p.txHash
  }

  lemma {:induction false} RunNamesReceipts(run: Runner, m: State, txs: seq<Tx>)
    requires NamesReceipts(run) && RunTxs(run, m, txs).Some?
    ensures
      var receipts := RunTxs(run, m, txs).value.receipts;
      |receipts| == |Hashes(txs)| && forall i :: 0 <= i < |receipts| ==> receipts[i].txHash == Hashes(txs)[i]
  {
    if |txs| > 0 {
      RunNamesReceipts(run, m, txs[..|txs| - 1]);
    }
  }

  /** One receipt for every contract transaction, in block order. */
  lemma ReceiptsInOrder(vm: Machine, m: State, txs: seq<Tx>)
    requires RunTxs(RunnerOf(vm), m, txs).Some?
    ensures
      var receipts := RunTxs(RunnerOf(vm), m, txs).value.receipts;
      |receipts| == |Hashes(txs)| && forall i :: 0 <= i < |receipts| ==> receipts[i].txHash == Hashes(txs)[i]
  {
    forall m: State, p: Payload | RunnerOf(vm)(m, p).Some? ensures RunnerOf(vm)(m, p).value.1.txHash == p.txHash {
      PayloadLeaves(vm, m, p);
    }
    RunNamesReceipts(RunnerOf(vm), m, txs);
  }
}
