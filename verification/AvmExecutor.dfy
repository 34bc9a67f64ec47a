/** Preparing a block's contract effects on an overlay refines running its transactions one
after another on the base state; signer nonces count executions. */
module AvmExecutor {
  import opened Bytes
  import opened AvmState
  import opened AvmCodec
  import opened Options

  const UINT64: nat := 0x1_0000_0000_0000_0000

  datatype Action = Deploy | Execute | Unknown

  /** `valid` is the outcome of the payload's own validation. */
  datatype Payload = Payload(action: Action, contract: ByteString, code: ByteString, request: ByteString,
                             nonce: nat, signer: ByteString, txHash: ByteString, valid: bool)

  datatype Tx = Plain | Contract(payload: Payload)

  /** One state_write host call, with a key inside the contract's namespace. */
  datatype HostWrite = HostWrite(key: ByteString, value: ByteString)

  /** One deterministic contract call: its host writes in program order. */
  datatype CallResult = CallResult(puts: seq<HostWrite>, gasUsed: nat, returnData: ByteString)

  /** The bytecode machine: a function of request, code and the state it can read. */
  type Machine = (Payload, ByteString, State) -> Option<CallResult>

  // ---- Metadata keys ----

  const CODE_PREFIX: ByteString := [0xff, 0x61, 0x76, 0x6d, 0x2f, 0x63, 0x2f]
  const NONCE_PREFIX: ByteString := [0xff, 0x61, 0x76, 0x6d, 0x2f, 0x6e, 0x2f]
  const RECEIPT_PREFIX: ByteString := [0xff, 0x61, 0x76, 0x6d, 0x2f, 0x72, 0x2f]

  function CodeKey(contract: ByteString): ByteString { CODE_PREFIX + contract }

  function NonceKey(signer: ByteString): ByteString { NONCE_PREFIX + signer }

  function ReceiptKey(txHash: ByteString): ByteString { RECEIPT_PREFIX + txHash }

  function StateKey(contract: ByteString, key: ByteString): ByteString { contract + [0x2f] + key }

  /** The stored nonce: absent counts as zero, a malformed one is an error. */
  function LoadNonce(m: State, signer: ByteString): Option<nat> {
    if NonceKey(signer) !in m then Some(0)
    else if |m[NonceKey(signer)]| != 8 then None
    else Some(FromLittleEndian(m[NonceKey(signer)]))
  }

  // ---- Sequential meaning ----

  /** What a call leaves in its buffer: the last value written under each key. */
  function CallWrites(contract: ByteString, puts: seq<HostWrite>): WriteMap {
    if |puts| == 0 then map[]
    else
      var last := puts[|puts| - 1];
      CallWrites(contract, puts[..|puts| - 1])[StateKey(contract, last.key) := Some(last.value)]
  }

  function ReceiptOf(p: Payload, r: CallResult): Receipt {
    Receipt(p.txHash, p.contract, r.gasUsed, |CallWrites(p.contract, r.puts)|, r.returnData)
  }

  function Metadata(p: Payload, r: CallResult): seq<Write> {
    [Write(NonceKey(p.signer), Some(LittleEndian((p.nonce + 1) % UINT64, 8)))] +
    (if p.action.Deploy? then [Write(CodeKey(p.contract), Some(p.code))] else []) +
    [Write(ReceiptKey(p.txHash), Some(EncodeReceipt(ReceiptOf(p, r))))]
  }

  /** The code a call runs: supplied when deploying a new contract, stored when executing. */
  function CodeFor(m: State, p: Payload): Option<ByteString> {
    match p.action
    case Deploy => if CodeKey(p.contract) in m then None else Some(p.code)
    case Execute => Lookup(m, CodeKey(p.contract))
    case Unknown => None
  }

  /** What one payload writes, and its receipt, if it succeeds. */
  function RunPayload(vm: Machine, m: State, p: Payload): Option<(WriteMap, Receipt)> {
    if !p.valid || LoadNonce(m, p.signer) != Some(p.nonce) || CodeFor(m, p).None? then None
    else
      var r := vm(p, CodeFor(m, p).value, m);
      if r.None? then None
      else Some((CallWrites(p.contract, r.value.puts) + AsMap(Metadata(p, r.value)), ReceiptOf(p, r.value)))
  }

  type Runner = (State, Payload) -> Option<(WriteMap, Receipt)>

  function RunnerOf(vm: Machine): Runner {
    (m: State, p: Payload) => RunPayload(vm, m, p)
  }

  /** `state` is the state reached, `writes` the net effect on the starting state. */
  datatype Outcome = Outcome(state: State, writes: WriteMap, receipts: seq<Receipt>)

  function StepTx(run: Runner, o: Outcome, tx: Tx): Option<Outcome> {
    if tx.Plain? then Some(o)
    else
      var r := run(o.state, tx.payload);
      if r.None? then None
      else Some(Outcome(Overlaid(o.state, r.value.0), o.writes + r.value.0, o.receipts + [r.value.1]))
  }

  /** The block's contract transactions one after another, each applied to the state itself. */
  function RunTxs(run: Runner, m: State, txs: seq<Tx>): Option<Outcome> {
    if |txs| == 0 then Some(Outcome(m, map[], []))
    else
      var before := RunTxs(run, m, txs[..|txs| - 1]);
      if before.None? then None else StepTx(run, before.value, txs[|txs| - 1])
  }

  /** The net effect, applied once to the starting state, gives the state reached. */
  lemma {:induction false} NetEffect(run: Runner, m: State, txs: seq<Tx>)
    requires RunTxs(run, m, txs).Some?
    ensures RunTxs(run, m, txs).value.state == Overlaid(m, RunTxs(run, m, txs).value.writes)
  {
    if |txs| == 0 {
      assert Overlaid(m, map[]) == m;
    } else {
      var init, tx := txs[..|txs| - 1], txs[|txs| - 1];
      NetEffect(run, m, init);
      if tx.Contract? {
        var o := RunTxs(run, m, init).value;
        OverlaidTwice(m, o.writes, run(o.state, tx.payload).value.0);
      }
    }
  }

  // ---- Block preparation ----

  datatype Prepared = Prepared(writes: seq<Write>, receipts: seq<Receipt>, commitment: ByteString)

  class BlockExecutor {
    const store: MemoryStore

    constructor (store: MemoryStore)
      ensures this.store == store
    {
      this.store := store;
    }

    /** The prepared write set, applied to the base, gives the sequential result for every key;
    a failing transaction fails the block; the base itself is never touched. */
    method PrepareBlock(vm: Machine, txs: seq<Tx>) returns (r: Option<Prepared>)
      ensures r.Some? == RunTxs(RunnerOf(vm), store.data, txs).Some?
      ensures r.Some? ==>
        && ApplyWrites(store.data, r.value.writes) == RunTxs(RunnerOf(vm), store.data, txs).value.state
        && r.value.receipts == RunTxs(RunnerOf(vm), store.data, txs).value.receipts
        && SortedListing(RunTxs(RunnerOf(vm), store.data, txs).value.writes, r.value.writes)
        && r.value.commitment == WriteSetPreimage(r.value.writes)
    {
      var overlay := new OverlayStore(store);
      var receipts := StageTxs(vm, overlay, txs);
      if receipts.None? {
        return None;
      }
      var writes := overlay.Writes();
      r := Some(Prepared(writes, receipts.value, WriteSetPreimage(writes)));
    }

    method StageTxs(vm: Machine, overlay: OverlayStore, txs: seq<Tx>) returns (r: Option<seq<Receipt>>)
      requires overlay.base == store && overlay.writes == map[] && overlay.View() == store.data
      modifies overlay
      ensures r.Some? == RunTxs(RunnerOf(vm), store.data, txs).Some?
      ensures r.Some? ==> RunTxs(RunnerOf(vm), store.data, txs) == Some(Outcome(overlay.View(), overlay.writes, r.value))
    {
      var receipts := [];
      var i := 0;
      while i < |txs|
        invariant 0 <= i <= |txs|
        invariant RunTxs(RunnerOf(vm), store.data, txs[..i]) == Some(Outcome(overlay.View(), overlay.writes, receipts))
      {
        assert txs[..i + 1][..i] == txs[..i];
        var receipt := StageTx(vm, overlay, txs[i], receipts);
        if receipt.None? {
          PrefixFails(RunnerOf(vm), store.data, txs, i + 1);
          return None;
        }
        receipts, i := receipt.value, i + 1;
      }
      assert txs[..i] == txs;
      r := Some(receipts);
    }

    method StageTx(vm: Machine, overlay: OverlayStore, tx: Tx, receipts: seq<Receipt>) returns (r: Option<seq<Receipt>>)
      requires overlay.base == store
      modifies overlay
      ensures
        var want := StepTx(RunnerOf(vm), Outcome(old(overlay.View()), old(overlay.writes), receipts), tx);
        && r.Some? == want.Some?
        && (r.Some? ==> want == Some(Outcome(overlay.View(), overlay.writes, r.value)))
    {
      if tx.Plain? {
        return Some(receipts);
      }
      var receipt := ExecutePayload(vm, overlay, tx.payload);
      r := if receipt.None? then None else Some(receipts + [receipt.value]);
    }

    /** One contract transaction on the overlay. */
    method ExecutePayload(vm: Machine, overlay: OverlayStore, p: Payload) returns (r: Option<Receipt>)
      requires overlay.base == store
      modifies overlay
      ensures
        var want := RunPayload(vm, old(overlay.View()), p);
        && r.Some? == want.Some?
        && (r.Some? ==>
              && r.value == want.value.1
              && overlay.writes == old(overlay.writes) + want.value.0
              && overlay.View() == Overlaid(old(overlay.View()), want.value.0))
    {
      if !p.valid {
        return None;
      }
      var nonceOk := CheckNonce(overlay, p);
      if !nonceOk {
        return None;
      }
      var code := LoadCode(overlay, p);
      if code.None? {
        return None;
      }
      var view := overlay.Visible();
      var result := vm(p, code.value, view);
      if result.None? {
        return None;
      }
      CommitCall(overlay, p.contract, result.value.puts);
      var ok := overlay.Apply(Metadata(p, result.value));
      assert ok;
      MergeOnce(old(overlay.writes), CallWrites(p.contract, result.value.puts), AsMap(Metadata(p, result.value)));
      OverlaidTwice(overlay.base.data, old(overlay.writes),
                    CallWrites(p.contract, result.value.puts) + AsMap(Metadata(p, result.value)));
      r := Some(ReceiptOf(p, result.value));
    }

    method CheckNonce(overlay: OverlayStore, p: Payload) returns (ok: bool)
      ensures ok == (LoadNonce(overlay.View(), p.signer) == Some(p.nonce))
    {
      var stored := overlay.Get(NonceKey(p.signer));
      if stored.Some? && |stored.value| != 8 {
        return false;
      }
      ok := p.nonce == if stored.None? then 0 else FromLittleEndian(stored.value);
    }

    method LoadCode(overlay: OverlayStore, p: Payload) returns (code: Option<ByteString>)
      ensures code == CodeFor(overlay.View(), p)
    {
      code := overlay.Get(CodeKey(p.contract));
      match p.action {
        case Deploy =>
          code := if code.Some? then None else Some(p.code);
        case Execute =>
        case Unknown =>
          code := None;
      }
    }

    /** The call's writes collect in its own buffer and enter the overlay in key order. */
    method CommitCall(overlay: OverlayStore, contract: ByteString, puts: seq<HostWrite>)
      modifies overlay
      ensures overlay.writes == old(overlay.writes) + CallWrites(contract, puts)
    {
      var session := new TransactionState(overlay, contract);
      var i := 0;
      while i < |puts|
        invariant 0 <= i <= |puts|
        invariant fresh(session) && session.base == overlay && session.prefix == contract + [0x2f]
        invariant unchanged(overlay)
        invariant session.writes == CallWrites(contract, puts[..i])
      {
        assert puts[..i + 1][..i] == puts[..i];
        session.PutValue(puts[i].key, puts[i].value);
        i := i + 1;
      }
      assert puts[..i] == puts;
      var ordered := session.OrderedWrites();
      CallKeysNonEmpty(contract, puts);
      ListingAsMap(session.writes, ordered);
      var _ := overlay.Apply(ordered);
    }
  }

  lemma MergeOnce(a: WriteMap, b: WriteMap, c: WriteMap)
    ensures (a + b) + c == a + (b + c)
  {
  }

  lemma {:induction false} CallKeysNonEmpty(contract: ByteString, puts: seq<HostWrite>)
    ensures forall k :: k in CallWrites(contract, puts) ==> |k| > |contract| && k[..|contract| + 1] == contract + [0x2f]
  {
    if |puts| > 0 {
      CallKeysNonEmpty(contract, puts[..|puts| - 1]);
      var key := StateKey(contract, puts[|puts| - 1].key);
      assert key[..|contract| + 1] == contract + [0x2f];
    }
  }

  lemma {:induction false} PrefixFails(run: Runner, m: State, txs: seq<Tx>, i: nat)
    requires i <= |txs| && RunTxs(run, m, txs[..i]).None?
    ensures RunTxs(run, m, txs).None?
    decreases |txs| - i
  {
    if i == |txs| {
      assert txs[..i] == txs;
    } else {
      assert txs[..i + 1][..i] == txs[..i];
      PrefixFails(run, m, txs, i + 1);
    }
  }
}
