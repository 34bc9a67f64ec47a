/** Start-up recovery of contract state: bounded replay from a trusted checkpoint equals
replay from activation, and a recovery that reports no error leaves exactly that state and
tip marker on disk. */
module AvmRecovery {
  import opened Bytes
  import opened AvmState
  import opened AvmCodec
  import opened AvmExecutor
  import opened Options

  datatype Hash = Zero | Digest(block: Block)

  /** `sealed` says that the validator signature checks out, `rooted` that the transactions
  match the header's Merkle root. */
  datatype Block = Block(height: nat, prev: Hash, txs: seq<Tx>, rooted: bool, sealed: bool)

  type Marker = (Hash, ByteString)

  // ---- Reference: replay over the ancestors of a block ----

  /** The outcome of the newest block when the ancestors of `tip` from height `start` on are
  run in order, the first of them on state `m`. */
  function Replay(run: Runner, m: State, tip: Hash, start: nat): Option<Outcome>
    decreases tip
  {
    if !tip.Digest? || tip.block.height < start then None
    else if tip.block.height == start then RunTxs(run, m, tip.block.txs)
    else
      var before := Replay(run, m, tip.block.prev, start);
      if before.None? then None else RunTxs(run, before.value.state, tip.block.txs)
  }

  /** Replay of the whole contract era. */
  function FullReplay(run: Runner, tip: Hash, activation: nat): Option<Outcome> {
    Replay(run, map[], tip, activation)
  }

  /** The ancestors of `tip` down to height `start` are numbered without gaps, and the parent
  of the one at `start` is `base`. */
  predicate GrowsFrom(tip: Hash, start: nat, base: Hash)
    decreases tip
  {
    && tip.Digest?
    && if tip.block.height == start then tip.block.prev == base
       else Extends(tip, start) && GrowsFrom(tip.block.prev, start, base)
  }

  /** `tip` lies above `start` and its parent has the height before it. */
  predicate Extends(tip: Hash, start: nat) {
    tip.Digest? && start < tip.block.height && tip.block.prev.Digest? && tip.block.prev.block.height + 1 == tip.block.height
  }

  /** Resuming at any height between activation and tip gives what full replay gives. */
  lemma {:induction false} ResumeEqualsFullReplay(run: Runner, tip: Hash, activation: nat, base: Hash)
    requires base.Digest? && activation <= base.block.height
    requires GrowsFrom(tip, base.block.height + 1, base)
    requires FullReplay(run, base, activation).Some?
    ensures FullReplay(run, tip, activation)
         == Replay(run, FullReplay(run, base, activation).value.state, tip, base.block.height + 1)
    decreases tip
  {
    if tip.block.height != base.block.height + 1 {
      ResumeEqualsFullReplay(run, tip.block.prev, activation, base);
    }
  }

  /** `c` commits to the write set `writes`. */
  ghost predicate Commits(writes: WriteMap, c: ByteString) {
    exists ws :: SortedListing(writes, ws) && c == WriteSetPreimage(ws)
  }

  /** A write set has one commitment. */
  lemma CommitmentUnique(writes: WriteMap, c: ByteString, d: ByteString)
    requires Commits(writes, c) && Commits(writes, d)
    ensures c == d
  {
    var p :| SortedListing(writes, p) && c == WriteSetPreimage(p);
    var q :| SortedListing(writes, q) && d == WriteSetPreimage(q);
    AvmState.SortedListingUnique(writes, p, q);
  }

  /** The replay has reached `height`: its last block is `last` and its state is `data`. */
  predicate Replayed(run: Runner, m: State, start: nat, previous: Option<Hash>, height: nat, last: Option<Hash>, data: State) {
    if height == start then last == previous && data == m
    else
      && last.Some? && last.value.Digest? && last.value.block.height + 1 == height
      && start < height && Replay(run, m, last.value, start).Some? && data == Replay(run, m, last.value, start).value.state
      && (previous.Some? ==> GrowsFrom(last.value, start, previous.value))
  }

  /** One more block on top of the replay so far. */
  lemma ReplayedNext(run: Runner, m: State, start: nat, previous: Option<Hash>, height: nat, last: Option<Hash>, data: State, b: Block)
    requires Replayed(run, m, start, previous, height, last, data) && start <= height
    requires b.height == height && (last.Some? ==> b.prev == last.value)
    ensures Replay(run, m, Digest(b), start) == RunTxs(run, data, b.txs)
    ensures RunTxs(run, data, b.txs).Some? ==>
      Replayed(run, m, start, previous, height + 1, Some(Digest(b)), RunTxs(run, data, b.txs).value.state)
  {
  }

  /** The replay has ended at `tip` with this state and commitment. */
  ghost predicate ReplayedTo(run: Runner, m: State, start: nat, previous: Option<Hash>, height: nat, tip: Hash, data: State, c: ByteString) {
    && Replay(run, m, tip, start).Some? && data == Replay(run, m, tip, start).value.state
    && Commits(Replay(run, m, tip, start).value.writes, c) && tip.block.height == height
    && (previous.Some? ==> GrowsFrom(tip, start, previous.value))
  }

  /** `m` and `c` are the state and the commitment of full replay at `tip`. */
  ghost predicate Reached(run: Runner, activation: nat, tip: Hash, m: State, c: ByteString) {
    && FullReplay(run, tip, activation).Some?
    && m == FullReplay(run, tip, activation).value.state
    && Commits(FullReplay(run, tip, activation).value.writes, c)
  }

  // ---- No empty key is ever written ----

  ghost predicate KeyedCalls(run: Runner) {
    forall m, p :: run(m, p).Some? ==> [] !in run(m, p).value.0
  }

  lemma MetadataKeyed(p: Payload, r: CallResult)
    ensures [] !in AsMap(Metadata(p, r))
  {
    AsMapKeyed(Metadata(p, r));
  }

  lemma {:induction false} AsMapKeyed(ws: seq<Write>)
    requires NonEmptyKeys(ws)
    ensures [] !in AsMap(ws)
  {
    if |ws| > 0 {
      AsMapKeyed(ws[..|ws| - 1]);
    }
  }

  lemma PayloadKeyed(vm: Machine, m: State, p: Payload)
    requires RunPayload(vm, m, p).Some?
    ensures [] !in RunPayload(vm, m, p).value.0
  {
    var r := vm(p, CodeFor(m, p).value, m).value;
    CallKeysNonEmpty(p.contract, r.puts);
    MetadataKeyed(p, r);
  }

  lemma MachineKeyed(vm: Machine)
    ensures KeyedCalls(RunnerOf(vm))
  {
    forall m, p | RunPayload(vm, m, p).Some? ensures [] !in RunPayload(vm, m, p).value.0 {
      PayloadKeyed(vm, m, p);
    }
  }

  lemma {:induction false} RunKeyed(run: Runner, m: State, txs: seq<Tx>)
    requires KeyedCalls(run) && RunTxs(run, m, txs).Some?
    ensures [] !in RunTxs(run, m, txs).value.writes
    ensures [] !in m ==> [] !in RunTxs(run, m, txs).value.state
  {
    if |txs| > 0 {
      RunKeyed(run, m, txs[..|txs| - 1]);
    }
  }

  lemma {:induction false} ReplayKeyed(run: Runner, m: State, tip: Hash, start: nat)
    requires KeyedCalls(run) && [] !in m && Replay(run, m, tip, start).Some?
    ensures [] !in Replay(run, m, tip, start).value.state
    decreases tip
  {
    if tip.block.height == start {
      RunKeyed(run, m, tip.block.txs);
    } else {
      ReplayKeyed(run, m, tip.block.prev, start);
      RunKeyed(run, Replay(run, m, tip.block.prev, start).value.state, tip.block.txs);
    }
  }

  // ---- Checkpoints ----

  /** A state snapshot bound to a block; `verified` is the outcome of its signature policy. */
  datatype Checkpoint = Checkpoint(height: nat, block: Hash, genesis: Hash, commitment: ByteString,
                                   entries: seq<Write>, verified: bool)

  /** The checkpoint tells the truth: its entries are the full-replay state at its block. */
  ghost predicate Truthful(run: Runner, k: Checkpoint, activation: nat) {
    && k.block.Digest? && k.block.block.height == k.height && activation <= k.height
    && Reached(run, activation, k.block, ApplyWrites(map[], k.entries), k.commitment)
  }

  /** No checkpoint configured, a v1 single-signer file, or a v2 quorum file. */
  datatype Source = FullHistory | SingleSigner(file: Option<Checkpoint>, limit: nat) | Quorum(file: Option<Checkpoint>, limit: nat)

  /** Every checkpoint that passes the signature policy is truthful. */
  ghost predicate Trustworthy(run: Runner, source: Source, activation: nat) {
    !source.FullHistory? && source.file.Some? && source.file.value.verified ==> Truthful(run, source.file.value, activation)
  }

  /** The state and the height that replay starts from. */
  function Base(source: Source): State {
    if !source.FullHistory? && source.file.Some? then ApplyWrites(map[], source.file.value.entries) else map[]
  }

  function First(activation: nat, source: Source): nat {
    if !source.FullHistory? && source.file.Some? then source.file.value.height + 1 else activation
  }

  datatype Result = Failed | Skipped | Recovered(rebuilt: bool, renewed: Option<Checkpoint>)

  // ---- The database ----

  class Database {
    var index: map<nat, Hash>
    var bodies: map<Hash, Block>
    var markers: map<nat, Marker>
    var avm: State

    constructor (index: map<nat, Hash>, bodies: map<Hash, Block>, markers: map<nat, Marker>, avm: State)
      ensures this.index == index && this.bodies == bodies && this.markers == markers && this.avm == avm
    {
      this.index, this.bodies, this.markers, this.avm := index, bodies, markers, avm;
    }

    /** One atomic batch: the whole contract namespace and the tip marker. */
    method ReplaceState(ws: seq<Write>, height: nat, hash: Hash, commitment: ByteString, disk: bool) returns (ok: bool)
      requires forall i :: 0 <= i < |ws| ==> ws[i].value.Some?
      modifies this`avm, this`markers
      ensures ok == (disk && NonEmptyKeys(ws))
      ensures avm == if ok then ApplyWrites(map[], ws) else old(avm)
      ensures markers == if ok then old(markers)[height := (hash, commitment)] else old(markers)
    {
      var keysOk := CheckKeys(ws);
      if !keysOk || !disk {
        return false;
      }
      var rebuilt := new MemoryStore(map[]);
      var _ := rebuilt.Apply(ws);
      avm := rebuilt.data;
      markers := markers[height := (hash, commitment)];
      ok := true;
    }

    // ---- What a sound database holds ----

    /** The stored marker of a replayed block, if there is one, names the block and its writes. */
    ghost predicate MarkerFits(hash: Hash, height: nat, writes: WriteMap)
      reads this
    {
      height in markers ==> markers[height].0 == hash && Commits(writes, markers[height].1)
    }

    /** The chain below `tip` is indexed, stored and replayable from `start`, and no marker
    disagrees with it. */
    ghost predicate Intact(run: Runner, m: State, tip: Hash, start: nat, strict: bool)
      reads this
      decreases tip
    {
      && Replay(run, m, tip, start).Some?
      && tip.block.height in index && index[tip.block.height] == tip
      && tip in bodies && bodies[tip] == tip.block
      && tip.block.rooted && (strict ==> tip.block.sealed)
      && MarkerFits(tip, tip.block.height, Replay(run, m, tip, start).value.writes)
      && (tip.block.height != start ==> Extends(tip, start) && Intact(run, m, tip.block.prev, start, strict))
    }

    /** Every height of an intact chain is intact, and its successor builds on it. */
    lemma {:induction false} IntactBelow(run: Runner, m: State, tip: Hash, start: nat, strict: bool, h: nat)
      requires Intact(run, m, tip, start, strict) && start <= h <= tip.block.height
      ensures h in index && index[h].Digest? && index[h].block.height == h && Intact(run, m, index[h], start, strict)
      ensures start < h ==> h - 1 in index && index[h].block.prev == index[h - 1]
      decreases tip
    {
      if h < tip.block.height {
        IntactBelow(run, m, tip.block.prev, start, strict, h);
      } else if start < h {
        assert Intact(run, m, tip.block.prev, start, strict);
      }
    }

    lemma {:induction false} IntactFirst(run: Runner, m: State, tip: Hash, start: nat, strict: bool, base: Hash)
      requires Intact(run, m, tip, start, strict) && GrowsFrom(tip, start, base)
      ensures start in index && index[start].Digest? && index[start].block.prev == base
      decreases tip
    {
      if tip.block.height != start {
        IntactFirst(run, m, tip.block.prev, start, strict, base);
      }
    }

    // ---- Replay ----

    /** Execute one block on the memory store and compare its stored marker, if any. */
    method RunBlock(vm: Machine, store: MemoryStore, block: Block, height: nat, hash: Hash) returns (r: Option<ByteString>)
      modifies store
      ensures
        var o := RunTxs(RunnerOf(vm), old(store.data), block.txs);
        && (r.Some? <==> o.Some? && MarkerFits(hash, height, o.value.writes))
        && (r.Some? ==> store.data == o.value.state && Commits(o.value.writes, r.value))
    {
      var executor := new BlockExecutor(store);
      var prepared := executor.PrepareBlock(vm, block.txs);
      if prepared.None? {
        return None;
      }
      ghost var writes := RunTxs(RunnerOf(vm), store.data, block.txs).value.writes;
      assert Commits(writes, prepared.value.commitment);
      if height in markers && markers[height] != (hash, prepared.value.commitment) {
        assert !MarkerFits(hash, height, writes) by {
          if MarkerFits(hash, height, writes) {
            CommitmentUnique(writes, markers[height].1, prepared.value.commitment);
            assert false;
          }
        }
        return None;
      }
      MachineKeyed(vm);
      RunKeyed(RunnerOf(vm), store.data, block.txs);
      var ok := store.Apply(prepared.value.writes);
      assert ok;
      r := Some(prepared.value.commitment);
    }

    predicate ReadableAt(height: nat, last: Option<Hash>, strict: bool)
      reads this
    {
      && height in index && index[height] in bodies && Digest(bodies[index[height]]) == index[height]
      && bodies[index[height]].height == height && bodies[index[height]].rooted && (strict ==> bodies[index[height]].sealed)
      && (last.Some? ==> bodies[index[height]].prev == last.value)
    }

    /** The indexed body at a height, if its identity, root, linkage and seal check out. */
    method ReadBlock(height: nat, last: Option<Hash>, strict: bool) returns (r: Option<Block>)
      ensures r.Some? == ReadableAt(height, last, strict)
      ensures r.Some? ==> Digest(r.value) == index[height]
    {
      if height !in index || index[height] !in bodies {
        return None;
      }
      var hash := index[height];
      var block := bodies[hash];
      if block.height != height || Digest(block) != hash || !block.rooted {
        return None;
      }
      if last.Some? && block.prev != last.value {
        return None;
      }
      if strict && !block.sealed {
        return None;
      }
      r := Some(block);
    }

    /** The chain is intact up to the tip and continues the given parent. */
    ghost predicate IntactFrom(run: Runner, m: State, tipHash: Hash, tipHeight: nat, start: nat, previous: Option<Hash>, strict: bool)
      reads this
    {
      && Intact(run, m, tipHash, start, strict) && tipHash.block.height == tipHeight
      && (previous.Some? ==> GrowsFrom(tipHash, start, previous.value))
    }

    /** What the loop meets at each height of an intact chain. */
    lemma IntactAt(run: Runner, m: State, tipHash: Hash, tipHeight: nat, start: nat, previous: Option<Hash>, strict: bool,
                   height: nat, last: Option<Hash>, data: State)
      requires IntactFrom(run, m, tipHash, tipHeight, start, previous, strict) && start <= height <= tipHeight
      requires Replayed(run, m, start, previous, height, last, data)
      requires height > start ==> height - 1 in index && last == Some(index[height - 1])
      ensures height in index && ReadableAt(height, last, strict) && (height == tipHeight ==> index[height] == tipHash)
      ensures RunTxs(run, data, index[height].block.txs).Some?
      ensures MarkerFits(index[height], height, RunTxs(run, data, index[height].block.txs).value.writes)
    {
      IntactBelow(run, m, tipHash, start, strict, height);
      if previous.Some? {
        IntactFirst(run, m, tipHash, start, strict, previous.value);
      }
      ReplayedNext(run, m, start, previous, height, last, data, index[height].block);
    }

    /** A round that succeeds keeps the chain intact. */
    lemma IntactGrows(run: Runner, m: State, start: nat, previous: Option<Hash>, height: nat, last: Option<Hash>, data: State, strict: bool)
      requires start <= height && Replayed(run, m, start, previous, height, last, data) && ReadableAt(height, last, strict)
      requires height > start ==> last.Some? && Intact(run, m, last.value, start, strict)
      requires RunTxs(run, data, index[height].block.txs).Some?
      requires MarkerFits(index[height], height, RunTxs(run, data, index[height].block.txs).value.writes)
      ensures Intact(run, m, index[height], start, strict)
    {
      ReplayedNext(run, m, start, previous, height, last, data, index[height].block);
    }

    /** One round of the replay: read, check the tip hash, execute, check the marker. */
    method ReplayOne(vm: Machine, store: MemoryStore, height: nat, last: Option<Hash>, strict: bool, tip: Option<Hash>) returns (r: Option<ByteString>)
      modifies store
      ensures r.Some? <==>
        && ReadableAt(height, last, strict) && (tip.Some? ==> index[height] == tip.value)
        && RunTxs(RunnerOf(vm), old(store.data), index[height].block.txs).Some?
        && MarkerFits(index[height], height, RunTxs(RunnerOf(vm), old(store.data), index[height].block.txs).value.writes)
      ensures r.Some? ==>
        var o := RunTxs(RunnerOf(vm), old(store.data), index[height].block.txs).value;
        store.data == o.state && Commits(o.writes, r.value)
    {
      var block := ReadBlock(height, last, strict);
      if block.None? || (tip.Some? && Digest(block.value) != tip.value) {
        return None;
      }
      r := RunBlock(vm, store, block.value, height, Digest(block.value));
    }

    /** The replay loop: reads each indexed body, checks identity, linkage, seal and marker,
    then executes it on the memory store. It succeeds exactly on an intact chain, and the store
    then holds the replay of the ancestors of `tipHash`. */
    method ReplayRange(vm: Machine, store: MemoryStore, start: nat, tipHeight: nat, tipHash: Hash,
                       previous: Option<Hash>, strict: bool) returns (r: Option<ByteString>)
      requires start <= tipHeight
      modifies store
      ensures r.Some? ==> ReplayedTo(RunnerOf(vm), old(store.data), start, previous, tipHeight, tipHash, store.data, r.value)
      ensures r.Some? <==> IntactFrom(RunnerOf(vm), old(store.data), tipHash, tipHeight, start, previous, strict)
    {
      var height, last := start, previous;
      ghost var run, m := RunnerOf(vm), store.data;
      ghost var sound := IntactFrom(run, m, tipHash, tipHeight, start, previous, strict);
      while true
        invariant start <= height <= tipHeight && Replayed(run, m, start, previous, height, last, store.data)
        invariant height > start ==> height - 1 in index && last == Some(index[height - 1])
        invariant height > start ==> Intact(run, m, last.value, start, strict)
        decreases tipHeight - height
      {
        if sound {
          IntactAt(run, m, tipHash, tipHeight, start, previous, strict, height, last, store.data);
        }
        ghost var data := store.data;
        var commitment := ReplayOne(vm, store, height, last, strict, if height == tipHeight then Some(tipHash) else None);
        if commitment.None? {
          return None;
        }
        ReplayedNext(run, m, start, previous, height, last, data, index[height].block);
        IntactGrows(run, m, start, previous, height, last, data, strict);
        if height == tipHeight {
          return commitment;
        }
        last, height := Some(index[height]), height + 1;
      }
    }

    /** Walk over the stored entries: an unexpected or differing entry is corruption, and with
    none of those the stored state is complete exactly when the counts agree. */
    method SameState(expected: State) returns (corrupt: bool, complete: bool)
      ensures corrupt <==> exists k :: k in avm && (k !in expected || expected[k] != avm[k])
      ensures !corrupt ==> (complete <==> avm == expected)
    {
      var rest, count := avm.Keys, 0;
      while rest != {}
        invariant rest <= avm.Keys && count + |rest| == |avm.Keys|
        invariant forall k :: k in avm && k !in rest ==> k in expected && expected[k] == avm[k]
        decreases |rest|
      {
        var k :| k in rest;
        count := count + 1;
        if k !in expected || expected[k] != avm[k] {
          return true, false;
        }
        rest := rest - {k};
      }
      corrupt, complete := false, count == |expected.Keys|;
      if complete {
        SubsetOfEqualSize(avm.Keys, expected.Keys);
      }
    }

    // ---- Recovery ----

    /** What a source demands before any replay: with a checkpoint policy the genesis must be indexed.
    Without a file the whole era must fit the limit. A file must verify, lie on this chain at or
    below the tip, match its stored marker, have proper keys and be recent enough. */
    ghost predicate Startable(activation: nat, tipHeight: nat, source: Source)
      requires activation > 0
      reads this
    {
      if source.FullHistory? then true
      else
        && 0 in index && index[0] != Zero
        && match source.file
           case None => tipHeight + 1 <= activation + source.limit && activation - 1 in index
           case Some(k) =>
             && k.verified && k.height <= tipHeight <= k.height + source.limit && k.genesis == index[0]
             && k.height in index && index[k.height] == k.block
             && k.height in markers && markers[k.height].0 == k.block && markers[k.height].1 == k.commitment
             && forall i :: 0 <= i < |k.entries| ==> k.entries[i].key != []
    }

    /** The parent of the first replayed block, where it is known. */
    function Parent(activation: nat, source: Source): Option<Hash>
      requires activation > 0
      reads this
    {
      if !source.FullHistory? && source.file.Some? then Some(source.file.value.block)
      else if activation - 1 in index then Some(index[activation - 1])
      else None
    }

    /** Where replay starts: state, first height, parent of the first block, checkpoint used. */
    method PrepareStart(activation: nat, tipHeight: nat, source: Source, store: MemoryStore)
      returns (ok: bool, start: nat, previous: Option<Hash>, file: Option<Checkpoint>)
      requires 0 < activation <= tipHeight && store.data == map[]
      modifies store
      ensures ok <==> Startable(activation, tipHeight, source)
      ensures ok ==> start == First(activation, source) && store.data == Base(source) && previous == Parent(activation, source)
      ensures ok ==> file == if source.FullHistory? then None else source.file
    {
      start, previous, file := activation, None, None;
      if source.FullHistory? {
        return true, activation, if activation - 1 in index then Some(index[activation - 1]) else None, None;
      }
      if 0 !in index || index[0] == Zero {
        return false, activation, None, None;
      }
      if source.file.None? {
        if tipHeight - activation + 1 > source.limit || activation - 1 !in index {
          return false, activation, None, None;
        }
        return true, activation, Some(index[activation - 1]), None;
      }
      var k := source.file.value;
      if !k.verified || k.height > tipHeight || k.genesis != index[0] {
        return false, activation, None, None;
      }
      if k.height !in index || index[k.height] != k.block {
        return false, activation, None, None;
      }
      if k.height !in markers || markers[k.height] != (k.block, k.commitment) {
        return false, activation, None, None;
      }
      var applied := store.Apply(k.entries);
      if !applied || tipHeight - k.height > source.limit {
        return false, activation, None, None;
      }
      ok, start, previous, file := true, k.height + 1, Some(k.block), Some(k);
    }

    /** The file already covers the tip, so that nothing is replayed. */
    predicate CoversTip(file: Option<Checkpoint>, tipHeight: nat) {
      file.Some? && file.value.height == tipHeight
    }

    /** Replay what the checkpoint leaves, or nothing when it already covers the tip. */
    method ReplayToTip(vm: Machine, activation: nat, tipHeight: nat, tipHash: Hash, store: MemoryStore,
                       start: nat, previous: Option<Hash>, file: Option<Checkpoint>, strict: bool)
      returns (commitment: Option<ByteString>)
      requires activation <= tipHeight
      requires file.None? ==> start == activation && store.data == map[]
      requires file.Some? ==>
        && file.value.height <= tipHeight && start == file.value.height + 1 && previous == Some(file.value.block)
        && store.data == ApplyWrites(map[], file.value.entries)
      modifies store
      ensures
        && commitment.Some?
        && (file.Some? ==> Truthful(RunnerOf(vm), file.value, activation))
        && (CoversTip(file, tipHeight) ==> file.value.block == tipHash)
        ==> Reached(RunnerOf(vm), activation, tipHash, store.data, commitment.value) && tipHash.block.height == tipHeight
      ensures CoversTip(file, tipHeight) ==> store.data == old(store.data) && commitment == Some(file.value.commitment)
      ensures !CoversTip(file, tipHeight) ==>
        && (commitment.Some? <==> IntactFrom(RunnerOf(vm), old(store.data), tipHash, tipHeight, start, previous, strict))
        && (commitment.Some? ==> ReplayedTo(RunnerOf(vm), old(store.data), start, previous, tipHeight, tipHash, store.data, commitment.value))
    {
      if file.Some? && file.value.height == tipHeight {
        return Some(file.value.commitment);
      }
      commitment := ReplayRange(vm, store, start, tipHeight, tipHash, previous, strict);
      if commitment.Some? && file.Some? && Truthful(RunnerOf(vm), file.value, activation) {
        ResumeEqualsFullReplay(RunnerOf(vm), tipHash, activation, file.value.block);
      }
    }

    /** The state can be left as the replay says: nothing stored speaks against it, and either
    everything is in place or the disk takes the rebuilt state. */
    predicate Storable(tipHeight: nat, state: State, disk: bool)
      reads this
    {
      && (tipHeight in markers ==> Below(avm, state))
      && (disk || (tipHeight in markers && avm == state))
    }

    /** Compare the marker and the stored entries with the replay, and rebuild what is missing. */
    method Reconcile(tipHeight: nat, tipHash: Hash, store: MemoryStore, commitment: ByteString, disk: bool)
      returns (r: Result, entries: seq<Write>)
      requires [] !in store.data
      modifies this`avm, this`markers
      ensures !r.Skipped? && ApplyWrites(map[], entries) == store.data && NonEmptyKeys(entries)
      ensures r.Failed? ==> avm == old(avm) && markers == old(markers)
      ensures r.Recovered? ==>
        && avm == store.data
        && tipHeight in markers && markers[tipHeight] == (tipHash, commitment)
        && r.renewed.None? && (tipHeight in old(markers) ==> old(markers)[tipHeight] == (tipHash, commitment))
        && (!r.rebuilt <==> avm == old(avm) && markers == old(markers))
      ensures r.Recovered? <==>
        && (tipHeight in old(markers) ==> old(markers)[tipHeight] == (tipHash, commitment))
        && old(Storable(tipHeight, store.data, disk))
    {
      entries := store.Writes();
      if tipHeight in markers && markers[tipHeight] != (tipHash, commitment) {
        return Failed, entries;
      }
      if tipHeight in markers {
        var corrupt, complete := SameState(store.data);
        if corrupt {
          return Failed, entries;
        }
        if complete {
          return Recovered(false, None), entries;
        }
      }
      var ok := ReplaceState(entries, tipHeight, tipHash, commitment, disk);
      r := if ok then Recovered(true, None) else Failed;
    }

    /** Disk agrees with full replay of the chain ending in `tipHash`. */
    ghost predicate Consistent(run: Runner, activation: nat, tipHeight: nat, tipHash: Hash)
      reads this
    {
      && tipHeight in markers && markers[tipHeight].0 == tipHash
      && Reached(run, activation, tipHash, avm, markers[tipHeight].1)
    }

    /** The recovery of a source succeeds: a file for the tip itself names the tip and its state can
    be stored; otherwise the chain above the start is intact and what it replays to can be stored. */
    ghost predicate Recoverable(run: Runner, activation: nat, tipHeight: nat, tipHash: Hash, source: Source, disk: bool)
      requires activation > 0
      reads this
    {
      && Startable(activation, tipHeight, source)
      && if !source.FullHistory? && CoversTip(source.file, tipHeight) then
           source.file.value.block == tipHash && Storable(tipHeight, ApplyWrites(map[], source.file.value.entries), disk)
         else
           && IntactFrom(run, Base(source), tipHash, tipHeight, First(activation, source), Parent(activation, source), !source.FullHistory?)
           && Storable(tipHeight, Replay(run, Base(source), tipHash, First(activation, source)).value.state, disk)
    }

    /** The part before the renewed checkpoint: start, replay, compare and rebuild. */
    method RecoverState(vm: Machine, activation: nat, tipHeight: nat, tipHash: Hash, source: Source, disk: bool)
      returns (r: Result, commitment: ByteString, entries: seq<Write>)
      requires 0 < activation <= tipHeight
      modifies this`avm, this`markers
      ensures !r.Skipped? && (r.Failed? ==> avm == old(avm) && markers == old(markers))
      ensures r.Recovered? ==>
        && r.renewed.None? && (!r.rebuilt <==> avm == old(avm) && markers == old(markers)) && ApplyWrites(map[], entries) == avm
        && tipHeight in markers && markers[tipHeight] == (tipHash, commitment) && NonEmptyKeys(entries)
        && tipHeight in index && index[tipHeight] == tipHash && (!source.FullHistory? ==> 0 in index && index[0] != Zero)
      ensures r.Recovered? && Trustworthy(RunnerOf(vm), source, activation) ==>
        Consistent(RunnerOf(vm), activation, tipHeight, tipHash) && tipHash.block.height == tipHeight
      ensures r.Recovered? <==> old(Recoverable(RunnerOf(vm), activation, tipHeight, tipHash, source, disk))
    {
      var store := new MemoryStore(map[]);
      var ok, start, previous, file := PrepareStart(activation, tipHeight, source, store);
      if !ok {
        return Failed, [], [];
      }
      var replayed := ReplayToTip(vm, activation, tipHeight, tipHash, store, start, previous, file, !source.FullHistory?);
      if replayed.None? {
        return Failed, [], [];
      }
      commitment := replayed.value;
      if file.Some? && file.value.height == tipHeight {
        AppliedKeyed(file.value.entries);
      } else {
        ReadyToStore(vm, activation, tipHeight, tipHash, source, store.data, commitment);
      }
      r, entries := Reconcile(tipHeight, tipHash, store, commitment, disk);
    }

    /** Recovery. It fails exactly when the source, the chain above it, the stored entries, the disk
    or the signing of the renewed checkpoint does. Whatever the source, a result without error means
    that the stored contract state and the tip marker are those of full replay, and a renewed v1
    checkpoint is truthful again and recovers this database without a write. `signs` is the outcome of signing and writing that checkpoint. */
    method EnsureCanonicalState(vm: Machine, activation: nat, tipHeight: nat, tipHash: Hash, source: Source,
                                disk: bool, signs: bool) returns (r: Result)
      modifies this`avm, this`markers
      ensures r.Skipped? <==> activation == 0 || tipHeight < activation
      ensures r.Skipped? ==> avm == old(avm) && markers == old(markers)
      ensures r.Recovered? && Trustworthy(RunnerOf(vm), source, activation) ==>
        && Consistent(RunnerOf(vm), activation, tipHeight, tipHash)
        && (r.renewed.Some? ==> Truthful(RunnerOf(vm), r.renewed.value, activation) && r.renewed.value.height == tipHeight)
      ensures r.Recovered? ==>
        && (!r.rebuilt <==> avm == old(avm) && markers == old(markers))
        && (r.renewed.Some? <==> source.SingleSigner?)
      ensures r.Failed? && Trustworthy(RunnerOf(vm), source, activation) ==>
        || (avm == old(avm) && markers == old(markers))
        || Consistent(RunnerOf(vm), activation, tipHeight, tipHash)
      ensures 0 < activation <= tipHeight ==>
        (r.Recovered? <==> old(Recoverable(RunnerOf(vm), activation, tipHeight, tipHash, source, disk)) && (source.SingleSigner? ==> signs))
      ensures r.Recovered? && source.SingleSigner? ==>
        Recoverable(RunnerOf(vm), activation, tipHeight, tipHash, SingleSigner(r.renewed, source.limit), false)
    {
      if activation == 0 || tipHeight < activation {
        return Skipped;
      }
      var commitment, entries;
      r, commitment, entries := RecoverState(vm, activation, tipHeight, tipHash, source, disk);
      if r.Recovered? && source.SingleSigner? {
        if !signs {
          return Failed;
        }
        r := r.(renewed := Some(Checkpoint(tipHeight, tipHash, index[0], commitment, entries, true)));
      }
    }

    /** What a replay to the tip has brought: no empty key, and the marker, if any, fits. */
    lemma ReadyToStore(vm: Machine, activation: nat, tipHeight: nat, tipHash: Hash, source: Source, m: State, c: ByteString)
      requires activation > 0 && Startable(activation, tipHeight, source)
      requires
        var run, base, start, previous := RunnerOf(vm), Base(source), First(activation, source), Parent(activation, source);
        && IntactFrom(run, base, tipHash, tipHeight, start, previous, !source.FullHistory?)
        && ReplayedTo(run, base, start, previous, tipHeight, tipHash, m, c)
      ensures [] !in m && (tipHeight in markers ==> markers[tipHeight] == (tipHash, c))
    {
      var run, base, start := RunnerOf(vm), Base(source), First(activation, source);
      if !source.FullHistory? && source.file.Some? {
        AppliedKeyed(source.file.value.entries);
      }
      MachineKeyed(vm);
      ReplayKeyed(run, base, tipHash, start);
      if tipHeight in markers {
        CommitmentUnique(Replay(run, base, tipHash, start).value.writes, markers[tipHeight].1, c);
      }
    }
  }

  lemma {:induction false} AppliedKeyed(ws: seq<Write>)
    requires NonEmptyKeys(ws)
    ensures [] !in ApplyWrites(map[], ws)
  {
    if |ws| > 0 {
      AppliedKeyed(ws[..|ws| - 1]);
    }
  }

  predicate Below(part: State, whole: State) {
    forall k :: k in part ==> k in whole && whole[k] == part[k]
  }

  lemma SubsetOfEqualSize(a: set<ByteString>, b: set<ByteString>)
    requires a <= b && |a| == |b|
    ensures a == b
  {
    assert b == a + (b - a);
  }
}
