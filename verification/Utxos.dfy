/** The unspent-output set: applying a block, with its recency list, decoy pool and rollback
journal, and rolling it back. */
module Utxos {
  import opened Options

  const ROLLBACK_DEPTH: nat := 256
  const DECOY_LIMIT: nat := 10_000
  const RECENT_LIMIT: nat := 100_000

  datatype Key = Key(tx: nat, output: nat)

  datatype Utxo = Utxo(key: Key, pub: nat, commit: nat, locked: bool)

  datatype Input = Input(image: nat, ring: seq<nat>, realIndex: nat, commit: nat)

  datatype Output = Output(pub: nat, commit: nat)

  /** Ring spends, spends with a revealed member, spends with a hidden member, position and fund
  transactions, and stake transactions with an optional burned output and key image. */
  datatype Kind = Coinbase | Ring | Revealed | Hidden | Position | Fund | Stake(burn: Option<Key>, proof: Option<nat>)

  datatype Tx = Tx(id: nat, kind: Kind, inputs: seq<Input>, outputs: seq<Output>)

  /** One journal entry: the ring member that was spent and its output. */
  datatype Entry = Entry(member: nat, utxo: Utxo)

  /** What validation and stake read. */
  datatype View = View(active: map<Key, Utxo>, byPub: map<nat, Utxo>, images: set<nat>, staked: map<Key, Utxo>)

  /** `decoys` is the pool of spent ring members, `recent` the bounded list of outputs kept since
  `activation` (zero for never), `journal` the spends per height, `spent` the persisted index. */
  datatype Set = Set(view: View, decoys: map<nat, Utxo>, recent: seq<Key>, activation: nat,
                     journal: map<nat, seq<Entry>>, spent: set<Key>)

  // ---- Spending ----

  /** The ring members a transition may resolve. */
  function Members(kind: Kind, input: Input): seq<nat> {
    if kind.Position? then if |input.ring| == 0 then [] else input.ring[..1]
    else if !kind.Revealed? then input.ring
    else if input.realIndex < |input.ring| then [input.ring[input.realIndex]]
    else []
  }

  /** The first member with an active output of the given commitment. */
  function Resolve(byPub: map<nat, Utxo>, members: seq<nat>, commit: nat): (r: Option<nat>)
    ensures r.Some? ==> r.value in members && r.value in byPub && byPub[r.value].commit == commit
    ensures r.None? ==> forall m :: m in members && m in byPub ==> byPub[m].commit != commit
  {
    if |members| == 0 then None
    else if members[0] in byPub && byPub[members[0]].commit == commit then Some(members[0])
    else Resolve(byPub, members[1..], commit)
  }

  function Appended(journal: map<nat, seq<Entry>>, height: nat, entry: Entry): map<nat, seq<Entry>> {
    journal[height := (if height in journal then journal[height] else []) + [entry]]
  }

  /** Drops the oldest height once the journal holds too many. */
  function Pruned(journal: map<nat, seq<Entry>>): map<nat, seq<Entry>> {
    if |journal| <= ROLLBACK_DEPTH then journal else map h | h in journal && Newer(journal, h) :: journal[h]
  }

  predicate Newer(journal: map<nat, seq<Entry>>, h: nat) {
    exists older :: older in journal && older < h
  }

  /** The pool takes a spent output only while it has room. */
  function Pooled(decoys: map<nat, Utxo>, e: Entry): map<nat, Utxo> {
    if |decoys| < DECOY_LIMIT then decoys[e.member := e.utxo] else decoys
  }

  function Without(v: View, member: nat): View
    requires member in v.byPub
  {
    v.(byPub := v.byPub - {member}, active := v.active - {v.byPub[member].key})
  }

  /** Remove a spent output, write it into the journal and, while there is room, into the pool. */
  function Consume(s: Set, height: nat, member: nat): Set
    requires member in s.view.byPub
  {
    var e := Entry(member, s.view.byPub[member]);
    s.(view := Without(s.view, member),
       decoys := Pooled(s.decoys, e), journal := Pruned(Appended(s.journal, height, e)), spent := s.spent + {e.utxo.key})
  }

  function SpendInput(s: Set, height: nat, kind: Kind, input: Input): Set {
    var marked := s.(view := s.view.(images := s.view.images + {input.image}));
    var member := if kind.Hidden? then None else Resolve(s.view.byPub, Members(kind, input), input.commit);
    if member.None? then marked else Consume(marked, height, member.value)
  }

  function SpendInputs(s: Set, height: nat, kind: Kind, inputs: seq<Input>): Set {
    if |inputs| == 0 then s
    else SpendInput(SpendInputs(s, height, kind, inputs[..|inputs| - 1]), height, kind, inputs[|inputs| - 1])
  }

  // ---- Creating outputs ----

  function UtxoOf(tx: Tx, i: nat): Utxo
    requires i < |tx.outputs|
  {
    Utxo(Key(tx.id, i), tx.outputs[i].pub, tx.outputs[i].commit, tx.kind.Fund?)
  }

  /** The output leaves both indexes; the key that leaves the second is its own public key. */
  function Drop(v: View, k: Key): View {
    if k in v.active then v.(byPub := v.byPub - {v.active[k].pub}, active := v.active - {k}) else v
  }

  predicate Tracks(s: Set, height: nat) {
    s.activation != 0 && s.activation <= height
  }

  /** A new unlocked output enters the recency list, which may push the oldest one out of the set. */
  function Track(s: Set, height: nat, key: Key): Set {
    if (key in s.view.active && s.view.active[key].locked) || !Tracks(s, height) then s
    else
      var list := s.recent + [key];
      if |list| <= RECENT_LIMIT then s.(recent := list) else s.(recent := list[1..], view := Drop(s.view, list[0]))
  }

  function Placed(v: View, utxo: Utxo): View {
    v.(active := v.active[utxo.key := utxo], byPub := if utxo.locked then v.byPub else v.byPub[utxo.pub := utxo])
  }

  function AddOutput(s: Set, height: nat, utxo: Utxo): Set {
    Track(s.(view := Placed(s.view, utxo)), height, utxo.key)
  }

  function AddOutputs(s: Set, height: nat, tx: Tx, n: nat): Set
    requires n <= |tx.outputs|
  {
    if n == 0 then s else AddOutput(AddOutputs(s, height, tx, n - 1), height, UtxoOf(tx, n - 1))
  }

  function MarkProof(s: Set, kind: Kind): Set {
    if kind.Stake? && kind.proof.Some? then s.(view := s.view.(images := s.view.images + {kind.proof.value})) else s
  }

  function ApplyTx(s: Set, height: nat, tx: Tx): Set {
    AddOutputs(MarkProof(SpendInputs(s, height, tx.kind, tx.inputs), tx.kind), height, tx, |tx.outputs|)
  }

  function ApplyTxs(s: Set, height: nat, txs: seq<Tx>): Set {
    if |txs| == 0 then s else ApplyTx(ApplyTxs(s, height, txs[..|txs| - 1]), height, txs[|txs| - 1])
  }

  // ---- Rollback ----

  /** Step one: spends come back from the journal and leave the pool. */
  function RestoreEntries(s: Set, entries: seq<Entry>): Set {
    if |entries| == 0 then s
    else
      var before, e := RestoreEntries(s, entries[..|entries| - 1]), entries[|entries| - 1];
      before.(view := before.view.(active := before.view.active[e.utxo.key := e.utxo], byPub := before.view.byPub[e.member := e.utxo]),
              decoys := before.decoys - {e.member}, spent := before.spent - {e.utxo.key})
  }

  /** The ring member that the fallback would bring back for an input: the first one in the pool
  under the input's commitment, unless a journaled member comes first. */
  function Fallback(members: seq<nat>, restored: set<nat>, decoys: map<nat, Utxo>, commit: nat): (r: Option<nat>)
    ensures r.Some? ==> r.value in decoys && r.value !in restored && r.value in members
  {
    if |members| == 0 || members[0] in restored then None
    else if members[0] in decoys && decoys[members[0]].commit == commit then Some(members[0])
    else Fallback(members[1..], restored, decoys, commit)
  }

  function Revive(s: Set, member: nat): Set
    requires member in s.decoys
  {
    var u := s.decoys[member];
    s.(view := s.view.(active := s.view.active[u.key := u], byPub := s.view.byPub[member := u]),
       decoys := s.decoys - {member}, spent := s.spent - {u.key})
  }

  function UndoInput(s: Set, restored: set<nat>, kind: Kind, input: Input): Set {
    var member := Fallback(Members(kind, input), restored, s.decoys, input.commit);
    var unmarked := s.(view := s.view.(images := s.view.images - {input.image}));
    if member.None? then unmarked else Revive(unmarked, member.value)
  }

  function UndoInputs(s: Set, restored: set<nat>, kind: Kind, inputs: seq<Input>): Set {
    if |inputs| == 0 then s
    else UndoInput(UndoInputs(s, restored, kind, inputs[..|inputs| - 1]), restored, kind, inputs[|inputs| - 1])
  }

  function TxKeys(tx: Tx): set<Key> {
    set i | 0 <= i < |tx.outputs| :: Key(tx.id, i)
  }

  function TxPubs(tx: Tx): set<nat> {
    set i | 0 <= i < |tx.outputs| :: tx.outputs[i].pub
  }

  function Unproved(s: Set, kind: Kind): Set {
    if kind.Stake? && kind.proof.Some? then s.(view := s.view.(images := s.view.images - {kind.proof.value})) else s
  }

  /** Step two, one transaction: its outputs go, then its inputs are unmarked. */
  function UndoTx(s: Set, restored: set<nat>, tx: Tx): Set {
    var erased := s.(view := s.view.(active := s.view.active - TxKeys(tx), byPub := s.view.byPub - TxPubs(tx)));
    Unproved(UndoInputs(erased, restored, tx.kind, tx.inputs), tx.kind)
  }

  function UndoTxs(s: Set, restored: set<nat>, txs: seq<Tx>): Set {
    if |txs| == 0 then s else UndoTx(UndoTxs(s, restored, txs[..|txs| - 1]), restored, txs[|txs| - 1])
  }

  function Entries(s: Set, height: nat): seq<Entry> {
    if height in s.journal then s.journal[height] else []
  }

  function EntryKeys(entries: seq<Entry>): set<Key> {
    set e | e in entries :: e.utxo.key
  }

  function EntryMembers(entries: seq<Entry>): set<nat> {
    set e | e in entries :: e.member
  }

  /** Undo a block; a failing index update leaves the persisted spent index as it was. */
  function RollbackBlock(s: Set, height: nat, txs: seq<Tx>, disk: bool): Set {
    var entries := Entries(s, height);
    var undone := UndoTxs(RestoreEntries(s, entries), EntryMembers(entries), txs);
    undone.(journal := s.journal - {height}, spent := if disk then undone.spent else s.spent)
  }

  // ---- What a block touches ----

  function InputImages(inputs: seq<Input>): set<nat> {
    if |inputs| == 0 then {} else InputImages(inputs[..|inputs| - 1]) + {inputs[|inputs| - 1].image}
  }

  function TxImages(tx: Tx): set<nat> {
    InputImages(tx.inputs) + (if tx.kind.Stake? && tx.kind.proof.Some? then {tx.kind.proof.value} else {})
  }

  function Images(txs: seq<Tx>): set<nat> {
    if |txs| == 0 then {} else Images(txs[..|txs| - 1]) + TxImages(txs[|txs| - 1])
  }

  function Keys(txs: seq<Tx>): set<Key> {
    if |txs| == 0 then {} else Keys(txs[..|txs| - 1]) + TxKeys(txs[|txs| - 1])
  }

  function Pubs(txs: seq<Tx>): set<nat> {
    if |txs| == 0 then {} else Pubs(txs[..|txs| - 1]) + TxPubs(txs[|txs| - 1])
  }

  /** The first `n` outputs of a transaction as they enter the recency list. */
  function TxTracked(tx: Tx, n: nat): (r: seq<Key>)
    ensures |r| <= n
  {
    if n == 0 || tx.kind.Fund? then [] else TxTracked(tx, n - 1) + [Key(tx.id, n - 1)]
  }

  function Tracked(txs: seq<Tx>): seq<Key> {
    if |txs| == 0 then [] else Tracked(txs[..|txs| - 1]) + TxTracked(txs[|txs| - 1], |txs[|txs| - 1].outputs|)
  }

  /** What leaves a list that may hold at most the limit. */
  function Overflow(list: seq<Key>): seq<Key> {
    if |list| <= RECENT_LIMIT then [] else list[..|list| - RECENT_LIMIT]
  }

  function Newest(list: seq<Key>): seq<Key> {
    if |list| <= RECENT_LIMIT then list else list[|list| - RECENT_LIMIT..]
  }

  // ---- Pass one of apply: validation against the set before the block ----

  /** Key images and outputs claimed by earlier inputs of the block. */
  datatype Reserved = Reserved(images: set<nat>, keys: set<Key>)

  function ClaimImage(v: View, image: nat, r: Reserved): Option<Reserved> {
    if image in v.images || image in r.images then None else Some(r.(images := r.images + {image}))
  }

  /** The first ring member with a matching output that no earlier input claimed. */
  function Unclaimed(v: View, ring: seq<nat>, commit: nat, keys: set<Key>): (r: Option<Key>)
    ensures r.Some? ==> r.value !in keys
  {
    if |ring| == 0 then None
    else if ring[0] in v.byPub && v.byPub[ring[0]].commit == commit && v.byPub[ring[0]].key !in keys then Some(v.byPub[ring[0]].key)
    else Unclaimed(v, ring[1..], commit, keys)
  }

  function CheckInput(v: View, kind: Kind, input: Input, r: Reserved): Option<Reserved> {
    if kind.Revealed? && input.realIndex >= |input.ring| then None
    else
      var claimed := ClaimImage(v, input.image, r);
      if claimed.None? || kind.Hidden? then claimed
      else
        var ring := if kind.Revealed? then [input.ring[input.realIndex]] else input.ring;
        var key := Unclaimed(v, ring, input.commit, r.keys);
        if key.None? then None else Some(claimed.value.(keys := claimed.value.keys + {key.value}))
  }

  function CheckInputs(v: View, kind: Kind, inputs: seq<Input>, r: Reserved): Option<Reserved> {
    if |inputs| == 0 then Some(r)
    else
      var before := CheckInputs(v, kind, inputs[..|inputs| - 1], r);
      if before.None? then None else CheckInput(v, kind, inputs[|inputs| - 1], before.value)
  }

  function CheckTx(v: View, tx: Tx, r: Reserved): Option<Reserved> {
    if tx.kind.Stake? && tx.kind.proof.Some? then ClaimImage(v, tx.kind.proof.value, r)
    else if tx.kind.Coinbase? || tx.kind.Stake? then Some(r)
    else CheckInputs(v, tx.kind, tx.inputs, r)
  }

  function CheckTxs(v: View, txs: seq<Tx>): Option<Reserved> {
    if |txs| == 0 then Some(Reserved({}, {}))
    else
      var before := CheckTxs(v, txs[..|txs| - 1]);
      if before.None? then None else CheckTx(v, txs[|txs| - 1], before.value)
  }

  /** Coinbase and stake transactions have no ring inputs. */
  predicate Plain(txs: seq<Tx>) {
    forall tx :: tx in txs && (tx.kind.Coinbase? || tx.kind.Stake?) ==> tx.inputs == []
  }

  /** The key images of a list in order of appearance. */
  function ImageList(inputs: seq<Input>): seq<nat> {
    if |inputs| == 0 then [] else ImageList(inputs[..|inputs| - 1]) + [inputs[|inputs| - 1].image]
  }

  function BlockImages(txs: seq<Tx>): seq<nat> {
    if |txs| == 0 then []
    else
      var tx := txs[|txs| - 1];
      BlockImages(txs[..|txs| - 1]) + ImageList(tx.inputs) + (if tx.kind.Stake? && tx.kind.proof.Some? then [tx.kind.proof.value] else [])
  }

  ghost predicate NoRepeat(s: seq<nat>) {
    forall i, j :: 0 <= i < j < |s| ==> s[i] != s[j]
  }

  /** `claimed` lists exactly the reserved images, each once and none spent before. */
  ghost predicate Claims(v: View, r: Reserved, claimed: seq<nat>) {
    && NoRepeat(claimed) && (forall x :: x in claimed <==> x in r.images) && r.images !! v.images
  }

  lemma ClaimOne(v: View, image: nat, r: Reserved, claimed: seq<nat>)
    requires Claims(v, r, claimed) && ClaimImage(v, image, r).Some?
    ensures Claims(v, ClaimImage(v, image, r).value, claimed + [image])
  {
  }

  lemma {:induction false} ClaimInputs(v: View, kind: Kind, inputs: seq<Input>, r: Reserved, claimed: seq<nat>)
    requires Claims(v, r, claimed) && CheckInputs(v, kind, inputs, r).Some?
    ensures Claims(v, CheckInputs(v, kind, inputs, r).value, claimed + ImageList(inputs))
  {
    if |inputs| == 0 {
      assert claimed + [] == claimed;
    } else {
      var init, input := inputs[..|inputs| - 1], inputs[|inputs| - 1];
      ClaimInputs(v, kind, init, r, claimed);
      ClaimOne(v, input.image, CheckInputs(v, kind, init, r).value, claimed + ImageList(init));
      assert claimed + ImageList(inputs) == claimed + ImageList(init) + [input.image];
    }
  }

  /** A validated block spends no key image that is spent already, and none twice. */
  lemma {:induction false} CheckedImages(v: View, txs: seq<Tx>)
    requires CheckTxs(v, txs).Some? && Plain(txs)
    ensures Claims(v, CheckTxs(v, txs).value, BlockImages(txs))
    ensures NoRepeat(BlockImages(txs)) && forall x :: x in BlockImages(txs) ==> x !in v.images
  {
    if |txs| > 0 {
      var init, tx := txs[..|txs| - 1], txs[|txs| - 1];
      assert tx in txs && forall t :: t in init ==> t in txs;
      CheckedImages(v, init);
      var r := CheckTxs(v, init).value;
      if tx.kind.Stake? && tx.kind.proof.Some? {
        ClaimOne(v, tx.kind.proof.value, r, BlockImages(init));
        assert BlockImages(txs) == BlockImages(init) + [tx.kind.proof.value];
      } else if tx.kind.Coinbase? || tx.kind.Stake? {
        assert BlockImages(txs) == BlockImages(init);
      } else {
        ClaimInputs(v, tx.kind, tx.inputs, r, BlockImages(init));
        assert BlockImages(txs) == BlockImages(init) + ImageList(tx.inputs);
      }
    }
  }

  lemma {:induction false} ImagesListed(txs: seq<Tx>)
    ensures forall x :: x in Images(txs) <==> x in BlockImages(txs)
  {
    if |txs| > 0 {
      ImagesListed(txs[..|txs| - 1]);
      InputImagesListed(txs[|txs| - 1].inputs);
    }
  }

  lemma {:induction false} InputImagesListed(inputs: seq<Input>)
    ensures forall x :: x in InputImages(inputs) <==> x in ImageList(inputs)
  {
    if |inputs| > 0 {
      InputImagesListed(inputs[..|inputs| - 1]);
    }
  }

  lemma CheckedFresh(v: View, txs: seq<Tx>)
    requires CheckTxs(v, txs).Some? && Plain(txs)
    ensures Images(txs) !! v.images
  {
    CheckedImages(v, txs);
    ImagesListed(txs);
  }
}
