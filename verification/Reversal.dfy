/** What a block leaves behind in the unspent-output set, and exactly when rolling it back
restores what was there before. */
module Reversal {
  import opened Options
  import opened Utxos

  /** The output keys and public keys of a whole block. */
  datatype Created = Created(keys: set<Key>, pubs: set<nat>)

  function CreatedIn(txs: seq<Tx>): Created {
    Created(Keys(txs), Pubs(txs))
  }

  // ---- The record a block leaves ----

  ghost predicate Shaped(v: View) {
    && (forall k :: k in v.active ==> v.active[k].key == k)
    && (forall p :: p in v.byPub ==> v.byPub[p].pub == p)
  }

  /** Every indexed output is the active one, unless its key is excepted. */
  ghost predicate Tied(v: View, except: set<Key>) {
    forall p :: p in v.byPub ==> v.byPub[p].key in except || (v.byPub[p].key in v.active && v.active[v.byPub[p].key] == v.byPub[p])
  }

  ghost predicate ActiveOld(before: View, v: View, c: Created) {
    forall k :: k in v.active ==>
      (k in before.active && v.active[k] == before.active[k]) || (k in c.keys && v.active[k].pub in c.pubs)
  }

  ghost predicate ActiveGone(before: View, v: View, entries: seq<Entry>, dropped: seq<Key>, c: Created) {
    forall k :: k in before.active && k !in v.active ==> k in c.keys || k in EntryKeys(entries) || k in dropped
  }

  ghost predicate DroppedGone(v: View, entries: seq<Entry>, dropped: seq<Key>, c: Created) {
    forall k :: k in dropped ==> k in c.keys || k in EntryKeys(entries) || k !in v.active
  }

  ghost predicate EntryOld(before: View, e: Entry, c: Created) {
    && e.member == e.utxo.pub
    && (e.utxo.key in c.keys || (e.utxo.key in before.active && before.active[e.utxo.key] == e.utxo))
    && (e.member in c.pubs || (e.member in before.byPub && before.byPub[e.member] == e.utxo))
  }

  ghost predicate EntriesOld(before: View, entries: seq<Entry>, c: Created) {
    forall e :: e in entries ==> EntryOld(before, e, c)
  }

  ghost predicate PubsOld(before: View, v: View, c: Created) {
    forall p :: p in v.byPub ==> p in c.pubs || (p in before.byPub && v.byPub[p] == before.byPub[p])
  }

  /** An output under this public key fell off the recency list. */
  ghost predicate PubDropped(before: View, dropped: seq<Key>, p: nat) {
    exists k :: k in dropped && k in before.active && before.active[k].pub == p
  }

  ghost predicate PubsGone(before: View, v: View, entries: seq<Entry>, dropped: seq<Key>, c: Created) {
    forall p :: p in before.byPub && p !in v.byPub ==> p in c.pubs || p in EntryMembers(entries) || PubDropped(before, dropped, p)
  }

  /** A dropped output has lost its public-key entry with it. */
  ghost predicate DroppedUnindexed(before: View, v: View, entries: seq<Entry>, dropped: seq<Key>, c: Created) {
    forall k :: k in dropped && k in before.active && k !in c.keys && k !in EntryKeys(entries) ==>
      before.active[k].pub !in v.byPub || before.active[k].pub in c.pubs
  }

  /** Every difference between two views is explained by the journal, by the recency list or by
  the outputs of the block. */
  ghost predicate Explained(before: View, v: View, entries: seq<Entry>, dropped: seq<Key>, c: Created) {
    && Shaped(v) && Tied(v, c.keys) && v.staked == before.staked
    && ActiveOld(before, v, c) && ActiveGone(before, v, entries, dropped, c) && DroppedGone(v, entries, dropped, c)
    && EntriesOld(before, entries, c) && PubsOld(before, v, c) && PubsGone(before, v, entries, dropped, c)
    && DroppedUnindexed(before, v, entries, dropped, c)
  }

  lemma KeysSnoc(entries: seq<Entry>, e: Entry)
    ensures EntryKeys(entries + [e]) == EntryKeys(entries) + {e.utxo.key}
    ensures EntryMembers(entries + [e]) == EntryMembers(entries) + {e.member}
  {
    assert forall x :: x in entries + [e] <==> x in entries || x == e;
  }

  lemma SpendExplained(before: View, v: View, entries: seq<Entry>, dropped: seq<Key>, c: Created, member: nat)
    requires Explained(before, v, entries, dropped, c) && member in v.byPub
    ensures Explained(before, Without(v, member), entries + [Entry(member, v.byPub[member])], dropped, c)
  {
    var e := Entry(member, v.byPub[member]);
    KeysSnoc(entries, e);
    assert EntryOld(before, e, c);
    assert forall x :: x in entries + [e] <==> x in entries || x == e;
    assert Tied(Without(v, member), c.keys);
  }

  lemma PlaceExplained(before: View, v: View, entries: seq<Entry>, dropped: seq<Key>, c: Created, u: Utxo)
    requires Explained(before, v, entries, dropped, c) && u.key in c.keys && u.pub in c.pubs
    ensures Explained(before, Placed(v, u), entries, dropped, c)
  {
  }

  lemma DropExplained(before: View, v: View, entries: seq<Entry>, dropped: seq<Key>, c: Created, k: Key)
    requires Explained(before, v, entries, dropped, c)
    ensures Explained(before, Drop(v, k), entries, dropped + [k], c)
  {
    var w, all := Drop(v, k), dropped + [k];
    assert forall x :: x in all <==> x in dropped || x == k;
    forall p | p in before.byPub && p !in w.byPub
      ensures p in c.pubs || p in EntryMembers(entries) || PubDropped(before, all, p)
    {
      if PubDropped(before, dropped, p) {
        var x :| x in dropped && x in before.active && before.active[x].pub == p;
        assert x in all;
      } else if p in v.byPub {
        assert k in v.active && v.active[k].pub == p;
        assert k in all;
      }
    }
    assert Tied(w, c.keys) by {
      forall p | p in w.byPub && w.byPub[p].key !in c.keys
        ensures w.byPub[p].key in w.active && w.active[w.byPub[p].key] == w.byPub[p]
      {
        assert v.byPub[p].key in v.active;
      }
    }
  }

  // ---- Applying a block ----

  ghost predicate DecoysOld(before: map<nat, Utxo>, after: map<nat, Utxo>, entries: seq<Entry>) {
    && (forall p :: p in before ==> p in after)
    && (forall p :: p in after ==> p in EntryMembers(entries) || (p in before && after[p] == before[p]))
  }

  ghost predicate Upto(journal: map<nat, seq<Entry>>, height: nat) {
    forall h :: h in journal ==> h <= height
  }

  ghost predicate ViewTraced(s: Set, a: Set, height: nat, c: Created, list: seq<Key>) {
    Explained(s.view, a.view, Entries(a, height), Overflow(list), c)
  }

  ghost predicate RestTraced(s: Set, a: Set, height: nat, list: seq<Key>) {
    && a.recent == Newest(list) && a.activation == s.activation && Upto(a.journal, height)
    && DecoysOld(s.decoys, a.decoys, Entries(a, height)) && a.spent == s.spent + EntryKeys(Entries(a, height))
  }

  /** What applying part of a block has done: `list` is the recency list without its bound. */
  ghost predicate Traced(s: Set, a: Set, height: nat, c: Created, list: seq<Key>) {
    ViewTraced(s, a, height, c, list) && RestTraced(s, a, height, list)
  }

  lemma OtherHeight(journal: map<nat, seq<Entry>>, height: nat)
    requires |journal| > 1
    ensures journal.Keys - {height} != {}
  {
    assert journal.Keys <= {height} + (journal.Keys - {height});
    if journal.Keys <= {height} {
      SmallSet(journal.Keys, height);
    }
  }

  lemma SmallSet(keys: set<nat>, height: nat)
    requires keys <= {height}
    ensures |keys| <= 1
  {
    assert keys == {} || keys == {height};
  }

  lemma PrunedKeepsNewest(journal: map<nat, seq<Entry>>, height: nat)
    requires height in journal && Upto(journal, height)
    ensures height in Pruned(journal) && Pruned(journal)[height] == journal[height] && Upto(Pruned(journal), height)
  {
    if |journal| > ROLLBACK_DEPTH {
      OtherHeight(journal, height);
      var older :| older in journal.Keys - {height};
      assert older in journal && older < height;
    }
  }

  lemma DecoysSnoc(before: map<nat, Utxo>, after: map<nat, Utxo>, entries: seq<Entry>, e: Entry)
    requires DecoysOld(before, after, entries)
    ensures DecoysOld(before, Pooled(after, e), entries + [e])
  {
    KeysSnoc(entries, e);
  }

  lemma ConsumeEntries(a: Set, height: nat, member: nat)
    requires Upto(a.journal, height) && member in a.view.byPub
    ensures Entries(Consume(a, height, member), height) == Entries(a, height) + [Entry(member, a.view.byPub[member])]
    ensures Upto(Consume(a, height, member).journal, height)
  {
    PrunedKeepsNewest(Appended(a.journal, height, Entry(member, a.view.byPub[member])), height);
  }

  lemma ConsumeRest(s: Set, a: Set, height: nat, list: seq<Key>, member: nat)
    requires RestTraced(s, a, height, list) && member in a.view.byPub
    ensures RestTraced(s, Consume(a, height, member), height, list)
  {
    var e := Entry(member, a.view.byPub[member]);
    ConsumeEntries(a, height, member);
    DecoysSnoc(s.decoys, a.decoys, Entries(a, height), e);
    KeysSnoc(Entries(a, height), e);
  }

  lemma ConsumeTraced(s: Set, a: Set, height: nat, c: Created, list: seq<Key>, member: nat)
    requires Traced(s, a, height, c, list) && member in a.view.byPub
    ensures Traced(s, Consume(a, height, member), height, c, list)
  {
    ConsumeEntries(a, height, member);
    SpendExplained(s.view, a.view, Entries(a, height), Overflow(list), c, member);
    ConsumeRest(s, a, height, list, member);
  }

  lemma ImagesTraced(s: Set, a: Set, height: nat, c: Created, list: seq<Key>, images: set<nat>)
    requires Traced(s, a, height, c, list)
    ensures Traced(s, a.(view := a.view.(images := images)), height, c, list)
  {
    var v := a.view.(images := images);
    assert Entries(a.(view := v), height) == Entries(a, height);
    assert Explained(s.view, v, Entries(a, height), Overflow(list), c);
  }

  lemma SpendTraced(s: Set, a: Set, height: nat, c: Created, list: seq<Key>, kind: Kind, input: Input)
    requires Traced(s, a, height, c, list)
    ensures Traced(s, SpendInput(a, height, kind, input), height, c, list)
    ensures SpendInput(a, height, kind, input).view.images == a.view.images + {input.image}
  {
    ImagesTraced(s, a, height, c, list, a.view.images + {input.image});
    var marked := a.(view := a.view.(images := a.view.images + {input.image}));
    var member := if kind.Hidden? then None else Resolve(a.view.byPub, Members(kind, input), input.commit);
    if member.Some? {
      assert SpendInput(a, height, kind, input) == Consume(marked, height, member.value);
      ConsumeTraced(s, marked, height, c, list, member.value);
    }
  }

  lemma {:induction false} SpendsTraced(s: Set, a: Set, height: nat, c: Created, list: seq<Key>, kind: Kind, inputs: seq<Input>)
    requires Traced(s, a, height, c, list)
    ensures Traced(s, SpendInputs(a, height, kind, inputs), height, c, list)
    ensures SpendInputs(a, height, kind, inputs).view.images == a.view.images + InputImages(inputs)
  {
    if |inputs| > 0 {
      var init := inputs[..|inputs| - 1];
      SpendsTraced(s, a, height, c, list, kind, init);
      SpendTraced(s, SpendInputs(a, height, kind, init), height, c, list, kind, inputs[|inputs| - 1]);
    }
  }

  lemma NewestSnoc(list: seq<Key>, k: Key)
    ensures |list| < RECENT_LIMIT ==> Newest(list + [k]) == Newest(list) + [k] && Overflow(list + [k]) == Overflow(list) == []
    ensures |list| >= RECENT_LIMIT ==>
      && |Newest(list)| == RECENT_LIMIT && Newest(list + [k]) == (Newest(list) + [k])[1..]
      && Overflow(list + [k]) == Overflow(list) + [(Newest(list) + [k])[0]]
  {
  }

  /** The recency list after one more output. */
  function ListedAfter(s: Set, height: nat, list: seq<Key>, u: Utxo): seq<Key> {
    if u.locked || !Tracks(s, height) then list else list + [u.key]
  }

  lemma AddTraced(s: Set, a: Set, height: nat, c: Created, list: seq<Key>, u: Utxo)
    requires Traced(s, a, height, c, list) && u.key in c.keys && u.pub in c.pubs
    ensures Traced(s, AddOutput(a, height, u), height, c, ListedAfter(s, height, list, u))
  {
    var v := Placed(a.view, u);
    PlaceExplained(s.view, a.view, Entries(a, height), Overflow(list), c, u);
    assert Entries(AddOutput(a, height, u), height) == Entries(a, height);
    if !u.locked && Tracks(s, height) {
      NewestSnoc(list, u.key);
      if |list| >= RECENT_LIMIT {
        DropExplained(s.view, v, Entries(a, height), Overflow(list), c, (Newest(list) + [u.key])[0]);
      }
    }
  }

  /** The recency list, without its bound, after a list of transactions. */
  function Listed(s: Set, height: nat, keys: seq<Key>): seq<Key> {
    if Tracks(s, height) then s.recent + keys else s.recent
  }

  lemma ListedSnoc(s: Set, height: nat, keys: seq<Key>, tx: Tx, n: nat)
    requires 0 < n <= |tx.outputs|
    ensures ListedAfter(s, height, Listed(s, height, keys + TxTracked(tx, n - 1)), UtxoOf(tx, n - 1)) == Listed(s, height, keys + TxTracked(tx, n))
  {
    if tx.kind.Fund? {
    } else {
      assert keys + TxTracked(tx, n) == (keys + TxTracked(tx, n - 1)) + [Key(tx.id, n - 1)];
      assert s.recent + (keys + TxTracked(tx, n)) == (s.recent + (keys + TxTracked(tx, n - 1))) + [Key(tx.id, n - 1)];
    }
  }

  lemma AddTxTraced(s: Set, a: Set, height: nat, c: Created, keys: seq<Key>, tx: Tx, n: nat)
    requires 0 < n <= |tx.outputs| && TxKeys(tx) <= c.keys && TxPubs(tx) <= c.pubs
    requires Traced(s, a, height, c, Listed(s, height, keys + TxTracked(tx, n - 1)))
    ensures Traced(s, AddOutput(a, height, UtxoOf(tx, n - 1)), height, c, Listed(s, height, keys + TxTracked(tx, n)))
  {
    var u := UtxoOf(tx, n - 1);
    assert u.key in TxKeys(tx) && u.pub in TxPubs(tx);
    AddTraced(s, a, height, c, Listed(s, height, keys + TxTracked(tx, n - 1)), u);
    ListedSnoc(s, height, keys, tx, n);
  }

  /** What each added output keeps holds after all of them. */
  lemma {:induction false} AddsKeep(a: Set, height: nat, tx: Tx, n: nat, holds: (Set, nat) -> bool)
    requires n <= |tx.outputs| && holds(a, 0)
    requires forall b: Set, m: nat :: m < |tx.outputs| && holds(b, m) ==> holds(AddOutput(b, height, UtxoOf(tx, m)), m + 1)
    ensures holds(AddOutputs(a, height, tx, n), n)
    decreases n
  {
    if n > 0 {
      AddsKeep(a, height, tx, n - 1, holds);
    }
  }

  lemma AddsTraced(s: Set, a: Set, height: nat, c: Created, keys: seq<Key>, tx: Tx, n: nat)
    requires Traced(s, a, height, c, Listed(s, height, keys)) && n <= |tx.outputs|
    requires TxKeys(tx) <= c.keys && TxPubs(tx) <= c.pubs
    ensures Traced(s, AddOutputs(a, height, tx, n), height, c, Listed(s, height, keys + TxTracked(tx, n)))
  {
    var holds := (b: Set, m: nat) => Traced(s, b, height, c, Listed(s, height, keys + TxTracked(tx, m)));
    assert keys + TxTracked(tx, 0) == keys;
    forall b: Set, m: nat | m < |tx.outputs| && holds(b, m) ensures holds(AddOutput(b, height, UtxoOf(tx, m)), m + 1) {
      AddTxTraced(s, b, height, c, keys, tx, m + 1);
    }
    AddsKeep(a, height, tx, n, holds);
  }

  lemma {:induction false} AddsKeepImages(a: Set, height: nat, tx: Tx, n: nat)
    requires n <= |tx.outputs|
    ensures AddOutputs(a, height, tx, n).view.images == a.view.images
  {
    if n > 0 {
      AddsKeepImages(a, height, tx, n - 1);
    }
  }

  lemma TxTraced(s: Set, a: Set, height: nat, c: Created, keys: seq<Key>, tx: Tx)
    requires Traced(s, a, height, c, Listed(s, height, keys)) && TxKeys(tx) <= c.keys && TxPubs(tx) <= c.pubs
    ensures Traced(s, ApplyTx(a, height, tx), height, c, Listed(s, height, keys + TxTracked(tx, |tx.outputs|)))
    ensures ApplyTx(a, height, tx).view.images == a.view.images + TxImages(tx)
  {
    SpendsTraced(s, a, height, c, Listed(s, height, keys), tx.kind, tx.inputs);
    var spent := SpendInputs(a, height, tx.kind, tx.inputs);
    var marked := MarkProof(spent, tx.kind);
    ImagesTraced(s, spent, height, c, Listed(s, height, keys), marked.view.images);
    assert marked == spent.(view := spent.view.(images := marked.view.images));
    AddsTraced(s, marked, height, c, keys, tx, |tx.outputs|);
    AddsKeepImages(marked, height, tx, |tx.outputs|);
  }

  /** The state every operation of the set keeps: both indexes agree, no spent output is active, the
  recency list is within its bound and the journal is older than the next block. */
  ghost predicate Sound(s: Set, height: nat) {
    && Shaped(s.view) && Tied(s.view, {}) && Apart(s)
    && |s.recent| <= RECENT_LIMIT && (forall h :: h in s.journal ==> h < height)
  }

  ghost predicate Apart(s: Set) {
    && (forall p :: p in s.decoys ==> s.decoys[p].key !in s.view.active)
    && s.spent !! s.view.active.Keys
  }

  lemma {:induction false} PrefixTraced(s: Set, height: nat, c: Created, txs: seq<Tx>)
    requires Sound(s, height) && Keys(txs) <= c.keys && Pubs(txs) <= c.pubs
    ensures Traced(s, ApplyTxs(s, height, txs), height, c, Listed(s, height, Tracked(txs)))
    ensures ApplyTxs(s, height, txs).view.images == s.view.images + Images(txs)
  {
    if |txs| == 0 {
      assert Entries(s, height) == [] && s.recent + [] == s.recent;
      assert Explained(s.view, s.view, [], [], c);
    } else {
      var init, tx := txs[..|txs| - 1], txs[|txs| - 1];
      PrefixTraced(s, height, c, init);
      TxTraced(s, ApplyTxs(s, height, init), height, c, Tracked(init), tx);
    }
  }

  /** The keys that a block pushes off the recency list. */
  function Evicted(s: Set, height: nat, txs: seq<Tx>): seq<Key> {
    Overflow(Listed(s, height, Tracked(txs)))
  }

  /** Applying a block: every difference to the indexes is in the journal, fell off the recency
  list or belongs to an output of the block; the decoy pool keeps what it had. */
  lemma ApplyExplained(s: Set, height: nat, txs: seq<Tx>)
    requires Sound(s, height)
    ensures
      var a := ApplyTxs(s, height, txs);
      var entries := Entries(a, height);
      && Explained(s.view, a.view, entries, Evicted(s, height, txs), CreatedIn(txs))
      && DecoysOld(s.decoys, a.decoys, entries) && a.spent == s.spent + EntryKeys(entries)
      && a.view.images == s.view.images + Images(txs)
      && a.recent == Newest(Listed(s, height, Tracked(txs))) && a.activation == s.activation && Upto(a.journal, height)
  {
    PrefixTraced(s, height, CreatedIn(txs), txs);
  }

  // ---- Rolling back ----

  /** The fallback brings nothing back for these inputs. */
  ghost predicate QuietInputs(kind: Kind, inputs: seq<Input>, restored: set<nat>, decoys: map<nat, Utxo>) {
    forall i :: 0 <= i < |inputs| ==> Fallback(Members(kind, inputs[i]), restored, decoys, inputs[i].commit).None?
  }

  ghost predicate Quiet(txs: seq<Tx>, restored: set<nat>, decoys: map<nat, Utxo>) {
    forall i :: 0 <= i < |txs| ==> QuietInputs(txs[i].kind, txs[i].inputs, restored, decoys)
  }

  /** Step two when the fallback stays quiet. */
  function Erased(v: View, txs: seq<Tx>): View {
    v.(active := v.active - Keys(txs), byPub := v.byPub - Pubs(txs), images := v.images - Images(txs))
  }

  lemma {:induction false} UndoInputsQuiet(t: Set, restored: set<nat>, kind: Kind, inputs: seq<Input>)
    requires QuietInputs(kind, inputs, restored, t.decoys)
    ensures UndoInputs(t, restored, kind, inputs) == t.(view := t.view.(images := t.view.images - InputImages(inputs)))
  {
    if |inputs| == 0 {
      assert t.view.images - {} == t.view.images;
    } else {
      var init, input := inputs[..|inputs| - 1], inputs[|inputs| - 1];
      assert forall i :: 0 <= i < |init| ==> init[i] == inputs[i];
      UndoInputsQuiet(t, restored, kind, init);
      assert Fallback(Members(kind, input), restored, t.decoys, input.commit).None?;
      assert t.view.images - InputImages(init) - {input.image} == t.view.images - InputImages(inputs);
    }
  }

  lemma UndoTxQuiet(t: Set, restored: set<nat>, tx: Tx)
    requires QuietInputs(tx.kind, tx.inputs, restored, t.decoys)
    ensures UndoTx(t, restored, tx) == t.(view := t.view.(active := t.view.active - TxKeys(tx),
                                                          byPub := t.view.byPub - TxPubs(tx), images := t.view.images - TxImages(tx)))
  {
    var erased := t.(view := t.view.(active := t.view.active - TxKeys(tx), byPub := t.view.byPub - TxPubs(tx)));
    UndoInputsQuiet(erased, restored, tx.kind, tx.inputs);
    assert UndoTx(t, restored, tx).view.images == t.view.images - TxImages(tx);
  }

  lemma MinusMinus<K, V>(m: map<K, V>, a: set<K>, b: set<K>)
    ensures (m - a) - b == m - (a + b)
  {
  }

  lemma {:induction false} UndoQuiet(t: Set, restored: set<nat>, txs: seq<Tx>)
    requires Quiet(txs, restored, t.decoys)
    ensures UndoTxs(t, restored, txs) == t.(view := Erased(t.view, txs))
  {
    if |txs| == 0 {
      assert Erased(t.view, txs) == t.view;
    } else {
      var init, tx := txs[..|txs| - 1], txs[|txs| - 1];
      assert forall i :: 0 <= i < |init| ==> init[i] == txs[i];
      UndoQuiet(t, restored, init);
      UndoTxQuiet(t.(view := Erased(t.view, init)), restored, tx);
      MinusMinus(t.view.active, Keys(init), TxKeys(tx));
      MinusMinus(t.view.byPub, Pubs(init), TxPubs(tx));
      assert t.view.images - Images(init) - TxImages(tx) == t.view.images - Images(txs);
    }
  }

  /** An output of the pool is active again. */
  ghost predicate Revived(pool: map<nat, Utxo>, v: View) {
    exists p :: p in pool && pool[p].key in v.active
  }

  ghost predicate Within(decoys: map<nat, Utxo>, pool: map<nat, Utxo>) {
    forall p :: p in decoys ==> p in pool && pool[p] == decoys[p]
  }

  /** The pool is whole, or one of its outputs is active. */
  ghost predicate Pool(pool: map<nat, Utxo>, t: Set) {
    Within(t.decoys, pool) && (t.decoys == pool || Revived(pool, t.view))
  }

  lemma {:induction false} UndoInputsPool(t: Set, restored: set<nat>, kind: Kind, inputs: seq<Input>, pool: map<nat, Utxo>)
    requires Pool(pool, t)
    ensures Pool(pool, UndoInputs(t, restored, kind, inputs))
    ensures !Revived(pool, UndoInputs(t, restored, kind, inputs).view) ==>
      !Revived(pool, t.view) && QuietInputs(kind, inputs, restored, pool)
    ensures UndoInputs(t, restored, kind, inputs).view.staked == t.view.staked
  {
    if |inputs| > 0 {
      var init, input := inputs[..|inputs| - 1], inputs[|inputs| - 1];
      UndoInputsPool(t, restored, kind, init, pool);
      UndoInputPool(UndoInputs(t, restored, kind, init), restored, kind, input, pool);
      assert forall i :: 0 <= i < |init| ==> init[i] == inputs[i];
    }
  }

  lemma UndoInputPool(t: Set, restored: set<nat>, kind: Kind, input: Input, pool: map<nat, Utxo>)
    requires Pool(pool, t)
    ensures Pool(pool, UndoInput(t, restored, kind, input))
    ensures !Revived(pool, UndoInput(t, restored, kind, input).view) ==>
      !Revived(pool, t.view) && Fallback(Members(kind, input), restored, pool, input.commit).None?
    ensures UndoInput(t, restored, kind, input).view.staked == t.view.staked
  {
    var u := UndoInput(t, restored, kind, input);
    assert forall k :: k in t.view.active ==> k in u.view.active;
    var member := Fallback(Members(kind, input), restored, t.decoys, input.commit);
    if member.Some? {
      assert pool[member.value].key in u.view.active;
    }
  }

  lemma UndoTxPool(t: Set, restored: set<nat>, tx: Tx, pool: map<nat, Utxo>)
    requires Pool(pool, t) && forall p :: p in pool ==> pool[p].key !in TxKeys(tx)
    ensures Pool(pool, UndoTx(t, restored, tx)) && UndoTx(t, restored, tx).view.staked == t.view.staked
    ensures !Revived(pool, UndoTx(t, restored, tx).view) ==>
      !Revived(pool, t.view) && QuietInputs(tx.kind, tx.inputs, restored, pool)
  {
    var erased := t.(view := t.view.(active := t.view.active - TxKeys(tx), byPub := t.view.byPub - TxPubs(tx)));
    assert Revived(pool, t.view) ==> Revived(pool, erased.view) by {
      if Revived(pool, t.view) {
        var p :| p in pool && pool[p].key in t.view.active;
        assert pool[p].key in erased.view.active;
      }
    }
    UndoInputsPool(erased, restored, tx.kind, tx.inputs, pool);
  }

  lemma {:induction false} UndoPool(t: Set, restored: set<nat>, txs: seq<Tx>)
    requires forall p :: p in t.decoys ==> t.decoys[p].key !in Keys(txs)
    ensures Pool(t.decoys, UndoTxs(t, restored, txs)) && UndoTxs(t, restored, txs).view.staked == t.view.staked
    ensures !Revived(t.decoys, UndoTxs(t, restored, txs).view) ==> Quiet(txs, restored, t.decoys)
  {
    if |txs| > 0 {
      var init := txs[..|txs| - 1];
      UndoPool(t, restored, init);
      UndoTxPool(UndoTxs(t, restored, init), restored, txs[|txs| - 1], t.decoys);
      assert forall i :: 0 <= i < |init| ==> init[i] == txs[i];
    }
  }

  // ---- Step one, entry by entry ----

  function At<K, V>(m: map<K, V>, k: K): Option<V> {
    if k in m then Some(m[k]) else None
  }

  lemma SameMaps<K, V>(m: map<K, V>, n: map<K, V>)
    requires forall k :: At(m, k) == At(n, k)
    ensures m == n
  {
    forall k ensures k in m <==> k in n {
      assert At(m, k) == At(n, k);
    }
    forall k | k in m ensures m[k] == n[k] {
      assert At(m, k) == At(n, k);
    }
  }

  ghost predicate JournaledKey(entries: seq<Entry>, k: Key, u: Utxo) {
    exists e :: e in entries && e.utxo.key == k && e.utxo == u
  }

  ghost predicate JournaledMember(entries: seq<Entry>, p: nat, u: Utxo) {
    exists e :: e in entries && e.member == p && e.utxo == u
  }

  lemma {:induction false} RestoredRest(s: Set, entries: seq<Entry>)
    ensures
      var r := RestoreEntries(s, entries);
      && r.decoys == s.decoys - EntryMembers(entries) && r.spent == s.spent - EntryKeys(entries)
      && r.view.images == s.view.images && r.view.staked == s.view.staked
      && r.recent == s.recent && r.activation == s.activation && r.journal == s.journal
  {
    if |entries| == 0 {
      assert s.decoys - {} == s.decoys;
    } else {
      var init, e := entries[..|entries| - 1], entries[|entries| - 1];
      RestoredRest(s, init);
      assert entries == init + [e];
      KeysSnoc(init, e);
      MinusMinus(s.decoys, EntryMembers(init), {e.member});
      assert s.spent - EntryKeys(init) - {e.utxo.key} == s.spent - EntryKeys(entries);
    }
  }

  lemma {:induction false} RestoredKey(s: Set, entries: seq<Entry>, k: Key)
    ensures k !in EntryKeys(entries) ==> At(RestoreEntries(s, entries).view.active, k) == At(s.view.active, k)
    ensures k in EntryKeys(entries) ==>
      k in RestoreEntries(s, entries).view.active && JournaledKey(entries, k, RestoreEntries(s, entries).view.active[k])
  {
    if |entries| > 0 {
      var init, e := entries[..|entries| - 1], entries[|entries| - 1];
      RestoredKey(s, init, k);
      assert entries == init + [e] && e in entries;
      KeysSnoc(init, e);
      if k in EntryKeys(init) && k != e.utxo.key {
        var x :| x in init && x.utxo.key == k && x.utxo == RestoreEntries(s, init).view.active[k];
        assert x in entries;
      }
    }
  }

  lemma {:induction false} RestoredMember(s: Set, entries: seq<Entry>, p: nat)
    ensures p !in EntryMembers(entries) ==> At(RestoreEntries(s, entries).view.byPub, p) == At(s.view.byPub, p)
    ensures p in EntryMembers(entries) ==>
      p in RestoreEntries(s, entries).view.byPub && JournaledMember(entries, p, RestoreEntries(s, entries).view.byPub[p])
  {
    if |entries| > 0 {
      var init, e := entries[..|entries| - 1], entries[|entries| - 1];
      RestoredMember(s, init, p);
      assert entries == init + [e] && e in entries;
      KeysSnoc(init, e);
      if p in EntryMembers(init) && p != e.member {
        var x :| x in init && x.member == p && x.utxo == RestoreEntries(s, init).view.byPub[p];
        assert x in entries;
      }
    }
  }

  /** The view a quiet rollback leaves. */
  function RolledView(s: Set, entries: seq<Entry>, txs: seq<Tx>): View {
    Erased(RestoreEntries(s, entries).view, txs)
  }

  lemma QuietRollback(s: Set, height: nat, txs: seq<Tx>, disk: bool)
    requires Quiet(txs, EntryMembers(Entries(s, height)), s.decoys - EntryMembers(Entries(s, height)))
    ensures
      var r := RollbackBlock(s, height, txs, disk);
      var entries := Entries(s, height);
      && r.view == RolledView(s, entries, txs) && r.decoys == s.decoys - EntryMembers(entries)
      && r.spent == (if disk then s.spent - EntryKeys(entries) else s.spent)
      && r.recent == s.recent && r.activation == s.activation && r.journal == s.journal - {height}
  {
    var entries := Entries(s, height);
    RestoredRest(s, entries);
    UndoQuiet(RestoreEntries(s, entries), EntryMembers(entries), txs);
  }

  // ---- Keeping a block ----

  ghost predicate Clean(s: Set) {
    Shaped(s.view) && Tied(s.view, {}) && Apart(s)
  }

  /** The keys of every output that is active, pooled or recorded as spent. */
  function Known(s: Set): set<Key> {
    s.view.active.Keys + s.spent + set p | p in s.decoys :: s.decoys[p].key
  }

  lemma WithoutClean(v: View, member: nat)
    requires Shaped(v) && Tied(v, {}) && member in v.byPub
    ensures Shaped(Without(v, member)) && Tied(Without(v, member), {}) && v.byPub[member].key in v.active
  {
  }

  lemma ConsumeDecoys(a: Set, height: nat, member: nat, p: nat)
    requires member in a.view.byPub && p in Consume(a, height, member).decoys
    ensures
      var b := Consume(a, height, member);
      b.decoys[p].key == a.view.byPub[member].key || (p in a.decoys && b.decoys[p] == a.decoys[p])
  {
  }

  lemma WithoutKnown(a: Set, b: Set, member: nat)
    requires Clean(a) && member in a.view.byPub && b.view == Without(a.view, member)
    requires b.spent == a.spent + {a.view.byPub[member].key}
    requires forall p :: p in b.decoys ==> b.decoys[p].key == a.view.byPub[member].key || (p in a.decoys && b.decoys[p] == a.decoys[p])
    ensures Clean(b) && Known(b) <= Known(a)
  {
    WithoutClean(a.view, member);
    forall p | p in b.decoys ensures b.decoys[p].key !in b.view.active && b.decoys[p].key in Known(a) {
    }
  }

  lemma ConsumeClean(a: Set, height: nat, member: nat)
    requires Clean(a) && member in a.view.byPub
    ensures Clean(Consume(a, height, member)) && Known(Consume(a, height, member)) <= Known(a)
  {
    var b := Consume(a, height, member);
    forall p | p in b.decoys
      ensures b.decoys[p].key == a.view.byPub[member].key || (p in a.decoys && b.decoys[p] == a.decoys[p])
    {
      ConsumeDecoys(a, height, member, p);
    }
    WithoutKnown(a, b, member);
  }

  lemma {:induction false} SpendsClean(a: Set, height: nat, kind: Kind, inputs: seq<Input>)
    requires Clean(a)
    ensures Clean(SpendInputs(a, height, kind, inputs)) && Known(SpendInputs(a, height, kind, inputs)) <= Known(a)
  {
    if |inputs| > 0 {
      var init, input := inputs[..|inputs| - 1], inputs[|inputs| - 1];
      SpendsClean(a, height, kind, init);
      SpendClean(SpendInputs(a, height, kind, init), height, kind, input);
    }
  }

  lemma SpendClean(a: Set, height: nat, kind: Kind, input: Input)
    requires Clean(a)
    ensures Clean(SpendInput(a, height, kind, input)) && Known(SpendInput(a, height, kind, input)) <= Known(a)
  {
    var marked := a.(view := a.view.(images := a.view.images + {input.image}));
    assert Clean(marked) && Known(marked) == Known(a);
    var member := if kind.Hidden? then None else Resolve(a.view.byPub, Members(kind, input), input.commit);
    if member.Some? {
      ConsumeClean(marked, height, member.value);
    }
  }

  lemma PlaceClean(a: Set, u: Utxo)
    requires Clean(a) && u.key !in Known(a)
    ensures Clean(a.(view := Placed(a.view, u))) && Known(a.(view := Placed(a.view, u))) == Known(a) + {u.key}
  {
    assert u.key !in a.view.active && u.key !in a.spent;
    forall p | p in a.decoys ensures a.decoys[p].key != u.key {
      assert a.decoys[p].key in Known(a);
    }
  }

  lemma TrackClean(a: Set, height: nat, key: Key)
    requires Clean(a)
    ensures Clean(Track(a, height, key)) && Known(Track(a, height, key)) <= Known(a)
  {
    var b := Track(a, height, key);
    if b.view != a.view {
      var k := (a.recent + [key])[0];
      assert b.view == Drop(a.view, k);
      assert Tied(b.view, {});
    }
  }

  lemma {:induction false} AddsClean(a: Set, height: nat, tx: Tx, n: nat)
    requires Clean(a) && n <= |tx.outputs| && forall k :: k in Known(a) ==> k.tx != tx.id
    ensures Clean(AddOutputs(a, height, tx, n))
    ensures forall k :: k in Known(AddOutputs(a, height, tx, n)) ==> k in Known(a) || (k.tx == tx.id && k.output < n)
  {
    if n > 0 {
      AddsClean(a, height, tx, n - 1);
      var b, u := AddOutputs(a, height, tx, n - 1), UtxoOf(tx, n - 1);
      PlaceClean(b, u);
      TrackClean(b.(view := Placed(b.view, u)), height, u.key);
    }
  }

  /** Transaction hashes are new: no two in the block agree, and no known output has one. */
  ghost predicate NewIds(s: Set, txs: seq<Tx>) {
    && (forall i, j :: 0 <= i < j < |txs| ==> txs[i].id != txs[j].id)
    && (forall i, k :: 0 <= i < |txs| && k in Known(s) ==> k.tx != txs[i].id)
  }

  lemma {:induction false} ApplyClean(s: Set, height: nat, txs: seq<Tx>)
    requires Clean(s) && NewIds(s, txs)
    ensures Clean(ApplyTxs(s, height, txs))
    ensures forall k :: k in Known(ApplyTxs(s, height, txs)) ==> k in Known(s) || exists i :: 0 <= i < |txs| && txs[i].id == k.tx
  {
    if |txs| > 0 {
      var init, tx := txs[..|txs| - 1], txs[|txs| - 1];
      ApplyClean(s, height, init);
      var a := ApplyTxs(s, height, init);
      assert forall k :: k in Known(a) ==> k.tx != tx.id;
      TxClean(a, height, tx);
      forall k | k in Known(ApplyTxs(s, height, txs)) && k !in Known(s) ensures exists i :: 0 <= i < |txs| && txs[i].id == k.tx {
        if k in Known(a) {
          var i :| 0 <= i < |init| && init[i].id == k.tx;
          assert txs[i].id == k.tx;
        } else {
          assert txs[|txs| - 1].id == k.tx;
        }
      }
    }
  }

  lemma TxClean(a: Set, height: nat, tx: Tx)
    requires Clean(a) && forall k :: k in Known(a) ==> k.tx != tx.id
    ensures Clean(ApplyTx(a, height, tx))
    ensures forall k :: k in Known(ApplyTx(a, height, tx)) ==> k in Known(a) || k.tx == tx.id
  {
    SpendsClean(a, height, tx.kind, tx.inputs);
    var spent := SpendInputs(a, height, tx.kind, tx.inputs);
    var marked := MarkProof(spent, tx.kind);
    assert Clean(marked) && Known(marked) == Known(spent);
    AddsClean(marked, height, tx, |tx.outputs|);
  }

  /** New hashes make every output key of the block new. */
  lemma {:induction false} NewKeys(s: Set, txs: seq<Tx>)
    requires NewIds(s, txs)
    ensures Keys(txs) !! Known(s)
  {
    if |txs| > 0 {
      var init := txs[..|txs| - 1];
      assert forall i :: 0 <= i < |init| ==> init[i] == txs[i];
      NewKeys(s, init);
    }
  }

  lemma AppliedSound(s: Set, height: nat, txs: seq<Tx>)
    requires Sound(s, height) && NewIds(s, txs)
    ensures Sound(ApplyTxs(s, height, txs), height + 1)
  {
    ApplyClean(s, height, txs);
    ApplyExplained(s, height, txs);
  }
}
