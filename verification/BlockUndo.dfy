/** Undoing an applied block with its stake burns, in both orders the engine uses, and exactly
when that restores the view. */
module BlockUndo {
  import opened Options
  import opened Reversal
  import opened StakeBurns
  import opened Utxos

  // ---- Rolling a block back ----

  /** An output that existed before the block fell off the recency list and nothing brings it back. */
  ghost predicate Lost(before: View, dropped: seq<Key>, entries: seq<Entry>, c: Created, k: Key) {
    k in dropped && k in before.active && k !in c.keys && k !in EntryKeys(entries)
  }

  ghost predicate NothingLost(before: View, dropped: seq<Key>, entries: seq<Entry>, c: Created) {
    forall k :: !Lost(before, dropped, entries, c, k)
  }

  lemma UntouchedKey(before: View, a: View, entries: seq<Entry>, dropped: seq<Key>, c: Created, k: Key)
    requires Explained(before, a, entries, dropped, c) && k !in c.keys && k !in EntryKeys(entries)
    ensures At(a.active, k) == At(before.active, k) <==> !Lost(before, dropped, entries, c, k)
  {
  }

  lemma UntouchedPub(before: View, a: View, entries: seq<Entry>, dropped: seq<Key>, c: Created, p: nat)
    requires Explained(before, a, entries, dropped, c) && p !in c.pubs && p !in EntryMembers(entries)
    ensures At(a.byPub, p) == At(before.byPub, p) || PubDropped(before, dropped, p)
  {
  }

  lemma RolledKey(before: View, t: Set, entries: seq<Entry>, txs: seq<Tx>, k: Key)
    requires EntriesOld(before, entries, CreatedIn(txs))
    ensures
      At(RolledView(t, entries, txs).active, k) ==
      if k in Keys(txs) then None else if k in EntryKeys(entries) then At(before.active, k) else At(t.view.active, k)
  {
    RestoredKey(t, entries, k);
    if k in EntryKeys(entries) {
      var e :| e in entries && e.utxo.key == k && e.utxo == RestoreEntries(t, entries).view.active[k];
      assert EntryOld(before, e, CreatedIn(txs));
    }
  }

  lemma RolledPub(before: View, t: Set, entries: seq<Entry>, txs: seq<Tx>, p: nat)
    requires EntriesOld(before, entries, CreatedIn(txs))
    ensures
      At(RolledView(t, entries, txs).byPub, p) ==
      if p in Pubs(txs) then None else if p in EntryMembers(entries) then At(before.byPub, p) else At(t.view.byPub, p)
  {
    RestoredMember(t, entries, p);
    if p in EntryMembers(entries) {
      var e :| e in entries && e.member == p && e.utxo == RestoreEntries(t, entries).view.byPub[p];
      assert EntryOld(before, e, CreatedIn(txs));
    }
  }

  /** A dropped output of this public key is itself journaled. */
  lemma DroppedPubJournaled(before: View, entries: seq<Entry>, dropped: seq<Key>, c: Created, p: nat, k: Key)
    requires EntriesOld(before, entries, c) && k in EntryKeys(entries) && k !in c.keys
    requires k in before.active && before.active[k].pub == p
    ensures p in EntryMembers(entries)
  {
    var e :| e in entries && e.utxo.key == k;
    assert EntryOld(before, e, c);
  }

  // ---- Burns undone before the block ----

  /** The outputs: no key of the block was active, and nothing is lost. */
  ghost predicate KeysBack(before: View, entries: seq<Entry>, dropped: seq<Key>, c: Created) {
    c.keys !! before.active.Keys && NothingLost(before, dropped, entries, c)
  }

  /** The public keys: none of the block's was indexed, and a burned one that no other step
  restores finds the last output undone. */
  ghost predicate PubsBack(before: View, a: View, entries: seq<Entry>, c: Created, order: seq<Key>) {
    && c.pubs !! before.byPub.Keys
    && forall p :: p !in c.pubs && p !in EntryMembers(entries) && LastBurn(a.active, order, p).Some? ==>
         At(before.byPub, p) == UnmarkedAt(a.byPub, a.active, order, p)
  }

  lemma EarlyKeys(before: View, a: View, t: Set, entries: seq<Entry>, dropped: seq<Key>, txs: seq<Tx>)
    requires Explained(before, a, entries, dropped, CreatedIn(txs)) && t.view.active == a.active
    ensures RolledView(t, entries, txs).active == before.active <==> KeysBack(before, entries, dropped, CreatedIn(txs))
  {
    var c, w := CreatedIn(txs), RolledView(t, entries, txs).active;
    forall k ensures k !in c.keys && k !in EntryKeys(entries) ==> (At(w, k) == At(before.active, k) <==> !Lost(before, dropped, entries, c, k)) {
      RolledKey(before, t, entries, txs, k);
      if k !in c.keys && k !in EntryKeys(entries) {
        UntouchedKey(before, a, entries, dropped, c, k);
      }
    }
    forall k ensures At(w, k) == if k in c.keys then None else if k in EntryKeys(entries) then At(before.active, k) else At(a.active, k) {
      RolledKey(before, t, entries, txs, k);
    }
    if KeysBack(before, entries, dropped, c) {
      forall k ensures At(w, k) == At(before.active, k) {
        assert !Lost(before, dropped, entries, c, k);
      }
      SameMaps(w, before.active);
    }
  }

  lemma EarlyPub(before: View, a: View, t: Set, entries: seq<Entry>, dropped: seq<Key>, txs: seq<Tx>, order: seq<Key>, p: nat)
    requires Explained(before, a, entries, dropped, CreatedIn(txs)) && KeysBack(before, entries, dropped, CreatedIn(txs))
    requires At(t.view.byPub, p) == UnmarkedAt(a.byPub, a.active, order, p)
    requires p !in Pubs(txs) && (p in EntryMembers(entries) || LastBurn(a.active, order, p).None?)
    ensures At(RolledView(t, entries, txs).byPub, p) == At(before.byPub, p)
  {
    var c := CreatedIn(txs);
    RolledPub(before, t, entries, txs, p);
    if p !in EntryMembers(entries) {
      UntouchedPub(before, a, entries, dropped, c, p);
      if PubDropped(before, dropped, p) {
        var k :| k in dropped && k in before.active && before.active[k].pub == p;
        assert !Lost(before, dropped, entries, c, k);
        DroppedPubJournaled(before, entries, dropped, c, p, k);
      }
    }
  }

  lemma EarlyPubs(before: View, a: View, t: Set, entries: seq<Entry>, dropped: seq<Key>, txs: seq<Tx>, order: seq<Key>)
    requires Explained(before, a, entries, dropped, CreatedIn(txs)) && KeysBack(before, entries, dropped, CreatedIn(txs))
    requires forall p :: At(t.view.byPub, p) == UnmarkedAt(a.byPub, a.active, order, p)
    ensures RolledView(t, entries, txs).byPub == before.byPub <==> PubsBack(before, a, entries, CreatedIn(txs), order)
  {
    var c, w := CreatedIn(txs), RolledView(t, entries, txs).byPub;
    forall p ensures At(w, p) == if p in c.pubs then None else if p in EntryMembers(entries) then At(before.byPub, p) else At(t.view.byPub, p) {
      RolledPub(before, t, entries, txs, p);
    }
    if PubsBack(before, a, entries, c, order) {
      forall p ensures At(w, p) == At(before.byPub, p) {
        if p !in c.pubs && (p in EntryMembers(entries) || LastBurn(a.active, order, p).None?) {
          EarlyPub(before, a, t, entries, dropped, txs, order, p);
        }
      }
      SameMaps(w, before.byPub);
    }
  }

  // ---- Burns undone after the block ----

  /** The outputs: burned ones are old, an old one that the block creates again is burned as it
  was, and nothing is lost. */
  ghost predicate BurnedKeysBack(before: View, a: View, entries: seq<Entry>, dropped: seq<Key>, c: Created, ks: seq<Key>) {
    && (forall k :: k in ks ==> k in before.active)
    && (forall k :: k in before.active && k in c.keys ==> k in ks && At(a.active, k) == At(before.active, k))
    && NothingLost(before, dropped, entries, c)
  }

  /** The public keys: a burned one finds the last output burned under it, and one of the block's
  that was indexed before is burned. */
  ghost predicate BurnedPubsBack(before: View, a: View, c: Created, ks: seq<Key>) {
    && Owned(before, a.active, ks)
    && forall p :: p in c.pubs && p in before.byPub ==> LastBurn(a.active, ks, p).Some?
  }

  function LateKey(w: map<Key, Utxo>, a: map<Key, Utxo>, ks: seq<Key>, k: Key): Option<Utxo> {
    if k in ks then At(a, k) else At(w, k)
  }

  lemma LateKeyAt(before: View, a: View, t: Set, entries: seq<Entry>, dropped: seq<Key>, txs: seq<Tx>, ks: seq<Key>, k: Key)
    requires Explained(before, a, entries, dropped, CreatedIn(txs)) && t.view.active == a.active - KeySet(ks)
    requires forall l :: l in ks ==> l in a.active
    ensures
      var c := CreatedIn(txs);
      var f := LateKey(RolledView(t, entries, txs).active, a.active, ks, k);
      && (k in ks ==> f == At(a.active, k) && f.Some?)
      && (k !in ks && k in c.keys ==> f.None?)
      && (k !in ks && k !in c.keys ==> (f == At(before.active, k) <==> !Lost(before, dropped, entries, c, k)))
      && (k in ks && k !in c.keys ==> !Lost(before, dropped, entries, c, k) && (k in before.active ==> f == At(before.active, k)))
  {
    var c := CreatedIn(txs);
    RolledKey(before, t, entries, txs, k);
    assert k in KeySet(ks) <==> k in ks;
    if k !in c.keys && k !in EntryKeys(entries) {
      UntouchedKey(before, a, entries, dropped, c, k);
    }
  }

  lemma LateKeys(before: View, a: View, t: Set, entries: seq<Entry>, dropped: seq<Key>, txs: seq<Tx>, ks: seq<Key>, f: map<Key, Utxo>)
    requires Explained(before, a, entries, dropped, CreatedIn(txs)) && t.view.active == a.active - KeySet(ks)
    requires forall k :: k in ks ==> k in a.active
    requires forall k :: At(f, k) == LateKey(RolledView(t, entries, txs).active, a.active, ks, k)
    ensures f == before.active <==> BurnedKeysBack(before, a, entries, dropped, CreatedIn(txs), ks)
  {
    var c := CreatedIn(txs);
    if BurnedKeysBack(before, a, entries, dropped, c, ks) {
      forall k ensures At(f, k) == At(before.active, k) {
        LateKeyAt(before, a, t, entries, dropped, txs, ks, k);
        assert !Lost(before, dropped, entries, c, k);
      }
      SameMaps(f, before.active);
    }
    if f == before.active {
      forall k ensures !Lost(before, dropped, entries, c, k) {
        LateKeyAt(before, a, t, entries, dropped, txs, ks, k);
      }
      forall k ensures k in ks ==> k in before.active {
        LateKeyAt(before, a, t, entries, dropped, txs, ks, k);
      }
      forall k | k in before.active && k in c.keys ensures k in ks && At(a.active, k) == At(before.active, k) {
        LateKeyAt(before, a, t, entries, dropped, txs, ks, k);
      }
    }
  }

  lemma LatePub(before: View, a: View, t: Set, entries: seq<Entry>, dropped: seq<Key>, txs: seq<Tx>, ks: seq<Key>, p: nat)
    requires Explained(before, a, entries, dropped, CreatedIn(txs)) && BurnedKeysBack(before, a, entries, dropped, CreatedIn(txs), ks)
    requires LastBurn(a.active, ks, p).None? && At(t.view.byPub, p) == At(a.byPub, p)
    ensures p in Pubs(txs) ==> At(RolledView(t, entries, txs).byPub, p).None?
    ensures p !in Pubs(txs) ==> At(RolledView(t, entries, txs).byPub, p) == At(before.byPub, p)
  {
    var c := CreatedIn(txs);
    RolledPub(before, t, entries, txs, p);
    if p !in c.pubs && p !in EntryMembers(entries) {
      UntouchedPub(before, a, entries, dropped, c, p);
      if PubDropped(before, dropped, p) {
        var k :| k in dropped && k in before.active && before.active[k].pub == p;
        assert !Lost(before, dropped, entries, c, k);
        assert k !in c.keys;
        DroppedPubJournaled(before, entries, dropped, c, p, k);
      }
    }
  }

  lemma LatePubs(before: View, a: View, t: Set, entries: seq<Entry>, dropped: seq<Key>, txs: seq<Tx>, ks: seq<Key>, f: map<nat, Utxo>)
    requires Explained(before, a, entries, dropped, CreatedIn(txs)) && BurnedKeysBack(before, a, entries, dropped, CreatedIn(txs), ks)
    requires forall p :: LastBurn(a.active, ks, p).None? ==> At(t.view.byPub, p) == At(a.byPub, p)
    requires forall p :: At(f, p) == UnmarkedAt(RolledView(t, entries, txs).byPub, a.active, ks, p)
    ensures f == before.byPub <==> BurnedPubsBack(before, a, CreatedIn(txs), ks)
  {
    var c, w := CreatedIn(txs), RolledView(t, entries, txs).byPub;
    forall p | LastBurn(a.active, ks, p).None? ensures At(f, p) == if p in c.pubs then None else At(before.byPub, p) {
      LatePub(before, a, t, entries, dropped, txs, ks, p);
    }
    if BurnedPubsBack(before, a, c, ks) {
      forall p ensures At(f, p) == At(before.byPub, p) {
        if LastBurn(a.active, ks, p).Some? {
          assert At(before.byPub, p) == Some(a.active[LastBurn(a.active, ks, p).value]);
        }
      }
      SameMaps(f, before.byPub);
    }
  }

  // ---- The engine's two ways back ----

  function Spends(s: Set, height: nat, txs: seq<Tx>): seq<Entry> {
    Entries(ApplyTxs(s, height, txs), height)
  }

  /** No input of the block names, before the member it spends, a pooled output of its commitment. */
  ghost predicate Silent(s: Set, height: nat, txs: seq<Tx>) {
    Quiet(txs, EntryMembers(Spends(s, height, txs)), ApplyTxs(s, height, txs).decoys - EntryMembers(Spends(s, height, txs)))
  }

  /** The block creates no output under the key of a spent one. */
  ghost predicate NoneRecreated(s: Set, txs: seq<Tx>) {
    forall p :: p in s.decoys ==> s.decoys[p].key !in Keys(txs)
  }

  /** The applied set with another view, rolled back. */
  function RolledBack(s: Set, height: nat, txs: seq<Tx>, v: View): Set {
    RollbackBlock(ApplyTxs(s, height, txs).(view := v), height, txs, true)
  }

  lemma PoolLeft(s: Set, height: nat, txs: seq<Tx>, p: nat)
    requires Sound(s, height) && NoneRecreated(s, txs)
    requires p in ApplyTxs(s, height, txs).decoys && p !in EntryMembers(Spends(s, height, txs))
    ensures p in s.decoys && s.decoys[p] == ApplyTxs(s, height, txs).decoys[p]
    ensures s.decoys[p].key !in Keys(txs) && s.decoys[p].key !in s.view.active
  {
    ApplyExplained(s, height, txs);
  }

  /** A fallback that fires leaves a spent output active. */
  lemma LoudRollback(s: Set, height: nat, txs: seq<Tx>, v: View)
    requires Sound(s, height) && NoneRecreated(s, txs)
    ensures RolledBack(s, height, txs, v).view.staked == v.staked
    ensures !Silent(s, height, txs) ==> exists k :: k in RolledBack(s, height, txs, v).view.active && k !in s.view.active
  {
    var t, entries := ApplyTxs(s, height, txs).(view := v), Spends(s, height, txs);
    assert Entries(t, height) == entries;
    RestoredRest(t, entries);
    var r := RestoreEntries(t, entries);
    forall p | p in r.decoys ensures r.decoys[p].key !in Keys(txs) && r.decoys[p].key !in s.view.active {
      PoolLeft(s, height, txs, p);
    }
    UndoPool(r, EntryMembers(entries), txs);
    if !Silent(s, height, txs) {
      var p :| p in r.decoys && r.decoys[p].key in UndoTxs(r, EntryMembers(entries), txs).view.active;
      assert r.decoys[p].key in RolledBack(s, height, txs, v).view.active;
    }
  }

  lemma QuietView(s: Set, height: nat, txs: seq<Tx>, v: View)
    requires Silent(s, height, txs)
    ensures
      var t := ApplyTxs(s, height, txs).(view := v);
      && RolledBack(s, height, txs, v).view == RolledView(t, Spends(s, height, txs), txs)
      && RolledView(t, Spends(s, height, txs), txs).images == v.images - Images(txs)
      && RolledView(t, Spends(s, height, txs), txs).staked == v.staked
  {
    var t := ApplyTxs(s, height, txs).(view := v);
    assert Entries(t, height) == Spends(s, height, txs);
    QuietRollback(t, height, txs, true);
    RestoredRest(t, Spends(s, height, txs));
  }

  lemma ImagesBack(known: set<nat>, added: set<nat>)
    ensures (known + added) - added == known <==> added !! known
  {
    assert (known + added) - added == known - added;
    if !(added !! known) {
      var x :| x in added && x in known;
      assert x !in (known + added) - added;
    }
  }

  /** A refused stake transaction: the burns are undone, in `order`, and then the block. */
  function UndoneEarly(s: Set, height: nat, txs: seq<Tx>, marks: seq<Key>, order: seq<Key>): View
    requires MarkAll(ApplyTxs(s, height, txs).view, marks).Some?
  {
    RolledBack(s, height, txs, UnmarkAll(MarkAll(ApplyTxs(s, height, txs).view, marks).value, order)).view
  }

  ghost predicate EarlyBack(s: Set, height: nat, txs: seq<Tx>, order: seq<Key>) {
    var a, entries, c := ApplyTxs(s, height, txs).view, Spends(s, height, txs), CreatedIn(txs);
    && Silent(s, height, txs) && Images(txs) !! s.view.images
    && KeysBack(s.view, entries, Evicted(s, height, txs), c) && PubsBack(s.view, a, entries, c, order)
  }

  /** Undoing the burns and then the block restores the view if and only if the fallback stays
  silent, no key image, output key or public key of the block was known before, no output is lost
  from the recency list, and burned public keys find the output put back last. */
  lemma EarlyExact(s: Set, height: nat, txs: seq<Tx>, marks: seq<Key>, order: seq<Key>)
    requires Sound(s, height) && NoneRecreated(s, txs)
    requires MarkAll(ApplyTxs(s, height, txs).view, marks).Some? && Distinct(order) && KeySet(order) == KeySet(marks)
    ensures UndoneEarly(s, height, txs, marks, order) == s.view <==> EarlyBack(s, height, txs, order)
  {
    var a, entries, dropped := ApplyTxs(s, height, txs), Spends(s, height, txs), Evicted(s, height, txs);
    var u := UnmarkAll(MarkAll(a.view, marks).value, order);
    ApplyExplained(s, height, txs);
    UnmarkAfterMark(a.view, marks, order);
    LoudRollback(s, height, txs, u);
    if Silent(s, height, txs) {
      QuietView(s, height, txs, u);
      ImagesBack(s.view.images, Images(txs));
      EarlyKeys(s.view, a.view, a.(view := u), entries, dropped, txs);
      if KeysBack(s.view, entries, dropped, CreatedIn(txs)) {
        EarlyPubs(s.view, a.view, a.(view := u), entries, dropped, txs, order);
      }
    }
  }

  /** A block that fails after stake: the block is undone first, then the burns. */
  function UndoneLate(s: Set, height: nat, txs: seq<Tx>, ks: seq<Key>): View
    requires MarkAll(ApplyTxs(s, height, txs).view, ks).Some?
  {
    UnmarkAll(RolledBack(s, height, txs, MarkAll(ApplyTxs(s, height, txs).view, ks).value).view, ks)
  }

  ghost predicate LateBack(s: Set, height: nat, txs: seq<Tx>, ks: seq<Key>) {
    var a, c := ApplyTxs(s, height, txs).view, CreatedIn(txs);
    && Silent(s, height, txs) && Images(txs) !! s.view.images
    && BurnedKeysBack(s.view, a, Spends(s, height, txs), Evicted(s, height, txs), c, ks) && BurnedPubsBack(s.view, a, c, ks)
  }

  /** The facts about the burned view that both halves of the exact condition use. */
  lemma LateFacts(s: Set, height: nat, txs: seq<Tx>, ks: seq<Key>, w: View)
    requires MarkAll(ApplyTxs(s, height, txs).view, ks).Some?
    requires w.staked == Burned(ApplyTxs(s, height, txs).view, ks).staked
    ensures
      var a := ApplyTxs(s, height, txs).view;
      && MarkAll(a, ks).value == Burned(a, ks) && (forall k :: k in ks ==> k in a.active)
      && (forall p :: LastBurn(a.active, ks, p).None? ==> At(Burned(a, ks).byPub, p) == At(a.byPub, p))
      && (forall k :: At(UnmarkAll(w, ks).active, k) == LateKey(w.active, a.active, ks, k))
      && (forall p :: At(UnmarkAll(w, ks).byPub, p) == UnmarkedAt(w.byPub, a.active, ks, p))
      && UnmarkAll(w, ks).staked == a.staked && UnmarkAll(w, ks).images == w.images
  {
    var a := ApplyTxs(s, height, txs).view;
    MarkAllBurns(a, ks);
    BurnedPub(a, ks, 0);
    UnmarkAllActive(w, ks);
    UnmarkRestoresActive(a, ks, ks);
    forall p ensures LastBurn(a.active, ks, p).None? ==> At(Burned(a, ks).byPub, p) == At(a.byPub, p) {
      BurnedPub(a, ks, p);
    }
    forall p ensures At(UnmarkAll(w, ks).byPub, p) == UnmarkedAt(w.byPub, a.active, ks, p) {
      UnmarkAllPub(w, ks, p);
      LastBurnSame(w.staked, a.active, ks, p);
    }
  }

  /** Undoing the block and then the burns restores the view if and only if the fallback stays
  silent, no key image of the block was known before, every burned output existed before the
  block and is what its public key found, no output key or public key of the block was known
  before unless it is burned, and no output is lost from the recency list. */
  lemma LateExact(s: Set, height: nat, txs: seq<Tx>, ks: seq<Key>)
    requires Sound(s, height) && NoneRecreated(s, txs) && MarkAll(ApplyTxs(s, height, txs).view, ks).Some?
    ensures UndoneLate(s, height, txs, ks) == s.view <==> LateBack(s, height, txs, ks)
  {
    var a, entries, dropped := ApplyTxs(s, height, txs), Spends(s, height, txs), Evicted(s, height, txs);
    var b := MarkAll(a.view, ks).value;
    MarkAllBurns(a.view, ks);
    ApplyExplained(s, height, txs);
    LoudRollback(s, height, txs, b);
    var w := RolledBack(s, height, txs, b).view;
    LateFacts(s, height, txs, ks, w);
    var f := UnmarkAll(w, ks);
    if Silent(s, height, txs) {
      QuietView(s, height, txs, b);
      ImagesBack(s.view.images, Images(txs));
      LateKeys(s.view, a.view, a.(view := b), entries, dropped, txs, ks, f.active);
      if BurnedKeysBack(s.view, a.view, entries, dropped, CreatedIn(txs), ks) {
        LatePubs(s.view, a.view, a.(view := b), entries, dropped, txs, ks, f.byPub);
      }
    } else {
      LoudLate(s, w, a.view, ks, f);
    }
  }

  lemma LoudLate(s: Set, w: View, a: View, ks: seq<Key>, f: View)
    requires exists k :: k in w.active && k !in s.view.active
    requires forall k :: k in ks ==> k in a.active
    requires forall k :: At(f.active, k) == LateKey(w.active, a.active, ks, k)
    ensures f != s.view
  {
    var k :| k in w.active && k !in s.view.active;
    assert At(f.active, k).Some?;
  }

  // ---- A block without burns ----

  /** Rolling a block back restores the view if and only if the fallback stays silent, nothing is
  lost from the recency list, and no key image, output key or public key of the block was known. */
  lemma RollbackUndoesApply(s: Set, height: nat, txs: seq<Tx>)
    requires Sound(s, height) && NoneRecreated(s, txs)
    ensures RollbackBlock(ApplyTxs(s, height, txs), height, txs, true).view == s.view <==> PlainBack(s, height, txs)
  {
    var a := ApplyTxs(s, height, txs);
    assert a.(view := a.view) == a;
    EarlyExact(s, height, txs, [], []);
  }

  ghost predicate PlainBack(s: Set, height: nat, txs: seq<Tx>) {
    && Silent(s, height, txs) && NothingLost(s.view, Evicted(s, height, txs), Spends(s, height, txs), CreatedIn(txs))
    && Images(txs) !! s.view.images && Keys(txs) !! s.view.active.Keys && Pubs(txs) !! s.view.byPub.Keys
  }

  // ---- The state an exact rollback leaves ----

  lemma RolledRest(s: Set, height: nat, txs: seq<Tx>, v: View)
    requires Sound(s, height) && Silent(s, height, txs)
    ensures
      var r := RolledBack(s, height, txs, v);
      && (forall p :: p in r.decoys ==> p in s.decoys && r.decoys[p] == s.decoys[p])
      && r.recent == Newest(Listed(s, height, Tracked(txs))) && |s.recent| <= |r.recent| <= RECENT_LIMIT && r.activation == s.activation
      && (forall h :: h in r.journal ==> h < height)
      && (Keys(txs) !! s.spent ==> r.spent == s.spent)
  {
    var t := ApplyTxs(s, height, txs).(view := v);
    assert Entries(t, height) == Spends(s, height, txs);
    ApplyExplained(s, height, txs);
    QuietRollback(t, height, txs, true);
    if Keys(txs) !! s.spent {
      forall k | k in EntryKeys(Spends(s, height, txs)) ensures k !in s.spent {
        var e :| e in Spends(s, height, txs) && e.utxo.key == k;
        assert EntryOld(s.view, e, CreatedIn(txs));
      }
      assert (s.spent + EntryKeys(Spends(s, height, txs))) - EntryKeys(Spends(s, height, txs)) == s.spent;
    }
  }

  /** Once the view is back the set is sound again for the same height. */
  lemma RolledSound(s: Set, height: nat, txs: seq<Tx>, v: View)
    requires Sound(s, height) && Silent(s, height, txs) && Keys(txs) !! s.spent
    ensures Sound(RolledBack(s, height, txs, v).(view := s.view), height)
  {
    RolledRest(s, height, txs, v);
  }

  // ---- What the code does outside the condition ----

  /** A block that reuses an indexed public key takes the old entry with it when it is undone. */
  lemma ReusedPubLeaks(s: Set, height: nat, txs: seq<Tx>, p: nat)
    requires Sound(s, height) && Silent(s, height, txs) && p in Pubs(txs) && p in s.view.byPub
    ensures p !in RollbackBlock(ApplyTxs(s, height, txs), height, txs, true).view.byPub
  {
    var a := ApplyTxs(s, height, txs);
    assert a.(view := a.view) == a;
    ApplyExplained(s, height, txs);
    QuietView(s, height, txs, a.view);
    RolledPub(s.view, a, Spends(s, height, txs), txs, p);
  }

  /** Once the recency list is full, undoing a block that creates an output does not bring back
  the oldest listed output, unless the block spends it. */
  lemma FullListLoses(s: Set, height: nat, txs: seq<Tx>)
    requires Sound(s, height) && Silent(s, height, txs) && Tracks(s, height)
    requires |s.recent| == RECENT_LIMIT && |Tracked(txs)| > 0
    requires s.recent[0] in s.view.active && s.recent[0] !in Keys(txs) && s.recent[0] !in EntryKeys(Spends(s, height, txs))
    ensures s.recent[0] !in RollbackBlock(ApplyTxs(s, height, txs), height, txs, true).view.active
  {
    var a, k := ApplyTxs(s, height, txs), s.recent[0];
    assert a.(view := a.view) == a;
    ApplyExplained(s, height, txs);
    QuietView(s, height, txs, a.view);
    assert Evicted(s, height, txs)[0] == k;
    UntouchedKey(s.view, a.view, Spends(s, height, txs), Evicted(s, height, txs), CreatedIn(txs), k);
    RolledKey(s.view, a, Spends(s, height, txs), txs, k);
  }

  function OneOutput(u: Utxo, recent: seq<Key>, activation: nat): Set {
    Set(View(map[u.key := u], map[u.pub := u], {}, map[]), map[], recent, activation, map[], {})
  }

  /** Such a block: its one output repeats the public key of an old one. */
  lemma ReusedPubInput()
    ensures
      var s, txs := OneOutput(Utxo(Key(0, 0), 7, 1, false), [], 0), [Tx(1, Coinbase, [], [Output(7, 2)])];
      && Sound(s, 1) && NoneRecreated(s, txs) && 7 in s.view.byPub
      && 7 !in RollbackBlock(ApplyTxs(s, 1, txs), 1, txs, true).view.byPub
  {
    var s, tx := OneOutput(Utxo(Key(0, 0), 7, 1, false), [], 0), Tx(1, Coinbase, [], [Output(7, 2)]);
    assert tx.outputs[0].pub in TxPubs(tx);
    assert 7 in Pubs([tx]);
    ReusedPubLeaks(s, 1, [tx], 7);
  }

  /** Such a list: full, and the block spends nothing. */
  lemma FullListInput()
    ensures
      var s, txs := OneOutput(Utxo(Key(0, 0), 7, 1, false), seq(RECENT_LIMIT, (i: nat) => Key(0, i)), 1), [Tx(1, Coinbase, [], [Output(8, 2)])];
      && Sound(s, 1) && NoneRecreated(s, txs) && Key(0, 0) in s.view.active
      && Key(0, 0) !in RollbackBlock(ApplyTxs(s, 1, txs), 1, txs, true).view.active
  {
    var s := OneOutput(Utxo(Key(0, 0), 7, 1, false), seq(RECENT_LIMIT, (i: nat) => Key(0, i)), 1);
    var tx := Tx(1, Coinbase, [], [Output(8, 2)]);
    assert s.recent[0] == Key(0, 0);
    NoSpends(s, 1, tx);
    assert Tracked([tx]) == Tracked([]) + TxTracked(tx, 1);
    assert TxTracked(tx, 1) == TxTracked(tx, 0) + [Key(1, 0)];
    assert Keys([tx]) == Keys([]) + TxKeys(tx);
    FullListLoses(s, 1, [tx]);
  }

  lemma NoSpends(s: Set, height: nat, tx: Tx)
    requires tx.inputs == [] && height !in s.journal
    ensures Spends(s, height, [tx]) == []
  {
    assert ApplyTxs(s, height, [tx]) == ApplyTx(ApplyTxs(s, height, []), height, tx);
    AddsKeepJournal(MarkProof(s, tx.kind), height, tx, |tx.outputs|);
  }

  lemma {:induction false} AddsKeepJournal(a: Set, height: nat, tx: Tx, n: nat)
    requires n <= |tx.outputs|
    ensures AddOutputs(a, height, tx, n).journal == a.journal
  {
    if n > 0 {
      AddsKeepJournal(a, height, tx, n - 1);
    }
  }

  /** A hidden spend whose ring names a pooled output of its commitment revives that output. */
  lemma PooledMemberRevives()
    ensures
      var u := Utxo(Key(0, 0), 9, 5, false);
      var s, txs := Set(View(map[], map[], {}, map[]), map[9 := u], [], 0, map[], {u.key}), [Tx(1, Hidden, [Input(3, [9], 0, 5)], [])];
      && Sound(s, 1) && NoneRecreated(s, txs)
      && exists k :: k in RollbackBlock(ApplyTxs(s, 1, txs), 1, txs, true).view.active && k !in s.view.active
  {
    var u := Utxo(Key(0, 0), 9, 5, false);
    var input := Input(3, [9], 0, 5);
    var s, tx := Set(View(map[], map[], {}, map[]), map[9 := u], [], 0, map[], {u.key}), Tx(1, Hidden, [input], []);
    var a := ApplyTxs(s, 1, [tx]);
    assert a.(view := a.view) == a;
    assert ApplyTxs(s, 1, []) == s && a == ApplyTx(s, 1, tx);
    assert tx.inputs[..0] == [] && tx.inputs[0] == input;
    assert SpendInputs(s, 1, Hidden, tx.inputs) == SpendInput(SpendInputs(s, 1, Hidden, []), 1, Hidden, input);
    assert a.decoys == s.decoys && Spends(s, 1, [tx]) == [];
    assert Fallback([9], {}, s.decoys, 5) == Some(9);
    assert !QuietInputs(tx.kind, tx.inputs, EntryMembers([]), a.decoys - EntryMembers([])) by {
      assert a.decoys - EntryMembers([]) == s.decoys && EntryMembers([]) == {};
      assert Members(Hidden, tx.inputs[0]) == [9];
    }
    assert !Silent(s, 1, [tx]) by {
      assert [tx][0] == tx;
    }
    LoudRollback(s, 1, [tx], a.view);
  }
}
