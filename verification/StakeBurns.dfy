/** Burning outputs for stake, and exactly when undoing the burns restores both indexes. */
module StakeBurns {
  import opened Options
  import opened Reversal
  import opened Utxos

  type Registry = map<nat, nat>

  /** One stake transaction's effect on the validator registry, or its refusal. */
  type Rules = (Registry, Tx, nat) -> Option<Registry>

  function MarkStaked(v: View, k: Key): Option<View> {
    if k in v.staked || k !in v.active then None
    else Some(v.(byPub := v.byPub - {v.active[k].pub}, active := v.active - {k}, staked := v.staked[k := v.active[k]]))
  }

  function UnmarkStaked(v: View, k: Key): View {
    if k !in v.staked then v
    else v.(staked := v.staked - {k}, active := v.active[k := v.staked[k]], byPub := v.byPub[v.staked[k].pub := v.staked[k]])
  }

  function MarkAll(v: View, ks: seq<Key>): Option<View> {
    if |ks| == 0 then Some(v)
    else
      var before := MarkAll(v, ks[..|ks| - 1]);
      if before.None? then None else MarkStaked(before.value, ks[|ks| - 1])
  }

  /** Undo burns in the order they were made. */
  function UnmarkAll(v: View, ks: seq<Key>): View {
    if |ks| == 0 then v else UnmarkStaked(UnmarkAll(v, ks[..|ks| - 1]), ks[|ks| - 1])
  }

  // ---- What a run of burns leaves ----

  function KeySet(ks: seq<Key>): set<Key> {
    set k | k in ks
  }

  function PubSet(v: View, ks: seq<Key>): set<nat> {
    set k | k in ks && k in v.active :: v.active[k].pub
  }

  /** The entries of a map under the listed keys. */
  function Picked(m: map<Key, Utxo>, ks: seq<Key>): map<Key, Utxo> {
    map k | k in m && k in ks :: m[k]
  }

  /** The view without the burned outputs. */
  function Burned(v: View, ks: seq<Key>): View {
    v.(active := v.active - KeySet(ks), byPub := v.byPub - PubSet(v, ks), staked := v.staked + Picked(v.active, ks))
  }

  predicate Distinct(ks: seq<Key>) {
    forall i, j :: 0 <= i < j < |ks| ==> ks[i] != ks[j]
  }

  lemma MinusSnoc<K, V>(m: map<K, V>, a: set<K>, x: K)
    ensures m - (a + {x}) == (m - a) - {x}
  {
  }

  lemma KeySetSnoc(ks: seq<Key>, k: Key)
    ensures KeySet(ks + [k]) == KeySet(ks) + {k}
  {
  }

  lemma PickedSnoc(m: map<Key, Utxo>, base: map<Key, Utxo>, ks: seq<Key>, k: Key)
    requires k in m
    ensures base + Picked(m, ks + [k]) == (base + Picked(m, ks))[k := m[k]]
  {
    assert forall l :: l in ks + [k] <==> l in ks || l == k;
  }

  lemma PubSetSnoc(v: View, ks: seq<Key>, k: Key)
    requires k in v.active
    ensures PubSet(v, ks + [k]) == PubSet(v, ks) + {v.active[k].pub}
  {
    assert forall l :: l in ks + [k] <==> l in ks || l == k;
  }

  lemma BurnedSnoc(v: View, ks: seq<Key>, k: Key)
    requires k in v.active
    ensures Burned(v, ks + [k]).active == Burned(v, ks).active - {k}
    ensures Burned(v, ks + [k]).byPub == Burned(v, ks).byPub - {v.active[k].pub}
    ensures Burned(v, ks + [k]).staked == Burned(v, ks).staked[k := v.active[k]]
  {
    KeySetSnoc(ks, k);
    MinusSnoc(v.active, KeySet(ks), k);
    PubSetSnoc(v, ks, k);
    MinusSnoc(v.byPub, PubSet(v, ks), v.active[k].pub);
    PickedSnoc(v.active, v.staked, ks, k);
  }

  lemma MarkBurned(v: View, ks: seq<Key>, k: Key)
    requires MarkStaked(Burned(v, ks), k).Some?
    ensures k in v.active && k !in ks && k !in v.staked
    ensures MarkStaked(Burned(v, ks), k).value == Burned(v, ks + [k])
  {
    assert k !in KeySet(ks);
    BurnedSnoc(v, ks, k);
  }

  ghost predicate Burnable(v: View, ks: seq<Key>) {
    Distinct(ks) && forall k :: k in ks ==> k in v.active && k !in v.staked
  }

  lemma BurnableSnoc(v: View, ks: seq<Key>, k: Key)
    requires Burnable(v, ks) && k in v.active && k !in ks && k !in v.staked
    ensures Burnable(v, ks + [k])
  {
    assert forall l :: l in ks + [k] <==> l in ks || l == k;
  }

  lemma BurnedNone(v: View)
    ensures Burned(v, []) == v && Burnable(v, [])
  {
    assert KeySet([]) == {} && PubSet(v, []) == {} && Picked(v.active, []) == map[];
  }

  lemma MarkStep(v: View, init: seq<Key>, k: Key)
    requires Burnable(v, init) && MarkStaked(Burned(v, init), k).Some?
    ensures MarkStaked(Burned(v, init), k).value == Burned(v, init + [k]) && Burnable(v, init + [k])
  {
    MarkBurned(v, init, k);
    BurnableSnoc(v, init, k);
  }

  lemma {:induction false} MarkAllBurns(v: View, ks: seq<Key>)
    requires MarkAll(v, ks).Some?
    ensures MarkAll(v, ks).value == Burned(v, ks) && Burnable(v, ks)
  {
    if |ks| == 0 {
      BurnedNone(v);
    } else {
      var init, k := ks[..|ks| - 1], ks[|ks| - 1];
      assert init + [k] == ks;
      MarkAllBurns(v, init);
      MarkStep(v, init, k);
    }
  }

  /** Undoing burns puts every burned output back. */
  lemma {:induction false} UnmarkAllActive(v: View, ks: seq<Key>)
    requires Distinct(ks) && forall k :: k in ks ==> k in v.staked
    ensures UnmarkAll(v, ks).staked == v.staked - KeySet(ks) && UnmarkAll(v, ks).images == v.images
    ensures UnmarkAll(v, ks).active == v.active + Picked(v.staked, ks)
  {
    if |ks| > 0 {
      var init, k := ks[..|ks| - 1], ks[|ks| - 1];
      UnmarkAllActive(v, init);
      assert ks == init + [k] && k !in KeySet(init);
      KeySetSnoc(init, k);
      MinusSnoc(v.staked, KeySet(init), k);
      PickedSnoc(v.staked, v.active, init, k);
    }
  }

  /** The last burn in a list whose output has the given public key. */
  function LastBurn(outputs: map<Key, Utxo>, ks: seq<Key>, p: nat): (r: Option<Key>)
    ensures r.Some? ==> r.value in ks && r.value in outputs && outputs[r.value].pub == p
    ensures r.None? ==> forall k :: k in ks && k in outputs ==> outputs[k].pub != p
  {
    if |ks| == 0 then None
    else
      var k := ks[|ks| - 1];
      if k in outputs && outputs[k].pub == p then Some(k) else LastBurn(outputs, ks[..|ks| - 1], p)
  }

  lemma {:induction false} LastBurnSame(m: map<Key, Utxo>, n: map<Key, Utxo>, ks: seq<Key>, p: nat)
    requires forall k :: k in ks ==> k in m && k in n && m[k] == n[k]
    ensures LastBurn(m, ks, p) == LastBurn(n, ks, p)
  {
    if |ks| > 0 {
      assert forall k :: k in ks[..|ks| - 1] ==> k in ks;
      LastBurnSame(m, n, ks[..|ks| - 1], p);
    }
  }

  /** The public-key entry that undoing burns leaves: the last burn's output, locked or not. */
  function UnmarkedAt(byPub: map<nat, Utxo>, outputs: map<Key, Utxo>, ks: seq<Key>, p: nat): Option<Utxo> {
    var last := LastBurn(outputs, ks, p);
    if last.Some? then Some(outputs[last.value]) else At(byPub, p)
  }

  lemma {:induction false} UnmarkAllPub(v: View, ks: seq<Key>, p: nat)
    requires Distinct(ks) && forall k :: k in ks ==> k in v.staked
    ensures At(UnmarkAll(v, ks).byPub, p) == UnmarkedAt(v.byPub, v.staked, ks, p)
  {
    if |ks| > 0 {
      var init, k := ks[..|ks| - 1], ks[|ks| - 1];
      UnmarkAllPub(v, init, p);
      UnmarkAllActive(v, init);
      assert k !in KeySet(init);
    }
  }

  lemma BurnedPub(v: View, ks: seq<Key>, p: nat)
    requires Burnable(v, ks)
    ensures LastBurn(v.active, ks, p).None? ==> At(Burned(v, ks).byPub, p) == At(v.byPub, p)
    ensures LastBurn(v.active, ks, p).Some? ==> p !in Burned(v, ks).byPub
    ensures forall k :: k in ks ==> k in Burned(v, ks).staked && Burned(v, ks).staked[k] == v.active[k]
  {
    if LastBurn(v.active, ks, p).Some? {
      assert p in PubSet(v, ks);
    }
  }

  lemma UnmarkRestoresActive(v: View, marks: seq<Key>, order: seq<Key>)
    requires Burnable(v, marks) && KeySet(order) == KeySet(marks)
    ensures (v.active - KeySet(marks)) + Picked(v.staked + Picked(v.active, marks), order) == v.active
    ensures (v.staked + Picked(v.active, marks)) - KeySet(order) == v.staked
  {
    assert forall k :: k in order <==> k in KeySet(order);
    assert forall k :: k in marks <==> k in KeySet(marks);
  }

  /** Undoing burns right after they were made, in any order: active and staked outputs come back,
  and each burned public key now finds the last output undone. */
  lemma UnmarkAfterMark(v: View, marks: seq<Key>, order: seq<Key>)
    requires MarkAll(v, marks).Some? && Distinct(order) && KeySet(order) == KeySet(marks)
    ensures
      var u := UnmarkAll(MarkAll(v, marks).value, order);
      && u == v.(byPub := u.byPub)
      && forall p :: At(u.byPub, p) == UnmarkedAt(v.byPub, v.active, order, p)
  {
    MarkAllBurns(v, marks);
    var b := Burned(v, marks);
    assert forall k :: k in order <==> k in KeySet(order);
    assert forall k :: k in marks <==> k in KeySet(marks);
    BurnedPub(v, marks, 0);
    UnmarkAllActive(b, order);
    UnmarkRestoresActive(v, marks, order);
    forall p ensures At(UnmarkAll(b, order).byPub, p) == UnmarkedAt(v.byPub, v.active, order, p) {
      BurnedPub(v, marks, p);
      UnmarkAllPub(b, order, p);
      LastBurnSame(b.staked, v.active, order, p);
    }
  }

  /** Burns are undone exactly if and only if every burned public key finds, before the burns, the
  output that is put back last. */
  lemma UnmarkExact(v: View, marks: seq<Key>, order: seq<Key>)
    requires MarkAll(v, marks).Some? && Distinct(order) && KeySet(order) == KeySet(marks)
    ensures UnmarkAll(MarkAll(v, marks).value, order) == v <==> Owned(v, v.active, order)
  {
    var u := UnmarkAll(MarkAll(v, marks).value, order);
    UnmarkAfterMark(v, marks, order);
    if Owned(v, v.active, order) {
      forall p ensures At(u.byPub, p) == At(v.byPub, p) {
      }
      SameMaps(u.byPub, v.byPub);
    }
  }

  /** Every burned public key finds, in `v`, the last output burned under it. */
  ghost predicate Owned(v: View, outputs: map<Key, Utxo>, ks: seq<Key>) {
    forall p :: LastBurn(outputs, ks, p).Some? ==> At(v.byPub, p) == Some(outputs[LastBurn(outputs, ks, p).value])
  }

  /** No two active outputs share a public key, and it finds exactly the unlocked ones. */
  ghost predicate Unique(v: View) {
    && (forall k, l :: k in v.active && l in v.active && k != l ==> v.active[k].pub != v.active[l].pub)
    && (forall k :: k in v.active ==> (At(v.byPub, v.active[k].pub) == Some(v.active[k]) <==> !v.active[k].locked))
  }

  /** Where public keys are unique, burns are undone exactly, in any order, if and only if no
  protocol-locked output is among them. */
  lemma UnmarkUndoesMark(v: View, marks: seq<Key>, order: seq<Key>)
    requires Unique(v) && MarkAll(v, marks).Some? && Distinct(order) && KeySet(order) == KeySet(marks)
    ensures UnmarkAll(MarkAll(v, marks).value, order) == v <==> forall k :: k in order && k in v.active ==> !v.active[k].locked
  {
    UnmarkExact(v, marks, order);
    MarkAllBurns(v, marks);
    assert forall k :: k in order <==> k in KeySet(order);
    assert forall k :: k in marks <==> k in KeySet(marks);
    if Owned(v, v.active, order) {
      forall k | k in order && k in v.active ensures !v.active[k].locked {
        var last := LastBurn(v.active, order, v.active[k].pub);
        assert last == Some(k);
      }
    }
  }

  /** A burned protocol-locked output comes back with a public-key entry it never had. */
  lemma LockedBurnLeaks()
    ensures
      var u := Utxo(Key(1, 0), 7, 3, true);
      var v := View(map[u.key := u], map[], {}, map[]);
      Unique(v) && MarkAll(v, [u.key]).Some? && UnmarkAll(MarkAll(v, [u.key]).value, [u.key]).byPub == map[7 := u]
  {
    assert [Key(1, 0)][..0] == [];
  }
}
