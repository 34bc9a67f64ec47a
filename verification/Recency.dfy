/** Two sets with the same view and different recency lists: what applying a block makes of them,
and exactly when their views stay the same. */
module Recency {
  import opened Options
  import opened Reversal
  import opened Utxos

  // ---- Applying reads the view and the recency list only ----

  ghost predicate Alike(s: Set, t: Set) {
    s.view == t.view && s.recent == t.recent && s.activation == t.activation
  }

  lemma {:induction false} SpendsAlike(s: Set, t: Set, height: nat, kind: Kind, inputs: seq<Input>)
    requires s.view == t.view
    ensures SpendInputs(s, height, kind, inputs).view == SpendInputs(t, height, kind, inputs).view
  {
    if |inputs| > 0 {
      SpendsAlike(s, t, height, kind, inputs[..|inputs| - 1]);
    }
  }

  lemma {:induction false} SpendsKeepList(s: Set, height: nat, kind: Kind, inputs: seq<Input>)
    ensures SpendInputs(s, height, kind, inputs).recent == s.recent && SpendInputs(s, height, kind, inputs).activation == s.activation
  {
    if |inputs| > 0 {
      SpendsKeepList(s, height, kind, inputs[..|inputs| - 1]);
    }
  }

  /** A transaction without its outputs. */
  function Spent(a: Set, height: nat, tx: Tx): Set {
    MarkProof(SpendInputs(a, height, tx.kind, tx.inputs), tx.kind)
  }

  lemma SpentKeepsList(a: Set, height: nat, tx: Tx)
    ensures Spent(a, height, tx).recent == a.recent && Spent(a, height, tx).activation == a.activation
    ensures ApplyTx(a, height, tx) == AddOutputs(Spent(a, height, tx), height, tx, |tx.outputs|)
  {
    SpendsKeepList(a, height, tx.kind, tx.inputs);
  }

  lemma SpentAlike(s: Set, t: Set, height: nat, tx: Tx)
    requires s.view == t.view
    ensures Spent(s, height, tx).view == Spent(t, height, tx).view
  {
    SpendsAlike(s, t, height, tx.kind, tx.inputs);
  }

  lemma {:induction false} AddsAlike(s: Set, t: Set, height: nat, tx: Tx, n: nat)
    requires Alike(s, t) && n <= |tx.outputs|
    ensures Alike(AddOutputs(s, height, tx, n), AddOutputs(t, height, tx, n))
  {
    if n > 0 {
      AddsAlike(s, t, height, tx, n - 1);
    }
  }

  lemma {:induction false} ApplyAlike(s: Set, t: Set, height: nat, txs: seq<Tx>)
    requires Alike(s, t)
    ensures Alike(ApplyTxs(s, height, txs), ApplyTxs(t, height, txs))
  {
    if |txs| > 0 {
      var init, tx := txs[..|txs| - 1], txs[|txs| - 1];
      ApplyAlike(s, t, height, init);
      var a, b := ApplyTxs(s, height, init), ApplyTxs(t, height, init);
      SpentKeepsList(a, height, tx);
      SpentKeepsList(b, height, tx);
      SpentAlike(a, b, height, tx);
      AddsAlike(Spent(a, height, tx), Spent(b, height, tx), height, tx, |tx.outputs|);
    }
  }

  lemma {:induction false} AddsActivation(s: Set, height: nat, tx: Tx, n: nat)
    requires n <= |tx.outputs|
    ensures AddOutputs(s, height, tx, n).activation == s.activation
  {
    if n > 0 {
      AddsActivation(s, height, tx, n - 1);
    }
  }

  lemma {:induction false} ApplyActivation(s: Set, height: nat, txs: seq<Tx>)
    ensures ApplyTxs(s, height, txs).activation == s.activation
  {
    if |txs| > 0 {
      var init, tx := txs[..|txs| - 1], txs[|txs| - 1];
      ApplyActivation(s, height, init);
      SpentKeepsList(ApplyTxs(s, height, init), height, tx);
      AddsActivation(Spent(ApplyTxs(s, height, init), height, tx), height, tx, |tx.outputs|);
    }
  }

  // ---- Lists that push off the same keys ----

  /** Same view, and the keys still to come push the same ones off both lists. */
  ghost predicate Matched(s: Set, t: Set, height: nat, rest: seq<Key>) {
    && s.view == t.view && s.activation == t.activation && |s.recent| <= RECENT_LIMIT && |t.recent| <= RECENT_LIMIT
    && (Tracks(s, height) ==> Overflow(s.recent + rest) == Overflow(t.recent + rest))
  }

  lemma PushOverflow(list: seq<Key>, k: Key, rest: seq<Key>)
    requires |list| <= RECENT_LIMIT
    ensures |list| < RECENT_LIMIT ==> Overflow(list + ([k] + rest)) == Overflow((list + [k]) + rest)
    ensures |list| == RECENT_LIMIT ==>
      Overflow(list + ([k] + rest)) == [(list + [k])[0]] + Overflow((list + [k])[1..] + rest)
  {
    assert list + ([k] + rest) == (list + [k]) + rest;
    if |list| == RECENT_LIMIT {
      var all := (list + [k]) + rest;
      assert all[1..] == (list + [k])[1..] + rest;
      assert all[..|all| - RECENT_LIMIT] == [all[0]] + all[1..][..|all| - RECENT_LIMIT - 1];
    }
  }

  /** Pushing one key: both lists are full or neither is, and then the same key leaves. */
  lemma PushSame(p: seq<Key>, q: seq<Key>, k: Key, rest: seq<Key>)
    requires |p| <= RECENT_LIMIT && |q| <= RECENT_LIMIT && Overflow(p + ([k] + rest)) == Overflow(q + ([k] + rest))
    ensures |p| == RECENT_LIMIT <==> |q| == RECENT_LIMIT
    ensures |p| < RECENT_LIMIT && |q| < RECENT_LIMIT ==> Overflow((p + [k]) + rest) == Overflow((q + [k]) + rest)
    ensures |p| == RECENT_LIMIT && |q| == RECENT_LIMIT ==>
      (p + [k])[0] == (q + [k])[0] && Overflow((p + [k])[1..] + rest) == Overflow((q + [k])[1..] + rest)
  {
    PushOverflow(p, k, rest);
    PushOverflow(q, k, rest);
    var a, b := Overflow(p + ([k] + rest)), Overflow(q + ([k] + rest));
    assert |p| == RECENT_LIMIT ==> |a| == |rest| + 1;
    assert |q| == RECENT_LIMIT ==> |b| == |rest| + 1;
    if |p| == RECENT_LIMIT && |q| == RECENT_LIMIT {
      assert a[0] == b[0] && a[1..] == b[1..];
      assert a[1..] == Overflow((p + [k])[1..] + rest) && b[1..] == Overflow((q + [k])[1..] + rest);
    }
  }

  lemma AddMatched(s: Set, t: Set, height: nat, u: Utxo, rest: seq<Key>)
    requires Matched(s, t, height, if u.locked then rest else [u.key] + rest)
    ensures Matched(AddOutput(s, height, u), AddOutput(t, height, u), height, rest)
  {
    if !u.locked && Tracks(s, height) {
      PushSame(s.recent, t.recent, u.key, rest);
    }
  }

  lemma {:induction false} AddsMatched(s: Set, t: Set, height: nat, tx: Tx, n: nat, rest: seq<Key>)
    requires n <= |tx.outputs| && Matched(s, t, height, TxTracked(tx, n) + rest)
    ensures Matched(AddOutputs(s, height, tx, n), AddOutputs(t, height, tx, n), height, rest)
  {
    if n == 0 {
      assert TxTracked(tx, n) + rest == rest;
    } else {
      var u := UtxoOf(tx, n - 1);
      var more := if u.locked then rest else [u.key] + rest;
      assert TxTracked(tx, n) + rest == TxTracked(tx, n - 1) + more;
      AddsMatched(s, t, height, tx, n - 1, more);
      AddMatched(AddOutputs(s, height, tx, n - 1), AddOutputs(t, height, tx, n - 1), height, u, rest);
    }
  }

  lemma {:induction false} ApplyMatched(s: Set, t: Set, height: nat, txs: seq<Tx>, rest: seq<Key>)
    requires Matched(s, t, height, Tracked(txs) + rest)
    ensures Matched(ApplyTxs(s, height, txs), ApplyTxs(t, height, txs), height, rest)
  {
    if |txs| == 0 {
      assert Tracked(txs) + rest == rest;
    } else {
      var init, tx := txs[..|txs| - 1], txs[|txs| - 1];
      var own := TxTracked(tx, |tx.outputs|);
      assert Tracked(txs) + rest == Tracked(init) + (own + rest);
      ApplyMatched(s, t, height, init, own + rest);
      var a, b := ApplyTxs(s, height, init), ApplyTxs(t, height, init);
      SpentKeepsList(a, height, tx);
      SpentKeepsList(b, height, tx);
      SpentAlike(a, b, height, tx);
      AddsMatched(Spent(a, height, tx), Spent(b, height, tx), height, tx, |tx.outputs|, rest);
    }
  }

  /** Lists that lose the same keys in the same order keep the views equal, whatever the block. */
  lemma SameDropsSameView(s: Set, t: Set, height: nat, txs: seq<Tx>)
    requires s.view == t.view && s.activation == t.activation && |s.recent| <= RECENT_LIMIT && |t.recent| <= RECENT_LIMIT
    requires Evicted(s, height, txs) == Evicted(t, height, txs)
    ensures ApplyTxs(s, height, txs).view == ApplyTxs(t, height, txs).view
  {
    assert Tracked(txs) + [] == Tracked(txs);
    ApplyMatched(s, t, height, txs, []);
  }

  // ---- What the block creates is the same on both sides ----

  ghost predicate Twin(v: View, w: View, c: Created) {
    && v.images == w.images && v.staked == w.staked
    && (forall k :: k in c.keys ==> At(v.active, k) == At(w.active, k))
    && (forall p :: p in c.pubs ==> At(v.byPub, p) == At(w.byPub, p))
  }

  /** Created outputs have created public keys, old ones old ones. */
  ghost predicate Parted(v: View, c: Created) {
    && (forall k :: k in v.active ==> (k in c.keys <==> v.active[k].pub in c.pubs))
    && (forall p :: p in v.byPub ==> (p in c.pubs <==> v.byPub[p].key in c.keys))
  }

  ghost predicate Paired(a: Set, b: Set, c: Created) {
    Twin(a.view, b.view, c) && Parted(a.view, c) && Parted(b.view, c)
  }

  lemma WithoutTwin(v: View, w: View, c: Created, member: nat)
    requires Twin(v, w, c) && Parted(v, c) && member in v.byPub && member !in c.pubs
    ensures Twin(Without(v, member), w, c) && Parted(Without(v, member), c)
  {
  }

  lemma DropTwin(v: View, w: View, c: Created, k: Key)
    requires Twin(v, w, c) && Parted(v, c) && k !in c.keys
    ensures Twin(Drop(v, k), w, c) && Parted(Drop(v, k), c)
  {
  }

  lemma TwinSymmetric(v: View, w: View, c: Created)
    requires Twin(v, w, c)
    ensures Twin(w, v, c)
  {
  }

  lemma DropBoth(v: View, w: View, c: Created, k: Key)
    requires Twin(v, w, c) && Parted(v, c) && Parted(w, c) && k in c.keys
    ensures Twin(Drop(v, k), Drop(w, k), c) && Parted(Drop(v, k), c) && Parted(Drop(w, k), c)
  {
    assert At(v.active, k) == At(w.active, k);
  }

  lemma PlaceParted(v: View, c: Created, u: Utxo)
    requires Parted(v, c) && u.key in c.keys && u.pub in c.pubs
    ensures Parted(Placed(v, u), c)
  {
  }

  lemma PlaceBoth(v: View, w: View, c: Created, u: Utxo)
    requires Twin(v, w, c)
    ensures Twin(Placed(v, u), Placed(w, u), c)
  {
  }

  /** A spend that reveals its output names no public key of the block. */
  predicate Outward(kind: Kind, input: Input, pubs: set<nat>) {
    !kind.Hidden? ==> forall m :: m in Members(kind, input) ==> m !in pubs
  }

  lemma SpendTwin(a: Set, w: View, height: nat, kind: Kind, input: Input, c: Created)
    requires Twin(a.view, w, c) && Parted(a.view, c) && Outward(kind, input, c.pubs)
    ensures
      var b := SpendInput(a, height, kind, input);
      Twin(b.view, w.(images := w.images + {input.image}), c) && Parted(b.view, c)
  {
    var marked := a.view.(images := a.view.images + {input.image});
    var member := if kind.Hidden? then None else Resolve(a.view.byPub, Members(kind, input), input.commit);
    assert Twin(marked, w.(images := w.images + {input.image}), c) && Parted(marked, c);
    if member.Some? {
      WithoutTwin(marked, w.(images := w.images + {input.image}), c, member.value);
    }
  }

  lemma SpendPaired(a: Set, b: Set, height: nat, kind: Kind, input: Input, c: Created)
    requires Paired(a, b, c) && Outward(kind, input, c.pubs)
    ensures Paired(SpendInput(a, height, kind, input), SpendInput(b, height, kind, input), c)
  {
    var image := input.image;
    SpendTwin(a, b.view, height, kind, input, c);
    TwinSymmetric(a.view, b.view, c);
    var w := SpendInput(a, height, kind, input).view;
    assert Twin(b.view, w.(images := a.view.images), c);
    SpendTwin(b, w.(images := a.view.images), height, kind, input, c);
    assert w.(images := a.view.images).(images := a.view.images + {image}) == w;
    TwinSymmetric(SpendInput(b, height, kind, input).view, w, c);
  }

  ghost predicate AllOutward(txs: seq<Tx>, pubs: set<nat>) {
    forall tx, input :: tx in txs && input in tx.inputs ==> Outward(tx.kind, input, pubs)
  }

  lemma {:induction false} SpendsPaired(a: Set, b: Set, height: nat, kind: Kind, inputs: seq<Input>, c: Created)
    requires Paired(a, b, c) && forall input :: input in inputs ==> Outward(kind, input, c.pubs)
    ensures Paired(SpendInputs(a, height, kind, inputs), SpendInputs(b, height, kind, inputs), c)
  {
    if |inputs| > 0 {
      var init := inputs[..|inputs| - 1];
      SpendsPaired(a, b, height, kind, init, c);
      SpendPaired(SpendInputs(a, height, kind, init), SpendInputs(b, height, kind, init), height, kind, inputs[|inputs| - 1], c);
    }
  }

  // ---- The recency list along a block ----

  /** The list so far, without its bound, is the old one and the keys pushed. */
  ghost predicate ListInv(a: Set, s: Set, height: nat, keys: seq<Key>) {
    a.recent == Newest(Listed(s, height, keys)) && a.activation == s.activation
  }

  lemma AddListed(a: Set, s: Set, height: nat, keys: seq<Key>, u: Utxo)
    requires ListInv(a, s, height, keys)
    ensures ListInv(AddOutput(a, height, u), s, height, if u.locked then keys else keys + [u.key])
  {
    if !u.locked && Tracks(s, height) {
      assert s.recent + (keys + [u.key]) == (s.recent + keys) + [u.key];
      NewestSnoc(s.recent + keys, u.key);
    }
  }

  /** The old keys that a block pushes off the list. */
  function Pushed(s: Set, height: nat, txs: seq<Tx>): seq<Key> {
    PushedBy(s, height, |Tracked(txs)|)
  }

  function PushedBy(s: Set, height: nat, count: nat): seq<Key> {
    if !Tracks(s, height) || |s.recent| + count <= RECENT_LIMIT then []
    else if count > RECENT_LIMIT then s.recent
    else s.recent[..|s.recent| + count - RECENT_LIMIT]
  }

  /** The key that leaves when one more is pushed: an old one, or, after as many pushes as the list
  holds, one of the pushed ones, the same for every old list. */
  lemma LeavingKey(s: Set, height: nat, keys: seq<Key>, k: Key, count: nat)
    requires Tracks(s, height) && |s.recent| <= RECENT_LIMIT < |s.recent| + |keys| + 1 && |keys| < count
    ensures
      var list := Newest(s.recent + keys) + [k];
      && |list| == RECENT_LIMIT + 1
      && (|keys| >= RECENT_LIMIT ==> list[0] == (keys + [k])[|keys| - RECENT_LIMIT])
      && (|keys| < RECENT_LIMIT ==> list[0] in PushedBy(s, height, count))
  {
    var all := s.recent + keys;
    assert Newest(all) == all[|all| - RECENT_LIMIT..];
    if |keys| < RECENT_LIMIT {
      var i := |all| - RECENT_LIMIT;
      assert (Newest(all) + [k])[0] == s.recent[i];
      assert PushedBy(s, height, count)[i] == s.recent[i];
    }
  }

  lemma PushPaired(a: Set, b: Set, s: Set, t: Set, height: nat, c: Created, keys: seq<Key>, k: Key, count: nat)
    requires Paired(a, b, c) && ListInv(a, s, height, keys) && ListInv(b, t, height, keys)
    requires Tracks(s, height) && s.activation == t.activation && |s.recent| <= RECENT_LIMIT && |t.recent| <= RECENT_LIMIT
    requires |keys| < count && k in c.keys && forall x :: x in keys ==> x in c.keys
    requires forall x :: x in PushedBy(s, height, count) || x in PushedBy(t, height, count) ==> x !in c.keys
    requires k in a.view.active && k in b.view.active && !a.view.active[k].locked && !b.view.active[k].locked
    ensures Paired(Track(a, height, k), Track(b, height, k), c)
  {
    var la, lb := a.recent + [k], b.recent + [k];
    if |s.recent| + |keys| >= RECENT_LIMIT {
      LeavingKey(s, height, keys, k, count);
    }
    if |t.recent| + |keys| >= RECENT_LIMIT {
      LeavingKey(t, height, keys, k, count);
    }
    if |keys| >= RECENT_LIMIT {
      assert (keys + [k])[|keys| - RECENT_LIMIT] in c.keys;
      DropBoth(a.view, b.view, c, la[0]);
    } else {
      PushApart(a, b, height, c, k, la, lb);
    }
  }

  lemma PushApart(a: Set, b: Set, height: nat, c: Created, k: Key, la: seq<Key>, lb: seq<Key>)
    requires Paired(a, b, c) && la == a.recent + [k] && lb == b.recent + [k]
    requires (|la| > RECENT_LIMIT ==> la[0] !in c.keys) && (|lb| > RECENT_LIMIT ==> lb[0] !in c.keys)
    ensures Paired(Track(a, height, k), Track(b, height, k), c) || Tracks(a, height) != Tracks(b, height)
      || (k in a.view.active && a.view.active[k].locked) || (k in b.view.active && b.view.active[k].locked)
  {
    var v, w := a.view, b.view;
    if |la| > RECENT_LIMIT {
      DropTwin(v, w, c, la[0]);
      v := Drop(v, la[0]);
    }
    TwinSymmetric(v, w, c);
    if |lb| > RECENT_LIMIT {
      DropTwin(w, v, c, lb[0]);
      w := Drop(w, lb[0]);
    }
    TwinSymmetric(w, v, c);
  }

  lemma AddPaired(a: Set, b: Set, s: Set, t: Set, height: nat, c: Created, keys: seq<Key>, u: Utxo, count: nat)
    requires Paired(a, b, c) && ListInv(a, s, height, keys) && ListInv(b, t, height, keys)
    requires s.activation == t.activation && |s.recent| <= RECENT_LIMIT && |t.recent| <= RECENT_LIMIT
    requires (!u.locked ==> |keys| < count) && u.key in c.keys && u.pub in c.pubs && forall x :: x in keys ==> x in c.keys
    requires forall x :: x in PushedBy(s, height, count) || x in PushedBy(t, height, count) ==> x !in c.keys
    ensures Paired(AddOutput(a, height, u), AddOutput(b, height, u), c)
  {
    PlaceBoth(a.view, b.view, c, u);
    PlaceParted(a.view, c, u);
    PlaceParted(b.view, c, u);
    if !u.locked && Tracks(s, height) {
      PushPaired(a.(view := Placed(a.view, u)), b.(view := Placed(b.view, u)), s, t, height, c, keys, u.key, count);
    }
  }

  lemma AddTxPaired(a: Set, b: Set, s: Set, t: Set, height: nat, c: Created, keys: seq<Key>, tx: Tx, n: nat, count: nat)
    requires 0 < n <= |tx.outputs| && TxKeys(tx) <= c.keys && TxPubs(tx) <= c.pubs
    requires Paired(a, b, c) && ListInv(a, s, height, keys + TxTracked(tx, n - 1)) && ListInv(b, t, height, keys + TxTracked(tx, n - 1))
    requires s.activation == t.activation && |s.recent| <= RECENT_LIMIT && |t.recent| <= RECENT_LIMIT
    requires |keys + TxTracked(tx, n)| <= count && forall x :: x in keys + TxTracked(tx, n - 1) ==> x in c.keys
    requires forall x :: x in PushedBy(s, height, count) || x in PushedBy(t, height, count) ==> x !in c.keys
    ensures
      var u := UtxoOf(tx, n - 1);
      && Paired(AddOutput(a, height, u), AddOutput(b, height, u), c)
      && ListInv(AddOutput(a, height, u), s, height, keys + TxTracked(tx, n)) && ListInv(AddOutput(b, height, u), t, height, keys + TxTracked(tx, n))
      && forall x :: x in keys + TxTracked(tx, n) ==> x in c.keys
  {
    var u, before := UtxoOf(tx, n - 1), keys + TxTracked(tx, n - 1);
    assert u.key in TxKeys(tx) && u.pub in TxPubs(tx);
    assert keys + TxTracked(tx, n) == if u.locked then before else before + [u.key];
    AddPaired(a, b, s, t, height, c, before, u, count);
    AddListed(a, s, height, before, u);
    AddListed(b, t, height, before, u);
  }

  /** What is kept along a block: the created parts agree and both lists are known. */
  ghost predicate Together(a: Set, b: Set, s: Set, t: Set, height: nat, c: Created, keys: seq<Key>) {
    && Paired(a, b, c) && ListInv(a, s, height, keys) && ListInv(b, t, height, keys)
    && forall x :: x in keys ==> x in c.keys
  }

  ghost predicate Comparable(s: Set, t: Set, height: nat, c: Created, count: nat) {
    && s.activation == t.activation && |s.recent| <= RECENT_LIMIT && |t.recent| <= RECENT_LIMIT
    && forall x :: x in PushedBy(s, height, count) || x in PushedBy(t, height, count) ==> x !in c.keys
  }

  lemma {:induction false} AddsTogether(a: Set, b: Set, s: Set, t: Set, height: nat, c: Created, keys: seq<Key>, tx: Tx, n: nat, count: nat)
    requires n <= |tx.outputs| && TxKeys(tx) <= c.keys && TxPubs(tx) <= c.pubs && Comparable(s, t, height, c, count)
    requires Together(a, b, s, t, height, c, keys) && |keys + TxTracked(tx, n)| <= count
    ensures Together(AddOutputs(a, height, tx, n), AddOutputs(b, height, tx, n), s, t, height, c, keys + TxTracked(tx, n))
  {
    if n == 0 {
      assert keys + [] == keys;
    } else {
      AddsTogether(a, b, s, t, height, c, keys, tx, n - 1, count);
      AddTxPaired(AddOutputs(a, height, tx, n - 1), AddOutputs(b, height, tx, n - 1), s, t, height, c, keys, tx, n, count);
    }
  }

  lemma SpentTogether(a: Set, b: Set, s: Set, t: Set, height: nat, c: Created, keys: seq<Key>, tx: Tx)
    requires Together(a, b, s, t, height, c, keys) && forall input :: input in tx.inputs ==> Outward(tx.kind, input, c.pubs)
    ensures Together(Spent(a, height, tx), Spent(b, height, tx), s, t, height, c, keys)
  {
    SpendsPaired(a, b, height, tx.kind, tx.inputs, c);
    SpentKeepsList(a, height, tx);
    SpentKeepsList(b, height, tx);
  }

  lemma {:induction false} ApplyTogether(s: Set, t: Set, height: nat, c: Created, txs: seq<Tx>, count: nat)
    requires Paired(s, t, c) && Comparable(s, t, height, c, count) && |Tracked(txs)| <= count
    requires Keys(txs) <= c.keys && Pubs(txs) <= c.pubs && AllOutward(txs, c.pubs)
    ensures Together(ApplyTxs(s, height, txs), ApplyTxs(t, height, txs), s, t, height, c, Tracked(txs))
  {
    if |txs| == 0 {
      assert s.recent + [] == s.recent && t.recent + [] == t.recent;
    } else {
      var init, tx := txs[..|txs| - 1], txs[|txs| - 1];
      assert tx in txs && forall x :: x in init ==> x in txs;
      ApplyTogether(s, t, height, c, init, count);
      var a, b := ApplyTxs(s, height, init), ApplyTxs(t, height, init);
      SpentTogether(a, b, s, t, height, c, Tracked(init), tx);
      SpentKeepsList(a, height, tx);
      SpentKeepsList(b, height, tx);
      AddsTogether(Spent(a, height, tx), Spent(b, height, tx), s, t, height, c, Tracked(init), tx, |tx.outputs|, count);
    }
  }
}
