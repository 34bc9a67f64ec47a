/** Exactly when two sets with the same view and different recency lists part ways over a block:
when one pushes off an active output that the other keeps and the block does not spend. */
module Divergence {
  import opened BlockUndo
  import opened Options
  import opened Recency
  import opened Reversal
  import opened Utxos

  // ---- Outputs that leave ----

  /** An old output leaves by being spent or by falling off the recency list. */
  ghost predicate Leaves(s: Set, height: nat, txs: seq<Tx>, k: Key) {
    k in EntryKeys(Spends(s, height, txs)) || k in Evicted(s, height, txs)
  }

  lemma OldKey(s: Set, height: nat, txs: seq<Tx>, k: Key)
    requires Sound(s, height) && NewIds(s, txs) && k in s.view.active
    ensures At(ApplyTxs(s, height, txs).view.active, k) == if Leaves(s, height, txs, k) then None else At(s.view.active, k)
  {
    NewKeys(s, txs);
    ApplyExplained(s, height, txs);
    ApplyClean(s, height, txs);
    assert k !in Keys(txs);
  }

  /** New hashes and one-time keys, spends that look outward, and no key of the block about to be
  pushed off. */
  ghost predicate Steady(s: Set, t: Set, height: nat, txs: seq<Tx>) {
    && Sound(s, height) && Sound(t, height) && s.view == t.view && s.activation == t.activation
    && NewIds(s, txs) && NewIds(t, txs) && AllOutward(txs, Pubs(txs))
    && (forall k :: k in s.view.active ==> s.view.active[k].pub !in Pubs(txs))
    && (forall k :: k in Pushed(s, height, txs) || k in Pushed(t, height, txs) ==> k !in Keys(txs))
  }

  lemma SteadyTwins(s: Set, t: Set, height: nat, txs: seq<Tx>)
    requires Steady(s, t, height, txs)
    ensures Twin(ApplyTxs(s, height, txs).view, ApplyTxs(t, height, txs).view, CreatedIn(txs))
    ensures Keys(txs) !! s.view.active.Keys
  {
    var c := CreatedIn(txs);
    NewKeys(s, txs);
    assert Parted(s.view, c) by {
      forall p | p in s.view.byPub ensures p !in c.pubs && s.view.byPub[p].key !in c.keys {
        assert s.view.byPub[p].key in s.view.active;
      }
    }
    ApplyTogether(s, t, height, c, txs, |Tracked(txs)|);
  }

  // ---- The public keys follow the outputs ----

  /** A lost entry: its output was spent, or an output of this public key fell off the list. */
  lemma LostPub(t: Set, height: nat, txs: seq<Tx>, p: nat, u: Utxo)
    requires Sound(t, height) && p !in Pubs(txs) && At(t.view.byPub, p) == Some(u)
    ensures p in ApplyTxs(t, height, txs).view.byPub || u.key in EntryKeys(Spends(t, height, txs)) || PubDropped(t.view, Evicted(t, height, txs), p)
  {
    ApplyExplained(t, height, txs);
    var entries := Spends(t, height, txs);
    if p in EntryMembers(entries) {
      var e :| e in entries && e.member == p;
      assert EntryOld(t.view, e, CreatedIn(txs));
    }
  }

  /** An output that leaves takes the entry of its public key along, unless another output held it
  and this one was spent. */
  lemma LeavingPub(s: Set, height: nat, txs: seq<Tx>, k: Key, u: Utxo)
    requires Sound(s, height) && k in s.view.active && k !in Keys(txs) && Leaves(s, height, txs, k)
    requires s.view.active[k].pub !in Pubs(txs) && At(s.view.byPub, s.view.active[k].pub) == Some(u)
    ensures s.view.active[k].pub !in ApplyTxs(s, height, txs).view.byPub || u.key == k
  {
    ApplyExplained(s, height, txs);
    var entries := Spends(s, height, txs);
    if k in EntryKeys(entries) {
      var e :| e in entries && e.utxo.key == k;
      assert EntryOld(s.view, e, CreatedIn(txs));
    }
  }

  /** A public key that one side keeps, the other keeps too, if the same outputs leave. */
  lemma OldPub(s: Set, t: Set, height: nat, txs: seq<Tx>, p: nat)
    requires Steady(s, t, height, txs) && p !in Pubs(txs)
    requires forall k :: k in s.view.active ==> (Leaves(s, height, txs, k) <==> Leaves(t, height, txs, k))
    requires p in ApplyTxs(s, height, txs).view.byPub
    ensures At(ApplyTxs(t, height, txs).view.byPub, p) == At(ApplyTxs(s, height, txs).view.byPub, p)
  {
    NewKeys(s, txs);
    ApplyExplained(s, height, txs);
    ApplyExplained(t, height, txs);
    ApplyClean(s, height, txs);
    var u := s.view.byPub[p];
    assert ApplyTxs(s, height, txs).view.byPub[p] == u && u.key in ApplyTxs(s, height, txs).view.active;
    assert u.key in s.view.active;
    OldKey(s, height, txs, u.key);
    LostPub(t, height, txs, p, u);
    forall k | k in s.view.active && s.view.active[k].pub == p && Leaves(s, height, txs, k) ensures u.key == k {
      LeavingPub(s, height, txs, k, u);
    }
  }

  // ---- The exact condition, by the outputs that leave ----

  lemma SameLeavingSameView(s: Set, t: Set, height: nat, txs: seq<Tx>)
    requires Steady(s, t, height, txs)
    requires forall k :: k in s.view.active ==> (Leaves(s, height, txs, k) <==> Leaves(t, height, txs, k))
    ensures ApplyTxs(s, height, txs).view == ApplyTxs(t, height, txs).view
  {
    var a, b := ApplyTxs(s, height, txs).view, ApplyTxs(t, height, txs).view;
    SteadyTwins(s, t, height, txs);
    ApplyExplained(s, height, txs);
    ApplyExplained(t, height, txs);
    forall k ensures At(a.active, k) == At(b.active, k) {
      if k in s.view.active {
        OldKey(s, height, txs, k);
        OldKey(t, height, txs, k);
      }
    }
    SameMaps(a.active, b.active);
    forall p ensures At(a.byPub, p) == At(b.byPub, p) {
      if p !in Pubs(txs) && p in a.byPub {
        OldPub(s, t, height, txs, p);
      } else if p !in Pubs(txs) && p in b.byPub {
        OldPub(t, s, height, txs, p);
      }
    }
    SameMaps(a.byPub, b.byPub);
  }

  /** The views stay equal if and only if every old output leaves both sets or neither. */
  lemma LeavingExactly(s: Set, t: Set, height: nat, txs: seq<Tx>)
    requires Steady(s, t, height, txs)
    ensures ApplyTxs(s, height, txs).view == ApplyTxs(t, height, txs).view <==>
            forall k :: k in s.view.active ==> (Leaves(s, height, txs, k) <==> Leaves(t, height, txs, k))
  {
    forall k | k in s.view.active && ApplyTxs(s, height, txs).view == ApplyTxs(t, height, txs).view
      ensures Leaves(s, height, txs, k) <==> Leaves(t, height, txs, k)
    {
      OldKey(s, height, txs, k);
      OldKey(t, height, txs, k);
    }
    if forall k :: k in s.view.active ==> (Leaves(s, height, txs, k) <==> Leaves(t, height, txs, k)) {
      SameLeavingSameView(s, t, height, txs);
    }
  }

  // ---- The exact condition, by the keys pushed off ----

  /** The outputs that the revealing spends of a block name, in the view before it. */
  function Target(v: View, kind: Kind, input: Input): set<Key> {
    var member := if kind.Hidden? then None else Resolve(v.byPub, Members(kind, input), input.commit);
    if member.None? then {} else {v.byPub[member.value].key}
  }

  function InputTargets(v: View, kind: Kind, inputs: seq<Input>): set<Key> {
    if |inputs| == 0 then {} else InputTargets(v, kind, inputs[..|inputs| - 1]) + Target(v, kind, inputs[|inputs| - 1])
  }

  function Targets(v: View, txs: seq<Tx>): set<Key> {
    if |txs| == 0 then {} else Targets(v, txs[..|txs| - 1]) + InputTargets(v, txs[|txs| - 1].kind, txs[|txs| - 1].inputs)
  }

  /** One member of the ring at most has an active output of the commitment. */
  predicate OneMatch(byPub: map<nat, Utxo>, members: seq<nat>, commit: nat) {
    forall m, n :: m in members && n in members && m in byPub && n in byPub && byPub[m].commit == commit == byPub[n].commit ==> m == n
  }

  predicate Aimed(v: View, kind: Kind, input: Input, pubs: set<nat>) {
    Outward(kind, input, pubs) && (!kind.Hidden? ==> OneMatch(v.byPub, Members(kind, input), input.commit))
  }

  ghost predicate AllAimed(v: View, txs: seq<Tx>, pubs: set<nat>) {
    forall tx, input :: tx in txs && input in tx.inputs ==> Aimed(v, tx.kind, input, pubs)
  }

  /** Every active output among these keys is what its public key finds. */
  ghost predicate Found(s: Set, keys: seq<Key>) {
    forall k :: k in keys && k in s.view.active ==> At(s.view.byPub, s.view.active[k].pub) == Some(s.view.active[k])
  }

  /** Only named outputs were spent, and every named output was spent or fell off. */
  ghost predicate Hits(entries: seq<Entry>, dropped: seq<Key>, targets: set<Key>) {
    EntryKeys(entries) <= targets && forall k :: k in targets ==> k in EntryKeys(entries) || k in dropped
  }

  /** The situation along a block: what fell off so far was found. */
  ghost predicate Aiming(s: Set, a: Set, height: nat, c: Created, list: seq<Key>) {
    Traced(s, a, height, c, list) && Found(s, Overflow(list)) && Shaped(s.view) && c.keys !! s.view.active.Keys
  }

  lemma OverflowGrows(list: seq<Key>, more: seq<Key>, k: Key)
    requires k in Overflow(list)
    ensures k in Overflow(list + more)
  {
    var i :| 0 <= i < |Overflow(list)| && Overflow(list)[i] == k;
    assert Overflow(list + more)[i] == k;
  }

  /** A named member that is no longer indexed was spent or fell off. */
  lemma GoneTarget(s: Set, a: Set, height: nat, c: Created, list: seq<Key>, m: nat)
    requires Aiming(s, a, height, c, list) && m in s.view.byPub && m !in c.pubs && m !in a.view.byPub
    ensures s.view.byPub[m].key in EntryKeys(Entries(a, height)) || s.view.byPub[m].key in Overflow(list)
  {
    if m in EntryMembers(Entries(a, height)) {
      var e :| e in Entries(a, height) && e.member == m;
      assert EntryOld(s.view, e, c);
    } else {
      var k :| k in Overflow(list) && k in s.view.active && s.view.active[k].pub == m;
    }
  }

  lemma SpendHits(s: Set, a: Set, height: nat, c: Created, list: seq<Key>, kind: Kind, input: Input, targets: set<Key>)
    requires Aiming(s, a, height, c, list) && Aimed(s.view, kind, input, c.pubs) && Hits(Entries(a, height), Overflow(list), targets)
    ensures Hits(Entries(SpendInput(a, height, kind, input), height), Overflow(list), targets + Target(s.view, kind, input))
  {
    var b := SpendInput(a, height, kind, input);
    var now := if kind.Hidden? then None else Resolve(a.view.byPub, Members(kind, input), input.commit);
    var before := if kind.Hidden? then None else Resolve(s.view.byPub, Members(kind, input), input.commit);
    if now.Some? {
      var marked := a.(view := a.view.(images := a.view.images + {input.image}));
      ConsumeEntries(marked, height, now.value);
      KeysSnoc(Entries(a, height), Entry(now.value, a.view.byPub[now.value]));
      assert a.view.byPub[now.value] == s.view.byPub[now.value];
      assert before.Some? && before.value == now.value;
    } else {
      assert Entries(b, height) == Entries(a, height);
      if before.Some? {
        assert before.value !in a.view.byPub;
        GoneTarget(s, a, height, c, list, before.value);
      }
    }
  }

  lemma {:induction false} SpendsHit(s: Set, a: Set, height: nat, c: Created, list: seq<Key>, kind: Kind, inputs: seq<Input>, targets: set<Key>)
    requires Aiming(s, a, height, c, list) && Hits(Entries(a, height), Overflow(list), targets)
    requires forall input :: input in inputs ==> Aimed(s.view, kind, input, c.pubs)
    ensures Hits(Entries(SpendInputs(a, height, kind, inputs), height), Overflow(list), targets + InputTargets(s.view, kind, inputs))
  {
    if |inputs| == 0 {
      assert targets + {} == targets;
    } else {
      var init, input := inputs[..|inputs| - 1], inputs[|inputs| - 1];
      SpendsHit(s, a, height, c, list, kind, init, targets);
      SpendsTraced(s, a, height, c, list, kind, init);
      SpendHits(s, SpendInputs(a, height, kind, init), height, c, list, kind, input, targets + InputTargets(s.view, kind, init));
      assert targets + InputTargets(s.view, kind, init) + Target(s.view, kind, input) == targets + InputTargets(s.view, kind, inputs);
    }
  }

  lemma TxHits(s: Set, a: Set, height: nat, c: Created, list: seq<Key>, tx: Tx, targets: set<Key>, more: seq<Key>)
    requires Aiming(s, a, height, c, list) && Hits(Entries(a, height), Overflow(list), targets)
    requires forall input :: input in tx.inputs ==> Aimed(s.view, tx.kind, input, c.pubs)
    ensures Hits(Entries(ApplyTx(a, height, tx), height), Overflow(list + more), targets + InputTargets(s.view, tx.kind, tx.inputs))
  {
    SpendsHit(s, a, height, c, list, tx.kind, tx.inputs, targets);
    var spent := Recency.Spent(a, height, tx);
    AddsKeepJournal(spent, height, tx, |tx.outputs|);
    assert Entries(ApplyTx(a, height, tx), height) == Entries(SpendInputs(a, height, tx.kind, tx.inputs), height);
    forall k | k in Overflow(list) ensures k in Overflow(list + more) {
      OverflowGrows(list, more, k);
    }
  }

  lemma {:induction false} TrackedKeys(txs: seq<Tx>)
    ensures forall k :: k in Tracked(txs) ==> k in Keys(txs)
  {
    if |txs| > 0 {
      TrackedKeys(txs[..|txs| - 1]);
      TxTrackedKeys(txs[|txs| - 1], |txs[|txs| - 1].outputs|);
    }
  }

  lemma {:induction false} TxTrackedKeys(tx: Tx, n: nat)
    requires n <= |tx.outputs|
    ensures forall k :: k in TxTracked(tx, n) ==> k in TxKeys(tx)
  {
    if n > 0 {
      TxTrackedKeys(tx, n - 1);
    }
  }

  lemma ListedGrows(s: Set, height: nat, keys: seq<Key>, more: seq<Key>)
    ensures Listed(s, height, keys + more) == Listed(s, height, keys) + if Tracks(s, height) then more else []
  {
    assert s.recent + (keys + more) == (s.recent + keys) + more;
  }

  lemma {:induction false} ApplyHits(s: Set, height: nat, c: Created, txs: seq<Tx>)
    requires Sound(s, height) && Found(s, Evicted(s, height, txs)) && c.keys !! s.view.active.Keys
    requires Keys(txs) <= c.keys && Pubs(txs) <= c.pubs && AllAimed(s.view, txs, c.pubs)
    ensures Hits(Entries(ApplyTxs(s, height, txs), height), Overflow(Listed(s, height, Tracked(txs))), Targets(s.view, txs))
  {
    if |txs| == 0 {
      assert Entries(s, height) == [] && EntryKeys([]) == {};
    } else {
      var init, tx := txs[..|txs| - 1], txs[|txs| - 1];
      assert tx in txs && forall x :: x in init ==> x in txs;
      var own := TxTracked(tx, |tx.outputs|);
      ListedGrows(s, height, Tracked(init), own);
      forall k | k in Evicted(s, height, init) ensures k in Evicted(s, height, txs) {
        OverflowGrows(Listed(s, height, Tracked(init)), if Tracks(s, height) then own else [], k);
      }
      ApplyHits(s, height, c, init);
      PrefixTraced(s, height, c, init);
      TxHits(s, ApplyTxs(s, height, init), height, c, Listed(s, height, Tracked(init)), tx, Targets(s.view, init),
             if Tracks(s, height) then own else []);
    }
  }

  lemma FrontOfJoin(p: seq<Key>, q: seq<Key>, n: nat)
    requires n <= |p| + |q|
    ensures n <= |p| ==> (p + q)[..n] == p[..n]
    ensures n > |p| ==> (p + q)[..n] == p + q[..n - |p|]
  {
  }

  lemma EvictedSplit(s: Set, height: nat, txs: seq<Tx>)
    requires |s.recent| <= RECENT_LIMIT
    ensures
      var own := |Evicted(s, height, txs)| - |Pushed(s, height, txs)|;
      0 <= own <= |Tracked(txs)| && Evicted(s, height, txs) == Pushed(s, height, txs) + Tracked(txs)[..own]
  {
    if Tracks(s, height) && |s.recent| + |Tracked(txs)| > RECENT_LIMIT {
      FrontOfJoin(s.recent, Tracked(txs), |s.recent| + |Tracked(txs)| - RECENT_LIMIT);
    }
  }

  /** For an old output, falling off is being among the old keys pushed off. */
  lemma EvictedIsPushed(s: Set, height: nat, txs: seq<Tx>, k: Key)
    requires |s.recent| <= RECENT_LIMIT && k !in Keys(txs)
    ensures k in Evicted(s, height, txs) <==> k in Pushed(s, height, txs)
  {
    TrackedKeys(txs);
    EvictedSplit(s, height, txs);
  }

  lemma LeavesExactly(s: Set, height: nat, txs: seq<Tx>, k: Key)
    requires Sound(s, height) && NewIds(s, txs) && Found(s, Evicted(s, height, txs)) && AllAimed(s.view, txs, Pubs(txs)) && k in s.view.active
    ensures Leaves(s, height, txs, k) <==> k in Targets(s.view, txs) || k in Pushed(s, height, txs)
  {
    NewKeys(s, txs);
    ApplyHits(s, height, CreatedIn(txs), txs);
    EvictedIsPushed(s, height, txs, k);
  }

  /** The two lists push off the same active outputs, apart from those the block spends. */
  ghost predicate SamePushed(s: Set, t: Set, height: nat, txs: seq<Tx>) {
    forall k :: k in s.view.active && k !in Targets(s.view, txs) ==> (k in Pushed(s, height, txs) <==> k in Pushed(t, height, txs))
  }

  /** For a block whose rings name one output each, the views stay equal if and only if the two
  recency lists push off the same active outputs, apart from those the block spends. */
  lemma PushedExactly(s: Set, t: Set, height: nat, txs: seq<Tx>)
    requires Steady(s, t, height, txs) && Found(s, Evicted(s, height, txs)) && Found(t, Evicted(t, height, txs)) && AllAimed(s.view, txs, Pubs(txs))
    ensures ApplyTxs(s, height, txs).view == ApplyTxs(t, height, txs).view <==> SamePushed(s, t, height, txs)
  {
    LeavingExactly(s, t, height, txs);
    forall k | k in s.view.active
      ensures Leaves(s, height, txs, k) <==> k in Targets(s.view, txs) || k in Pushed(s, height, txs)
      ensures Leaves(t, height, txs, k) <==> k in Targets(s.view, txs) || k in Pushed(t, height, txs)
    {
      LeavesExactly(s, height, txs, k);
      LeavesExactly(t, height, txs, k);
    }
  }
}
