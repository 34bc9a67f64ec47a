/** What spending does: per input, which output leaves both indexes and enters the journal, and
over a validated block, that every output the validation reserved is gone. */
module SpendEffects {
  import opened BlockUndo
  import opened Divergence
  import opened Options
  import opened Recency
  import opened Reversal
  import opened Utxos

  // ---- One input ----

  /** The public key finds an active output of the input's commitment. */
  predicate Matches(v: View, pub: nat, commit: nat) {
    pub in v.byPub && v.byPub[pub].commit == commit
  }

  /** Only the key image changed. */
  predicate OnlyImage(s: Set, t: Set, input: Input) {
    t == s.(view := s.view.(images := s.view.images + {input.image}))
  }

  /** The output that `pub` found has left both indexes and is the newest journal entry. */
  predicate Removed(s: Set, t: Set, height: nat, input: Input, pub: nat) {
    && pub in s.view.byPub
    && var u := s.view.byPub[pub];
       && t.view == s.view.(byPub := s.view.byPub - {pub}, active := s.view.active - {u.key}, images := s.view.images + {input.image})
       && Entries(t, height) == Entries(s, height) + [Entry(pub, u)] && t.spent == s.spent + {u.key} && t.recent == s.recent
       && t.decoys == if |s.decoys| < 10_000 then s.decoys[pub := u] else s.decoys
  }

  lemma {:induction false} ResolvesFirst(byPub: map<nat, Utxo>, ring: seq<nat>, commit: nat, i: nat)
    requires i < |ring| && ring[i] in byPub && byPub[ring[i]].commit == commit
    requires forall j :: 0 <= j < i && ring[j] in byPub ==> byPub[ring[j]].commit != commit
    ensures Resolve(byPub, ring, commit) == Some(ring[i])
  {
    if i > 0 {
      ResolvesFirst(byPub, ring[1..], commit, i - 1);
    }
  }

  lemma {:induction false} ResolvesNone(byPub: map<nat, Utxo>, ring: seq<nat>, commit: nat)
    requires forall j :: 0 <= j < |ring| && ring[j] in byPub ==> byPub[ring[j]].commit != commit
    ensures Resolve(byPub, ring, commit).None?
  {
    if |ring| > 0 {
      ResolvesNone(byPub, ring[1..], commit);
    }
  }

  lemma Consumed(s: Set, height: nat, input: Input, pub: nat)
    requires Upto(s.journal, height) && pub in s.view.byPub
    ensures Removed(s, Consume(s.(view := s.view.(images := s.view.images + {input.image})), height, pub), height, input, pub)
  {
    ConsumeEntries(s.(view := s.view.(images := s.view.images + {input.image})), height, pub);
  }

  /** A plain ring spend removes the output of the first matching ring member, wherever it stands,
  and nothing if none matches. */
  lemma RingSpend(s: Set, height: nat, kind: Kind, input: Input, i: nat)
    requires Upto(s.journal, height) && !kind.Hidden? && !kind.Revealed? && !kind.Position?
    ensures
      var t := SpendInput(s, height, kind, input);
      && (&& i < |input.ring| && Matches(s.view, input.ring[i], input.commit)
          && (forall j :: 0 <= j < i ==> !Matches(s.view, input.ring[j], input.commit))
          ==> Removed(s, t, height, input, input.ring[i]))
      && ((forall j :: 0 <= j < |input.ring| ==> !Matches(s.view, input.ring[j], input.commit)) ==> OnlyImage(s, t, input))
  {
    if i < |input.ring| && Matches(s.view, input.ring[i], input.commit) && forall j :: 0 <= j < i ==> !Matches(s.view, input.ring[j], input.commit) {
      ResolvesFirst(s.view.byPub, input.ring, input.commit, i);
      Consumed(s, height, input, input.ring[i]);
    }
    if forall j :: 0 <= j < |input.ring| ==> !Matches(s.view, input.ring[j], input.commit) {
      ResolvesNone(s.view.byPub, input.ring, input.commit);
    }
  }

  /** A spend that names its member removes exactly that member's output, or nothing. */
  lemma NamedSpend(s: Set, height: nat, kind: Kind, input: Input, at: nat)
    requires Upto(s.journal, height) && (kind.Revealed? || kind.Position?) && at == (if kind.Position? then 0 else input.realIndex)
    ensures
      var t := SpendInput(s, height, kind, input);
      if at < |input.ring| && Matches(s.view, input.ring[at], input.commit) then Removed(s, t, height, input, input.ring[at])
      else OnlyImage(s, t, input)
  {
    if at < |input.ring| {
      var pub := input.ring[at];
      if Matches(s.view, pub, input.commit) {
        ResolvesFirst(s.view.byPub, [pub], input.commit, 0);
        Consumed(s, height, input, pub);
      } else {
        ResolvesNone(s.view.byPub, [pub], input.commit);
      }
      assert kind.Position? ==> input.ring[..1] == [pub];
    } else {
      ResolvesNone(s.view.byPub, [], input.commit);
    }
  }

  /** A hidden spend removes nothing. */
  lemma HiddenSpend(s: Set, height: nat, input: Input)
    ensures OnlyImage(s, SpendInput(s, height, Hidden, input), input)
  {
  }

  // ---- Undoing one input ----

  /** The ring member could be brought back from the pool. */
  predicate Pools(s: Set, restored: set<nat>, pub: nat, commit: nat) {
    pub !in restored && pub in s.decoys && s.decoys[pub].commit == commit
  }

  /** The pooled output under `pub` is active and indexed again, and neither pooled nor spent. */
  predicate Revived(s: Set, t: Set, input: Input, pub: nat) {
    && pub in s.decoys
    && var u := s.decoys[pub];
       && t.view == s.view.(active := s.view.active[u.key := u], byPub := s.view.byPub[pub := u], images := s.view.images - {input.image})
       && t.decoys == s.decoys - {pub} && t.spent == s.spent - {u.key} && t.journal == s.journal && t.recent == s.recent
  }

  lemma {:induction false} FallbackFirst(ring: seq<nat>, restored: set<nat>, decoys: map<nat, Utxo>, commit: nat, i: nat)
    requires i < |ring| && ring[i] !in restored && ring[i] in decoys && decoys[ring[i]].commit == commit
    requires forall j :: 0 <= j < i ==> ring[j] !in restored && (ring[j] in decoys ==> decoys[ring[j]].commit != commit)
    ensures Fallback(ring, restored, decoys, commit) == Some(ring[i])
  {
    if i > 0 {
      FallbackFirst(ring[1..], restored, decoys, commit, i - 1);
    }
  }

  lemma {:induction false} FallbackNone(ring: seq<nat>, restored: set<nat>, decoys: map<nat, Utxo>, commit: nat)
    requires forall i :: 0 <= i < |ring| && ring[i] !in restored && ring[i] in decoys && decoys[ring[i]].commit == commit ==>
      exists j :: 0 <= j < i && ring[j] in restored
    ensures Fallback(ring, restored, decoys, commit).None?
  {
    if |ring| > 0 && ring[0] !in restored {
      forall i | 0 <= i < |ring[1..]| && ring[1..][i] !in restored && ring[1..][i] in decoys && decoys[ring[1..][i]].commit == commit
        ensures exists j :: 0 <= j < i && ring[1..][j] in restored
      {
        assert ring[i + 1] == ring[1..][i];
        var j :| 0 <= j < i + 1 && ring[j] in restored;
        assert ring[1..][j - 1] == ring[j];
      }
      FallbackNone(ring[1..], restored, decoys, commit);
    }
  }

  /** Undoing a plain ring input brings back the first pooled match, unless a journaled member stands
  before it; otherwise it only gives the key image back. */
  lemma RingUndo(s: Set, restored: set<nat>, kind: Kind, input: Input, i: nat)
    requires !kind.Revealed? && !kind.Position?
    ensures
      var t := UndoInput(s, restored, kind, input);
      && (&& i < |input.ring| && Pools(s, restored, input.ring[i], input.commit)
          && (forall j :: 0 <= j < i ==> input.ring[j] !in restored && !Pools(s, restored, input.ring[j], input.commit))
          ==> Revived(s, t, input, input.ring[i]))
      && ((forall j :: 0 <= j < |input.ring| && Pools(s, restored, input.ring[j], input.commit) ==> exists m :: 0 <= m < j && input.ring[m] in restored)
          ==> t == s.(view := s.view.(images := s.view.images - {input.image})))
  {
    if i < |input.ring| && Pools(s, restored, input.ring[i], input.commit)
       && forall j :: 0 <= j < i ==> input.ring[j] !in restored && !Pools(s, restored, input.ring[j], input.commit)
    {
      FallbackFirst(input.ring, restored, s.decoys, input.commit, i);
    }
    if forall j :: 0 <= j < |input.ring| && Pools(s, restored, input.ring[j], input.commit) ==> exists m :: 0 <= m < j && input.ring[m] in restored {
      FallbackNone(input.ring, restored, s.decoys, input.commit);
    }
  }

  /** Undoing an input that names its member looks at that member alone. */
  lemma NamedUndo(s: Set, restored: set<nat>, kind: Kind, input: Input, at: nat)
    requires (kind.Revealed? || kind.Position?) && at == (if kind.Position? then 0 else input.realIndex)
    ensures
      var t := UndoInput(s, restored, kind, input);
      if at < |input.ring| && Pools(s, restored, input.ring[at], input.commit) then Revived(s, t, input, input.ring[at])
      else t == s.(view := s.view.(images := s.view.images - {input.image}))
  {
    if at < |input.ring| {
      var pub := input.ring[at];
      assert Members(kind, input) == [pub];
      if Pools(s, restored, pub, input.commit) {
        FallbackFirst([pub], restored, s.decoys, input.commit, 0);
      } else {
        FallbackNone([pub], restored, s.decoys, input.commit);
      }
    } else {
      FallbackNone([], restored, s.decoys, input.commit);
    }
  }

  /** The journal forgets its oldest height, and only that, once it holds more than 256. */
  lemma JournalForgets(journal: map<nat, seq<Entry>>, h: nat)
    requires h in journal
    ensures h in Pruned(journal) <==> |journal| <= 256 || exists older :: older in journal && older < h
    ensures h in Pruned(journal) ==> Pruned(journal)[h] == journal[h]
  {
  }

  // ---- Validating one input ----

  /** The ring member finds an output of the commitment that no earlier input has claimed. */
  predicate Claimable(v: View, keys: set<Key>, pub: nat, commit: nat) {
    Matches(v, pub, commit) && v.byPub[pub].key !in keys
  }

  lemma {:induction false} ClaimsFirst(v: View, ring: seq<nat>, commit: nat, keys: set<Key>, i: nat)
    requires i < |ring| && Claimable(v, keys, ring[i], commit) && forall j :: 0 <= j < i ==> !Claimable(v, keys, ring[j], commit)
    ensures Unclaimed(v, ring, commit, keys) == Some(v.byPub[ring[i]].key)
  {
    if i > 0 {
      ClaimsFirst(v, ring[1..], commit, keys, i - 1);
    }
  }

  lemma {:induction false} ClaimsNone(v: View, ring: seq<nat>, commit: nat, keys: set<Key>)
    requires forall j :: 0 <= j < |ring| ==> !Claimable(v, keys, ring[j], commit)
    ensures Unclaimed(v, ring, commit, keys).None?
  {
    if |ring| > 0 {
      ClaimsNone(v, ring[1..], commit, keys);
    }
  }

  /** A hidden spend is accepted exactly with a fresh key image, and reserves nothing else. */
  lemma HiddenCheck(v: View, input: Input, r: Reserved)
    ensures CheckInput(v, Hidden, input, r)
         == if input.image !in v.images && input.image !in r.images then Some(Reserved(r.images + {input.image}, r.keys)) else None
  {
  }

  /** A revealed spend is accepted exactly if its named member exists and is claimable. */
  lemma RevealedCheck(v: View, input: Input, r: Reserved)
    ensures
      CheckInput(v, Revealed, input, r)
      == if && input.realIndex < |input.ring| && input.image !in v.images && input.image !in r.images
            && Claimable(v, r.keys, input.ring[input.realIndex], input.commit)
         then Some(Reserved(r.images + {input.image}, r.keys + {v.byPub[input.ring[input.realIndex]].key}))
         else None
  {
    if input.realIndex < |input.ring| {
      var pub := input.ring[input.realIndex];
      if Claimable(v, r.keys, pub, input.commit) {
        ClaimsFirst(v, [pub], input.commit, r.keys, 0);
      } else {
        ClaimsNone(v, [pub], input.commit, r.keys);
      }
    }
  }

  /** Any other spend is accepted exactly if some member is claimable, and reserves the first such. */
  lemma RingCheck(v: View, kind: Kind, input: Input, r: Reserved, i: nat)
    requires !kind.Hidden? && !kind.Revealed?
    ensures
      CheckInput(v, kind, input, r).Some? <==>
        && input.image !in v.images && input.image !in r.images
        && exists j :: 0 <= j < |input.ring| && Claimable(v, r.keys, input.ring[j], input.commit)
    ensures
      && CheckInput(v, kind, input, r).Some? && i < |input.ring| && Claimable(v, r.keys, input.ring[i], input.commit)
      && (forall j :: 0 <= j < i ==> !Claimable(v, r.keys, input.ring[j], input.commit))
      ==> CheckInput(v, kind, input, r).value == Reserved(r.images + {input.image}, r.keys + {v.byPub[input.ring[i]].key})
  {
    if j :| 0 <= j < |input.ring| && Claimable(v, r.keys, input.ring[j], input.commit) {
      var first := FirstClaimable(v, input.ring, input.commit, r.keys, j);
      ClaimsFirst(v, input.ring, input.commit, r.keys, first);
    } else {
      ClaimsNone(v, input.ring, input.commit, r.keys);
    }
    if i < |input.ring| && Claimable(v, r.keys, input.ring[i], input.commit) && forall j :: 0 <= j < i ==> !Claimable(v, r.keys, input.ring[j], input.commit) {
      ClaimsFirst(v, input.ring, input.commit, r.keys, i);
    }
  }

  lemma {:induction false} FirstClaimable(v: View, ring: seq<nat>, commit: nat, keys: set<Key>, at: nat) returns (i: nat)
    requires at < |ring| && Claimable(v, keys, ring[at], commit)
    ensures i <= at && Claimable(v, keys, ring[i], commit) && forall j :: 0 <= j < i ==> !Claimable(v, keys, ring[j], commit)
    decreases at
  {
    if earlier :| 0 <= earlier < at && Claimable(v, keys, ring[earlier], commit) {
      i := FirstClaimable(v, ring, commit, keys, earlier);
    } else {
      i := at;
    }
  }

  /** Coinbase and stake transactions reserve no outputs; a stake proof is a key image like any other. */
  lemma FreeCheck(v: View, tx: Tx, r: Reserved)
    requires tx.kind.Coinbase? || tx.kind.Stake?
    ensures
      CheckTx(v, tx, r)
      == if tx.kind.Coinbase? || tx.kind.proof.None? then Some(r)
         else if tx.kind.proof.value in v.images || tx.kind.proof.value in r.images then None
         else Some(Reserved(r.images + {tx.kind.proof.value}, r.keys))
  {
  }

  // ---- A validated block ----

  /** The first ring member of a position spend is the only one that can match. */
  predicate SourceFirst(v: View, kind: Kind, input: Input) {
    kind.Position? ==> forall j :: 0 < j < |input.ring| ==> !Matches(v, input.ring[j], input.commit)
  }

  /** The ring names no public key of the block, and a position spend names its source first. */
  ghost predicate LooksBack(v: View, kind: Kind, input: Input, pubs: set<nat>) {
    (forall m :: m in input.ring ==> m !in pubs) && SourceFirst(v, kind, input)
  }

  ghost predicate AllLookBack(v: View, txs: seq<Tx>, pubs: set<nat>) {
    forall tx, input :: tx in txs && input in tx.inputs ==> LooksBack(v, tx.kind, input, pubs)
  }

  /** Applying has removed exactly what validation has reserved. */
  ghost predicate Synced(s: Set, a: Set, height: nat, keys: set<Key>, pubs: set<nat>) {
    && EntryKeys(Entries(a, height)) == keys
    && (forall p :: p !in pubs ==> (p in a.view.byPub <==> p in s.view.byPub && s.view.byPub[p].key !in keys))
    && (forall p :: p !in pubs && p in a.view.byPub ==> a.view.byPub[p] == s.view.byPub[p])
  }

  lemma {:induction false} ReservesFirst(v: View, byPub: map<nat, Utxo>, ring: seq<nat>, commit: nat, keys: set<Key>)
    requires forall m :: m in ring ==> (m in byPub <==> m in v.byPub && v.byPub[m].key !in keys) && (m in byPub ==> byPub[m] == v.byPub[m])
    ensures
      var reserved, found := Unclaimed(v, ring, commit, keys), Resolve(byPub, ring, commit);
      reserved.Some? == found.Some? && (found.Some? ==> reserved.value == byPub[found.value].key)
  {
    if |ring| > 0 {
      ReservesFirst(v, byPub, ring[1..], commit, keys);
    }
  }

  /** Where only the first member can match, looking at it alone is looking at all. */
  lemma {:induction false} FirstOnly(v: View, ring: seq<nat>, commit: nat, keys: set<Key>)
    requires |ring| > 0 && forall j :: 0 < j < |ring| ==> !Matches(v, ring[j], commit)
    ensures Unclaimed(v, ring, commit, keys) == Unclaimed(v, ring[..1], commit, keys)
  {
    NoneUnclaimed(v, ring[1..], commit, keys);
    assert ring[..1][1..] == [];
  }

  lemma {:induction false} NoneUnclaimed(v: View, ring: seq<nat>, commit: nat, keys: set<Key>)
    requires forall j :: 0 <= j < |ring| ==> !Matches(v, ring[j], commit)
    ensures Unclaimed(v, ring, commit, keys).None?
  {
    if |ring| > 0 {
      NoneUnclaimed(v, ring[1..], commit, keys);
    }
  }

  /** The output that validation reserves for an input is the one that applying finds. */
  lemma ReservedIsFound(s: Set, a: Set, height: nat, kind: Kind, input: Input, r: Reserved, pubs: set<nat>)
    requires Synced(s, a, height, r.keys, pubs) && LooksBack(s.view, kind, input, pubs)
    requires CheckInput(s.view, kind, input, r).Some? && !kind.Hidden?
    ensures
      var found := Resolve(a.view.byPub, Members(kind, input), input.commit);
      found.Some? && found.value !in pubs && CheckInput(s.view, kind, input, r).value.keys == r.keys + {a.view.byPub[found.value].key}
  {
    var ring := Members(kind, input);
    ReservesFirst(s.view, a.view.byPub, ring, input.commit, r.keys);
    if kind.Position? && |input.ring| > 0 {
      FirstOnly(s.view, input.ring, input.commit, r.keys);
    }
  }

  lemma SpendSynced(s: Set, a: Set, height: nat, kind: Kind, input: Input, r: Reserved, pubs: set<nat>)
    requires Shaped(s.view) && Tied(s.view, {}) && Upto(a.journal, height)
    requires Synced(s, a, height, r.keys, pubs) && LooksBack(s.view, kind, input, pubs)
    requires CheckInput(s.view, kind, input, r).Some?
    ensures Synced(s, SpendInput(a, height, kind, input), height, CheckInput(s.view, kind, input, r).value.keys, pubs)
    ensures Upto(SpendInput(a, height, kind, input).journal, height)
  {
    var marked := a.(view := a.view.(images := a.view.images + {input.image}));
    assert Entries(marked, height) == Entries(a, height);
    if !kind.Hidden? {
      ReservedIsFound(s, a, height, kind, input, r, pubs);
      var m := Resolve(a.view.byPub, Members(kind, input), input.commit).value;
      ConsumeEntries(marked, height, m);
      KeysSnoc(Entries(a, height), Entry(m, a.view.byPub[m]));
      ConsumeSynced(s, a, height, r.keys, pubs, m);
    }
  }

  lemma ConsumeSynced(s: Set, a: Set, height: nat, keys: set<Key>, pubs: set<nat>, m: nat)
    requires Shaped(s.view) && Tied(s.view, {}) && Synced(s, a, height, keys, pubs) && m in a.view.byPub && m !in pubs
    ensures
      var byPub, after := a.view.byPub - {m}, keys + {a.view.byPub[m].key};
      && (forall p :: p !in pubs ==> (p in byPub <==> p in s.view.byPub && s.view.byPub[p].key !in after))
      && (forall p :: p !in pubs && p in byPub ==> byPub[p] == s.view.byPub[p])
  {
    forall p | p in s.view.byPub && s.view.byPub[p].key == s.view.byPub[m].key ensures p == m {
      assert s.view.active[s.view.byPub[p].key] == s.view.byPub[p];
      assert s.view.active[s.view.byPub[m].key] == s.view.byPub[m];
    }
  }

  lemma {:induction false} SpendsSynced(s: Set, a: Set, height: nat, kind: Kind, inputs: seq<Input>, r: Reserved, pubs: set<nat>)
    requires Shaped(s.view) && Tied(s.view, {}) && Upto(a.journal, height) && Synced(s, a, height, r.keys, pubs)
    requires forall input :: input in inputs ==> LooksBack(s.view, kind, input, pubs)
    requires CheckInputs(s.view, kind, inputs, r).Some?
    ensures Synced(s, SpendInputs(a, height, kind, inputs), height, CheckInputs(s.view, kind, inputs, r).value.keys, pubs)
    ensures Upto(SpendInputs(a, height, kind, inputs).journal, height)
  {
    if |inputs| > 0 {
      var init, input := inputs[..|inputs| - 1], inputs[|inputs| - 1];
      SpendsSynced(s, a, height, kind, init, r, pubs);
      SpendSynced(s, SpendInputs(a, height, kind, init), height, kind, input, CheckInputs(s.view, kind, init, r).value, pubs);
    }
  }

  // ---- Outputs do not disturb it while the recency list has room ----

  lemma AddSynced(s: Set, a: Set, height: nat, keys: set<Key>, pubs: set<nat>, u: Utxo)
    requires Synced(s, a, height, keys, pubs) && u.pub in pubs && (Tracks(a, height) && !u.locked ==> |a.recent| < RECENT_LIMIT)
    ensures Synced(s, AddOutput(a, height, u), height, keys, pubs)
    ensures AddOutput(a, height, u).activation == a.activation && AddOutput(a, height, u).journal == a.journal
    ensures |AddOutput(a, height, u).recent| <= |a.recent| + if Tracks(a, height) && !u.locked then 1 else 0
  {
    assert Entries(AddOutput(a, height, u), height) == Entries(a, height);
  }

  lemma {:induction false} AddsSynced(s: Set, a: Set, height: nat, keys: set<Key>, pubs: set<nat>, tx: Tx, n: nat)
    requires Synced(s, a, height, keys, pubs) && n <= |tx.outputs| && TxPubs(tx) <= pubs
    requires Tracks(a, height) ==> |a.recent| + |TxTracked(tx, n)| <= RECENT_LIMIT
    ensures
      var b := AddOutputs(a, height, tx, n);
      && Synced(s, b, height, keys, pubs) && b.activation == a.activation && b.journal == a.journal
      && |b.recent| <= |a.recent| + if Tracks(a, height) then |TxTracked(tx, n)| else 0
  {
    if n > 0 {
      var u := UtxoOf(tx, n - 1);
      assert u.pub in TxPubs(tx);
      AddsSynced(s, a, height, keys, pubs, tx, n - 1);
      AddSynced(s, AddOutputs(a, height, tx, n - 1), height, keys, pubs, u);
    }
  }

  lemma TxSynced(s: Set, a: Set, height: nat, tx: Tx, r: Reserved, pubs: set<nat>)
    requires Shaped(s.view) && Tied(s.view, {}) && Upto(a.journal, height) && Synced(s, a, height, r.keys, pubs)
    requires AllLookBack(s.view, [tx], pubs) && TxPubs(tx) <= pubs && Plain([tx]) && CheckTx(s.view, tx, r).Some?
    requires Tracks(a, height) ==> |a.recent| + |TxTracked(tx, |tx.outputs|)| <= RECENT_LIMIT
    ensures
      var b := ApplyTx(a, height, tx);
      && Synced(s, b, height, CheckTx(s.view, tx, r).value.keys, pubs) && b.activation == a.activation && Upto(b.journal, height)
      && |b.recent| <= |a.recent| + if Tracks(a, height) then |TxTracked(tx, |tx.outputs|)| else 0
  {
    assert tx in [tx];
    SpentKeepsList(a, height, tx);
    var spends := SpendInputs(a, height, tx.kind, tx.inputs);
    if tx.kind.Coinbase? || tx.kind.Stake? {
      assert spends == a;
    } else {
      SpendsSynced(s, a, height, tx.kind, tx.inputs, r, pubs);
    }
    var spent := Recency.Spent(a, height, tx);
    assert Entries(spent, height) == Entries(spends, height);
    AddsSynced(s, spent, height, CheckTx(s.view, tx, r).value.keys, pubs, tx, |tx.outputs|);
  }

  /** The recency list has room for every output that the block adds. */
  ghost predicate Roomy(s: Set, height: nat, txs: seq<Tx>) {
    Tracks(s, height) ==> |s.recent| + |Tracked(txs)| <= RECENT_LIMIT
  }

  lemma {:induction false} TxsSynced(s: Set, height: nat, txs: seq<Tx>, pubs: set<nat>)
    requires Sound(s, height) && AllLookBack(s.view, txs, pubs) && Pubs(txs) <= pubs && Plain(txs) && CheckTxs(s.view, txs).Some? && Roomy(s, height, txs)
    ensures
      var b := ApplyTxs(s, height, txs);
      && Synced(s, b, height, CheckTxs(s.view, txs).value.keys, pubs) && b.activation == s.activation && Upto(b.journal, height)
      && |b.recent| <= |s.recent| + if Tracks(s, height) then |Tracked(txs)| else 0
  {
    if |txs| == 0 {
      assert Entries(s, height) == [] && EntryKeys([]) == {};
    } else {
      var init, tx := txs[..|txs| - 1], txs[|txs| - 1];
      assert tx in txs && forall x :: x in init ==> x in txs;
      TxsSynced(s, height, init, pubs);
      TxSynced(s, ApplyTxs(s, height, init), height, tx, CheckTxs(s.view, init).value, pubs);
    }
  }

  /** Validation and application agree: for a validated block whose outputs fit on the recency list,
  the journal of its height holds exactly the reserved outputs, every one of them has left the
  active set, and its public key finds nothing any more. */
  lemma ReservedIsSpent(s: Set, height: nat, txs: seq<Tx>)
    requires Sound(s, height) && NewIds(s, txs) && Plain(txs) && CheckTxs(s.view, txs).Some?
    requires AllLookBack(s.view, txs, Pubs(txs)) && Roomy(s, height, txs)
    ensures
      var reserved, after := CheckTxs(s.view, txs).value.keys, ApplyTxs(s, height, txs);
      && EntryKeys(Entries(after, height)) == reserved && reserved !! after.view.active.Keys && reserved <= after.spent
      && forall p :: p in s.view.byPub && p !in Pubs(txs) ==> (p in after.view.byPub <==> s.view.byPub[p].key !in reserved)
  {
    TxsSynced(s, height, txs, Pubs(txs));
    NewKeys(s, txs);
    PrefixTraced(s, height, CreatedIn(txs), txs);
    ApplyClean(s, height, txs);
  }

  // ---- A full recency list ----

  /** The ring of every input holds one matching member at most. */
  ghost predicate Single(v: View, txs: seq<Tx>) {
    forall tx, input :: tx in txs && input in tx.inputs ==> OneMatch(v.byPub, input.ring, input.commit)
  }

  lemma {:induction false} ClaimedMember(v: View, ring: seq<nat>, commit: nat, keys: set<Key>) returns (m: nat)
    requires Unclaimed(v, ring, commit, keys).Some?
    ensures m in ring && Matches(v, m, commit) && v.byPub[m].key == Unclaimed(v, ring, commit, keys).value
  {
    if Matches(v, ring[0], commit) && v.byPub[ring[0]].key !in keys {
      m := ring[0];
    } else {
      m := ClaimedMember(v, ring[1..], commit, keys);
    }
  }

  lemma CheckTargets(v: View, kind: Kind, input: Input, r: Reserved, pubs: set<nat>)
    requires CheckInput(v, kind, input, r).Some? && LooksBack(v, kind, input, pubs) && OneMatch(v.byPub, input.ring, input.commit)
    ensures CheckInput(v, kind, input, r).value.keys == r.keys + Target(v, kind, input)
    ensures Aimed(v, kind, input, pubs)
  {
    if !kind.Hidden? {
      if kind.Position? && |input.ring| > 0 {
        FirstOnly(v, input.ring, input.commit, r.keys);
      }
      var members := Members(kind, input);
      var m := ClaimedMember(v, members, input.commit, r.keys);
      FindsMember(v.byPub, members, input.commit, m);
    }
  }

  lemma {:induction false} FindsMember(byPub: map<nat, Utxo>, members: seq<nat>, commit: nat, m: nat)
    requires OneMatch(byPub, members, commit) && m in members && m in byPub && byPub[m].commit == commit
    ensures Resolve(byPub, members, commit) == Some(m)
  {
    if members[0] != m {
      FindsMember(byPub, members[1..], commit, m);
    }
  }

  lemma {:induction false} ChecksTargets(v: View, kind: Kind, inputs: seq<Input>, r: Reserved, pubs: set<nat>)
    requires CheckInputs(v, kind, inputs, r).Some?
    requires forall input :: input in inputs ==> LooksBack(v, kind, input, pubs) && OneMatch(v.byPub, input.ring, input.commit)
    ensures CheckInputs(v, kind, inputs, r).value.keys == r.keys + InputTargets(v, kind, inputs)
    ensures forall input :: input in inputs ==> Aimed(v, kind, input, pubs)
  {
    if |inputs| > 0 {
      var init, input := inputs[..|inputs| - 1], inputs[|inputs| - 1];
      ChecksTargets(v, kind, init, r, pubs);
      CheckTargets(v, kind, input, CheckInputs(v, kind, init, r).value, pubs);
    }
  }

  /** What validation reserves for a block of such rings is what its inputs name. */
  lemma {:induction false} ReservedTargets(v: View, txs: seq<Tx>, pubs: set<nat>)
    requires CheckTxs(v, txs).Some? && Plain(txs) && AllLookBack(v, txs, pubs) && Single(v, txs)
    ensures CheckTxs(v, txs).value.keys == Targets(v, txs) && AllAimed(v, txs, pubs)
  {
    if |txs| > 0 {
      var init, tx := txs[..|txs| - 1], txs[|txs| - 1];
      assert tx in txs && forall x :: x in init ==> x in txs;
      ReservedTargets(v, init, pubs);
      if !tx.kind.Coinbase? && !tx.kind.Stake? {
        ChecksTargets(v, tx.kind, tx.inputs, CheckTxs(v, init).value, pubs);
      }
      forall x, input | x in txs && input in x.inputs ensures Aimed(v, x.kind, input, pubs) {
        assert x in init || x == tx;
      }
    }
  }

  /** Also when the list overflows: if every ring has one match at most and the outputs that fall
  off are found by their public keys, no reserved output is active after the block. */
  lemma ReservedIsGone(s: Set, height: nat, txs: seq<Tx>)
    requires Sound(s, height) && NewIds(s, txs) && Plain(txs) && CheckTxs(s.view, txs).Some?
    requires AllLookBack(s.view, txs, Pubs(txs)) && Single(s.view, txs) && Found(s, Evicted(s, height, txs))
    ensures CheckTxs(s.view, txs).value.keys !! ApplyTxs(s, height, txs).view.active.Keys
    ensures EntryKeys(Entries(ApplyTxs(s, height, txs), height)) <= CheckTxs(s.view, txs).value.keys
  {
    ReservedTargets(s.view, txs, Pubs(txs));
    NewKeys(s, txs);
    ApplyHits(s, height, CreatedIn(txs), txs);
    forall k | k in CheckTxs(s.view, txs).value.keys ensures k !in ApplyTxs(s, height, txs).view.active {
      ReservedActive(s.view, txs, k);
      OldKey(s, height, txs, k);
    }
  }

  lemma {:induction false} InputsReserveActive(v: View, kind: Kind, inputs: seq<Input>, k: Key)
    requires Tied(v, {}) && k in InputTargets(v, kind, inputs)
    ensures k in v.active
  {
    if k !in Target(v, kind, inputs[|inputs| - 1]) {
      InputsReserveActive(v, kind, inputs[..|inputs| - 1], k);
    }
  }

  lemma {:induction false} ReservedActive(v: View, txs: seq<Tx>, k: Key)
    requires Tied(v, {}) && k in Targets(v, txs)
    ensures k in v.active
  {
    var tx := txs[|txs| - 1];
    if k in InputTargets(v, tx.kind, tx.inputs) {
      InputsReserveActive(v, tx.kind, tx.inputs, k);
    } else {
      ReservedActive(v, txs[..|txs| - 1], k);
    }
  }

  // ---- Where the two passes differ ----

  lemma PositionActive(s: Set, height: nat, input: Input)
    requires Upto(s.journal, height) && Unclaimed(s.view, input.ring, input.commit, {}).Some?
    ensures
      var active := SpendInput(s, height, Position, input).view.active;
      && |input.ring| > 0
      && active == if Matches(s.view, input.ring[0], input.commit) then s.view.active - {Unclaimed(s.view, input.ring, input.commit, {}).value}
                   else s.view.active
  {
    NamedSpend(s, height, Position, input, 0);
  }

  /** Validation looks along the whole ring of a position spend and application at its first member:
  the reserved output leaves if and only if the first member is a match. */
  lemma PositionExactly(s: Set, height: nat, input: Input)
    requires Sound(s, height) && CheckInput(s.view, Position, input, Reserved({}, {})).Some?
    ensures |input.ring| > 0
    ensures
      CheckInput(s.view, Position, input, Reserved({}, {})).value.keys !! SpendInput(s, height, Position, input).view.active.Keys
      <==> Matches(s.view, input.ring[0], input.commit)
  {
    PositionActive(s, height, input);
    var m := ClaimedMember(s.view, input.ring, input.commit, {});
  }
}
