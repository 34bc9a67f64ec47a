/** The three key-value stores of the contract machine: a plain store, a block overlay that
buffers writes over it, and a per-call overlay inside one contract's namespace. */
module AvmState {
  import opened Bytes
  import opened Options

  type State = map<ByteString, ByteString>

  /** One ordered mutation; no value deletes the key. */
  datatype Write = Write(key: ByteString, value: Option<ByteString>)

  type WriteMap = map<ByteString, Option<ByteString>>

  function Put(m: State, w: Write): State {
    if w.value.None? then m - {w.key} else m[w.key := w.value.value]
  }

  /** Applying writes one after another: the reference meaning of every store. */
  function ApplyWrites(m: State, ws: seq<Write>): State {
    if |ws| == 0 then m else Put(ApplyWrites(m, ws[..|ws| - 1]), ws[|ws| - 1])
  }

  predicate NonEmptyKeys(ws: seq<Write>) {
    forall i :: 0 <= i < |ws| ==> ws[i].key != []
  }

  function Lookup(m: State, key: ByteString): Option<ByteString> {
    if key in m then Some(m[key]) else None
  }

  /** What a reader sees through buffered writes. */
  function Overlaid(m: State, writes: WriteMap): State {
    map k | k in m.Keys + writes.Keys && (if k in writes then writes[k].Some? else k in m)
          :: if k in writes then writes[k].value else m[k]
  }

  lemma OverlaidPut(m: State, writes: WriteMap, w: Write)
    ensures Overlaid(m, writes[w.key := w.value]) == Put(Overlaid(m, writes), w)
  {
  }

  /** The net effect of a write list. */
  function AsMap(ws: seq<Write>): WriteMap {
    if |ws| == 0 then map[] else AsMap(ws[..|ws| - 1])[ws[|ws| - 1].key := ws[|ws| - 1].value]
  }

  /** Two layers of buffered writes act like one, the upper layer winning. */
  lemma OverlaidTwice(m: State, lower: WriteMap, upper: WriteMap)
    ensures Overlaid(Overlaid(m, lower), upper) == Overlaid(m, lower + upper)
  {
  }

  lemma {:induction false} AsMapApplies(m: State, ws: seq<Write>)
    ensures ApplyWrites(m, ws) == Overlaid(m, AsMap(ws))
  {
    if |ws| == 0 {
      assert Overlaid(m, map[]) == m;
    } else {
      AsMapApplies(m, ws[..|ws| - 1]);
      OverlaidPut(m, AsMap(ws[..|ws| - 1]), ws[|ws| - 1]);
    }
  }

  lemma {:induction false} ApplyAppend(m: State, p: seq<Write>, q: seq<Write>)
    ensures ApplyWrites(m, p + q) == ApplyWrites(ApplyWrites(m, p), q)
    decreases |q|
  {
    if |q| == 0 {
      assert p + q == p;
    } else {
      assert (p + q)[..|p + q| - 1] == p + q[..|q| - 1];
      ApplyAppend(m, p, q[..|q| - 1]);
    }
  }

  /** The writes of a buffer, listed for `keys`. */
  function Listing(writes: WriteMap, keys: seq<ByteString>): (ws: seq<Write>)
    requires forall k :: k in keys ==> k in writes
    ensures |ws| == |keys|
    ensures forall i :: 0 <= i < |ws| ==> ws[i] == Write(keys[i], writes[keys[i]])
  {
    if |keys| == 0 then [] else Listing(writes, keys[..|keys| - 1]) + [Write(keys[|keys| - 1], writes[keys[|keys| - 1]])]
  }

  function Restricted(writes: WriteMap, keys: seq<ByteString>): WriteMap {
    map k | k in writes && k in keys :: writes[k]
  }

  lemma RestrictedSnoc(writes: WriteMap, init: seq<ByteString>, last: ByteString)
    requires last in writes
    ensures Restricted(writes, init + [last]) == Restricted(writes, init)[last := writes[last]]
  {
  }

  /** Writing a buffer out key by key gives what readers saw through it, whatever the order. */
  lemma {:induction false} ListingApplies(m: State, writes: WriteMap, keys: seq<ByteString>)
    requires forall k :: k in keys ==> k in writes
    ensures ApplyWrites(m, Listing(writes, keys)) == Overlaid(m, Restricted(writes, keys))
  {
    if |keys| == 0 {
      assert Overlaid(m, Restricted(writes, keys)) == m;
    } else {
      var init, last := keys[..|keys| - 1], keys[|keys| - 1];
      ListingApplies(m, writes, init);
      var ws := Listing(writes, keys);
      assert ws[..|ws| - 1] == Listing(writes, init);
      OverlaidPut(m, Restricted(writes, init), Write(last, writes[last]));
      assert keys == init + [last];
      RestrictedSnoc(writes, init, last);
    }
  }

  /** A buffer's listing in key order. */
  ghost predicate SortedListing(writes: WriteMap, ws: seq<Write>) {
    && (forall i, j :: 0 <= i < j < |ws| ==> Less(ws[i].key, ws[j].key))
    && (forall i :: 0 <= i < |ws| ==> ws[i].key in writes && ws[i].value == writes[ws[i].key])
    && (forall k :: k in writes ==> exists i :: 0 <= i < |ws| && ws[i].key == k)
  }

  /** A buffer has one listing in key order. */
  lemma SortedListingUnique(writes: WriteMap, p: seq<Write>, q: seq<Write>)
    requires SortedListing(writes, p) && SortedListing(writes, q)
    ensures p == q
  {
    var ps := seq(|p|, i requires 0 <= i < |p| => p[i].key);
    var qs := seq(|q|, i requires 0 <= i < |q| => q[i].key);
    forall k ensures k in ps <==> k in writes {
      if k in writes {
        var i :| 0 <= i < |p| && p[i].key == k;
        assert ps[i] == k;
      }
    }
    forall k ensures k in qs <==> k in writes {
      if k in writes {
        var i :| 0 <= i < |q| && q[i].key == k;
        assert qs[i] == k;
      }
    }
    SortedUnique(ps, qs);
    forall i | 0 <= i < |p| ensures p[i] == q[i] {
      assert ps[i] == qs[i];
    }
  }

  /** A sorted listing has the effect of the buffer it lists. */
  lemma ListingAsMap(writes: WriteMap, ws: seq<Write>)
    requires SortedListing(writes, ws)
    ensures AsMap(ws) == writes
  {
    AsMapWithin(writes, ws, |ws|);
    AsMapCovers(ws, |ws|);
    assert ws[..|ws|] == ws;
    assert AsMap(ws).Keys == writes.Keys;
  }

  lemma {:induction false} AsMapWithin(writes: WriteMap, ws: seq<Write>, n: nat)
    requires n <= |ws| && SortedListing(writes, ws)
    ensures forall k :: k in AsMap(ws[..n]) ==> k in writes && AsMap(ws[..n])[k] == writes[k]
  {
    if n > 0 {
      AsMapWithin(writes, ws, n - 1);
      assert ws[..n][..n - 1] == ws[..n - 1];
    }
  }

  lemma {:induction false} AsMapCovers(ws: seq<Write>, n: nat)
    requires n <= |ws|
    ensures forall i :: 0 <= i < n ==> ws[i].key in AsMap(ws[..n])
  {
    if n > 0 {
      AsMapCovers(ws, n - 1);
      assert ws[..n][..n - 1] == ws[..n - 1];
    }
  }

  lemma ListingIsOverlay(m: State, writes: WriteMap, keys: seq<ByteString>)
    requires forall k :: k in keys <==> k in writes
    ensures ApplyWrites(m, Listing(writes, keys)) == Overlaid(m, writes)
  {
    ListingApplies(m, writes, keys);
    assert Restricted(writes, keys) == writes;
  }

  lemma ListingSorted(writes: WriteMap, keys: seq<ByteString>)
    requires StrictlySorted(keys) && forall k :: k in keys <==> k in writes
    ensures SortedListing(writes, Listing(writes, keys))
  {
    var ws := Listing(writes, keys);
    forall k | k in writes ensures exists i :: 0 <= i < |ws| && ws[i].key == k {
      var i :| 0 <= i < |keys| && keys[i] == k;
      assert ws[i].key == k;
    }
  }

  method SortedWrites(writes: WriteMap) returns (ws: seq<Write>)
    ensures SortedListing(writes, ws)
    ensures forall m: State :: ApplyWrites(m, ws) == Overlaid(m, writes)
  {
    var keys := SortKeys(writes.Keys);
    ws := Listing(writes, keys);
    forall m: State ensures ApplyWrites(m, ws) == Overlaid(m, writes) {
      ListingIsOverlay(m, writes, keys);
    }
    ListingSorted(writes, keys);
  }

  lemma {:induction false} ApplySnoc(m: State, ws: seq<Write>, i: nat)
    requires i < |ws|
    ensures ApplyWrites(m, ws[..i + 1]) == Put(ApplyWrites(m, ws[..i]), ws[i])
  {
    assert ws[..i + 1][..i] == ws[..i];
  }

  class MemoryStore {
    var data: State

    constructor (data: State)
      ensures this.data == data
    {
      this.data := data;
    }

    method Get(key: ByteString) returns (r: Option<ByteString>)
      ensures r == Lookup(data, key)
    {
      if key !in data {
        return None;
      }
      r := Some(data[key]);
    }

    /** All writes or none: an empty key refuses the whole batch. */
    method Apply(ws: seq<Write>) returns (ok: bool)
      modifies this
      ensures ok == NonEmptyKeys(ws)
      ensures data == if ok then ApplyWrites(old(data), ws) else old(data)
    {
      ok := CheckKeys(ws);
      if !ok {
        return;
      }
      var i := 0;
      while i < |ws|
        invariant 0 <= i <= |ws| && data == ApplyWrites(old(data), ws[..i])
      {
        ApplySnoc(old(data), ws, i);
        if ws[i].value.None? {
          data := data - {ws[i].key};
        } else {
          data := data[ws[i].key := ws[i].value.value];
        }
        i := i + 1;
      }
      assert ws[..|ws|] == ws;
    }

    /** The whole state as a sorted write list that rebuilds it from nothing. */
    method Writes() returns (ws: seq<Write>)
      ensures ApplyWrites(map[], ws) == data
      ensures SortedListing(map k | k in data :: Some(data[k]), ws)
    {
      ws := SortedWrites(map k | k in data :: Some(data[k]));
      assert Overlaid(map[], map k | k in data :: Some(data[k])) == data;
    }
  }

  method CheckKeys(ws: seq<Write>) returns (ok: bool)
    ensures ok == NonEmptyKeys(ws)
  {
    var i := 0;
    while i < |ws|
      invariant 0 <= i <= |ws| && forall j :: 0 <= j < i ==> ws[j].key != []
    {
      if ws[i].key == [] {
        return false;
      }
      i := i + 1;
    }
    ok := true;
  }

  /** Buffers writes over a store that it never changes. */
  class OverlayStore {
    const base: MemoryStore
    var writes: WriteMap

    ghost function View(): State
      reads this, base
    {
      Overlaid(base.data, writes)
    }

    constructor (base: MemoryStore)
      ensures this.base == base && writes == map[] && View() == base.data
    {
      this.base, this.writes := base, map[];
      new;
      assert Overlaid(base.data, map[]) == base.data;
    }

    method Get(key: ByteString) returns (r: Option<ByteString>)
      ensures r == Lookup(View(), key)
    {
      if key in writes {
        return writes[key];
      }
      r := base.Get(key);
    }

    method Apply(ws: seq<Write>) returns (ok: bool)
      modifies this
      ensures ok == NonEmptyKeys(ws)
      ensures writes == if ok then old(writes) + AsMap(ws) else old(writes)
      ensures View() == if ok then ApplyWrites(old(View()), ws) else old(View())
    {
      ok := CheckKeys(ws);
      if !ok {
        return;
      }
      var i := 0;
      while i < |ws|
        invariant 0 <= i <= |ws| && writes == old(writes) + AsMap(ws[..i])
      {
        assert ws[..i + 1][..i] == ws[..i];
        writes := writes[ws[i].key := ws[i].value];
        i := i + 1;
      }
      assert ws[..|ws|] == ws;
      AsMapApplies(old(View()), ws);
      OverlaidTwice(base.data, old(writes), AsMap(ws));
    }

    /** Everything a contract call could read. */
    method Visible() returns (m: State)
      ensures m == View()
    {
      m := Overlaid(base.data, writes);
    }

    /** The buffered writes in key order: applied to the base they give the view. */
    method Writes() returns (ws: seq<Write>)
      ensures ApplyWrites(base.data, ws) == View()
      ensures SortedListing(writes, ws)
    {
      ws := SortedWrites(writes);
    }
  }

  /** The writes of one contract call, inside the contract's own key prefix. */
  class TransactionState {
    const base: OverlayStore
    const prefix: ByteString
    var writes: WriteMap

    ghost function View(): State
      reads this, base, base.base
    {
      Overlaid(base.View(), writes)
    }

    constructor (base: OverlayStore, contract: ByteString)
      ensures this.base == base && prefix == contract + [0x2f] && View() == base.View() && writes == map[]
    {
      this.base, this.prefix, this.writes := base, contract + [0x2f], map[];
      new;
      assert Overlaid(base.View(), map[]) == base.View();
    }

    /** A read sees the call's own writes first, then the block so far. */
    method Get(key: ByteString) returns (r: Option<ByteString>)
      ensures r == Lookup(View(), prefix + key)
    {
      if prefix + key in writes {
        return writes[prefix + key];
      }
      r := base.Get(prefix + key);
    }

    method PutValue(key: ByteString, value: ByteString)
      modifies this
      ensures View() == old(View())[prefix + key := value]
      ensures writes == old(writes)[prefix + key := Some(value)]
    {
      OverlaidPut(base.View(), writes, Write(prefix + key, Some(value)));
      writes := writes[prefix + key := Some(value)];
    }

    method OrderedWrites() returns (ws: seq<Write>)
      ensures ApplyWrites(base.View(), ws) == View()
      ensures SortedListing(writes, ws)
    {
      ws := SortedWrites(writes);
    }
  }
}
