/** Byte encodings that receipts, write-set commitments and state snapshots rest on. */
module AvmCodec {
  import opened Bytes
  import opened AvmState
  import opened Options

  const MAX_CHECKPOINT_ENTRIES: nat := 10_000_000

  // ---- Receipts ----

  datatype Receipt = Receipt(txHash: ByteString, contract: ByteString, gasUsed: nat, stateWrites: nat, returnData: ByteString)

  function EncodeReceipt(r: Receipt): ByteString {
    r.txHash + r.contract + LittleEndian(r.gasUsed, 8) + LittleEndian(r.stateWrites, 8) +
    LittleEndian(|r.returnData|, 4) + r.returnData
  }

  function DecodeReceipt(b: ByteString): Option<Receipt> {
    if |b| < 84 || 84 + FromLittleEndian(b[80..84]) != |b| then None
    else Some(Receipt(b[..32], b[32..64], FromLittleEndian(b[64..72]), FromLittleEndian(b[72..80]), b[84..]))
  }

  /** The fixed-width fields of a receipt fit their widths. */
  predicate Fields(r: Receipt) {
    |r.txHash| == 32 && |r.contract| == 32 && r.gasUsed < Pow256(8) && r.stateWrites < Pow256(8)
  }

  lemma ReceiptLayout(r: Receipt)
    requires |r.txHash| == 32 && |r.contract| == 32
    ensures
      var b := EncodeReceipt(r);
      && |b| == 84 + |r.returnData|
      && b[..32] == r.txHash && b[32..64] == r.contract
      && b[64..72] == LittleEndian(r.gasUsed, 8) && b[72..80] == LittleEndian(r.stateWrites, 8)
      && b[80..84] == LittleEndian(|r.returnData|, 4) && b[84..] == r.returnData
  {
  }

  /** A field four bytes wide keeps a length exactly when it is below 2^32. */
  lemma FieldOverflow(n: nat)
    ensures FromLittleEndian(LittleEndian(n, 4)) == n <==> n < Pow256(4)
  {
    if n < Pow256(4) {
      LittleEndianRoundTrip(n, 4);
    }
  }

  /** Decoding undoes encoding exactly for return data under 2^32 bytes. */
  lemma ReceiptRoundTrip(r: Receipt)
    requires Fields(r)
    ensures DecodeReceipt(EncodeReceipt(r)) == Some(r) <==> |r.returnData| < Pow256(4)
    ensures |r.returnData| >= Pow256(4) ==> DecodeReceipt(EncodeReceipt(r)) == None
  {
    ReceiptLayout(r);
    LittleEndianRoundTrip(r.gasUsed, 8);
    LittleEndianRoundTrip(r.stateWrites, 8);
    FieldOverflow(|r.returnData|);
  }

  /** Encoding undoes decoding: the parser accepts nothing but encodings. */
  lemma ReceiptCanonical(b: ByteString)
    requires DecodeReceipt(b).Some?
    ensures EncodeReceipt(DecodeReceipt(b).value) == b && Fields(DecodeReceipt(b).value)
  {
    LittleEndianCanonical(b[64..72]);
    LittleEndianCanonical(b[72..80]);
    LittleEndianCanonical(b[80..84]);
    assert b == b[..32] + b[32..64] + b[64..72] + b[72..80] + b[80..84] + b[84..];
  }

  // ---- Length-prefixed lists ----

  /** A key and the bytes written under it; a deletion hashes like an empty value. */
  datatype Pair = Pair(key: ByteString, value: ByteString)

  function AsPair(w: Write): Pair {
    Pair(w.key, if w.value.Some? then w.value.value else [])
  }

  function AsPairs(ws: seq<Write>): (ps: seq<Pair>)
    ensures |ps| == |ws| && forall i :: 0 <= i < |ws| ==> ps[i] == AsPair(ws[i])
  {
    seq(|ws|, i requires 0 <= i < |ws| => AsPair(ws[i]))
  }

  function EncodePair(p: Pair, field: nat -> ByteString): ByteString {
    field(|p.key|) + p.key + field(|p.value|) + p.value
  }

  function EncodePairs(ps: seq<Pair>, field: nat -> ByteString): ByteString {
    if |ps| == 0 then [] else EncodePair(ps[0], field) + EncodePairs(ps[1..], field)
  }

  /** `field` is a fixed-width rendering that tells lengths below `limit` apart. */
  ghost predicate Prefix(field: nat -> ByteString, width: nat, limit: nat) {
    && width > 0
    && (forall n :: |field(n)| == width)
    && (forall m, n :: 0 <= m < limit && 0 <= n < limit && field(m) == field(n) ==> m == n)
  }

  predicate Short(ps: seq<Pair>, limit: nat) {
    forall i :: 0 <= i < |ps| ==> |ps[i].key| < limit && |ps[i].value| < limit
  }

  /** One length-prefixed string can be split off in one way only. */
  lemma SplitOne(a: ByteString, x: ByteString, b: ByteString, y: ByteString,
                 field: nat -> ByteString, width: nat, limit: nat)
    requires Prefix(field, width, limit) && |a| < limit && |b| < limit
    requires field(|a|) + a + x == field(|b|) + b + y
    ensures a == b && x == y
  {
    var l, r := field(|a|) + a + x, field(|b|) + b + y;
    assert l[..width] == field(|a|) && r[..width] == field(|b|);
    assert l[width..width + |a|] == a && r[width..width + |b|] == b;
    assert l[width + |a|..] == x && r[width + |b|..] == y;
  }

  lemma FirstPair(a: Pair, r: ByteString, b: Pair, t: ByteString, field: nat -> ByteString, width: nat, limit: nat)
    requires Prefix(field, width, limit) && Short([a], limit) && Short([b], limit)
    requires EncodePair(a, field) + r == EncodePair(b, field) + t
    ensures a == b && r == t
  {
    assert a in [a] && b in [b];
    assert EncodePair(a, field) + r == field(|a.key|) + a.key + (field(|a.value|) + a.value + r);
    assert EncodePair(b, field) + t == field(|b.key|) + b.key + (field(|b.value|) + b.value + t);
    SplitOne(a.key, field(|a.value|) + a.value + r, b.key, field(|b.value|) + b.value + t, field, width, limit);
    SplitOne(a.value, r, b.value, t, field, width, limit);
  }

  /** The concatenation determines the list of pairs. */
  lemma {:induction false} PairsInjective(p: seq<Pair>, q: seq<Pair>, field: nat -> ByteString, width: nat, limit: nat)
    requires Prefix(field, width, limit) && Short(p, limit) && Short(q, limit)
    requires EncodePairs(p, field) == EncodePairs(q, field)
    ensures p == q
    decreases |p|
  {
    if |p| == 0 || |q| == 0 {
      assert |field(0)| == width;
      NonEmptyEncoding(p, field, width, limit);
      NonEmptyEncoding(q, field, width, limit);
    } else {
      FirstPair(p[0], EncodePairs(p[1..], field), q[0], EncodePairs(q[1..], field), field, width, limit);
      PairsInjective(p[1..], q[1..], field, width, limit);
      assert p == [p[0]] + p[1..] && q == [q[0]] + q[1..];
    }
  }

  lemma NonEmptyEncoding(p: seq<Pair>, field: nat -> ByteString, width: nat, limit: nat)
    requires Prefix(field, width, limit)
    ensures EncodePairs(p, field) == [] ==> p == []
  {
    if |p| > 0 {
      assert |field(|p[0].key|)| == width;
      assert |EncodePairs(p, field)| >= width;
    }
  }

  // ---- Write-set commitment ----

  /** "APRO/AVM/STATE-COMMITMENT/V1". */
  const WRITE_SET_DOMAIN: ByteString :=
    [65, 80, 82, 79, 47, 65, 86, 77, 47, 83, 84, 65, 84, 69, 45, 67, 79, 77, 77, 73, 84, 77, 69, 78, 84, 47, 86, 49]

  function WriteSetField(n: nat): ByteString {
    LittleEndian(n, 4)
  }

  /** The bytes hashed into a block's write-set commitment. */
  function WriteSetPreimage(ws: seq<Write>): ByteString {
    WRITE_SET_DOMAIN + EncodePairs(AsPairs(ws), WriteSetField)
  }

  /** Equal write-set preimages mean equal keys and bytes, in order. */
  lemma WriteSetInjective(p: seq<Write>, q: seq<Write>)
    requires Short(AsPairs(p), Pow256(4)) && Short(AsPairs(q), Pow256(4))
    requires WriteSetPreimage(p) == WriteSetPreimage(q)
    ensures AsPairs(p) == AsPairs(q)
  {
    var field := WriteSetField;
    var l, r := WriteSetPreimage(p), WriteSetPreimage(q);
    assert l[|WRITE_SET_DOMAIN|..] == EncodePairs(AsPairs(p), field);
    assert r[|WRITE_SET_DOMAIN|..] == EncodePairs(AsPairs(q), field);
    forall m: nat, n: nat | m < Pow256(4) && n < Pow256(4) && field(m) == field(n) ensures m == n {
      LittleEndianRoundTrip(m, 4);
      LittleEndianRoundTrip(n, 4);
    }
    PairsInjective(AsPairs(p), AsPairs(q), field, 4, Pow256(4));
  }

  // ---- State snapshot commitment ----

  /** "APRO/AVM/SNAPSHOT-STATE/V1" and a zero byte. */
  const SNAPSHOT_DOMAIN: ByteString :=
    [65, 80, 82, 79, 47, 65, 86, 77, 47, 83, 78, 65, 80, 83, 72, 79, 84, 45, 83, 84, 65, 84, 69, 47, 86, 49, 0]

  function SnapshotField(n: nat): ByteString {
    BigEndian(n, 8)
  }

  ghost predicate SortedPairs(ps: seq<Pair>) {
    forall i, j :: 0 <= i < j < |ps| ==> Less(ps[i].key, ps[j].key)
  }

  /** The bytes hashed into a snapshot commitment. */
  function SnapshotBytes(ps: seq<Pair>): ByteString {
    SNAPSHOT_DOMAIN + BigEndian(|ps|, 8) + EncodePairs(ps, SnapshotField)
  }

  /** Snapshots the commitment accepts: bounded, non-empty keys in strict order. */
  ghost predicate Committable(ps: seq<Pair>) {
    && |ps| <= MAX_CHECKPOINT_ENTRIES
    && (forall i :: 0 <= i < |ps| ==> ps[i].key != [])
    && SortedPairs(ps)
  }

  method SnapshotPreimage(ps: seq<Pair>) returns (r: Option<ByteString>)
    ensures r == if Committable(ps) then Some(SnapshotBytes(ps)) else None
  {
    if |ps| > MAX_CHECKPOINT_ENTRIES {
      return None;
    }
    var body: ByteString := [];
    var i := 0;
    assert ps[0..] == ps;
    while i < |ps|
      invariant 0 <= i <= |ps|
      invariant body + EncodePairs(ps[i..], SnapshotField) == EncodePairs(ps, SnapshotField)
      invariant forall j :: 0 <= j < i ==> ps[j].key != []
      invariant SortedPairs(ps[..i])
    {
      if ps[i].key == [] {
        return None;
      }
      if i > 0 && !Less(ps[i - 1].key, ps[i].key) {
        assert !SortedPairs(ps);
        return None;
      }
      SortedExtend(ps, i);
      assert ps[i..][1..] == ps[i + 1..];
      Regroup(body, EncodePair(ps[i], SnapshotField), EncodePairs(ps[i + 1..], SnapshotField));
      body := body + EncodePair(ps[i], SnapshotField);
      i := i + 1;
    }
    assert ps[..i] == ps && ps[i..] == [];
    assert body == EncodePairs(ps, SnapshotField);
    assert SortedPairs(ps);
    r := Some(SNAPSHOT_DOMAIN + BigEndian(|ps|, 8) + body);
  }

  lemma Regroup(a: ByteString, b: ByteString, c: ByteString)
    ensures a + (b + c) == (a + b) + c
  {
  }

  lemma SortedExtend(ps: seq<Pair>, i: nat)
    requires i < |ps| && SortedPairs(ps[..i]) && (i > 0 ==> Less(ps[i - 1].key, ps[i].key))
    ensures SortedPairs(ps[..i + 1])
  {
    forall j, k | 0 <= j < k < i + 1 ensures Less(ps[j].key, ps[k].key) {
      if k == i && j < i - 1 {
        assert Less(ps[..i][j].key, ps[..i][i - 1].key);
        LessTransitive(ps[j].key, ps[i - 1].key, ps[i].key);
      } else if k < i {
        assert Less(ps[..i][j].key, ps[..i][k].key);
      }
    }
  }

  /** Equal snapshot preimages mean equal entries. */
  lemma SnapshotInjective(p: seq<Pair>, q: seq<Pair>)
    requires Short(p, Pow256(8)) && Short(q, Pow256(8))
    requires SnapshotBytes(p) == SnapshotBytes(q)
    ensures p == q
  {
    var field := SnapshotField;
    var h := |SNAPSHOT_DOMAIN| + 8;
    assert SnapshotBytes(p)[h..] == EncodePairs(p, field);
    assert SnapshotBytes(q)[h..] == EncodePairs(q, field);
    forall m: nat, n: nat | m < Pow256(8) && n < Pow256(8) && field(m) == field(n) ensures m == n {
      BigEndianRoundTrip(m, 8);
      BigEndianRoundTrip(n, 8);
    }
    PairsInjective(p, q, field, 8, Pow256(8));
  }

  // ---- Canonical snapshot entries ----

  function Insert(p: Pair, ps: seq<Pair>): seq<Pair> {
    if |ps| == 0 || !Less(ps[0].key, p.key) then [p] + ps else [ps[0]] + Insert(p, ps[1..])
  }

  /** The entries in key order, as the draft builder sorts its copy. */
  function SortPairs(ps: seq<Pair>): seq<Pair> {
    if |ps| == 0 then [] else Insert(ps[0], SortPairs(ps[1..]))
  }

  predicate NonDescending(ps: seq<Pair>) {
    forall i, j :: 0 <= i < j < |ps| ==> !Less(ps[j].key, ps[i].key)
  }

  lemma {:induction false} InsertKeeps(p: Pair, ps: seq<Pair>)
    ensures multiset(Insert(p, ps)) == multiset(ps) + multiset{p}
  {
    if |ps| == 0 {
      assert ps == [];
    } else if Less(ps[0].key, p.key) {
      InsertKeeps(p, ps[1..]);
      assert ps == [ps[0]] + ps[1..];
    }
  }

  lemma PutFirst(p: Pair, ps: seq<Pair>)
    requires NonDescending(ps) && (|ps| > 0 ==> !Less(ps[0].key, p.key))
    ensures NonDescending([p] + ps)
  {
    forall i | 0 <= i < |ps| ensures !Less(ps[i].key, p.key) {
      if Less(ps[i].key, p.key) && i > 0 {
        LessTotal(ps[0].key, ps[i].key);
        if Less(ps[0].key, ps[i].key) {
          LessTransitive(ps[0].key, ps[i].key, p.key);
        }
      }
    }
  }

  /** Nothing in the tail, nor the inserted pair, is below the head. */
  lemma HeadStays(p: Pair, ps: seq<Pair>, q: Pair)
    requires |ps| > 0 && NonDescending(ps) && Less(ps[0].key, p.key) && q in Insert(p, ps[1..])
    ensures !Less(q.key, ps[0].key)
  {
    InsertKeeps(p, ps[1..]);
    assert q in multiset(Insert(p, ps[1..]));
    if q == p {
      if Less(p.key, ps[0].key) {
        LessTransitive(p.key, ps[0].key, p.key);
        LessIrreflexive(p.key);
      }
    } else {
      assert q in ps[1..];
    }
  }

  lemma {:induction false} InsertSorts(p: Pair, ps: seq<Pair>)
    requires NonDescending(ps)
    ensures NonDescending(Insert(p, ps))
  {
    if |ps| == 0 || !Less(ps[0].key, p.key) {
      PutFirst(p, ps);
    } else {
      var rest := Insert(p, ps[1..]);
      InsertSorts(p, ps[1..]);
      forall j | 0 <= j < |rest| ensures !Less(rest[j].key, ps[0].key) {
        HeadStays(p, ps, rest[j]);
      }
    }
  }

  lemma {:induction false} SortPairsSorts(ps: seq<Pair>)
    ensures NonDescending(SortPairs(ps)) && multiset(SortPairs(ps)) == multiset(ps)
  {
    if |ps| > 0 {
      SortPairsSorts(ps[1..]);
      InsertSorts(ps[0], SortPairs(ps[1..]));
      InsertKeeps(ps[0], SortPairs(ps[1..]));
      assert ps == [ps[0]] + ps[1..];
    }
  }

  function Keys(ps: seq<Pair>): (ks: seq<ByteString>)
    ensures |ks| == |ps| && forall i :: 0 <= i < |ps| ==> ks[i] == ps[i].key
  {
    seq(|ps|, i requires 0 <= i < |ps| => ps[i].key)
  }

  /** Two strictly ordered listings of the same entries are the same list. */
  lemma SortedListingUnique(p: seq<Pair>, q: seq<Pair>)
    requires SortedPairs(p) && SortedPairs(q) && multiset(p) == multiset(q)
    ensures p == q
  {
    forall k ensures k in Keys(p) <==> k in Keys(q) {
      KeyTransfers(p, q, k);
      KeyTransfers(q, p, k);
    }
    SortedUnique(Keys(p), Keys(q));
    forall i | 0 <= i < |p| ensures p[i] == q[i] {
      assert p[i] in multiset(p);
      assert p[i] in q;
      var j :| 0 <= j < |q| && q[j] == p[i];
      assert Keys(p)[i] == Keys(q)[i] && Keys(q)[j] == Keys(p)[i];
      LessIrreflexive(p[i].key);
      assert j == i;
    }
  }

  lemma KeyTransfers(p: seq<Pair>, q: seq<Pair>, k: ByteString)
    requires multiset(p) == multiset(q)
    ensures k in Keys(p) ==> k in Keys(q)
  {
    if k in Keys(p) {
      var i :| 0 <= i < |p| && Keys(p)[i] == k;
      assert p[i] in multiset(p);
      assert p[i] in q;
      var j :| 0 <= j < |q| && q[j] == p[i];
      assert Keys(q)[j] == k;
    }
  }

  /** The supplied order of entries changes neither acceptance nor the commitment. */
  lemma DraftOrderFree(p: seq<Pair>, q: seq<Pair>)
    requires multiset(p) == multiset(q)
    ensures Committable(SortPairs(p)) <==> Committable(SortPairs(q))
    ensures Committable(SortPairs(p)) ==> SnapshotBytes(SortPairs(p)) == SnapshotBytes(SortPairs(q))
  {
    SortPairsSorts(p);
    SortPairsSorts(q);
    if Committable(SortPairs(p)) {
      StrictTransfers(SortPairs(p), SortPairs(q));
      SortedListingUnique(SortPairs(p), SortPairs(q));
    }
    if Committable(SortPairs(q)) {
      StrictTransfers(SortPairs(q), SortPairs(p));
      SortedListingUnique(SortPairs(p), SortPairs(q));
    }
  }

  /** Strictness is about repeated keys, which a permutation keeps. */
  lemma StrictTransfers(p: seq<Pair>, q: seq<Pair>)
    requires SortedPairs(p) && NonDescending(q) && multiset(p) == multiset(q)
    ensures SortedPairs(q)
  {
    forall i, j | 0 <= i < j < |q| ensures Less(q[i].key, q[j].key) {
      LessTotal(q[i].key, q[j].key);
      DistinctKeys(p, q, i, j);
    }
  }

  lemma DistinctKeys(p: seq<Pair>, q: seq<Pair>, i: nat, j: nat)
    requires SortedPairs(p) && multiset(p) == multiset(q) && i < j < |q|
    ensures q[i].key != q[j].key
  {
    assert q[i] in multiset(q) && q[j] in multiset(q);
    assert q[i] in p && q[j] in p;
    var a :| 0 <= a < |p| && p[a] == q[i];
    var b :| 0 <= b < |p| && p[b] == q[j];
    LessIrreflexive(q[i].key);
    OnceInStrict(p, a);
    if q[i] == q[j] {
      TwiceInList(q, i, j);
    }
  }

  lemma OnceInStrict(p: seq<Pair>, a: nat)
    requires SortedPairs(p) && a < |p|
    ensures multiset(p)[p[a]] == 1
  {
    assert p == p[..a] + [p[a]] + p[a + 1..];
    LessIrreflexive(p[a].key);
    assert p[a] !in p[..a] && p[a] !in p[a + 1..];
  }

  lemma TwiceInList(q: seq<Pair>, i: nat, j: nat)
    requires i < j < |q| && q[i] == q[j]
    ensures multiset(q)[q[i]] >= 2
  {
    assert q == q[..i] + [q[i]] + q[i + 1..j] + [q[j]] + q[j + 1..];
  }
}
