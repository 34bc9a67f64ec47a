/** Byte strings: fixed-width integers in both byte orders and the lexicographic key order. */
module Bytes {

  type Byte = x: int | 0 <= x < 256
  type ByteString = seq<Byte>

  function Pow256(n: nat): (r: nat)
    ensures r > 0
  {
    if n == 0 then 1 else 256 * Pow256(n - 1)
  }

  // ---- Fixed-width integers ----

  /** The `width` low bytes of a number, least significant first. */
  function LittleEndian(value: nat, width: nat): (r: ByteString)
    ensures |r| == width
  {
    if width == 0 then [] else [value % 256] + LittleEndian(value / 256, width - 1)
  }

  function FromLittleEndian(b: ByteString): (r: nat)
    ensures r < Pow256(|b|)
  {
    if |b| == 0 then 0 else b[0] + 256 * FromLittleEndian(b[1..])
  }

  function Reversed(b: ByteString): (r: ByteString)
    ensures |r| == |b|
  {
    if |b| == 0 then [] else Reversed(b[1..]) + [b[0]]
  }

  function BigEndian(value: nat, width: nat): (r: ByteString)
    ensures |r| == width
  {
    Reversed(LittleEndian(value, width))
  }

  function FromBigEndian(b: ByteString): nat {
    FromLittleEndian(Reversed(b))
  }

  /** A number survives a field wide enough for it. */
  lemma {:induction false} LittleEndianRoundTrip(value: nat, width: nat)
    requires value < Pow256(width)
    ensures FromLittleEndian(LittleEndian(value, width)) == value
  {
    if width > 0 {
      LittleEndianRoundTrip(value / 256, width - 1);
      assert LittleEndian(value, width)[1..] == LittleEndian(value / 256, width - 1);
    }
  }

  /** Every byte string of a width is the field of its own number. */
  lemma {:induction false} LittleEndianCanonical(b: ByteString)
    ensures LittleEndian(FromLittleEndian(b), |b|) == b
  {
    if |b| > 0 {
      LittleEndianCanonical(b[1..]);
      assert (b[0] + 256 * FromLittleEndian(b[1..])) / 256 == FromLittleEndian(b[1..]);
      assert b == [b[0]] + b[1..];
    }
  }

  lemma {:induction false} ReversedSnoc(b: ByteString, x: Byte)
    ensures Reversed(b + [x]) == [x] + Reversed(b)
  {
    if |b| > 0 {
      ReversedSnoc(b[1..], x);
      assert (b + [x])[1..] == b[1..] + [x];
    }
  }

  lemma {:induction false} ReversedTwice(b: ByteString)
    ensures Reversed(Reversed(b)) == b
  {
    if |b| > 0 {
      ReversedTwice(b[1..]);
      ReversedSnoc(Reversed(b[1..]), b[0]);
      assert b == [b[0]] + b[1..];
    }
  }

  lemma BigEndianRoundTrip(value: nat, width: nat)
    requires value < Pow256(width)
    ensures FromBigEndian(BigEndian(value, width)) == value
  {
    ReversedTwice(LittleEndian(value, width));
    LittleEndianRoundTrip(value, width);
  }

  // ---- Key order ----

  /** Strict lexicographic order, as byte-wise string comparison gives it. */
  predicate Less(a: ByteString, b: ByteString) {
    && |b| > 0
    && (|| |a| == 0
        || a[0] < b[0]
        || (a[0] == b[0] && Less(a[1..], b[1..])))
  }

  lemma {:induction false} LessTransitive(a: ByteString, b: ByteString, c: ByteString)
    requires Less(a, b) && Less(b, c)
    ensures Less(a, c)
  {
    if |a| > 0 && a[0] == b[0] && b[0] == c[0] {
      LessTransitive(a[1..], b[1..], c[1..]);
    }
  }

  lemma {:induction false} LessIrreflexive(a: ByteString)
    ensures !Less(a, a)
  {
    if |a| > 0 {
      LessIrreflexive(a[1..]);
    }
  }

  lemma {:induction false} LessTotal(a: ByteString, b: ByteString)
    ensures Less(a, b) || a == b || Less(b, a)
  {
    if |a| > 0 && |b| > 0 && a[0] == b[0] {
      LessTotal(a[1..], b[1..]);
      assert a == [a[0]] + a[1..] && b == [b[0]] + b[1..];
    }
  }

  ghost predicate StrictlySorted(keys: seq<ByteString>) {
    forall i, j :: 0 <= i < j < |keys| ==> Less(keys[i], keys[j])
  }

  /** A set of keys has one strictly sorted listing. */
  lemma {:induction false} SortedUnique(p: seq<ByteString>, q: seq<ByteString>)
    requires StrictlySorted(p) && StrictlySorted(q)
    requires forall k :: k in p <==> k in q
    ensures p == q
    decreases |p|
  {
    if |p| == 0 {
      EmptyListing(q);
    } else {
      assert p[0] in q;
      SameFirst(p, q);
      forall k ensures k in p[1..] <==> k in q[1..] {
        InTail(p, k);
        InTail(q, k);
      }
      SortedUnique(p[1..], q[1..]);
      assert p == [p[0]] + p[1..] && q == [q[0]] + q[1..];
    }
  }

  lemma EmptyListing(q: seq<ByteString>)
    ensures (forall k :: k !in q) ==> q == []
  {
    if q != [] {
      assert q[0] in q;
    }
  }

  lemma SameFirst(p: seq<ByteString>, q: seq<ByteString>)
    requires |p| > 0 && |q| > 0 && StrictlySorted(p) && StrictlySorted(q)
    requires forall k :: k in p <==> k in q
    ensures p[0] == q[0]
  {
    assert p[0] in q && q[0] in p;
    if p[0] != q[0] {
      var i :| 0 <= i < |q| && q[i] == p[0];
      var j :| 0 <= j < |p| && p[j] == q[0];
      LessTransitive(p[0], p[j], q[i]);
      LessIrreflexive(p[0]);
    }
  }

  lemma InTail(p: seq<ByteString>, k: ByteString)
    requires |p| > 0 && StrictlySorted(p)
    ensures k in p[1..] <==> k in p && k != p[0]
  {
    assert p == [p[0]] + p[1..];
    if k in p[1..] {
      var i :| 0 <= i < |p[1..]| && p[1..][i] == k;
      LessIrreflexive(p[0]);
    }
  }

  /** The keys of a set in ascending order. */
  method SortKeys(keys: set<ByteString>) returns (sorted: seq<ByteString>)
    ensures StrictlySorted(sorted)
    ensures forall k :: k in sorted <==> k in keys
  {
    sorted := [];
    var rest := keys;
    while rest != {}
      invariant rest <= keys
      invariant forall k :: k in sorted <==> k in keys && k !in rest
      invariant StrictlySorted(sorted)
      invariant forall k, r :: k in sorted && r in rest ==> Less(k, r)
      decreases |rest|
    {
      var least := LeastKey(rest);
      forall r | r in rest && r != least ensures Less(least, r) {
        LessTotal(least, r);
      }
      sorted, rest := sorted + [least], rest - {least};
    }
  }

  method LeastKey(keys: set<ByteString>) returns (least: ByteString)
    requires keys != {}
    ensures least in keys
    ensures forall k :: k in keys ==> !Less(k, least)
  {
    least :| least in keys;
    LessIrreflexive(least);
    var rest := keys - {least};
    while rest != {}
      invariant least in keys && rest <= keys
      invariant forall k :: k in keys && k !in rest ==> !Less(k, least)
      decreases |rest|
    {
      var k :| k in rest;
      if Less(k, least) {
        forall d | d in keys && d !in rest ensures !Less(d, k) {
          if Less(d, k) {
            LessTransitive(d, k, least);
          }
        }
        LessIrreflexive(k);
        least := k;
      }
      rest := rest - {k};
    }
  }
}
