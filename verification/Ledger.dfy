/** Blocks, their hashes and hash-linked ancestry.

A hash is the free term `Digest(block)`: equal hashes have equal preimages and no
block hashes to the zero value. The height of a block is only what its header
claims; `Numbered` says that the claims count up by one from a genesis block. */
module Ledger {

  datatype Hash = Zero | Digest(block: Block)

  datatype Block = Block(height: nat, prev: Hash, payload: nat)

  predicate Ancestor(a: Hash, d: Hash)
    decreases d
  {
    a == d || (d.Digest? && Ancestor(a, d.block.prev))
  }

  predicate Comparable(a: Hash, b: Hash) {
    Ancestor(a, b) || Ancestor(b, a)
  }

  predicate Numbered(h: Hash) {
    && h.Digest?
    && if h.block.height == 0 then h.block.prev == Zero
       else
         && Numbered(h.block.prev)
         && h.block.prev.block.height + 1 == h.block.height
  }

  lemma {:induction false} AncestorTransitive(a: Hash, b: Hash, c: Hash)
    requires Ancestor(a, b) && Ancestor(b, c)
    ensures Ancestor(a, c)
    decreases c
  {
    if b != c {
      AncestorTransitive(a, b, c.block.prev);
    }
  }

  /** The ancestors of one block form a single chain. */
  lemma {:induction false} AncestorsComparable(a: Hash, b: Hash, d: Hash)
    requires Ancestor(a, d) && Ancestor(b, d)
    ensures Comparable(a, b)
    decreases d
  {
    if a != d && b != d {
      AncestorsComparable(a, b, d.block.prev);
    }
  }

  /** Along a numbered chain, ancestry never goes up in height and one height holds one block. */
  lemma {:induction false} AncestorHeight(a: Hash, d: Hash)
    requires Numbered(d) && Ancestor(a, d) && a.Digest?
    ensures Numbered(a)
    ensures a.block.height <= d.block.height
    ensures a.block.height == d.block.height ==> a == d
    decreases d
  {
    if a != d && d.block.height != 0 {
      AncestorHeight(a, d.block.prev);
    }
  }

  /** Between two related numbered blocks the lower one is the ancestor. */
  lemma LowerIsAncestor(a: Hash, b: Hash)
    requires Comparable(a, b) && Numbered(a) && Numbered(b)
    requires a.block.height <= b.block.height
    ensures Ancestor(a, b)
  {
    if Ancestor(b, a) {
      AncestorHeight(b, a);
    }
  }

  /** Relatedness to a block passes to the ancestors of that block. */
  lemma ComparableThroughAncestor(a: Hash, s: Hash, u: Hash)
    requires Ancestor(a, s) && Comparable(s, u)
    ensures Comparable(a, u)
  {
    if Ancestor(s, u) {
      AncestorTransitive(a, s, u);
    } else {
      AncestorsComparable(a, u, s);
    }
  }
}
