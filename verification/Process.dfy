/** One validator process: what survives a crash, what does not, and the sub-steps of
accepting a block, casting a vote and starting up. */
module Process {
  import opened Ledger
  import opened Options
  import opened Votes

  /** Where the process stands between accepting a block and releasing its own vote. */
  datatype Phase = Idle | Accepted(block: Block) | Counted(block: Block) | Saved(block: Block)

  /** `index`, `bodies`, `dtip`, `saved` and `book.cert` are on disk, the rest is in memory.
  `clean` records that the current process passed both start-up checks. */
  datatype Node = Node(
    index: map<nat, Hash>,
    bodies: set<Hash>,
    dtip: Block,
    saved: Option<Vote>,
    up: bool,
    halted: bool,
    clean: bool,
    phase: Phase,
    book: VoteBook,
    latest: Option<Vote>)

  function OwnVote(i: Validator, b: Block): Vote {
    Vote(Digest(b), b.height, i)
  }

  // ---- Accepting a block ----

  predicate Extends(n: Node, b: Block) {
    b.prev == Digest(n.book.tip) && b.height == n.book.tip.height + 1
  }

  /** The retained window after a block: the new tip enters, one old height leaves. */
  function Retain(byHeight: map<nat, Block>, b: Block, window: nat): map<nat, Block> {
    if b.height < window then byHeight[b.height := b]
    else byHeight[b.height := b] - {b.height - window}
  }

  /** The retained blocks are those of the last `window` heights from `low` on. */
  ghost predicate Windowed(byHeight: map<nat, Block>, low: nat, tip: nat, window: nat) {
    forall h: nat :: h in byHeight <==> low <= h <= tip && tip < h + window
  }

  /** A new tip moves the window by one height and leaves the other blocks as they are. */
  lemma WindowMoves(byHeight: map<nat, Block>, b: Block, low: nat, window: nat)
    requires window > 0 && low < b.height && Windowed(byHeight, low, b.height - 1, window)
    ensures
      var after := Retain(byHeight, b, window);
      Windowed(after, low, b.height, window) && forall h :: h in after ==> after[h] == if h == b.height then b else byHeight[h]
  {
  }

  /** The atomic batch of the durability callback: body, height index and tip. */
  function Persist(n: Node, b: Block): Node {
    n.(index := n.index[b.height := Digest(b)], bodies := n.bodies + {Digest(b)}, dtip := b)
  }

  function Commit(n: Node, b: Block, window: nat): Node {
    Persist(n, b).(book := n.book.(tip := b, byHeight := Retain(n.book.byHeight, b, window)),
                   phase := Accepted(b))
  }

  /** A failed durability callback: memory is restored and the engine halts. */
  function CommitFailed(n: Node, b: Block, persisted: bool): Node {
    (if persisted then Persist(n, b) else n).(halted := true)
  }

  // ---- Casting the node's own vote ----

  function CountOwn(r: Rule, n: Node, i: Validator, disk: Disk): Node
    requires 0 < r.den && n.phase.Accepted?
  {
    var (book, ok) := HandleVote(r, n.book, OwnVote(i, n.phase.block), true, disk);
    n.(book := book, phase := if ok then Counted(n.phase.block) else Idle)
  }

  /** The store refuses a lower vote, or another block or signer at the saved height. */
  predicate VoteAdmissible(prior: Option<Vote>, v: Vote) {
    prior.Some? ==>
      && prior.value.height <= v.height
      && (prior.value.height == v.height ==>
            prior.value.hash == v.hash && prior.value.validator == v.validator)
  }

  function SaveOwn(n: Node, i: Validator, disk: Disk): Node
    requires n.phase.Counted?
  {
    var v := OwnVote(i, n.phase.block);
    if VoteAdmissible(n.saved, v) && disk.Durable? then
      n.(saved := Some(v), phase := Saved(n.phase.block))
    else
      n.(saved := if VoteAdmissible(n.saved, v) && disk.persisted then Some(v) else n.saved,
         phase := Idle, halted := true)
  }

  function Release(n: Node, i: Validator): Node
    requires n.phase.Saved?
  {
    n.(latest := Some(OwnVote(i, n.phase.block)), phase := Idle)
  }

  // ---- Checks against the durable store ----

  /** The walk from the durable tip down to the voted height over indexed block bodies. */
  predicate Walk(index: map<nat, Hash>, bodies: set<Hash>, hash: Hash, height: nat, v: Vote)
    decreases height
  {
    && height in index && index[height] == hash
    && hash in bodies
    && hash.Digest? && hash.block.height == height
    && if height == v.height then hash == v.hash
       else height != 0 && Walk(index, bodies, hash.block.prev, height - 1, v)
  }

  predicate AncestryVerified(n: Node, v: Vote) {
    && v.height <= n.dtip.height
    && n.book.tip == n.dtip
    && Walk(n.index, n.bodies, Digest(n.dtip), n.dtip.height, v)
  }

  predicate CertVerified(r: Rule, n: Node)
    requires 0 < r.den
  {
    n.book.cert.Some? ==>
      var c := n.book.cert.value;
      && c.height <= n.book.tip.height
      && (if c.height == n.book.tip.height then Digest(n.book.tip) == c.hash
          else
            && n.book.tip == n.dtip
            && c.height in n.index && n.index[c.height] == c.hash
            && c.hash in n.bodies
            && c.hash.Digest? && c.hash.block.height == c.height)
      && c.voters <= r.committee
      && Needed(r) <= |c.voters|
  }

  predicate LocalVoteVerified(r: Rule, n: Node) {
    n.saved.Some? ==> n.saved.value.validator in r.committee && AncestryVerified(n, n.saved.value)
  }

  /** A walk shows both that the vote is an ancestor and that the index agrees on the way. */
  lemma {:induction false} WalkSound(index: map<nat, Hash>, bodies: set<Hash>, hash: Hash, height: nat,
                                       v: Vote, k: nat)
    requires Walk(index, bodies, hash, height, v)
    requires v.height <= k <= height
    ensures Ancestor(v.hash, hash)
    ensures k in index && Ancestor(index[k], hash)
    decreases height
  {
    if height != v.height {
      WalkSound(index, bodies, hash.block.prev, height - 1, v, if k == height then k - 1 else k);
    }
  }

  // ---- Process life ----

  /** The recent blocks loaded through the height index. */
  function Window(index: map<nat, Hash>, bodies: set<Hash>, tip: Block, low: nat): map<nat, Block> {
    map k | k in index && low <= k <= tip.height && index[k] in bodies && index[k].Digest? :: index[k].block
  }

  /** Start-up: everything in memory is rebuilt from the durable tip. */
  function Boot(n: Node, low: nat): Node {
    n.(book := VoteBook(n.dtip, Window(n.index, n.bodies, n.dtip, low), map[], map[], map[], {}, n.book.cert))
  }

  function Restart(r: Rule, n: Node, low: nat): Node
    requires 0 < r.den
  {
    var b := Boot(n, low);
    var certOk, voteOk := CertVerified(r, b), LocalVoteVerified(r, b);
    var c := b.book.cert;
    b.(up := true, halted := !(certOk && voteOk), clean := certOk && voteOk, phase := Idle,
       latest := if voteOk then n.saved else None,
       book := if certOk && c.Some? then b.book.(finalized := map[c.value.height := c.value.hash]) else b.book)
  }

  function Crash(n: Node): Node {
    n.(up := false, phase := Idle)
  }

  /** The offline repair tool points the durable tip at an indexed height. */
  predicate Repairable(n: Node, k: nat) {
    k in n.index && n.index[k] in n.bodies && n.index[k].Digest?
  }

  function Repair(n: Node, k: nat): Node
    requires Repairable(n, k)
  {
    n.(dtip := n.index[k].block)
  }

  /** Relaying the last saved vote: released again if still on the durable chain, else halt. */
  function Relay(n: Node): (Node, Option<Vote>) {
    if n.latest.None? then (n, None)
    else if AncestryVerified(n, n.latest.value) then (n, n.latest)
    else (n.(halted := true), None)
  }

  // ---- The start-up check of a certificate ----

  /** The block that prev-links reach at a height. */
  function AncestorAt(hash: Hash, height: nat): Option<Hash>
    decreases hash
  {
    if !hash.Digest? then None
    else if hash.block.height == height then Some(hash)
    else AncestorAt(hash.block.prev, height)
  }

  /** The prev-links from `hash` reach the indexed block at the height. */
  predicate Reaches(index: map<nat, Hash>, hash: Hash, height: nat) {
    height in index && AncestorAt(hash, height) == Some(index[height])
  }

  lemma {:induction false} AncestorAtSound(hash: Hash, height: nat, a: Hash)
    requires Numbered(hash) && a.Digest? && a.block.height == height
    ensures AncestorAt(hash, height) == Some(a) <==> Ancestor(a, hash)
    decreases hash
  {
    if hash.block.height == height {
      if Ancestor(a, hash) {
        AncestorHeight(a, hash);
      }
    } else if hash.block.height > 0 {
      AncestorAtSound(hash.block.prev, height, a);
    }
  }

  /** A process that starts clean without a saved vote has its certified block on its chain if and
  only if the prev-links from its tip reach the indexed block; the start-up check compares the
  index alone. */
  lemma CleanStartExact(r: Rule, n: Node, low: nat)
    requires 0 < r.den && Numbered(Digest(n.dtip)) && Restart(r, n, low).clean && n.book.cert.Some?
    requires n.dtip.height in n.index && n.index[n.dtip.height] == Digest(n.dtip)
    ensures Ancestor(n.book.cert.value.hash, Digest(n.dtip)) <==> Reaches(n.index, Digest(n.dtip), n.book.cert.value.height)
  {
    var c := n.book.cert.value;
    AncestorAtSound(Digest(n.dtip), c.height, c.hash);
  }
}
