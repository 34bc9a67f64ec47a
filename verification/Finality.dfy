/** The finality protocol as a state machine over all honest processes, with a faulty
minority that may sign anything. Main results: no two finalized blocks are unrelated, and one
height is finalized once, over every run of accepted blocks, failed writes, crashes, tip repairs
and restarts in which a clean start without a saved vote has its certified block on its chain. */
module Finality {
  import opened Ledger
  import opened Options
  import opened Votes
  import opened Process

  /** `faulty` validators may equivocate; `window` is the number of blocks kept in memory. */
  datatype Config = Config(rule: Rule, faulty: set<Validator>, genesis: Block, window: nat)

  predicate ValidConfig(c: Config) {
    && SafeRule(c.rule)
    && 3 * |c.faulty * c.rule.committee| < |c.rule.committee|
    && c.genesis.height == 0 && c.genesis.prev == Zero
  }

  /** A process together with the hashes whose votes it has released (`signed`) and those it
  counted itself in a certificate of its own (`own`). */
  datatype Host = Host(node: Node, signed: set<Hash>, own: set<Hash>)

  /** `finals` records every certificate that ever reached a disk. */
  datatype World = World(hosts: map<Validator, Host>, finals: set<(Hash, set<Validator>)>)

  datatype Step =
    | AcceptBlock(i: Validator, b: Block)
    | PersistFailure(i: Validator, b: Block, persisted: bool)
    | CastCount(i: Validator, disk: Disk)
    | CastSkip(i: Validator)
    | CastSave(i: Validator, disk: Disk)
    | CastRelease(i: Validator)
    | Deliver(i: Validator, v: Vote, disk: Disk)
    | DropStaged(i: Validator)
    | RelayVote(i: Validator)
    | Stop(i: Validator)
    | RepairTip(i: Validator, k: nat)
    | PruneBodies(i: Validator, keep: set<Hash>)
    | Start(i: Validator, low: nat)

  /** A signature for `v` exists: the signer is faulty or released this vote. */
  predicate Authentic(c: Config, w: World, v: Vote) {
    v.validator in c.faulty || (v.validator in w.hosts && v.hash in w.hosts[v.validator].signed)
  }

  predicate Enabled(c: Config, w: World, s: Step) {
    s.i in w.hosts &&
    var n := w.hosts[s.i].node;
    match s
    case AcceptBlock(_, b) => n.up && !n.halted && n.phase.Idle? && Extends(n, b)
    case PersistFailure(_, b, _) => n.up && !n.halted && n.phase.Idle? && Extends(n, b)
    case CastCount(_, _) => n.up && n.phase.Accepted?
    case CastSkip(_) => n.up && n.phase.Accepted?
    case CastSave(_, _) => n.up && n.phase.Counted?
    case CastRelease(_) => n.up && n.phase.Saved?
    case Deliver(_, v, _) => n.up && Authentic(c, w, v)
    case DropStaged(_) => n.up
    case RelayVote(_) => n.up && n.phase.Idle?
    case Stop(_) => n.up
    case RepairTip(_, k) => !n.up && Repairable(n, k)
    case PruneBodies(_, _) => true
    case Start(_, _) => !n.up
  }

  /** Installing a process whose vote book moved: a new certificate is recorded. */
  function Record(w: World, i: Validator, n: Node): World
    requires i in w.hosts
  {
    var h, cert := w.hosts[i], n.book.cert;
    if cert == h.node.book.cert || cert.None? then w.(hosts := w.hosts[i := h.(node := n)])
    else
      var own := if i in cert.value.voters then h.own + {cert.value.hash} else h.own;
      World(w.hosts[i := h.(node := n, own := own)], w.finals + {(cert.value.hash, cert.value.voters)})
  }

  function Put(w: World, i: Validator, h: Host): World {
    w.(hosts := w.hosts[i := h])
  }

  function Next(c: Config, w: World, s: Step): World
    requires 0 < c.rule.den && Enabled(c, w, s)
  {
    var h := w.hosts[s.i];
    var n := h.node;
    match s
    case AcceptBlock(i, b) => Put(w, i, h.(node := Commit(n, b, c.window)))
    case PersistFailure(i, b, persisted) => Put(w, i, h.(node := CommitFailed(n, b, persisted)))
    case CastCount(i, disk) => Record(w, i, CountOwn(c.rule, n, i, disk))
    case CastSkip(i) => Put(w, i, h.(node := n.(phase := Idle)))
    case CastSave(i, disk) => Put(w, i, h.(node := SaveOwn(n, i, disk)))
    case CastRelease(i) =>
      Put(w, i, h.(node := Release(n, i), signed := h.signed + {Digest(n.phase.block)}))
    case Deliver(i, v, disk) =>
      Record(w, i, n.(book := HandleVote(c.rule, n.book, v, true, disk).0))
    case DropStaged(i) =>
      Put(w, i, h.(node := n.(book := n.book.(staged := set v | v in n.book.staged && n.book.tip.height < v.height))))
    case RelayVote(i) =>
      var (n', out) := Relay(n);
      Put(w, i, h.(node := n', signed := if out.Some? then h.signed + {out.value.hash} else h.signed))
    case Stop(i) => Put(w, i, h.(node := Crash(n)))
    case RepairTip(i, k) => Put(w, i, h.(node := Repair(n, k)))
    case PruneBodies(i, keep) => Put(w, i, h.(node := n.(bodies := n.bodies * keep)))
    case Start(i, low) => Put(w, i, h.(node := Restart(c.rule, n, low)))
  }

  function InitNode(g: Block): Node {
    Node(map[0 := Digest(g)], {Digest(g)}, g, None, false, false, false, Idle,
         VoteBook(g, map[], map[], map[], map[], {}, None), None)
  }

  function Init(c: Config, ids: set<Validator>): World {
    World(map i | i in ids :: Host(InitNode(c.genesis), {}, {}), {})
  }

  /** The world after a run of enabled steps, if every step was enabled. */
  function Run(c: Config, ids: set<Validator>, steps: seq<Step>): Option<World>
    requires 0 < c.rule.den
  {
    if |steps| == 0 then Some(Init(c, ids - c.faulty))
    else
      var before := Run(c, ids, steps[..|steps| - 1]);
      if before.Some? && Enabled(c, before.value, steps[|steps| - 1])
      then Some(Next(c, before.value, steps[|steps| - 1]))
      else None
  }

  /** Before the first saved vote there is no ancestry walk at start-up. A start is watched if
  the prev-links from its tip then reach the indexed block at the certified height, which by
  `CleanStartExact` is to say that its certified block is on its chain. */
  predicate StartWatched(c: Config, n: Node, low: nat)
    requires 0 < c.rule.den
  {
    n.saved.None? && n.book.cert.Some? && Restart(c.rule, n, low).clean ==> Reaches(n.index, Digest(n.dtip), n.book.cert.value.height)
  }

  predicate StepWatched(c: Config, w: World, s: Step)
    requires 0 < c.rule.den
  {
    s.Start? && s.i in w.hosts ==> StartWatched(c, w.hosts[s.i].node, s.low)
  }

  /** Every start of the run is watched. */
  predicate Watched(c: Config, ids: set<Validator>, steps: seq<Step>)
    requires 0 < c.rule.den
  {
    |steps| > 0 ==>
      && Watched(c, ids, steps[..|steps| - 1]) && Run(c, ids, steps[..|steps| - 1]).Some?
      && StepWatched(c, Run(c, ids, steps[..|steps| - 1]).value, steps[|steps| - 1])
  }

  // ---- The invariant ----

  /** Every hash this process ever put its name to, in public or in its own certificate. */
  function Marks(h: Host): set<Hash> {
    h.signed + h.own + (if h.node.saved.Some? then {h.node.saved.value.hash} else {})
  }

  ghost predicate DiskInv(n: Node) {
    && Numbered(Digest(n.dtip)) && n.dtip.height in n.index && n.index[n.dtip.height] == Digest(n.dtip)
    && (forall k :: k in n.index ==> Numbered(n.index[k]) && n.index[k].block.height == k)
    && (n.saved.Some? ==> Numbered(n.saved.value.hash) && n.saved.value.hash.block.height == n.saved.value.height)
    && (n.book.cert.Some? ==>
          Numbered(n.book.cert.value.hash) && n.book.cert.value.hash.block.height == n.book.cert.value.height)
  }

  ghost predicate MemoryInv(i: Validator, n: Node) {
    && (n.up && !n.halted ==> n.clean && n.book.tip == n.dtip)
    && (n.phase != Idle ==> n.up && !n.halted && n.phase.block == n.book.tip)
    && (n.phase.Saved? ==> n.saved == Some(OwnVote(i, n.phase.block)))
    && (n.up && n.clean ==> Numbered(Digest(n.book.tip)))
    && (n.up ==> forall k :: k in n.book.byHeight ==>
          n.book.byHeight[k].height == k && Numbered(Digest(n.book.byHeight[k])))
    && (n.latest.Some? ==>
          n.latest.value.hash.Digest? && n.saved.Some? && Ancestor(n.latest.value.hash, n.saved.value.hash))
  }

  ghost predicate MarkInv(h: Host) {
    var n := h.node;
    && (forall x :: x in h.signed ==> x.Digest? && n.saved.Some? && Ancestor(x, n.saved.value.hash))
    && (forall u :: u in h.own ==> Numbered(u) && n.book.cert.Some? && Ancestor(u, n.book.cert.value.hash))
    && (forall x, y :: x in Marks(h) && y in Marks(h) ==> Comparable(x, y))
    && (n.up && n.clean ==> forall x :: x in Marks(h) ==> Ancestor(x, Digest(n.book.tip)))
  }

  ghost predicate LocalInv(i: Validator, h: Host) {
    DiskInv(h.node) && MemoryInv(i, h.node) && MarkInv(h)
  }

  /** A counted voter is committee member and either released this vote, is faulty, or is the
  counting process itself, on its own chain. */
  ghost predicate Countable(c: Config, w: World, i: Validator, q: Validator, hash: Hash) {
    && q in c.rule.committee
    && (|| q in c.faulty
        || (q in w.hosts && hash in w.hosts[q].signed)
        || (q == i && i in w.hosts && w.hosts[i].node.clean && Ancestor(hash, Digest(w.hosts[i].node.book.tip))))
  }

  function FinalHashes(w: World): set<Hash> {
    set f | f in w.finals :: f.0
  }

  ghost predicate BookInv(c: Config, w: World, i: Validator)
    requires i in w.hosts
  {
    var n := w.hosts[i].node;
    && (n.up ==> forall h, q :: h in n.book.votes && q in n.book.votes[h] ==> Countable(c, w, i, q, h))
    && (n.up ==> forall v :: v in n.book.staged ==> v.validator in c.rule.committee && Authentic(c, w, v))
    && (n.up ==> forall k :: k in n.book.finalized ==>
          && n.book.finalized[k] in FinalHashes(w)
          && n.book.finalized[k].Digest? && n.book.finalized[k].block.height == k)
    && w.hosts[i].own <= FinalHashes(w)
    && (n.book.cert.Some? ==> n.book.cert.value.hash in FinalHashes(w))
  }

  ghost predicate FinalInv(c: Config, w: World)
    requires 0 < c.rule.den
  {
    forall f :: f in w.finals ==>
      && Numbered(f.0)
      && f.1 <= c.rule.committee && Needed(c.rule) <= |f.1|
      && forall q :: q in f.1 - c.faulty ==>
           q in w.hosts && (f.0 in w.hosts[q].signed || f.0 in w.hosts[q].own)
  }

  ghost predicate Inv(c: Config, w: World)
    requires 0 < c.rule.den
  {
    && FinalInv(c, w)
    && w.hosts.Keys !! c.faulty
    && forall i :: i in w.hosts ==> LocalInv(i, w.hosts[i]) && BookInv(c, w, i)
  }

  // ---- Quorum intersection and agreement ----

  lemma MulCancel(a: nat, b: nat, d: nat)
    requires a * d < b * d
    ensures a < b
  {
  }

  lemma QuorumArithmetic(n: nat, num: nat, den: nat, needed: nat)
    requires 0 < den && 2 * den <= 3 * num
    requires needed == n * num / den + 1
    ensures 2 * n < 3 * needed
  {
    assert n * num < needed * den;
    assert n * (2 * den) <= n * (3 * num);
    assert (2 * n) * den < (3 * needed) * den;
    MulCancel(2 * n, 3 * needed, den);
  }

  lemma SizeOfUnion(a: set<Validator>, b: set<Validator>)
    ensures |a| + |b| == |a + b| + |a * b|
  {
    assert a + b == a + (b - a);
    assert b == (b - a) + a * b;
  }

  lemma SubsetSize(a: set<Validator>, b: set<Validator>)
    requires a <= b
    ensures |a| <= |b|
  {
    assert b == a + (b - a);
  }

  /** Two quorums share a validator that is not faulty. */
  lemma QuorumsMeet(c: Config, q1: set<Validator>, q2: set<Validator>) returns (v: Validator)
    requires ValidConfig(c)
    requires q1 <= c.rule.committee && Needed(c.rule) <= |q1|
    requires q2 <= c.rule.committee && Needed(c.rule) <= |q2|
    ensures v in q1 && v in q2 && v !in c.faulty
  {
    var n := |c.rule.committee|;
    QuorumArithmetic(n, c.rule.num, c.rule.den, Needed(c.rule));
    SizeOfUnion(q1, q2);
    SubsetSize(q1 + q2, c.rule.committee);
    assert !(q1 * q2 <= c.faulty) by {
      if q1 * q2 <= c.faulty {
        SubsetSize(q1 * q2, c.faulty * c.rule.committee);
      }
    }
    v :| v in q1 * q2 && v !in c.faulty;
  }

  /** Quorum intersection plus one chain per honest voter: certified blocks are related. */
  lemma Agreement(c: Config, w: World, f1: (Hash, set<Validator>), f2: (Hash, set<Validator>))
    requires ValidConfig(c) && FinalInv(c, w)
    requires forall i :: i in w.hosts ==>
      forall x, y :: x in Marks(w.hosts[i]) && y in Marks(w.hosts[i]) ==> Comparable(x, y)
    requires f1 in w.finals && f2 in w.finals
    ensures Comparable(f1.0, f2.0)
    ensures f1.0.block.height <= f2.0.block.height ==> Ancestor(f1.0, f2.0)
  {
    var v := QuorumsMeet(c, f1.1, f2.1);
    assert v in f1.1 - c.faulty && v in f2.1 - c.faulty;
    assert f1.0 in Marks(w.hosts[v]) && f2.0 in Marks(w.hosts[v]);
    if f1.0.block.height <= f2.0.block.height {
      LowerIsAncestor(f1.0, f2.0);
    }
  }

  // ---- Every step keeps the invariant ----

  /** The book of a process that does not move keeps its meaning as signatures and certificates grow. */
  lemma BookGrows(c: Config, w: World, w': World, j: Validator)
    requires j in w.hosts && j in w'.hosts && w'.hosts[j] == w.hosts[j] && BookInv(c, w, j)
    requires forall k :: k in w.hosts ==> k in w'.hosts && w.hosts[k].signed <= w'.hosts[k].signed
    requires FinalHashes(w) <= FinalHashes(w')
    ensures BookInv(c, w', j)
  {
  }

  /** A step of process `i` that only adds signatures and certificates leaves the others alone. */
  lemma Frame(c: Config, w: World, w': World, i: Validator)
    requires 0 < c.rule.den && Inv(c, w) && i in w.hosts && i in w'.hosts
    requires w'.hosts == w.hosts[i := w'.hosts[i]] && w.finals <= w'.finals
    requires w.hosts[i].signed <= w'.hosts[i].signed && w.hosts[i].own <= w'.hosts[i].own
    requires FinalInv(c, w') && LocalInv(i, w'.hosts[i]) && BookInv(c, w', i)
    ensures Inv(c, w')
  {
    assert FinalHashes(w) <= FinalHashes(w');
    forall j | j in w'.hosts
      ensures LocalInv(j, w'.hosts[j]) && BookInv(c, w', j)
    {
      if j != i {
        BookGrows(c, w, w', j);
      }
    }
  }

  lemma PutKeeps(c: Config, w: World, i: Validator, h: Host)
    requires 0 < c.rule.den && Inv(c, w) && i in w.hosts
    requires w.hosts[i].signed <= h.signed && w.hosts[i].own == h.own
    requires LocalInv(i, h) && BookInv(c, Put(w, i, h), i)
    ensures Inv(c, Put(w, i, h))
  {
    Frame(c, w, Put(w, i, h), i);
  }

  /** The book part for steps that move the chain forward or leave it, and touch no vote. */
  lemma BookFrame(c: Config, w: World, i: Validator, h: Host)
    requires 0 < c.rule.den && i in w.hosts && BookInv(c, w, i)
    requires h.own == w.hosts[i].own && w.hosts[i].signed <= h.signed
    requires
      var n, n' := w.hosts[i].node, h.node;
      && n'.book.cert == n.book.cert
      && (n'.up ==>
            && n.up && n'.clean == n.clean
            && n'.book.votes == n.book.votes && n'.book.finalized == n.book.finalized
            && n'.book.staged <= n.book.staged
            && Ancestor(Digest(n.book.tip), Digest(n'.book.tip)))
    ensures BookInv(c, Put(w, i, h), i)
  {
    var w' := Put(w, i, h);
    var n, n' := w.hosts[i].node, h.node;
    forall x, q | n'.up && x in n'.book.votes && q in n'.book.votes[x]
      ensures Countable(c, w', i, q, x)
    {
      assert Countable(c, w, i, q, x);
      if Ancestor(x, Digest(n.book.tip)) {
        AncestorTransitive(x, Digest(n.book.tip), Digest(n'.book.tip));
      }
    }
    assert FinalHashes(w') == FinalHashes(w);
  }

  lemma LinkedChild(n: Node, b: Block)
    requires Extends(n, b) && Numbered(Digest(n.book.tip))
    ensures Numbered(Digest(b))
    ensures forall x :: Ancestor(x, Digest(n.book.tip)) ==> Ancestor(x, Digest(b))
  {
  }

  lemma AcceptLocal(i: Validator, h: Host, b: Block, window: nat)
    requires LocalInv(i, h) && h.node.up && !h.node.halted && Extends(h.node, b)
    ensures LocalInv(i, h.(node := Commit(h.node, b, window)))
  {
    LinkedChild(h.node, b);
    assert Marks(h.(node := Commit(h.node, b, window))) == Marks(h);
  }

  lemma AcceptKeeps(c: Config, w: World, i: Validator, b: Block)
    requires ValidConfig(c) && Inv(c, w) && Enabled(c, w, AcceptBlock(i, b))
    ensures Inv(c, Next(c, w, AcceptBlock(i, b)))
  {
    var h := w.hosts[i];
    AcceptLocal(i, h, b, c.window);
    BookFrame(c, w, i, h.(node := Commit(h.node, b, c.window)));
    PutKeeps(c, w, i, h.(node := Commit(h.node, b, c.window)));
  }

  lemma PersistFailureLocal(i: Validator, h: Host, b: Block, persisted: bool)
    requires LocalInv(i, h) && h.node.up && !h.node.halted && h.node.phase.Idle? && Extends(h.node, b)
    ensures LocalInv(i, h.(node := CommitFailed(h.node, b, persisted)))
  {
    LinkedChild(h.node, b);
    assert Marks(h.(node := CommitFailed(h.node, b, persisted))) == Marks(h);
  }

  lemma PersistFailureKeeps(c: Config, w: World, i: Validator, b: Block, persisted: bool)
    requires ValidConfig(c) && Inv(c, w) && Enabled(c, w, PersistFailure(i, b, persisted))
    ensures Inv(c, Next(c, w, PersistFailure(i, b, persisted)))
  {
    var h := w.hosts[i];
    PersistFailureLocal(i, h, b, persisted);
    BookFrame(c, w, i, h.(node := CommitFailed(h.node, b, persisted)));
    PutKeeps(c, w, i, h.(node := CommitFailed(h.node, b, persisted)));
  }

  lemma SaveLocal(i: Validator, h: Host, disk: Disk)
    requires LocalInv(i, h) && h.node.phase.Counted?
    ensures LocalInv(i, h.(node := SaveOwn(h.node, i, disk)))
  {
    var n := h.node;
    var h' := h.(node := SaveOwn(n, i, disk));
    forall x | n.saved.Some? && Ancestor(x, n.saved.value.hash)
      ensures Ancestor(x, Digest(n.book.tip))
    {
      assert n.saved.value.hash in Marks(h);
      AncestorTransitive(x, n.saved.value.hash, Digest(n.book.tip));
    }
    assert forall x :: x in Marks(h') ==> x in Marks(h) || x == Digest(n.book.tip);
  }

  lemma CastSaveKeeps(c: Config, w: World, i: Validator, disk: Disk)
    requires ValidConfig(c) && Inv(c, w) && Enabled(c, w, CastSave(i, disk))
    ensures Inv(c, Next(c, w, CastSave(i, disk)))
  {
    var h := w.hosts[i];
    SaveLocal(i, h, disk);
    BookFrame(c, w, i, h.(node := SaveOwn(h.node, i, disk)));
    PutKeeps(c, w, i, h.(node := SaveOwn(h.node, i, disk)));
  }

  lemma ReleaseLocal(i: Validator, h: Host)
    requires LocalInv(i, h) && h.node.phase.Saved?
    ensures LocalInv(i, h.(node := Release(h.node, i), signed := h.signed + {Digest(h.node.phase.block)}))
  {
    assert Marks(h.(node := Release(h.node, i), signed := h.signed + {Digest(h.node.phase.block)})) == Marks(h);
  }

  lemma CastReleaseKeeps(c: Config, w: World, i: Validator)
    requires ValidConfig(c) && Inv(c, w) && Enabled(c, w, CastRelease(i))
    ensures Inv(c, Next(c, w, CastRelease(i)))
  {
    var h := w.hosts[i];
    var h' := h.(node := Release(h.node, i), signed := h.signed + {Digest(h.node.phase.block)});
    ReleaseLocal(i, h);
    BookFrame(c, w, i, h');
    PutKeeps(c, w, i, h');
  }

  function RelayHost(h: Host): Host {
    var (n', out) := Relay(h.node);
    h.(node := n', signed := if out.Some? then h.signed + {out.value.hash} else h.signed)
  }

  lemma RelayLocal(i: Validator, h: Host)
    requires LocalInv(i, h) && h.node.up && h.node.phase.Idle?
    ensures LocalInv(i, RelayHost(h))
  {
    var n := h.node;
    var (n', out) := Relay(n);
    if out.Some? {
      var x, s := out.value.hash, n.saved.value.hash;
      assert s in Marks(h);
      forall y | y in Marks(h) ensures Comparable(x, y) {
        ComparableThroughAncestor(x, s, y);
      }
      if n.clean {
        AncestorTransitive(x, s, Digest(n.book.tip));
      }
      assert Marks(RelayHost(h)) == Marks(h) + {x};
    } else {
      assert Marks(RelayHost(h)) == Marks(h);
    }
  }

  lemma RelayKeeps(c: Config, w: World, i: Validator)
    requires ValidConfig(c) && Inv(c, w) && Enabled(c, w, RelayVote(i))
    ensures Inv(c, Next(c, w, RelayVote(i)))
  {
    var h := w.hosts[i];
    RelayLocal(i, h);
    RelayShape(h);
    SameBookKeeps(c, w, i, RelayHost(h));
  }

  lemma RelayShape(h: Host)
    ensures
      var h' := RelayHost(h);
      && h'.own == h.own && h.signed <= h'.signed && h'.node.book == h.node.book
      && h'.node.up == h.node.up && h'.node.clean == h.node.clean
  {
  }

  /** A step that leaves the book alone and signs at most more. */
  lemma SameBookKeeps(c: Config, w: World, i: Validator, h: Host)
    requires 0 < c.rule.den && Inv(c, w) && i in w.hosts && LocalInv(i, h)
    requires h.own == w.hosts[i].own && w.hosts[i].signed <= h.signed && h.node.book == w.hosts[i].node.book
    requires h.node.up == w.hosts[i].node.up && h.node.clean == w.hosts[i].node.clean
    ensures Inv(c, Put(w, i, h))
  {
    BookFrame(c, w, i, h);
    PutKeeps(c, w, i, h);
  }

  lemma RepairLocal(i: Validator, h: Host, k: nat)
    requires LocalInv(i, h) && !h.node.up && Repairable(h.node, k)
    ensures LocalInv(i, h.(node := Repair(h.node, k)))
  {
    assert Marks(h.(node := Repair(h.node, k))) == Marks(h);
  }

  lemma RepairKeeps(c: Config, w: World, i: Validator, k: nat)
    requires ValidConfig(c) && Inv(c, w) && Enabled(c, w, RepairTip(i, k))
    ensures Inv(c, Next(c, w, RepairTip(i, k)))
  {
    var h := w.hosts[i];
    RepairLocal(i, h, k);
    BookFrame(c, w, i, h.(node := Repair(h.node, k)));
    PutKeeps(c, w, i, h.(node := Repair(h.node, k)));
  }

  lemma QuietLocal(i: Validator, h: Host, n': Node)
    requires LocalInv(i, h)
    requires n' == h.node.(up := n'.up, phase := Idle, bodies := n'.bodies, book := h.node.book.(staged := n'.book.staged))
          || n' == h.node.(bodies := n'.bodies, book := h.node.book.(staged := n'.book.staged))
    requires n'.up ==> h.node.up
    ensures LocalInv(i, h.(node := n'))
  {
    assert Marks(h.(node := n')) == Marks(h);
  }

  lemma QuietKeeps(c: Config, w: World, s: Step)
    requires ValidConfig(c) && Inv(c, w) && Enabled(c, w, s)
    requires s.CastSkip? || s.DropStaged? || s.Stop? || s.PruneBodies?
    ensures Inv(c, Next(c, w, s))
  {
    var h := w.hosts[s.i];
    var h' := Next(c, w, s).hosts[s.i];
    QuietLocal(s.i, h, h'.node);
    BookFrame(c, w, s.i, h');
    PutKeeps(c, w, s.i, h');
  }

  /** After a clean start the new tip carries everything the process put its name to. */
  lemma CleanStart(c: Config, i: Validator, h: Host, low: nat, x: Hash)
    requires 0 < c.rule.den && LocalInv(i, h)
    requires Restart(c.rule, h.node, low).clean && StartWatched(c, h.node, low)
    requires x in Marks(h)
    ensures Ancestor(x, Digest(h.node.dtip))
  {
    var n := h.node;
    var tip := Digest(n.dtip);
    if n.saved.Some? {
      var s := n.saved.value;
      WalkSound(n.index, n.bodies, tip, n.dtip.height, s, s.height);
      if x in h.own && s.height <= n.book.cert.value.height {
        WalkSound(n.index, n.bodies, tip, n.dtip.height, s, n.book.cert.value.height);
        AncestorTransitive(x, n.book.cert.value.hash, tip);
      } else {
        if x in h.own {
          assert s.hash in Marks(h);
          AncestorHeight(x, n.book.cert.value.hash);
          LowerIsAncestor(x, s.hash);
        }
        AncestorTransitive(x, s.hash, tip);
      }
    } else {
      CleanStartExact(c.rule, n, low);
      AncestorTransitive(x, n.book.cert.value.hash, tip);
    }
  }

  lemma StartLocal(c: Config, i: Validator, h: Host, low: nat)
    requires 0 < c.rule.den && LocalInv(i, h) && StartWatched(c, h.node, low)
    ensures LocalInv(i, h.(node := Restart(c.rule, h.node, low)))
  {
    var n' := Restart(c.rule, h.node, low);
    assert Marks(h.(node := n')) == Marks(h);
    if n'.clean {
      forall x | x in Marks(h) ensures Ancestor(x, Digest(h.node.dtip)) {
        CleanStart(c, i, h, low, x);
      }
    }
    assert DiskInv(n') && MemoryInv(i, n');
  }

  lemma StartKeeps(c: Config, w: World, i: Validator, low: nat)
    requires ValidConfig(c) && Inv(c, w) && Enabled(c, w, Start(i, low)) && StepWatched(c, w, Start(i, low))
    ensures Inv(c, Next(c, w, Start(i, low)))
  {
    var h := w.hosts[i];
    var h' := h.(node := Restart(c.rule, h.node, low));
    StartLocal(c, i, h, low);
    assert BookInv(c, Put(w, i, h'), i) by {
      assert BookInv(c, w, i) && DiskInv(h.node);
      assert FinalHashes(Put(w, i, h')) == FinalHashes(w);
    }
    PutKeeps(c, w, i, h');
  }

  // ---- Votes and certificates ----

  /** What a vote handled by process `i` may be: signed by its sender, or the process's own
  vote for its current tip while it runs cleanly. */
  ghost predicate Admitted(c: Config, w: World, i: Validator, v: Vote)
    requires i in w.hosts
  {
    || Authentic(c, w, v)
    || (w.hosts[i].node.clean && v == OwnVote(i, w.hosts[i].node.book.tip))
  }

  /** The node after one vote: only the vote book and the casting phase move. */
  ghost predicate VoteMoved(c: Config, n: Node, n': Node, v: Vote, disk: Disk)
    requires 0 < c.rule.den
  {
    && n' == n.(book := HandleVote(c.rule, n.book, v, true, disk).0, phase := n'.phase)
    && (n'.phase == n.phase || n'.phase.Idle? || (n.phase.Accepted? && n'.phase == Counted(n.phase.block)))
  }

  lemma VotersCountable(c: Config, w: World, i: Validator, v: Vote, disk: Disk, h: Hash, q: Validator)
    requires 0 < c.rule.den && i in w.hosts && w.hosts[i].node.up && BookInv(c, w, i) && Admitted(c, w, i, v)
    requires v.validator in c.rule.committee
    requires q in VotersOf(w.hosts[i].node.book, h) + (if h == v.hash then {v.validator} else {})
    ensures Countable(c, w, i, q, h)
  {
    if q in VotersOf(w.hosts[i].node.book, h) {
      assert h in w.hosts[i].node.book.votes;
    }
  }

  /** The votes and staged votes after one vote are again accounted for. */
  lemma VoteBookKeeps(c: Config, w: World, i: Validator, v: Vote, disk: Disk, n': Node)
    requires 0 < c.rule.den && i in w.hosts && w.hosts[i].node.up && BookInv(c, w, i) && Admitted(c, w, i, v)
    requires VoteMoved(c, w.hosts[i].node, n', v, disk)
    ensures forall h, q :: h in n'.book.votes && q in n'.book.votes[h] ==> Countable(c, w, i, q, h)
    ensures forall u :: u in n'.book.staged ==> u.validator in c.rule.committee && Authentic(c, w, u)
  {
    var s := w.hosts[i].node.book;
    HandleVoteEffect(c.rule, s, v, true, disk);
    forall h, q | h in n'.book.votes && q in n'.book.votes[h]
      ensures Countable(c, w, i, q, h)
    {
      if v.validator in c.rule.committee {
        VotersCountable(c, w, i, v, disk, h, q);
      } else {
        assert q in VotersOf(s, h);
        assert h in s.votes;
      }
    }
  }

  lemma VoteLocal(i: Validator, h: Host, n': Node)
    requires LocalInv(i, h)
    requires n' == h.node.(book := n'.book, phase := n'.phase)
    requires n'.phase == h.node.phase || n'.phase.Idle? || (h.node.phase.Accepted? && n'.phase == Counted(h.node.phase.block))
    requires n'.book.tip == h.node.book.tip && n'.book.byHeight == h.node.book.byHeight
    requires n'.book.cert == h.node.book.cert
    ensures LocalInv(i, h.(node := n'))
  {
    assert Marks(h.(node := n')) == Marks(h);
  }

  lemma VoteWithoutCert(c: Config, w: World, i: Validator, v: Vote, disk: Disk, n': Node)
    requires ValidConfig(c) && Inv(c, w) && i in w.hosts && w.hosts[i].node.up && Admitted(c, w, i, v)
    requires VoteMoved(c, w.hosts[i].node, n', v, disk)
    requires n'.book.cert == w.hosts[i].node.book.cert
    ensures Inv(c, Record(w, i, n'))
  {
    var h := w.hosts[i];
    var w' := Put(w, i, h.(node := n'));
    HandleVoteEffect(c.rule, h.node.book, v, true, disk);
    VoteLocal(i, h, n');
    VoteBookKeeps(c, w, i, v, disk, n');
    assert BookInv(c, w', i) by {
      assert FinalHashes(w') == FinalHashes(w);
      forall x, q | x in n'.book.votes && q in n'.book.votes[x] ensures Countable(c, w', i, q, x) {
        assert Countable(c, w, i, q, x);
      }
      forall k | k in n'.book.finalized
        ensures n'.book.finalized[k] in FinalHashes(w')
        ensures n'.book.finalized[k].Digest? && n'.book.finalized[k].block.height == k
      {
        FinalizedCase(c, h.node.book, v, disk, k);
      }
    }
    PutKeeps(c, w, i, h.(node := n'));
  }

  /** A newly finalized height is the one of the voted, retained block, whose certificate is saved. */
  lemma FinalizedCase(c: Config, s: VoteBook, v: Vote, disk: Disk, k: nat)
    requires 0 < c.rule.den
    requires k in HandleVote(c.rule, s, v, true, disk).0.finalized
    ensures
      var s' := HandleVote(c.rule, s, v, true, disk).0;
      || (k in s.finalized && s'.finalized[k] == s.finalized[k])
      || (&& k == v.height && s'.finalized[k] == v.hash && v.hash.Digest? && v.hash.block.height == k
          && s'.cert.Some? && s'.cert.value.hash == v.hash)
  {
  }

  /** All marks of every honest process are pairwise related. */
  ghost predicate OneChainEach(w: World) {
    forall i :: i in w.hosts ==>
      forall x, y :: x in Marks(w.hosts[i]) && y in Marks(w.hosts[i]) ==> Comparable(x, y)
  }

  /** The situation in which process `i` saves the certificate of `v`. */
  ghost predicate Certifying(c: Config, w: World, i: Validator, v: Vote, n': Node)
    requires 0 < c.rule.den && i in w.hosts
  {
    var n := w.hosts[i].node;
    && n.up
    && n' == n.(book := n'.book, phase := n'.phase)
    && (n'.phase == n.phase || n'.phase.Idle? || (n.phase.Accepted? && n'.phase == Counted(n.phase.block)))
    && n'.book.tip == n.book.tip && n'.book.byHeight == n.book.byHeight
    && n'.book.cert.Some? && n'.book.cert != n.book.cert
    && n'.book.cert.value.hash == v.hash && n'.book.cert.value.height == v.height
    && Numbered(v.hash) && v.hash.block.height == v.height
    && CertAdmissible(n.book.cert, v.hash, v.height)
    && n'.book.cert.value.voters <= c.rule.committee
    && Needed(c.rule) <= |n'.book.cert.value.voters|
    && forall q :: q in n'.book.cert.value.voters ==> Countable(c, w, i, q, v.hash)
  }

  /** The certified block joins the process's own marks without breaking its chain. */
  lemma OwnMarkFits(c: Config, w: World, i: Validator, v: Vote, n': Node)
    requires ValidConfig(c) && Inv(c, w) && i in w.hosts && Certifying(c, w, i, v, n')
    requires i in n'.book.cert.value.voters
    ensures forall x :: x in Marks(w.hosts[i]) ==> Comparable(v.hash, x) && Comparable(x, v.hash)
    ensures w.hosts[i].node.clean ==> Ancestor(v.hash, Digest(w.hosts[i].node.book.tip))
  {
    var h := w.hosts[i];
    assert LocalInv(i, h);
    assert Countable(c, w, i, i, v.hash);
    if v.hash !in h.signed {
      forall x | x in Marks(h) ensures Comparable(v.hash, x) && Comparable(x, v.hash) {
        AncestorsComparable(v.hash, x, Digest(h.node.book.tip));
      }
    } else {
      assert v.hash in Marks(h);
    }
  }

  /** The marks of a process with at most the certified block added. */
  lemma CertMarks(w: World, i: Validator, n': Node, j: Validator)
    requires i in w.hosts && j in w.hosts && n'.saved == w.hosts[i].node.saved
    requires n'.book.cert.Some? && n'.book.cert != w.hosts[i].node.book.cert
    ensures
      var cert := n'.book.cert.value;
      j in Record(w, i, n').hosts &&
      Marks(Record(w, i, n').hosts[j]) == Marks(w.hosts[j]) + if j == i && i in cert.voters then {cert.hash} else {}
  {
    var cert := n'.book.cert.value;
    if j == i && i in cert.voters {
      assert Record(w, i, n').hosts[j].own == w.hosts[j].own + {cert.hash};
    }
  }

  lemma CertOneChain(c: Config, w: World, i: Validator, v: Vote, n': Node)
    requires ValidConfig(c) && Inv(c, w) && i in w.hosts && Certifying(c, w, i, v, n')
    ensures OneChainEach(Record(w, i, n'))
  {
    var w' := Record(w, i, n');
    if i in n'.book.cert.value.voters {
      OwnMarkFits(c, w, i, v, n');
    }
    forall j, x, y | j in w'.hosts && x in Marks(w'.hosts[j]) && y in Marks(w'.hosts[j])
      ensures Comparable(x, y)
    {
      assert MarkInv(w.hosts[j]) by {
        assert LocalInv(j, w.hosts[j]);
      }
      CertMarks(w, i, n', j);
    }
  }

  lemma CertFinal(c: Config, w: World, i: Validator, v: Vote, n': Node)
    requires ValidConfig(c) && Inv(c, w) && i in w.hosts && Certifying(c, w, i, v, n')
    ensures FinalInv(c, Record(w, i, n'))
  {
    var w' := Record(w, i, n');
    var f' := (v.hash, n'.book.cert.value.voters);
    forall f, q | f in w'.finals && q in f.1 - c.faulty
      ensures q in w'.hosts && (f.0 in w'.hosts[q].signed || f.0 in w'.hosts[q].own)
    {
      if f == f' {
        assert Countable(c, w, i, q, v.hash);
      } else {
        assert f in w.finals;
      }
    }
  }

  /** By agreement, every block this process certified is an ancestor of its newest certificate. */
  lemma CertCoversOwn(c: Config, w: World, i: Validator, v: Vote, n': Node, u: Hash)
    requires ValidConfig(c) && Inv(c, w) && i in w.hosts && Certifying(c, w, i, v, n')
    requires u in Record(w, i, n').hosts[i].own
    ensures Numbered(u) && Ancestor(u, v.hash)
  {
    var w' := Record(w, i, n');
    if u != v.hash {
      assert u in w.hosts[i].own && LocalInv(i, w.hosts[i]) && BookInv(c, w, i);
      AncestorHeight(u, w.hosts[i].node.book.cert.value.hash);
      assert u in FinalHashes(w);
      var f :| f in w.finals && f.0 == u;
      CertFinal(c, w, i, v, n');
      CertOneChain(c, w, i, v, n');
      Agreement(c, w', f, (v.hash, n'.book.cert.value.voters));
    }
  }

  lemma CertLocal(c: Config, w: World, i: Validator, v: Vote, n': Node)
    requires ValidConfig(c) && Inv(c, w) && i in w.hosts && Certifying(c, w, i, v, n')
    ensures LocalInv(i, Record(w, i, n').hosts[i])
  {
    var h, h' := w.hosts[i], Record(w, i, n').hosts[i];
    assert LocalInv(i, h);
    assert DiskInv(n') && MemoryInv(i, n');
    assert MarkInv(h') by {
      forall u | u in h'.own ensures Numbered(u) && Ancestor(u, v.hash) {
        CertCoversOwn(c, w, i, v, n', u);
      }
      CertOneChain(c, w, i, v, n');
      if n'.clean && i in n'.book.cert.value.voters {
        OwnMarkFits(c, w, i, v, n');
      }
      assert forall x :: x in Marks(h') ==> x in Marks(h) || (x == v.hash && i in n'.book.cert.value.voters);
    }
  }

  lemma VoteWithCert(c: Config, w: World, i: Validator, v: Vote, disk: Disk, n': Node)
    requires ValidConfig(c) && Inv(c, w) && i in w.hosts && w.hosts[i].node.up && Admitted(c, w, i, v)
    requires VoteMoved(c, w.hosts[i].node, n', v, disk)
    requires n'.book.cert != w.hosts[i].node.book.cert
    ensures Inv(c, Record(w, i, n'))
  {
    var h := w.hosts[i];
    var w' := Record(w, i, n');
    HandleVoteEffect(c.rule, h.node.book, v, true, disk);
    forall q | q in n'.book.cert.value.voters ensures Countable(c, w, i, q, v.hash) {
      VotersCountable(c, w, i, v, disk, v.hash, q);
    }
    assert Certifying(c, w, i, v, n') by {
      assert LocalInv(i, h);
    }
    CertFinal(c, w, i, v, n');
    CertLocal(c, w, i, v, n');
    assert BookInv(c, w, i);
    CertBook(c, w, i, v, disk, n');
    Frame(c, w, w', i);
  }

  lemma CertBook(c: Config, w: World, i: Validator, v: Vote, disk: Disk, n': Node)
    requires 0 < c.rule.den && i in w.hosts && w.hosts[i].node.up && BookInv(c, w, i) && Admitted(c, w, i, v)
    requires VoteMoved(c, w.hosts[i].node, n', v, disk)
    requires n'.book.cert.Some? && n'.book.cert != w.hosts[i].node.book.cert
    requires n'.book.cert.value.hash == v.hash && n'.book.tip == w.hosts[i].node.book.tip
    ensures BookInv(c, Record(w, i, n'), i)
  {
    var w' := Record(w, i, n');
    assert FinalHashes(w') == FinalHashes(w) + {v.hash};
    VoteBookKeeps(c, w, i, v, disk, n');
    forall x, q | x in n'.book.votes && q in n'.book.votes[x] ensures Countable(c, w', i, q, x) {
      CountableGrows(c, w, w', i, q, x);
    }
    CertFinalized(c, w, i, v, disk, n');
    assert w'.hosts[i].own <= FinalHashes(w');
  }

  lemma CountableGrows(c: Config, w: World, w': World, i: Validator, q: Validator, x: Hash)
    requires Countable(c, w, i, q, x) && i in w.hosts && i in w'.hosts
    requires q in w.hosts ==> q in w'.hosts && w.hosts[q].signed <= w'.hosts[q].signed
    requires w'.hosts[i].node.clean == w.hosts[i].node.clean && w'.hosts[i].node.book.tip == w.hosts[i].node.book.tip
    ensures Countable(c, w', i, q, x)
  {
  }

  lemma CertFinalized(c: Config, w: World, i: Validator, v: Vote, disk: Disk, n': Node)
    requires 0 < c.rule.den && i in w.hosts && w.hosts[i].node.up && BookInv(c, w, i)
    requires VoteMoved(c, w.hosts[i].node, n', v, disk)
    ensures forall k :: k in n'.book.finalized ==>
      && (n'.book.finalized[k] in FinalHashes(w) || n'.book.finalized[k] == v.hash)
      && n'.book.finalized[k].Digest? && n'.book.finalized[k].block.height == k
  {
    forall k | k in n'.book.finalized
      ensures n'.book.finalized[k] in FinalHashes(w) || n'.book.finalized[k] == v.hash
      ensures n'.book.finalized[k].Digest? && n'.book.finalized[k].block.height == k
    {
      FinalizedCase(c, w.hosts[i].node.book, v, disk, k);
    }
  }

  lemma VoteKeeps(c: Config, w: World, s: Step)
    requires ValidConfig(c) && Inv(c, w) && Enabled(c, w, s) && (s.CastCount? || s.Deliver?)
    ensures Inv(c, Next(c, w, s))
  {
    var n := w.hosts[s.i].node;
    assert LocalInv(s.i, w.hosts[s.i]);
    var v := if s.CastCount? then OwnVote(s.i, n.phase.block) else s.v;
    var n' := if s.CastCount? then CountOwn(c.rule, n, s.i, s.disk)
              else n.(book := HandleVote(c.rule, n.book, v, true, s.disk).0);
    assert VoteMoved(c, n, n', v, s.disk);
    assert Admitted(c, w, s.i, v);
    if n'.book.cert == n.book.cert {
      VoteWithoutCert(c, w, s.i, v, s.disk, n');
    } else {
      VoteWithCert(c, w, s.i, v, s.disk, n');
    }
  }

  lemma StepKeeps(c: Config, w: World, s: Step)
    requires ValidConfig(c) && Inv(c, w) && Enabled(c, w, s) && StepWatched(c, w, s)
    ensures Inv(c, Next(c, w, s))
  {
    match s
    case AcceptBlock(i, b) => AcceptKeeps(c, w, i, b);
    case PersistFailure(i, b, persisted) => PersistFailureKeeps(c, w, i, b, persisted);
    case CastCount(_, _) => VoteKeeps(c, w, s);
    case CastSkip(_) => QuietKeeps(c, w, s);
    case CastSave(i, disk) => CastSaveKeeps(c, w, i, disk);
    case CastRelease(i) => CastReleaseKeeps(c, w, i);
    case Deliver(_, _, _) => VoteKeeps(c, w, s);
    case DropStaged(_) => QuietKeeps(c, w, s);
    case RelayVote(i) => RelayKeeps(c, w, i);
    case Stop(_) => QuietKeeps(c, w, s);
    case RepairTip(i, k) => RepairKeeps(c, w, i, k);
    case PruneBodies(_, _) => QuietKeeps(c, w, s);
    case Start(i, low) => StartKeeps(c, w, i, low);
  }

  lemma {:induction false} RunKeeps(c: Config, ids: set<Validator>, steps: seq<Step>)
    requires ValidConfig(c) && Run(c, ids, steps).Some? && Watched(c, ids, steps)
    ensures Inv(c, Run(c, ids, steps).value)
  {
    if |steps| == 0 {
      assert Inv(c, Init(c, ids - c.faulty));
    } else {
      RunKeeps(c, ids, steps[..|steps| - 1]);
      StepKeeps(c, Run(c, ids, steps[..|steps| - 1]).value, steps[|steps| - 1]);
    }
  }

  // ---- Main results, over every watched run ----

  /** No two honest processes finalize unrelated blocks: of any two finalized blocks the lower
  is a hash-linked ancestor of the higher, and one height has one finalized block. */
  lemma FinalizedChainIsUnique(c: Config, ids: set<Validator>, steps: seq<Step>,
                               i: Validator, j: Validator, k: nat, m: nat)
    requires ValidConfig(c) && Run(c, ids, steps).Some? && Watched(c, ids, steps)
    requires
      var w := Run(c, ids, steps).value;
      && i in w.hosts && j in w.hosts && w.hosts[i].node.up && w.hosts[j].node.up
      && k in w.hosts[i].node.book.finalized && m in w.hosts[j].node.book.finalized && k <= m
    ensures
      var w := Run(c, ids, steps).value;
      var a, b := w.hosts[i].node.book.finalized[k], w.hosts[j].node.book.finalized[m];
      Ancestor(a, b) && (k == m ==> a == b)
  {
    var w := Run(c, ids, steps).value;
    RunKeeps(c, ids, steps);
    assert BookInv(c, w, i) && BookInv(c, w, j);
    var a, b := w.hosts[i].node.book.finalized[k], w.hosts[j].node.book.finalized[m];
    var f :| f in w.finals && f.0 == a;
    var g :| g in w.finals && g.0 == b;
    CertificatesAgree(c, ids, steps, f, g);
  }

  /** The same for every certificate that ever reached a disk during the run. */
  lemma CertificatesAgree(c: Config, ids: set<Validator>, steps: seq<Step>,
                          f: (Hash, set<Validator>), g: (Hash, set<Validator>))
    requires ValidConfig(c) && Run(c, ids, steps).Some? && Watched(c, ids, steps)
    requires f in Run(c, ids, steps).value.finals && g in Run(c, ids, steps).value.finals
    ensures Numbered(f.0) && Numbered(g.0)
    ensures f.0.block.height <= g.0.block.height ==> Ancestor(f.0, g.0)
    ensures f.0.block.height == g.0.block.height ==> f.0 == g.0
  {
    var w := Run(c, ids, steps).value;
    RunKeeps(c, ids, steps);
    assert forall i :: i in w.hosts ==> LocalInv(i, w.hosts[i]);
    Agreement(c, w, f, g);
    if f.0.block.height == g.0.block.height {
      AncestorHeight(f.0, g.0);
    }
  }
}
