/** Tip repairs and finality: repairs that only lower the tip keep every start watched, and a
repair that raises it over a fork leads, in a concrete run, to two unrelated finalized blocks. */
module FinalityRepair {
  import opened Ledger
  import opened Votes
  import opened Process
  import opened Finality
  import opened FinalityRun
  import opened Options

  // ---- Repairs that only lower the tip ----

  /** Without a saved vote every indexed block up to the tip is on the chain of the tip. */
  ghost predicate OnChain(n: Node) {
    n.saved.None? ==> forall k :: k in n.index && k <= n.dtip.height ==> Ancestor(n.index[k], Digest(n.dtip))
  }

  predicate Lowers(w: World, s: Step) {
    s.RepairTip? && s.i in w.hosts && w.hosts[s.i].node.saved.None? ==> s.k <= w.hosts[s.i].node.dtip.height
  }

  ghost predicate AllOnChain(w: World) {
    forall i :: i in w.hosts ==> OnChain(w.hosts[i].node)
  }

  /** Until its first saved vote no repair raises a process's tip. */
  predicate Lowering(c: Config, ids: set<Validator>, steps: seq<Step>)
    requires 0 < c.rule.den
  {
    |steps| > 0 ==>
      && Lowering(c, ids, steps[..|steps| - 1]) && Run(c, ids, steps[..|steps| - 1]).Some?
      && Lowers(Run(c, ids, steps[..|steps| - 1]).value, steps[|steps| - 1])
  }

  lemma PersistOnChain(n: Node, b: Block)
    requires OnChain(n) && Extends(n, b) && n.book.tip == n.dtip
    ensures OnChain(Persist(n, b))
  {
  }

  lemma RepairOnChain(n: Node, k: nat)
    requires DiskInv(n) && OnChain(n) && Repairable(n, k) && (n.saved.None? ==> k <= n.dtip.height)
    ensures OnChain(Repair(n, k))
  {
    if n.saved.None? {
      forall j | j in n.index && j <= k ensures Ancestor(n.index[j], n.index[k]) {
        AncestorsComparable(n.index[j], n.index[k], Digest(n.dtip));
        LowerIsAncestor(n.index[j], n.index[k]);
      }
    }
  }

  /** Everything but accepting a block and repairing the tip leaves index and tip alone. */
  lemma StepIndex(c: Config, w: World, s: Step)
    requires 0 < c.rule.den && Enabled(c, w, s) && !s.AcceptBlock? && !s.PersistFailure? && !s.RepairTip?
    ensures
      var n, n' := w.hosts[s.i].node, Next(c, w, s).hosts[s.i].node;
      n'.index == n.index && n'.dtip == n.dtip && (n'.saved.None? ==> n.saved.None?)
  {
  }

  lemma StepHosts(c: Config, w: World, s: Step)
    requires 0 < c.rule.den && Enabled(c, w, s)
    ensures Next(c, w, s).hosts == w.hosts[s.i := Next(c, w, s).hosts[s.i]]
  {
  }

  lemma StepOnChain(c: Config, w: World, s: Step)
    requires 0 < c.rule.den && Inv(c, w) && AllOnChain(w) && Enabled(c, w, s) && Lowers(w, s)
    ensures AllOnChain(Next(c, w, s))
  {
    var n := w.hosts[s.i].node;
    assert LocalInv(s.i, w.hosts[s.i]);
    StepHosts(c, w, s);
    match s
    case AcceptBlock(i, b) => PersistOnChain(n, b);
    case PersistFailure(i, b, persisted) => PersistOnChain(n, b);
    case RepairTip(i, k) => RepairOnChain(n, k);
    case _ => StepIndex(c, w, s);
  }

  lemma OnChainWatched(c: Config, n: Node, low: nat)
    requires 0 < c.rule.den && DiskInv(n) && OnChain(n)
    ensures StartWatched(c, n, low)
  {
    if n.saved.None? && n.book.cert.Some? && Restart(c.rule, n, low).clean {
      CleanStartExact(c.rule, n, low);
      assert n.book.cert.value.height in n.index;
    }
  }

  /** Runs whose repairs only lower the tip until the first saved vote are watched, so all safety
  results hold of them. */
  lemma {:induction false} LoweringIsWatched(c: Config, ids: set<Validator>, steps: seq<Step>)
    requires ValidConfig(c) && Run(c, ids, steps).Some? && Lowering(c, ids, steps)
    ensures Watched(c, ids, steps) && AllOnChain(Run(c, ids, steps).value)
  {
    if |steps| > 0 {
      var init, s := steps[..|steps| - 1], steps[|steps| - 1];
      LoweringIsWatched(c, ids, init);
      RunKeeps(c, ids, init);
      var w := Run(c, ids, init).value;
      assert LocalInv(s.i, w.hosts[s.i]);
      if s.Start? {
        OnChainWatched(c, w.hosts[s.i].node, s.low);
      }
      StepOnChain(c, w, s);
    }
  }

  lemma {:induction false} NoRepairLowers(c: Config, ids: set<Validator>, steps: seq<Step>)
    requires 0 < c.rule.den && Run(c, ids, steps).Some? && forall s :: s in steps ==> !s.RepairTip?
    ensures Lowering(c, ids, steps)
  {
    if |steps| > 0 {
      NoRepairLowers(c, ids, steps[..|steps| - 1]);
    }
  }

  /** Watched runs exist that finalize a block and release a vote for it. */
  lemma WatchedRunFinalizes() returns (steps: seq<Step>)
    ensures ValidConfig(SOLO) && Run(SOLO, {0}, steps).Some? && Watched(SOLO, {0}, steps)
    ensures
      var w := Run(SOLO, {0}, steps).value;
      && 0 in w.hosts && w.hosts[0].node.up && 1 in w.hosts[0].node.book.finalized
      && w.hosts[0].node.book.finalized[1] == Digest(FIRST) && Digest(FIRST) in w.hosts[0].signed
  {
    steps := SomeRunFinalizes();
    NoRepairLowers(SOLO, {0}, steps);
    LoweringIsWatched(SOLO, {0}, steps);
  }

  // ---- A repair that raises the tip over a fork ----

  const LEFT: Block := Block(1, Digest(GENESIS), 2)
  const SECOND: Block := Block(2, Digest(LEFT), 0)
  const THIRD: Block := Block(3, Digest(SECOND), 0)

  /** A sole validator that runs without having saved a vote. */
  predicate Running(n: Node, tip: Block) {
    && n.up && !n.halted && n.phase.Idle? && n.book.tip == tip && n.dtip == tip && n.saved.None?
    && n.book.votes == map[] && n.book.pending == map[]
    && (n.book.cert.Some? ==> n.book.cert.value.height < 3 && 3 !in n.book.finalized)
  }

  predicate Reached(steps: seq<Step>, n: Node, own: set<Hash>, finals: set<(Hash, set<Validator>)>) {
    Run(SOLO, {0}, steps) == Some(Solo(n, {}, own, finals))
  }

  /** A step that replaces the process and records nothing. */
  lemma StepTo(steps: seq<Step>, n: Node, own: set<Hash>, finals: set<(Hash, set<Validator>)>, s: Step, n': Node)
    requires Reached(steps, n, own, finals) && Enabled(SOLO, Solo(n, {}, own, finals), s)
    requires Next(SOLO, Solo(n, {}, own, finals), s) == Put(Solo(n, {}, own, finals), 0, Host(n', {}, own))
    ensures Reached(steps + [s], n', own, finals)
  {
    RunSnoc(steps, Solo(n, {}, own, finals), s);
    assert map[0 := Host(n, {}, own)][0 := Host(n', {}, own)] == map[0 := Host(n', {}, own)];
  }

  /** Accepting a block without voting for it. */
  lemma Grow(steps: seq<Step>, n: Node, own: set<Hash>, finals: set<(Hash, set<Validator>)>, b: Block) returns (more: seq<Step>, n': Node)
    requires Reached(steps, n, own, finals) && Running(n, n.dtip) && Extends(n, b)
    ensures Reached(more, n', own, finals) && Running(n', b)
    ensures n'.index == n.index[b.height := Digest(b)] && n'.bodies == n.bodies + {Digest(b)} && n'.book.cert == n.book.cert
  {
    var accepted := Commit(n, b, SOLO.window);
    StepTo(steps, n, own, finals, AcceptBlock(0, b), accepted);
    n' := accepted.(phase := Idle);
    StepTo(steps + [AcceptBlock(0, b)], accepted, own, finals, CastSkip(0), n');
    more := steps + [AcceptBlock(0, b)] + [CastSkip(0)];
  }

  predicate CertIndexed(n: Node, k: nat) {
    n.book.cert.Some? ==>
      var c := n.book.cert.value;
      c.height < k && c.height in n.index && n.index[c.height] == c.hash && c.hash in n.bodies && c.hash.Digest? && c.hash.block.height == c.height && c.voters == {0}
  }

  /** Stopping, repairing the tip to an indexed height and starting again. */
  lemma Move(steps: seq<Step>, n: Node, own: set<Hash>, finals: set<(Hash, set<Validator>)>, k: nat) returns (more: seq<Step>, n': Node)
    requires Reached(steps, n, own, finals) && n.up && n.saved.None?
    requires Repairable(n, k) && n.index[k].block.height == k && k < 3 && CertIndexed(n, k)
    ensures Reached(more, n', own, finals) && Running(n', n.index[k].block)
    ensures n'.index == n.index && n'.bodies == n.bodies && n'.book.cert == n.book.cert
    ensures n'.book.finalized.Keys == if n.book.cert.Some? then {n.book.cert.value.height} else {}
  {
    var stopped := Crash(n);
    StepTo(steps, n, own, finals, Stop(0), stopped);
    var repaired := Repair(stopped, k);
    StepTo(steps + [Stop(0)], stopped, own, finals, RepairTip(0, k), repaired);
    n' := Restart(SOLO.rule, repaired, 0);
    assert Needed(SOLO.rule) == 1;
    StepTo(steps + [Stop(0)] + [RepairTip(0, k)], repaired, own, finals, Start(0, 0), n');
    more := steps + [Stop(0)] + [RepairTip(0, k)] + [Start(0, 0)];
  }

  lemma CountsAny(s: VoteBook, b: Block)
    requires b.height in s.byHeight && s.byHeight[b.height] == b && b.height <= VOTE_PRUNE_DEPTH
    requires s.votes == map[] && s.pending == map[] && b.height !in s.finalized
    requires s.cert.Some? ==> s.cert.value.height < b.height
    ensures
      var (book, ok) := HandleVote(SOLO.rule, s, OwnVote(0, b), true, Durable);
      ok && book.cert == Some(Cert(Digest(b), b.height, {0}))
  {
    assert VotersOf(s, Digest(b)) + {0} == {0};
    assert Needed(SOLO.rule) == 1;
  }

  /** Accepting a block and counting the own vote for it, without saving that vote. */
  lemma Certify(steps: seq<Step>, n: Node, own: set<Hash>, finals: set<(Hash, set<Validator>)>, b: Block) returns (more: seq<Step>, n': Node)
    requires Reached(steps, n, own, finals) && Running(n, n.dtip) && Extends(n, b) && b.height < 4 && b.height !in n.book.finalized
    requires n.book.cert.Some? ==> n.book.cert.value.height < b.height
    ensures Reached(more, n', own + {Digest(b)}, finals + {(Digest(b), {0})}) && n'.up && n'.saved.None?
    ensures n'.index == n.index[b.height := Digest(b)] && n'.bodies == n.bodies + {Digest(b)}
    ensures n'.book.cert == Some(Cert(Digest(b), b.height, {0}))
  {
    var accepted := Commit(n, b, SOLO.window);
    StepTo(steps, n, own, finals, AcceptBlock(0, b), accepted);
    CountsAny(accepted.book, b);
    n' := CountOwn(SOLO.rule, accepted, 0, Durable);
    var w := Solo(accepted, {}, own, finals);
    RunSnoc(steps + [AcceptBlock(0, b)], w, CastCount(0, Durable));
    assert w.hosts[0 := Host(n', {}, own + {Digest(b)})] == map[0 := Host(n', {}, own + {Digest(b)})];
    more := steps + [AcceptBlock(0, b)] + [CastCount(0, Durable)];
  }

  lemma ForkUnrelated()
    ensures !Comparable(Digest(FIRST), Digest(THIRD))
  {
    assert Digest(THIRD).block.prev == Digest(SECOND) && Digest(SECOND).block.prev == Digest(LEFT) && Digest(LEFT).block.prev == Digest(GENESIS);
    assert !Ancestor(Digest(FIRST), Digest(GENESIS));
    assert !Ancestor(Digest(FIRST), Digest(LEFT));
    assert !Ancestor(Digest(FIRST), Digest(SECOND));
    assert !Ancestor(Digest(THIRD), Digest(GENESIS));
  }

  /** Two blocks accepted without a vote, a repair down, a certificate whose own vote is lost, a
  repair back up over the fork: the process starts clean and certifies an unrelated block. */
  lemma RaisedTipForks() returns (steps: seq<Step>)
    ensures ValidConfig(SOLO) && Run(SOLO, {0}, steps).Some?
    ensures
      var finals := Run(SOLO, {0}, steps).value.finals;
      (Digest(FIRST), {0}) in finals && (Digest(THIRD), {0}) in finals && !Comparable(Digest(FIRST), Digest(THIRD))
  {
    Begins();
    ForkUnrelated();
    var n := Starts();
    steps := [Start(0, 0)];
    StartsIndexed(n);
    steps, n := Grow(steps, n, {}, {}, LEFT);
    steps, n := Grow(steps, n, {}, {}, SECOND);
    steps, n := Move(steps, n, {}, {}, 0);
    steps, n := Certify(steps, n, {}, {}, FIRST);
    steps, n := Move(steps, n, {} + {Digest(FIRST)}, {} + {(Digest(FIRST), {0})}, 2);
    steps, n := Certify(steps, n, {} + {Digest(FIRST)}, {} + {(Digest(FIRST), {0})}, THIRD);
  }

  lemma StartsIndexed(n: Node)
    requires Run(SOLO, {0}, [Start(0, 0)]) == Some(Solo(n, {}, {}, {}))
    ensures n.index == map[0 := Digest(GENESIS)] && n.bodies == {Digest(GENESIS)} && n.dtip == GENESIS
  {
    Begins();
    var w := Solo(InitNode(GENESIS), {}, {}, {});
    RunSnoc([], w, Start(0, 0));
    assert [] + [Start(0, 0)] == [Start(0, 0)];
    assert Solo(n, {}, {}, {}).hosts[0].node == Restart(SOLO.rule, InitNode(GENESIS), 0);
  }
}
