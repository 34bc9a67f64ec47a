/** The protocol makes progress: a concrete run in which a validator starts, accepts a block,
finalizes it and releases its vote, so the safety theorems speak about runs that exist. */
module FinalityRun {
  import opened Ledger
  import opened Votes
  import opened Process
  import opened Finality
  import opened Options

  const GENESIS: Block := Block(0, Zero, 0)
  const FIRST: Block := Block(1, Digest(GENESIS), 0)
  const SOLO: Config := Config(Rule({0}, 2, 3), {}, GENESIS, 100)

  lemma RunSnoc(steps: seq<Step>, w: World, s: Step)
    requires Run(SOLO, {0}, steps) == Some(w) && Enabled(SOLO, w, s)
    ensures Run(SOLO, {0}, steps + [s]) == Some(Next(SOLO, w, s))
  {
    assert (steps + [s])[..|steps + [s]| - 1] == steps;
  }

  function Solo(n: Node, signed: set<Hash>, own: set<Hash>, finals: set<(Hash, set<Validator>)>): World {
    World(map[0 := Host(n, signed, own)], finals)
  }

  lemma Begins()
    ensures ValidConfig(SOLO) && Run(SOLO, {0}, []) == Some(Solo(InitNode(GENESIS), {}, {}, {}))
  {
    var ids: set<Validator> := {0};
    assert ids - SOLO.faulty == ids && SOLO.faulty * ids == {};
    assert Init(SOLO, ids).hosts == map[0 := Host(InitNode(GENESIS), {}, {})];
  }

  lemma Starts() returns (n: Node)
    ensures Run(SOLO, {0}, [Start(0, 0)]) == Some(Solo(n, {}, {}, {}))
    ensures n.up && !n.halted && n.phase.Idle? && n.book.tip == GENESIS && n.saved.None? && n.book.cert.None?
    ensures n.book.votes == map[] && n.book.finalized == map[] && n.book.pending == map[]
  {
    Begins();
    var w := Solo(InitNode(GENESIS), {}, {}, {});
    n := Restart(SOLO.rule, InitNode(GENESIS), 0);
    RunSnoc([], w, Start(0, 0));
    assert [] + [Start(0, 0)] == [Start(0, 0)];
    assert w.hosts[0 := w.hosts[0].(node := n)] == map[0 := Host(n, {}, {})];
  }

  lemma Accepts() returns (n: Node)
    ensures Run(SOLO, {0}, [Start(0, 0), AcceptBlock(0, FIRST)]) == Some(Solo(n, {}, {}, {}))
    ensures n.up && !n.halted && n.phase == Accepted(FIRST) && n.saved.None? && n.book.cert.None?
    ensures 1 in n.book.byHeight && n.book.byHeight[1] == FIRST
    ensures n.book.votes == map[] && n.book.finalized == map[] && n.book.pending == map[]
  {
    var m := Starts();
    var w := Solo(m, {}, {}, {});
    n := Commit(m, FIRST, SOLO.window);
    RunSnoc([Start(0, 0)], w, AcceptBlock(0, FIRST));
    assert [Start(0, 0)] + [AcceptBlock(0, FIRST)] == [Start(0, 0), AcceptBlock(0, FIRST)];
    assert w.hosts[0 := w.hosts[0].(node := n)] == map[0 := Host(n, {}, {})];
  }

  lemma Counts(s: VoteBook)
    requires 1 in s.byHeight && s.byHeight[1] == FIRST && s.votes == map[] && s.finalized == map[] && s.pending == map[] && s.cert.None?
    ensures
      var (book, ok) := HandleVote(SOLO.rule, s, OwnVote(0, FIRST), true, Durable);
      ok && book.cert == Some(Cert(Digest(FIRST), 1, {0})) && book.finalized == map[1 := Digest(FIRST)]
  {
    assert VotersOf(s, Digest(FIRST)) + {0} == {0};
    assert Needed(SOLO.rule) == 1;
  }

  lemma Finalizes() returns (n: Node, w: World)
    ensures Run(SOLO, {0}, [Start(0, 0), AcceptBlock(0, FIRST), CastCount(0, Durable)]) == Some(w)
    ensures w == Solo(n, {}, {Digest(FIRST)}, {(Digest(FIRST), {0})})
    ensures n.up && !n.halted && n.phase == Counted(FIRST) && n.saved.None? && n.book.finalized == map[1 := Digest(FIRST)]
  {
    var m := Accepts();
    var before := Solo(m, {}, {}, {});
    Counts(m.book);
    n := CountOwn(SOLO.rule, m, 0, Durable);
    w := Next(SOLO, before, CastCount(0, Durable));
    RunSnoc([Start(0, 0), AcceptBlock(0, FIRST)], before, CastCount(0, Durable));
    assert [Start(0, 0), AcceptBlock(0, FIRST)] + [CastCount(0, Durable)] == [Start(0, 0), AcceptBlock(0, FIRST), CastCount(0, Durable)];
    assert {} + {Digest(FIRST)} == {Digest(FIRST)};
    assert w.hosts == map[0 := Host(n, {}, {Digest(FIRST)})];
  }

  /** A run that finalizes the first block and releases a vote for it. */
  lemma SomeRunFinalizes() returns (steps: seq<Step>)
    ensures ValidConfig(SOLO) && Run(SOLO, {0}, steps).Some? && forall s :: s in steps ==> !s.RepairTip?
    ensures
      var w := Run(SOLO, {0}, steps).value;
      && 0 in w.hosts && w.hosts[0].node.up && 1 in w.hosts[0].node.book.finalized
      && w.hosts[0].node.book.finalized[1] == Digest(FIRST) && Digest(FIRST) in w.hosts[0].signed
  {
    Begins();
    var n, w := Finalizes();
    steps := [Start(0, 0), AcceptBlock(0, FIRST), CastCount(0, Durable)];
    RunSnoc(steps, w, CastSave(0, Durable));
    var saved := Next(SOLO, w, CastSave(0, Durable));
    steps := steps + [CastSave(0, Durable)];
    assert forall s :: s in steps ==> !s.RepairTip?;
    assert saved.hosts[0].node.phase == Saved(FIRST);
    RunSnoc(steps, saved, CastRelease(0));
    steps := steps + [CastRelease(0)];
  }
}
