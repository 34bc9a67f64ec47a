/** Signing safety of a single honest validator: over every run of accepted blocks, failed writes,
crashes, tip repairs and restarts, whatever the committee, the quorum rule and the other
validators do, the votes it releases lie on one chain. */
module Signing {
  import opened Ledger
  import opened Options
  import opened Votes
  import opened Process
  import opened Finality

  // ---- The invariant of one process ----

  /** Everything released is an ancestor of the saved vote. */
  ghost predicate ReleasedInv(h: Host) {
    forall x :: x in h.signed ==> x.Digest? && h.node.saved.Some? && Ancestor(x, h.node.saved.value.hash)
  }

  /** A process that started clean extends its saved vote. */
  ghost predicate SavedInv(n: Node) {
    n.up && n.clean && n.saved.Some? ==> Ancestor(n.saved.value.hash, Digest(n.book.tip))
  }

  ghost predicate SignInv(i: Validator, h: Host) {
    DiskInv(h.node) && MemoryInv(i, h.node) && ReleasedInv(h) && SavedInv(h.node)
  }

  // ---- Every step keeps it ----

  lemma AcceptSigns(i: Validator, h: Host, b: Block, window: nat)
    requires SignInv(i, h) && h.node.up && !h.node.halted && Extends(h.node, b)
    ensures SignInv(i, h.(node := Commit(h.node, b, window)))
  {
    LinkedChild(h.node, b);
  }

  lemma PersistFailureSigns(i: Validator, h: Host, b: Block, persisted: bool)
    requires SignInv(i, h) && h.node.up && !h.node.halted && h.node.phase.Idle? && Extends(h.node, b)
    ensures SignInv(i, h.(node := CommitFailed(h.node, b, persisted)))
  {
    LinkedChild(h.node, b);
  }

  lemma SaveSigns(i: Validator, h: Host, disk: Disk)
    requires SignInv(i, h) && h.node.phase.Counted?
    ensures SignInv(i, h.(node := SaveOwn(h.node, i, disk)))
  {
    var n := h.node;
    forall x | n.saved.Some? && Ancestor(x, n.saved.value.hash) ensures Ancestor(x, Digest(n.book.tip)) {
      AncestorTransitive(x, n.saved.value.hash, Digest(n.book.tip));
    }
  }

  lemma ReleaseSigns(i: Validator, h: Host)
    requires SignInv(i, h) && h.node.phase.Saved?
    ensures SignInv(i, h.(node := Release(h.node, i), signed := h.signed + {Digest(h.node.phase.block)}))
  {
  }

  lemma RelaySigns(i: Validator, h: Host)
    requires SignInv(i, h) && h.node.up && h.node.phase.Idle?
    ensures SignInv(i, RelayHost(h))
  {
  }

  lemma RepairSigns(i: Validator, h: Host, k: nat)
    requires SignInv(i, h) && !h.node.up && Repairable(h.node, k)
    ensures SignInv(i, h.(node := Repair(h.node, k)))
  {
  }

  /** A clean start has walked from its tip to the saved vote, wherever a repair put the tip. */
  lemma StartSigns(r: Rule, i: Validator, h: Host, low: nat)
    requires 0 < r.den && SignInv(i, h)
    ensures SignInv(i, h.(node := Restart(r, h.node, low)))
  {
    var n, n' := h.node, Restart(r, h.node, low);
    if n'.clean && n.saved.Some? {
      WalkSound(n.index, n.bodies, Digest(n.dtip), n.dtip.height, n.saved.value, n.saved.value.height);
    }
    assert DiskInv(n') && MemoryInv(i, n');
  }

  lemma VoteSigns(c: Config, i: Validator, h: Host, v: Vote, disk: Disk, n': Node)
    requires 0 < c.rule.den && SignInv(i, h) && h.node.up && VoteMoved(c, h.node, n', v, disk)
    ensures SignInv(i, h.(node := n'))
  {
    HandleVoteEffect(c.rule, h.node.book, v, true, disk);
  }

  // ---- Every run ----

  /** The host after a step of its own, up to what it counted itself. */
  lemma StepSigns(c: Config, w: World, s: Step)
    requires 0 < c.rule.den && Enabled(c, w, s) && SignInv(s.i, w.hosts[s.i])
    ensures s.i in Next(c, w, s).hosts && SignInv(s.i, Next(c, w, s).hosts[s.i])
  {
    var h := w.hosts[s.i];
    match s
    case AcceptBlock(i, b) => AcceptSigns(i, h, b, c.window);
    case PersistFailure(i, b, persisted) => PersistFailureSigns(i, h, b, persisted);
    case CastCount(i, disk) => VoteSigns(c, i, h, OwnVote(i, h.node.phase.block), disk, CountOwn(c.rule, h.node, i, disk));
    case CastSkip(i) =>
    case CastSave(i, disk) => SaveSigns(i, h, disk);
    case CastRelease(i) => ReleaseSigns(i, h);
    case Deliver(i, v, disk) => VoteSigns(c, i, h, v, disk, h.node.(book := HandleVote(c.rule, h.node.book, v, true, disk).0));
    case DropStaged(_) =>
    case RelayVote(i) => RelaySigns(i, h);
    case Stop(_) =>
    case RepairTip(i, k) => RepairSigns(i, h, k);
    case PruneBodies(_, _) =>
    case Start(i, low) => StartSigns(c.rule, i, h, low);
  }

  /** A step of one process leaves the others alone. */
  lemma StepFrames(c: Config, w: World, s: Step, j: Validator)
    requires 0 < c.rule.den && Enabled(c, w, s) && j != s.i
    ensures j in Next(c, w, s).hosts <==> j in w.hosts
    ensures j in w.hosts ==> Next(c, w, s).hosts[j] == w.hosts[j]
  {
  }

  lemma {:induction false} RunSigns(c: Config, ids: set<Validator>, steps: seq<Step>, i: Validator)
    requires 0 < c.rule.den && c.genesis.height == 0 && c.genesis.prev == Zero
    requires Run(c, ids, steps).Some? && i in Run(c, ids, steps).value.hosts
    ensures SignInv(i, Run(c, ids, steps).value.hosts[i])
  {
    if |steps| > 0 {
      var init, s := steps[..|steps| - 1], steps[|steps| - 1];
      var w := Run(c, ids, init).value;
      if i == s.i {
        RunSigns(c, ids, init, i);
        StepSigns(c, w, s);
      } else {
        StepFrames(c, w, s, i);
        RunSigns(c, ids, init, i);
      }
    }
  }

  /** An honest validator's released votes lie on one chain: never two blocks at one height. */
  lemma NoDoubleVote(c: Config, ids: set<Validator>, steps: seq<Step>, i: Validator, x: Hash, y: Hash)
    requires 0 < c.rule.den && c.genesis.height == 0 && c.genesis.prev == Zero
    requires Run(c, ids, steps).Some? && i in Run(c, ids, steps).value.hosts
    requires x in Run(c, ids, steps).value.hosts[i].signed && y in Run(c, ids, steps).value.hosts[i].signed
    ensures Numbered(x) && Numbered(y)
    ensures x.block.height <= y.block.height ==> Ancestor(x, y)
    ensures x.block.height == y.block.height ==> x == y
  {
    RunSigns(c, ids, steps, i);
    var s := Run(c, ids, steps).value.hosts[i].node.saved.value.hash;
    AncestorHeight(x, s);
    AncestorHeight(y, s);
    AncestorsComparable(x, y, s);
    if x.block.height <= y.block.height {
      LowerIsAncestor(x, y);
      AncestorHeight(x, y);
    }
  }
}
