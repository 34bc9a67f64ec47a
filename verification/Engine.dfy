/** The consensus engine's voting half as an object updated in place. Every method is proved
to take exactly the step of the value model in `Process` and `Votes`. */
module Engine {
  import opened Ledger
  import opened Options
  import opened Votes
  import opened Process
  import opened StagedVotes

  /** Of the votes seen so far, `order` lists those for the block and `kept` holds those above it. */
  predicate Sifted(seen: set<Vote>, b: Block, order: seq<Vote>, kept: set<Vote>) {
    && Lists(order, set v | v in seen && v.height == b.height && v.hash == Digest(b))
    && kept == set v | v in seen && b.height < v.height
  }

  lemma SiftOne(seen: set<Vote>, b: Block, order: seq<Vote>, kept: set<Vote>, v: Vote)
    requires Sifted(seen, b, order, kept)
    ensures
      var matches := v.height == b.height && v.hash == Digest(b);
      Sifted(seen + {v}, b, if matches then order + [v] else order, if b.height < v.height then kept + {v} else kept)
  {
    assert (set u | u in order + [v]) == (set u | u in order) + {v};
  }

  lemma SiftedAll(s: VoteBook, b: Block, order: seq<Vote>, kept: set<Vote>)
    requires Sifted(s.staged, b, order, kept)
    ensures Lists(order, Matching(s, b)) && s.(staged := kept) == DropUpTo(s, b)
  {
    assert Matching(s, b) == set v | v in s.staged && v.height == b.height && v.hash == Digest(b);
  }

  class VoteEngine {
    const rule: Rule
    const id: Validator
    // durable store
    var index: map<nat, Hash>
    var bodies: set<Hash>
    var dtip: Block
    var saved: Option<Vote>
    var cert: Option<Cert>
    // memory
    var halted: bool
    var tip: Block
    var byHeight: map<nat, Block>
    var votes: map<Hash, set<Validator>>
    var pending: map<Hash, nat>
    var finalized: map<nat, Hash>
    var staged: set<Vote>
    var latest: Option<Vote>
    /** Votes handed to the network. */
    var outbox: seq<Vote>
    ghost var clean: bool

    ghost predicate Valid()
      reads this
    {
      0 < rule.den
    }

    ghost function Book(): VoteBook
      reads this
    {
      VoteBook(tip, byHeight, votes, pending, finalized, staged, cert)
    }

    ghost function At(phase: Phase): Node
      reads this
    {
      Node(index, bodies, dtip, saved, true, halted, clean, phase, Book(), latest)
    }

    /** The engine a restarted process builds from what is on disk. */
    constructor Open(rule: Rule, id: Validator, index: map<nat, Hash>, bodies: set<Hash>, dtip: Block,
                     saved: Option<Vote>, cert: Option<Cert>, low: nat, ghost was: Node)
      requires 0 < rule.den
      requires was.index == index && was.bodies == bodies && was.dtip == dtip
      requires was.saved == saved && was.book.cert == cert
      ensures Valid() && this.rule == rule && this.id == id && outbox == []
      ensures At(Idle) == Restart(rule, was, low)
    {
      this.rule, this.id, this.index, this.bodies, this.dtip := rule, id, index, bodies, dtip;
      this.saved, this.cert, this.halted, this.clean := saved, cert, false, false;
      this.tip := dtip;
      this.byHeight := Window(index, bodies, dtip, low);
      this.votes, this.pending, this.finalized, this.staged := map[], map[], map[], {};
      this.latest, this.outbox := None, [];
      new;
      RunChecks(was, low);
    }

    /** Both start-up checks on freshly loaded state. */
    method RunChecks(ghost was: Node, ghost low: nat)
      requires Valid() && !halted && latest.None? && Book() == Boot(was, low).book
      requires was.index == index && was.bodies == bodies && was.dtip == dtip && was.saved == saved
      modifies this`halted, this`finalized, this`latest, this`clean
      ensures Valid() && At(Idle) == Restart(rule, was, low)
    {
      var certOk := RestoreFinalityCertificate();
      var voteOk := RestoreLocalFinalityVote();
      clean := certOk && voteOk;
    }

    method RestoreFinalityCertificate() returns (ok: bool)
      requires Valid()
      modifies this`halted, this`finalized
      ensures Valid()
      ensures ok == CertVerified(rule, old(At(Idle)))
      ensures halted == (old(halted) || !ok)
      ensures finalized == if ok && cert.Some? then old(finalized)[cert.value.height := cert.value.hash]
                           else old(finalized)
    {
      if cert.None? {
        return true;
      }
      var c := cert.value;
      ok := c.height <= tip.height;
      if ok && c.height == tip.height {
        ok := Digest(tip) == c.hash;
      } else if ok {
        ok := tip == dtip && c.height in index && index[c.height] == c.hash && c.hash in bodies &&
              c.hash.Digest? && c.hash.block.height == c.height;
      }
      var rest, seen := c.voters, {};
      while ok && rest != {}
        invariant rest !! seen && rest + seen == c.voters
        invariant seen <= rule.committee || !ok
        invariant ok ==> CertOnChain(c)
        invariant !ok ==> !CertOnChain(c) || !(c.voters <= rule.committee)
        decreases |rest|
      {
        var q :| q in rest;
        ok := q in rule.committee;
        rest, seen := rest - {q}, seen + {q};
      }
      ok := ok && |seen| >= Needed(rule);
      assert ok ==> seen == c.voters;
      if ok {
        finalized := finalized[c.height := c.hash];
      } else {
        halted := true;
      }
    }

    ghost predicate CertOnChain(c: Cert)
      reads this
    {
      && c.height <= tip.height
      && if c.height == tip.height then Digest(tip) == c.hash
         else
           && tip == dtip
           && c.height in index && index[c.height] == c.hash
           && c.hash in bodies
           && c.hash.Digest? && c.hash.block.height == c.height
    }

    /** The walk down the durable chain, reading index and body at every height. */
    method VerifyLocalVoteAncestry(v: Vote) returns (ok: bool)
      requires Valid()
      ensures ok == AncestryVerified(At(Idle), v)
    {
      if dtip.height < v.height || tip != dtip {
        return false;
      }
      var hash, height := Digest(dtip), dtip.height;
      while true
        invariant v.height <= height
        invariant Walk(index, bodies, Digest(dtip), dtip.height, v) == Walk(index, bodies, hash, height, v)
        decreases height
      {
        if height !in index || index[height] != hash || hash !in bodies {
          return false;
        }
        if !hash.Digest? || hash.block.height != height {
          return false;
        }
        if height == v.height {
          return hash == v.hash;
        }
        hash, height := hash.block.prev, height - 1;
      }
    }

    method RestoreLocalFinalityVote() returns (ok: bool)
      requires Valid()
      modifies this`halted, this`latest
      ensures Valid()
      ensures ok == LocalVoteVerified(rule, old(At(Idle)))
      ensures halted == (old(halted) || !ok)
      ensures latest == if ok && saved.Some? then saved else old(latest)
    {
      if saved.None? {
        return true;
      }
      ok := false;
      if saved.value.validator in rule.committee {
        ok := VerifyLocalVoteAncestry(saved.value);
      }
      if ok {
        latest := saved;
      } else {
        halted := true;
      }
    }

    /** Forget the collected votes of blocks below `below`. */
    method PrunePending(below: nat)
      modifies this`votes, this`pending
      ensures votes == map k | k in old(votes) && !(k in old(pending) && old(pending)[k] < below) :: old(votes)[k]
      ensures pending == map k | k in old(pending) && !(old(pending)[k] < below) :: old(pending)[k]
    {
      var todo := pending.Keys;
      while todo != {}
        invariant todo <= old(pending).Keys
        invariant pending.Keys == set k | k in old(pending) && (k in todo || !(old(pending)[k] < below))
        invariant forall k :: k in pending ==> pending[k] == old(pending)[k]
        invariant votes.Keys == set k | k in old(votes) && (k in todo || !(k in old(pending) && old(pending)[k] < below))
        invariant forall k :: k in votes ==> votes[k] == old(votes)[k]
        decreases |todo|
      {
        var k :| k in todo;
        if pending[k] < below {
          votes, pending := votes - {k}, pending - {k};
        }
        todo := todo - {k};
      }
    }

    method PruneFinalized(below: nat)
      modifies this`finalized
      ensures finalized == map k | k in old(finalized) && !(k < below) :: old(finalized)[k]
    {
      var todo := finalized.Keys;
      while todo != {}
        invariant todo <= old(finalized).Keys
        invariant finalized.Keys == set k | k in old(finalized) && (k in todo || !(k < below))
        invariant forall k :: k in finalized ==> finalized[k] == old(finalized)[k]
        decreases |todo|
      {
        var k :| k in todo;
        if k < below {
          finalized := finalized - {k};
        }
        todo := todo - {k};
      }
    }

    /** Drop votes and finalized heights more than 256 below `height`. */
    method PruneVotes(height: nat)
      requires Valid()
      modifies this`votes, this`pending, this`finalized
      ensures Valid() && Book() == Prune(old(Book()), height)
    {
      if height > VOTE_PRUNE_DEPTH {
        PrunePending(height - VOTE_PRUNE_DEPTH);
        PruneFinalized(height - VOTE_PRUNE_DEPTH);
      }
      assert votes == Prune(old(Book()), height).votes;
      assert pending == Prune(old(Book()), height).pending;
      assert finalized == Prune(old(Book()), height).finalized;
    }

    method HandleVote(v: Vote, authentic: bool, disk: Disk) returns (ok: bool)
      requires Valid()
      modifies this`votes, this`pending, this`finalized, this`staged, this`cert
      ensures Valid()
      ensures (Book(), ok) == Votes.HandleVote(rule, old(Book()), v, authentic, disk)
    {
      if v.validator !in rule.committee || !authentic {
        return false;
      }
      if v.height !in byHeight {
        var known := exists k | k in byHeight :: Digest(byHeight[k]) == v.hash;
        if v.height <= tip.height || tip.height > MAX_UINT64 - FUTURE_VOTE_WINDOW ||
           v.height > tip.height + FUTURE_VOTE_WINDOW || known ||
           v in staged || |staged| >= FUTURE_VOTE_LIMIT {
          return false;
        }
        staged := staged + {v};
        return true;
      }
      if byHeight[v.height].height != v.height || Digest(byHeight[v.height]) != v.hash {
        return false;
      }
      if v.height in finalized {
        return true;
      }
      var voters := if v.hash in votes then votes[v.hash] else {};
      if v.validator in voters {
        return true;
      }
      if v.hash !in votes {
        pending := pending[v.hash := v.height];
      }
      voters := voters + {v.validator};
      votes := votes[v.hash := voters];
      if |voters| >= Needed(rule) {
        var written := SaveFinalityCertificate(Cert(v.hash, v.height, voters), disk);
        if !written {
          return false;
        }
        finalized := finalized[v.height := v.hash];
        votes, pending := votes - {v.hash}, pending - {v.hash};
      }
      PruneVotes(v.height);
      ok := true;
    }

    /** Collect the votes for the block, drop everything at or below it, then handle each. */
    method ReplayFutureVotes(b: Block, disk: Vote -> Disk) returns (order: seq<Vote>)
      requires Valid()
      modifies this`votes, this`pending, this`finalized, this`staged, this`cert
      ensures Valid()
      ensures Lists(order, Matching(old(Book()), b))
      ensures Book() == Replay(rule, old(Book()), b, order, disk)
    {
      order := CollectStaged(b);
      assert order[0..] == order;
      var i := 0;
      while i < |order|
        invariant 0 <= i <= |order| && Valid()
        invariant HandleAll(rule, DropUpTo(old(Book()), b), order, disk) == HandleAll(rule, Book(), order[i..], disk)
      {
        assert order[i..][1..] == order[i + 1..];
        var _ := HandleVote(order[i], true, disk(order[i]));
        i := i + 1;
      }
    }

    method CollectStaged(b: Block) returns (order: seq<Vote>)
      modifies this`staged
      ensures Lists(order, Matching(old(Book()), b))
      ensures Book() == DropUpTo(old(Book()), b)
    {
      order := [];
      var todo, kept := staged, {};
      while todo != {}
        invariant staged == old(staged) && todo <= staged && Sifted(staged - todo, b, order, kept)
        decreases |todo|
      {
        var v :| v in todo;
        SiftOne(staged - todo, b, order, kept, v);
        assert staged - (todo - {v}) == (staged - todo) + {v};
        if b.height < v.height {
          kept := kept + {v};
        } else if v.height == b.height && v.hash == Digest(b) {
          order := order + [v];
        }
        todo := todo - {v};
      }
      assert staged - todo == staged;
      SiftedAll(old(Book()), b, order, kept);
      staged := kept;
    }

    method SaveFinalityCertificate(c: Cert, disk: Disk) returns (ok: bool)
      modifies this`cert
      ensures (cert, ok) == SaveCert(old(cert), c, disk)
    {
      if cert.Some? {
        if c.height < cert.value.height || (c.height == cert.value.height && c.hash != cert.value.hash) {
          return false;
        }
      }
      if disk.Durable? || disk.persisted {
        cert := Some(c);
      }
      ok := disk.Durable?;
    }

    /** Sign, count, save and only then release the vote for a just accepted block. */
    method CastVote(b: Block, certDisk: Disk, voteDisk: Disk) returns (ok: bool)
      requires Valid()
      modifies this
      ensures Valid() && clean == old(clean)
      ensures
        var counted := CountOwn(rule, old(At(Accepted(b))), id, certDisk);
        if counted.phase.Idle? then !ok && At(Idle) == counted && outbox == old(outbox)
        else
          var kept := SaveOwn(counted, id, voteDisk);
          if kept.phase.Idle? then !ok && At(Idle) == kept && outbox == old(outbox)
          else ok && At(Idle) == Release(kept, id) && outbox == old(outbox) + [OwnVote(id, b)]
    {
      var v := Vote(Digest(b), b.height, id);
      ok := HandleVote(v, true, certDisk);
      if !ok {
        return;
      }
      ok := ReleaseVote(b, voteDisk);
    }

    /** Saves the counted vote and only then releases it. */
    method ReleaseVote(b: Block, voteDisk: Disk) returns (ok: bool)
      modifies this`saved, this`halted, this`latest, this`outbox
      ensures
        var kept := SaveOwn(old(At(Counted(b))), id, voteDisk);
        if kept.phase.Idle? then !ok && At(Idle) == kept && outbox == old(outbox)
        else ok && At(Idle) == Release(kept, id) && outbox == old(outbox) + [OwnVote(id, b)]
    {
      var v := Vote(Digest(b), b.height, id);
      ok := SaveLocalFinalityVote(v, voteDisk);
      if !ok {
        halted := true;
        return;
      }
      latest := Some(v);
      outbox := outbox + [v];
    }

    method SaveLocalFinalityVote(v: Vote, disk: Disk) returns (ok: bool)
      modifies this`saved
      ensures
        var prior := old(saved);
        var admissible := prior.None? || prior.value.height < v.height || prior.value == v;
        && ok == (admissible && disk.Durable?)
        && saved == if admissible && (disk.Durable? || disk.persisted) then Some(v) else prior
    {
      if saved.Some? {
        if v.height < saved.value.height {
          return false;
        }
        if v.height == saved.value.height && (v.hash != saved.value.hash || v.validator != saved.value.validator) {
          return false;
        }
      }
      if disk.Durable? || disk.persisted {
        saved := Some(v);
      }
      ok := disk.Durable?;
    }

    /** The vote to relay after a reconnect, or a halt when it left the durable chain. */
    method LatestLocalVote() returns (out: Option<Vote>)
      requires Valid()
      modifies this`halted
      ensures Valid() && (At(Idle), out) == Relay(old(At(Idle)))
    {
      if latest.None? {
        return None;
      }
      var ok := VerifyLocalVoteAncestry(latest.value);
      if !ok {
        halted := true;
        return None;
      }
      out := latest;
    }
  }
}
