/** Votes that race their block: staging before the block arrives and replaying afterwards
gives the same tally as receiving them late. */
module StagedVotes {
  import opened Ledger
  import opened Options
  import opened Votes
  import opened Process

  /** Handling authenticated votes one after another. */
  function HandleAll(r: Rule, s: VoteBook, order: seq<Vote>, disk: Vote -> Disk): VoteBook
    requires 0 < r.den
    decreases |order|
  {
    if |order| == 0 then s
    else HandleAll(r, HandleVote(r, s, order[0], true, disk(order[0])).0, order[1..], disk)
  }

  /** Every write succeeds. */
  function Reliable(v: Vote): Disk {
    Durable
  }

  function Extend(s: VoteBook, b: Block, window: nat): VoteBook {
    s.(tip := b, byHeight := Retain(s.byHeight, b, window))
  }

  /** The staged votes the new block releases, and those it leaves waiting. */
  function Matching(s: VoteBook, b: Block): set<Vote> {
    set v | v in s.staged && v.height == b.height && v.hash == Digest(b)
  }

  function DropUpTo(s: VoteBook, b: Block): VoteBook {
    s.(staged := set v | v in s.staged && b.height < v.height)
  }

  /** `order` lists the votes of `released`, in the order a map iteration happened to take. */
  predicate Lists(order: seq<Vote>, released: set<Vote>) {
    (set v | v in order) == released
  }

  function Replay(r: Rule, s: VoteBook, b: Block, order: seq<Vote>, disk: Vote -> Disk): VoteBook
    requires 0 < r.den
  {
    HandleAll(r, DropUpTo(s, b), order, disk)
  }

  function Voters(order: seq<Vote>): set<Validator> {
    set v | v in order :: v.validator
  }

  /** All votes name block `b` at its height and come from the committee. */
  predicate VotesFor(r: Rule, order: seq<Vote>, b: Block) {
    forall v :: v in order ==> v.hash == Digest(b) && v.height == b.height && v.validator in r.committee
  }

  /** Block `b` is retained, not finalized, and its tally is short of a saved quorum. */
  predicate Counting(r: Rule, s: VoteBook, b: Block)
    requires 0 < r.den
  {
    && b.height in s.byHeight && s.byHeight[b.height] == b
    && b.height !in s.finalized
    && (Digest(b) in s.pending ==> s.pending[Digest(b)] == b.height)
    && (CertAdmissible(s.cert, Digest(b), b.height) ==> |VotersOf(s, Digest(b))| < Needed(r))
  }

  /** The tally reached: finalized with the votes cleared, or exactly these voters pending. */
  predicate Tallied(r: Rule, s: VoteBook, s': VoteBook, b: Block, voters: set<Validator>)
    requires 0 < r.den
  {
    && s'.staged == s.staged
    && if Needed(r) <= |voters| && CertAdmissible(s.cert, Digest(b), b.height)
       then b.height in s'.finalized && s'.finalized[b.height] == Digest(b) && VotersOf(s', Digest(b)) == {}
       else b.height !in s'.finalized && VotersOf(s', Digest(b)) == voters
  }

  lemma VotersSplit(order: seq<Vote>)
    requires |order| > 0
    ensures Voters(order) == {order[0].validator} + Voters(order[1..])
  {
    assert order == [order[0]] + order[1..];
  }

  lemma {:induction false} FinalizedIgnores(r: Rule, s: VoteBook, b: Block, order: seq<Vote>, disk: Vote -> Disk)
    requires 0 < r.den && VotesFor(r, order, b)
    requires b.height in s.byHeight && b.height in s.finalized
    ensures HandleAll(r, s, order, disk) == s
  {
    if |order| > 0 {
      assert order[0] in order;
      FinalizedIgnores(r, s, b, order[1..], disk);
    }
  }

  lemma SubsetIsSmaller<T>(a: set<T>, b: set<T>)
    requires a <= b
    ensures |a| <= |b|
  {
    assert b == a + (b - a);
  }

  /** One vote of a tally: still counting with one more voter, or finalized. */
  lemma OneVote(r: Rule, s: VoteBook, b: Block, v: Vote)
    requires 0 < r.den && Counting(r, s, b) && VotesFor(r, [v], b)
    ensures
      var s' := HandleVote(r, s, v, true, Durable).0;
      var voters := VotersOf(s, Digest(b)) + {v.validator};
      && Tallied(r, s, s', b, voters)
      && s'.byHeight == s.byHeight
      && (b.height !in s'.finalized ==> Counting(r, s', b) && s'.cert == s.cert)
  {
    assert v in [v];
  }

  /** The head of a list of votes, and what the rest then finds. */
  lemma TallyHead(r: Rule, s: VoteBook, b: Block, order: seq<Vote>)
    requires 0 < r.den && Counting(r, s, b) && VotesFor(r, order, b) && |order| > 0
    ensures
      var s', voters := HandleVote(r, s, order[0], true, Durable).0, VotersOf(s, Digest(b)) + {order[0].validator};
      && Tallied(r, s, s', b, voters) && s'.byHeight == s.byHeight && VotesFor(r, order[1..], b)
      && (b.height !in s'.finalized ==> Counting(r, s', b) && s'.cert == s.cert)
      && voters + Voters(order[1..]) == VotersOf(s, Digest(b)) + Voters(order)
  {
    assert order[0] in order;
    OneVote(r, s, b, order[0]);
    VotersSplit(order);
  }

  lemma TallyDone(r: Rule, s: VoteBook, s': VoteBook, b: Block, voters: set<Validator>, all: set<Validator>)
    requires 0 < r.den && Tallied(r, s, s', b, voters) && b.height in s'.finalized && voters <= all
    ensures Tallied(r, s, s', b, all)
  {
    SubsetIsSmaller(voters, all);
  }

  lemma TallyMore(r: Rule, s: VoteBook, s': VoteBook, t: VoteBook, b: Block, all: set<Validator>)
    requires 0 < r.den && s'.staged == s.staged && s'.cert == s.cert && Tallied(r, s', t, b, all)
    ensures Tallied(r, s, t, b, all)
  {
  }

  /** The tally of a list of votes depends only on who voted, not on order or repetition. */
  lemma {:induction false} TallyOrderFree(r: Rule, s: VoteBook, b: Block, order: seq<Vote>)
    requires 0 < r.den && Counting(r, s, b) && VotesFor(r, order, b)
    ensures Tallied(r, s, HandleAll(r, s, order, Reliable), b, VotersOf(s, Digest(b)) + Voters(order))
    decreases |order|
  {
    if |order| == 0 {
      assert VotersOf(s, Digest(b)) + Voters(order) == VotersOf(s, Digest(b));
    } else {
      var s' := HandleVote(r, s, order[0], true, Durable).0;
      var voters, all := VotersOf(s, Digest(b)) + {order[0].validator}, VotersOf(s, Digest(b)) + Voters(order);
      TallyHead(r, s, b, order);
      if b.height in s'.finalized {
        FinalizedIgnores(r, s', b, order[1..], Reliable);
        TallyDone(r, s, s', b, voters, all);
      } else {
        TallyOrderFree(r, s', b, order[1..]);
        TallyMore(r, s, s', HandleAll(r, s', order[1..], Reliable), b, all);
      }
    }
  }

  /** The votes can be staged: at most two heights ahead, for a block not known yet. */
  predicate Ahead(s: VoteBook, b: Block) {
    && s.tip.height < b.height <= s.tip.height + FUTURE_VOTE_WINDOW && s.tip.height + FUTURE_VOTE_WINDOW <= MAX_UINT64
    && b.height !in s.byHeight && !Known(s, Digest(b))
  }

  lemma StageOne(r: Rule, s: VoteBook, b: Block, v: Vote, all: set<Vote>)
    requires 0 < r.den && VotesFor(r, [v], b) && Ahead(s, b) && s.staged + {v} <= all && |all| <= FUTURE_VOTE_LIMIT
    ensures HandleVote(r, s, v, true, Durable).0 == s.(staged := s.staged + {v})
  {
    assert v in [v];
    if v in s.staged {
      assert s.staged + {v} == s.staged;
    } else {
      StagedBelow(s.staged, v, all);
    }
  }

  function Votings(order: seq<Vote>): set<Vote> {
    set v | v in order
  }

  lemma VotingsSplit(order: seq<Vote>, staged: set<Vote>)
    requires |order| > 0
    ensures staged + Votings(order) == (staged + {order[0]}) + Votings(order[1..])
  {
    assert order == [order[0]] + order[1..];
  }

  /** Before the block arrives, its votes only collect in the staging area. */
  lemma {:induction false} EarlyVotesStage(r: Rule, s: VoteBook, b: Block, order: seq<Vote>)
    requires 0 < r.den && VotesFor(r, order, b) && Ahead(s, b) && |s.staged + Votings(order)| <= FUTURE_VOTE_LIMIT
    ensures HandleAll(r, s, order, Reliable) == s.(staged := s.staged + Votings(order))
    decreases |order|
  {
    if |order| == 0 {
      assert s.staged + Votings(order) == s.staged;
    } else {
      assert order[0] in order;
      VotingsSplit(order, s.staged);
      StageOne(r, s, b, order[0], s.staged + Votings(order));
      EarlyVotesStage(r, s.(staged := s.staged + {order[0]}), b, order[1..]);
    }
  }

  lemma StagedBelow(a: set<Vote>, v: Vote, all: set<Vote>)
    requires a + {v} <= all && v !in a
    ensures |a| < |all|
  {
    assert all == (a + {v}) + (all - (a + {v}));
  }

  lemma {:induction false} HandleAllAppend(r: Rule, s: VoteBook, p: seq<Vote>, q: seq<Vote>, disk: Vote -> Disk)
    requires 0 < r.den
    ensures HandleAll(r, s, p + q, disk) == HandleAll(r, HandleAll(r, s, p, disk), q, disk)
    decreases |p|
  {
    if |p| == 0 {
      assert p + q == q;
    } else {
      assert (p + q)[1..] == p[1..] + q;
      HandleAllAppend(r, HandleVote(r, s, p[0], true, disk(p[0])).0, p[1..], q, disk);
    }
  }

  // ---- One block ahead ----

  /** The block is new to the book and every staged vote comes from the committee. */
  predicate Awaiting(r: Rule, s: VoteBook, b: Block) {
    && b.height !in s.byHeight && !Known(s, Digest(b))
    && b.height !in s.finalized && Digest(b) !in s.votes && Digest(b) !in s.pending
    && s.tip.height + FUTURE_VOTE_WINDOW <= MAX_UINT64
    && forall v :: v in s.staged ==> v.validator in r.committee
  }

  /** Some votes, then the block with its replay in some order, then the other votes. */
  function Around(r: Rule, s: VoteBook, b: Block, window: nat, early: seq<Vote>, order: seq<Vote>, late: seq<Vote>): VoteBook
    requires 0 < r.den
  {
    HandleAll(r, Replay(r, Extend(HandleAll(r, s, early, Reliable), b, window), b, order, Reliable), late, Reliable)
  }

  function StagedVoters(s: VoteBook, b: Block): set<Validator> {
    set v | v in s.staged && v.height == b.height && v.hash == Digest(b) :: v.validator
  }

  /** The replay order lists exactly the staged votes that name the new block. */
  predicate Replays(s: VoteBook, b: Block, early: seq<Vote>, order: seq<Vote>) {
    Lists(order, Matching(s.(staged := s.staged + Votings(early)), b))
  }

  lemma SameStart(r: Rule, s: VoteBook, b: Block, window: nat, votes: seq<Vote>)
    requires 0 < r.den && 0 < window && VotesFor(r, votes, b) && Awaiting(r, s, b)
    ensures DropUpTo(Extend(s.(staged := s.staged + Votings(votes)), b, window), b) == DropUpTo(Extend(s, b, window), b)
    ensures Counting(r, DropUpTo(Extend(s, b, window), b), b) && VotersOf(DropUpTo(Extend(s, b, window), b), Digest(b)) == {}
  {
    var l := DropUpTo(Extend(s.(staged := s.staged + Votings(votes)), b, window), b);
    assert l.staged == DropUpTo(Extend(s, b, window), b).staged;
  }

  lemma ReplayedVotes(r: Rule, s: VoteBook, b: Block, early: seq<Vote>, order: seq<Vote>, late: seq<Vote>)
    requires Awaiting(r, s, b) && VotesFor(r, early, b) && VotesFor(r, late, b) && Replays(s, b, early, order)
    ensures VotesFor(r, order + late, b)
    ensures Voters(order + late) == StagedVoters(s, b) + Voters(early) + Voters(late)
  {
    var staged := s.(staged := s.staged + Votings(early));
    forall v ensures v in order <==> v in Matching(staged, b) {
      assert v in order <==> v in (set u | u in order);
    }
    forall v ensures v in order + late <==> (v in s.staged && v.height == b.height && v.hash == Digest(b)) || v in early || v in late {
      assert v in early <==> v in Votings(early);
    }
  }

  /** The tally of the next block depends on who voted for it, not on when the votes came, in
  which order they were replayed or how often they were repeated. */
  lemma AroundTallies(r: Rule, s: VoteBook, b: Block, window: nat, early: seq<Vote>, order: seq<Vote>, late: seq<Vote>)
    requires 0 < r.den && 0 < window && b.height == s.tip.height + 1 && Awaiting(r, s, b)
    requires VotesFor(r, early, b) && VotesFor(r, late, b) && Replays(s, b, early, order)
    requires |s.staged + Votings(early)| <= FUTURE_VOTE_LIMIT
    ensures Tallied(r, DropUpTo(Extend(s, b, window), b), Around(r, s, b, window, early, order, late), b,
                    StagedVoters(s, b) + Voters(early) + Voters(late))
  {
    var start := DropUpTo(Extend(s, b, window), b);
    EarlyVotesStage(r, s, b, early);
    SameStart(r, s, b, window, early);
    HandleAllAppend(r, start, order, late, Reliable);
    ReplayedVotes(r, s, b, early, order, late);
    TallyOrderFree(r, start, b, order + late);
    assert VotersOf(start, Digest(b)) + Voters(order + late) == StagedVoters(s, b) + Voters(early) + Voters(late);
  }

  /** Two books agree on a block: finalized or not, its pending voters, and what stays staged. */
  predicate Agree(p: VoteBook, q: VoteBook, b: Block) {
    && VotersOf(p, Digest(b)) == VotersOf(q, Digest(b)) && p.staged == q.staged
    && (b.height in p.finalized <==> b.height in q.finalized)
    && (b.height in p.finalized ==> p.finalized[b.height] == q.finalized[b.height] == Digest(b))
  }

  lemma SameVoters(p: seq<Vote>, q: seq<Vote>)
    requires Votings(p) == Votings(q)
    ensures Voters(p) == Voters(q)
  {
    forall v ensures v in p <==> v in q {
      assert v in p <==> v in Votings(p);
      assert v in q <==> v in Votings(q);
    }
  }

  lemma VotersJoin(p: seq<Vote>, q: seq<Vote>)
    ensures Voters(p + q) == Voters(p) + Voters(q)
  {
  }

  /** Moving votes for the next block around it changes neither the finalized hash nor the pending
  voters nor what stays staged. */
  lemma VoteBlockConfluence(r: Rule, s: VoteBook, b: Block, window: nat, early: seq<Vote>, order: seq<Vote>, late: seq<Vote>,
                            early': seq<Vote>, order': seq<Vote>, late': seq<Vote>)
    requires 0 < r.den && 0 < window && b.height == s.tip.height + 1 && Awaiting(r, s, b)
    requires VotesFor(r, early + late, b) && Votings(early + late) == Votings(early' + late')
    requires |s.staged + Votings(early + late)| <= FUTURE_VOTE_LIMIT
    requires Replays(s, b, early, order) && Replays(s, b, early', order')
    ensures Agree(Around(r, s, b, window, early, order, late), Around(r, s, b, window, early', order', late'), b)
  {
    SplitVotes(r, b, s.staged, early + late, early, late);
    SplitVotes(r, b, s.staged, early + late, early', late');
    AroundTallies(r, s, b, window, early, order, late);
    AroundTallies(r, s, b, window, early', order', late');
    SameVoters(early + late, early' + late');
    VotersJoin(early, late);
    VotersJoin(early', late');
    assert StagedVoters(s, b) + Voters(early) + Voters(late) == StagedVoters(s, b) + Voters(early') + Voters(late');
  }

  lemma SplitVotes(r: Rule, b: Block, staged: set<Vote>, all: seq<Vote>, p: seq<Vote>, q: seq<Vote>)
    requires VotesFor(r, all, b) && Votings(all) == Votings(p + q) && |staged + Votings(all)| <= FUTURE_VOTE_LIMIT
    ensures VotesFor(r, p, b) && VotesFor(r, q, b) && |staged + Votings(p)| <= FUTURE_VOTE_LIMIT
  {
    forall v ensures v in all <==> v in p || v in q {
      assert v in all <==> v in Votings(all);
      assert v in p + q <==> v in Votings(p + q);
    }
    SubsetIsSmaller(staged + Votings(p), staged + Votings(all));
  }

  // ---- Two blocks ahead ----

  /** Votes for the block after next: some before the next block `m`, some between the two blocks,
  the others after both; each block is accepted and replayed in some order. */
  function AroundTwo(r: Rule, s: VoteBook, m: Block, b: Block, window: nat, first: seq<Vote>, orderM: seq<Vote>,
                     early: seq<Vote>, order: seq<Vote>, late: seq<Vote>): VoteBook
    requires 0 < r.den
  {
    Around(r, Middle(r, s, m, window, first, orderM), b, window, early, order, late)
  }

  function Middle(r: Rule, s: VoteBook, m: Block, window: nat, first: seq<Vote>, orderM: seq<Vote>): VoteBook
    requires 0 < r.den
  {
    Replay(r, Extend(HandleAll(r, s, first, Reliable), m, window), m, orderM, Reliable)
  }

  /** Votes for one block leave everything about other blocks alone. */
  predicate Aside(s: VoteBook, s': VoteBook, m: Block) {
    && s'.tip == s.tip && s'.byHeight == s.byHeight && s'.staged == s.staged
    && (forall h :: h in s'.votes && h != Digest(m) ==> h in s.votes)
    && (forall h :: h in s'.pending && h != Digest(m) ==> h in s.pending)
    && (forall k :: k in s'.finalized && k != m.height ==> k in s.finalized)
    && (s'.cert == s.cert || (m.height in s'.finalized && s'.cert.Some? && s'.cert.value.hash == Digest(m) && s'.cert.value.height == m.height))
  }

  lemma AsideVote(r: Rule, s: VoteBook, m: Block, v: Vote)
    requires 0 < r.den && m.height in s.byHeight && s.byHeight[m.height] == m && VotesFor(r, [v], m)
    ensures Aside(s, HandleVote(r, s, v, true, Durable).0, m)
    ensures m.height in s.finalized ==> HandleVote(r, s, v, true, Durable).0 == s
    ensures m.height !in s.finalized && m.height in HandleVote(r, s, v, true, Durable).0.finalized ==>
      HandleVote(r, s, v, true, Durable).0.cert != None && HandleVote(r, s, v, true, Durable).0.cert.value.height == m.height
  {
    assert v in [v];
  }

  lemma AsideTransitive(s: VoteBook, t: VoteBook, u: VoteBook, m: Block)
    requires Aside(s, t, m) && Aside(t, u, m) && (m.height in t.finalized ==> u == t)
    ensures Aside(s, u, m)
  {
  }

  lemma {:induction false} AsideAll(r: Rule, s: VoteBook, m: Block, order: seq<Vote>)
    requires 0 < r.den && m.height in s.byHeight && s.byHeight[m.height] == m && VotesFor(r, order, m)
    ensures Aside(s, HandleAll(r, s, order, Reliable), m)
    ensures m.height !in s.finalized && m.height in HandleAll(r, s, order, Reliable).finalized ==>
      var cert := HandleAll(r, s, order, Reliable).cert; cert.Some? && cert.value.height == m.height
    decreases |order|
  {
    if |order| > 0 {
      var v, rest := order[0], order[1..];
      assert v in order && forall u :: u in rest ==> u in order;
      AsideVote(r, s, m, v);
      var t := HandleVote(r, s, v, true, Durable).0;
      AsideAll(r, t, m, rest);
      if m.height in t.finalized {
        FinalizedIgnores(r, t, m, rest, Reliable);
      }
      AsideTransitive(s, t, HandleAll(r, t, rest, Reliable), m);
    }
  }

  /** Whether a certificate for `b` can be saved once `m` has been replayed. */
  predicate AdmissibleAfter(r: Rule, s: VoteBook, m: Block, b: Block)
    requires 0 < r.den
  {
    if Needed(r) <= |StagedVoters(s, m)| && CertAdmissible(s.cert, Digest(m), m.height) then m.height < b.height
    else CertAdmissible(s.cert, Digest(b), b.height)
  }

  /** The staged votes for `m` are replayed into a tally that leaves everything else alone. */
  lemma MiddleTally(r: Rule, held: VoteBook, m: Block, window: nat, orderM: seq<Vote>)
    requires 0 < r.den && 0 < window && Awaiting(r, held, m) && Replays(held, m, [], orderM)
    ensures
      var start := DropUpTo(Extend(held, m, window), m);
      var t := HandleAll(r, start, orderM, Reliable);
      Tallied(r, start, t, m, StagedVoters(held, m)) && Aside(start, t, m)
      && (m.height in t.finalized ==> t.cert.Some? && t.cert.value.height == m.height)
      && (m.height !in t.finalized ==> t.cert == held.cert)
  {
    var start := DropUpTo(Extend(held, m, window), m);
    SameStart(r, held, m, window, []);
    assert held.(staged := held.staged + Votings([])) == held;
    ReplayedVotes(r, held, m, [], orderM, []);
    assert orderM + [] == orderM && Voters([]) == {};
    TallyOrderFree(r, start, m, orderM);
    AsideAll(r, start, m, orderM);
    assert VotersOf(start, Digest(m)) + Voters(orderM) == StagedVoters(held, m);
  }

  lemma HeldFacts(r: Rule, s: VoteBook, m: Block, b: Block, first: seq<Vote>, orderM: seq<Vote>)
    requires Awaiting(r, s, m) && Awaiting(r, s, b) && VotesFor(r, first, b) && b.height != m.height && Replays(s, m, first, orderM)
    ensures
      var held := s.(staged := s.staged + Votings(first));
      Awaiting(r, held, m) && Awaiting(r, held, b) && Replays(held, m, [], orderM) && StagedVoters(held, m) == StagedVoters(s, m)
  {
    var held := s.(staged := s.staged + Votings(first));
    assert held.(staged := held.staged + Votings([])) == held;
  }

  /** The state between the blocks: the votes for `b` wait, and whether `b` can be certified is
  decided by the staged votes for `m`, not by their order. */
  lemma MiddleState(r: Rule, s: VoteBook, m: Block, b: Block, window: nat, first: seq<Vote>, orderM: seq<Vote>)
    requires 0 < r.den && 0 < window && m.height == s.tip.height + 1 && b.height == m.height + 1
    requires Awaiting(r, s, m) && Awaiting(r, s, b) && VotesFor(r, first, b) && Replays(s, m, first, orderM)
    requires |s.staged + Votings(first)| <= FUTURE_VOTE_LIMIT && m.height + FUTURE_VOTE_WINDOW <= MAX_UINT64
    ensures
      var t := Middle(r, s, m, window, first, orderM);
      && t.tip == m && Awaiting(r, t, b)
      && t.staged == (set v | v in s.staged + Votings(first) && m.height < v.height)
      && CertAdmissible(t.cert, Digest(b), b.height) == AdmissibleAfter(r, s, m, b)
  {
    var held := s.(staged := s.staged + Votings(first));
    EarlyVotesStage(r, s, b, first);
    HeldFacts(r, s, m, b, first, orderM);
    MiddleTally(r, held, m, window, orderM);
    MiddleAwaits(r, DropUpTo(Extend(held, m, window), m), Middle(r, s, m, window, first, orderM), m, b, held, window);
  }

  lemma MiddleAwaits(r: Rule, start: VoteBook, t: VoteBook, m: Block, b: Block, held: VoteBook, window: nat)
    requires Aside(start, t, m) && start == DropUpTo(Extend(held, m, window), m) && Awaiting(r, held, b) && m.height != b.height
    requires m.height + FUTURE_VOTE_WINDOW <= MAX_UINT64
    ensures Awaiting(r, t, b)
  {
    forall k | k in t.byHeight ensures Digest(t.byHeight[k]) != Digest(b) {
      if t.byHeight[k] != m {
        assert k in held.byHeight && held.byHeight[k] == t.byHeight[k];
      }
    }
  }

  lemma WaitingVoters(s: VoteBook, t: VoteBook, m: Block, b: Block, first: seq<Vote>, r: Rule)
    requires t.staged == (set v | v in s.staged + Votings(first) && m.height < v.height) && b.height == m.height + 1 && VotesFor(r, first, b)
    ensures StagedVoters(t, b) == StagedVoters(s, b) + Voters(first)
  {
    forall v ensures v in t.staged && v.height == b.height && v.hash == Digest(b) <==>
      (v in s.staged && v.height == b.height && v.hash == Digest(b)) || v in first {
      assert v in first <==> v in Votings(first);
    }
  }

  /** The tally of the block after next, stated without naming any order of delivery. */
  predicate TalliedTwo(r: Rule, s: VoteBook, m: Block, b: Block, t: VoteBook, voters: set<Validator>)
    requires 0 < r.den
  {
    && t.staged == (set v | v in s.staged && b.height < v.height)
    && if Needed(r) <= |voters| && AdmissibleAfter(r, s, m, b)
       then b.height in t.finalized && t.finalized[b.height] == Digest(b) && VotersOf(t, Digest(b)) == {}
       else b.height !in t.finalized && VotersOf(t, Digest(b)) == voters
  }

  lemma AroundTwoTallies(r: Rule, s: VoteBook, m: Block, b: Block, window: nat, first: seq<Vote>, orderM: seq<Vote>,
                         early: seq<Vote>, order: seq<Vote>, late: seq<Vote>)
    requires 0 < r.den && 0 < window && m.height == s.tip.height + 1 && b.height == m.height + 1
    requires Awaiting(r, s, m) && Awaiting(r, s, b) && m.height + FUTURE_VOTE_WINDOW <= MAX_UINT64
    requires VotesFor(r, first + early + late, b) && |s.staged + Votings(first + early + late)| <= FUTURE_VOTE_LIMIT
    requires Replays(s, m, first, orderM) && Replays(Middle(r, s, m, window, first, orderM), b, early, order)
    ensures TalliedTwo(r, s, m, b, AroundTwo(r, s, m, b, window, first, orderM, early, order, late),
                       StagedVoters(s, b) + Voters(first + early + late))
  {
    var all := first + early + late;
    assert forall v :: v in all <==> v in first || v in early || v in late;
    SubsetIsSmaller(s.staged + Votings(first), s.staged + Votings(all));
    MiddleState(r, s, m, b, window, first, orderM);
    var t := Middle(r, s, m, window, first, orderM);
    SubsetIsSmaller(t.staged + Votings(early), s.staged + Votings(all));
    AroundTallies(r, t, b, window, early, order, late);
    WaitingVoters(s, t, m, b, first, r);
    VotersJoin(first + early, late);
    VotersJoin(first, early);
    assert StagedVoters(t, b) + Voters(early) + Voters(late) == StagedVoters(s, b) + Voters(all);
    var start := DropUpTo(Extend(t, b, window), b);
    assert start.staged == (set v | v in s.staged && b.height < v.height);
  }

  /** Moving votes for the block after next around both blocks, staged before the next block,
  between the two or delivered after both, changes neither the finalized hash nor the pending
  voters nor what stays staged. */
  lemma VoteTwoBlocksConfluence(r: Rule, s: VoteBook, m: Block, b: Block, window: nat,
                                first: seq<Vote>, orderM: seq<Vote>, early: seq<Vote>, order: seq<Vote>, late: seq<Vote>,
                                first': seq<Vote>, orderM': seq<Vote>, early': seq<Vote>, order': seq<Vote>, late': seq<Vote>)
    requires 0 < r.den && 0 < window && m.height == s.tip.height + 1 && b.height == m.height + 1
    requires Awaiting(r, s, m) && Awaiting(r, s, b) && m.height + FUTURE_VOTE_WINDOW <= MAX_UINT64
    requires VotesFor(r, first + early + late, b) && |s.staged + Votings(first + early + late)| <= FUTURE_VOTE_LIMIT
    requires Votings(first + early + late) == Votings(first' + early' + late')
    requires Replays(s, m, first, orderM) && Replays(Middle(r, s, m, window, first, orderM), b, early, order)
    requires Replays(s, m, first', orderM') && Replays(Middle(r, s, m, window, first', orderM'), b, early', order')
    ensures Agree(AroundTwo(r, s, m, b, window, first, orderM, early, order, late),
                  AroundTwo(r, s, m, b, window, first', orderM', early', order', late'), b)
  {
    var all, all' := first + early + late, first' + early' + late';
    forall v ensures v in all' <==> v in all {
      assert v in all <==> v in Votings(all);
      assert v in all' <==> v in Votings(all');
    }
    SameVoters(all, all');
    AroundTwoTallies(r, s, m, b, window, first, orderM, early, order, late);
    AroundTwoTallies(r, s, m, b, window, first', orderM', early', order', late');
  }

  predicate StagedInWindow(s: VoteBook) {
    forall v :: v in s.staged ==> s.tip.height < v.height <= s.tip.height + FUTURE_VOTE_WINDOW
  }

  /** Between steps every staged vote lies one or two heights above the tip. */
  lemma WindowKept(r: Rule, s: VoteBook, v: Vote, authentic: bool, disk: Disk, b: Block, window: nat)
    requires 0 < r.den && StagedInWindow(s)
    ensures StagedInWindow(HandleVote(r, s, v, authentic, disk).0)
    ensures b.height == s.tip.height + 1 ==> StagedInWindow(DropUpTo(Extend(s, b, window), b))
  {
    HandleVoteEffect(r, s, v, authentic, disk);
  }

  /** A whole replay keeps the window too. */
  lemma {:induction false} ReplayKeepsWindow(r: Rule, s: VoteBook, order: seq<Vote>, disk: Vote -> Disk)
    requires 0 < r.den && StagedInWindow(s)
    ensures StagedInWindow(HandleAll(r, s, order, disk))
    decreases |order|
  {
    if |order| > 0 {
      WindowKept(r, s, order[0], true, disk(order[0]), s.tip, 0);
      ReplayKeepsWindow(r, HandleVote(r, s, order[0], true, disk(order[0])).0, order[1..], disk);
    }
  }
}
