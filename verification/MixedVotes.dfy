/** Votes for two retained blocks in any interleaving: what each tally becomes, what is
independent of the order, and exactly when the lower block is finalized. */
module MixedVotes {
  import opened Ledger
  import opened Options
  import opened Votes
  import opened Process
  import opened StagedVotes

  /** Every vote names one of the two blocks at its height and comes from the committee. */
  predicate ForEither(r: Rule, order: seq<Vote>, b: Block, c: Block) {
    forall v :: v in order ==>
      v.validator in r.committee && ((v.hash == Digest(b) && v.height == b.height) || (v.hash == Digest(c) && v.height == c.height))
  }

  function VotersFor(order: seq<Vote>, b: Block): set<Validator> {
    set v | v in order && v.hash == Digest(b) :: v.validator
  }

  /** Who has voted for a block, before and within the list. */
  function Tally(s: VoteBook, order: seq<Vote>, b: Block): set<Validator> {
    VotersOf(s, Digest(b)) + VotersFor(order, b)
  }

  /** Both blocks are retained and still counting, `c` above `b` by at most 256. */
  predicate Open(r: Rule, s: VoteBook, b: Block, c: Block)
    requires 0 < r.den
  {
    b.height < c.height <= b.height + 256 && Counting(r, s, b) && Counting(r, s, c)
  }

  predicate HigherDone(r: Rule, s: VoteBook, order: seq<Vote>, c: Block)
    requires 0 < r.den
  {
    Needed(r) <= |Tally(s, order, c)| && CertAdmissible(s.cert, Digest(c), c.height)
  }

  /** After `n` votes the lower block has its quorum and the higher one does not. */
  predicate Ahead(r: Rule, s: VoteBook, order: seq<Vote>, b: Block, c: Block, n: nat)
    requires 0 < r.den && n <= |order|
  {
    Needed(r) <= |Tally(s, order[..n], b)| && |Tally(s, order[..n], c)| < Needed(r)
  }

  predicate LowerDone(r: Rule, s: VoteBook, order: seq<Vote>, b: Block, c: Block)
    requires 0 < r.den
  {
    CertAdmissible(s.cert, Digest(b), b.height) && exists n :: 0 <= n <= |order| && Ahead(r, s, order, b, c, n)
  }

  /** One block of the result: finalized and cleared, or exactly its voters pending. */
  predicate Settled(t: VoteBook, b: Block, done: bool, voters: set<Validator>) {
    && (Digest(b) in t.pending ==> t.pending[Digest(b)] == b.height)
    && if done then b.height in t.finalized && t.finalized[b.height] == Digest(b) && VotersOf(t, Digest(b)) == {}
       else b.height !in t.finalized && VotersOf(t, Digest(b)) == voters
  }

  predicate CertAfter(s: VoteBook, t: VoteBook, b: Block, c: Block, lower: bool, higher: bool) {
    if higher then t.cert.Some? && t.cert.value.hash == Digest(c) && t.cert.value.height == c.height
    else if lower then t.cert.Some? && t.cert.value.hash == Digest(b) && t.cert.value.height == b.height
    else t.cert == s.cert
  }

  /** Where two blocks stand: done or not, and with which voters. */
  predicate Stands(s: VoteBook, t: VoteBook, b: Block, c: Block, lower: bool, higher: bool, forB: set<Validator>, forC: set<Validator>) {
    && t.byHeight == s.byHeight && t.staged == s.staged && t.tip == s.tip
    && Settled(t, c, higher, forC) && Settled(t, b, lower, forB) && CertAfter(s, t, b, c, lower, higher)
  }

  /** The state after an interleaving, stated by who voted and by which quorum came first. */
  predicate Mixed(r: Rule, s: VoteBook, order: seq<Vote>, t: VoteBook, b: Block, c: Block)
    requires 0 < r.den
  {
    Stands(s, t, b, c, LowerDone(r, s, order, b, c), HigherDone(r, s, order, c), Tally(s, order, b), Tally(s, order, c))
  }

  lemma TallySnoc(s: VoteBook, init: seq<Vote>, v: Vote, b: Block)
    ensures Tally(s, init + [v], b) == Tally(s, init, b) + if v.hash == Digest(b) then {v.validator} else {}
  {
    assert forall u :: u in init + [v] <==> u in init || u == v;
  }

  lemma TallyGrows(s: VoteBook, init: seq<Vote>, v: Vote, b: Block)
    ensures |Tally(s, init, b)| <= |Tally(s, init + [v], b)|
  {
    TallySnoc(s, init, v, b);
    SubsetIsSmaller(Tally(s, init, b), Tally(s, init + [v], b));
  }

  /** One more vote: the lower block is done if it was, or if this vote puts it ahead. */
  lemma LowerSnoc(r: Rule, s: VoteBook, init: seq<Vote>, v: Vote, b: Block, c: Block)
    requires 0 < r.den
    ensures
      var order := init + [v];
      LowerDone(r, s, order, b, c) <==>
      LowerDone(r, s, init, b, c)
      || (CertAdmissible(s.cert, Digest(b), b.height) && Needed(r) <= |Tally(s, order, b)| && |Tally(s, order, c)| < Needed(r))
  {
    var order := init + [v];
    assert order[..|order|] == order;
    forall n | 0 <= n <= |init| ensures Ahead(r, s, init, b, c, n) <==> Ahead(r, s, order, b, c, n) {
      assert order[..n] == init[..n];
    }
    if LowerDone(r, s, init, b, c) {
      var n :| 0 <= n <= |init| && Ahead(r, s, init, b, c, n);
      assert Ahead(r, s, order, b, c, n);
    }
    if LowerDone(r, s, order, b, c) && !LowerDone(r, s, init, b, c) {
      var n :| 0 <= n <= |order| && Ahead(r, s, order, b, c, n);
      assert n == |order|;
    }
    if Needed(r) <= |Tally(s, order, b)| && |Tally(s, order, c)| < Needed(r) {
      assert Ahead(r, s, order, b, c, |order|);
    }
  }

  /** A vote for the other block leaves this one settled as it was. */
  lemma OtherSettled(r: Rule, t: VoteBook, v: Vote, b: Block, done: bool, voters: set<Validator>)
    requires 0 < r.den && Settled(t, b, done, voters) && v.hash != Digest(b) && v.height != b.height && v.height <= b.height + 256
    ensures Settled(HandleVote(r, t, v, true, Durable).0, b, done, voters)
  {
    OthersKept(r, t, v, true, Durable, Digest(b), b.height);
    HandleVoteEffect(r, t, v, true, Durable);
  }

  /** A vote for this block: counted while it is open, with a certificate if that can be saved. */
  lemma OwnSettled(r: Rule, t: VoteBook, v: Vote, b: Block, done: bool, voters: set<Validator>)
    requires 0 < r.den && Settled(t, b, done, voters) && v.hash == Digest(b) && v.height == b.height && v.validator in r.committee
    requires b.height in t.byHeight && t.byHeight[b.height] == b
    ensures
      var t' := HandleVote(r, t, v, true, Durable).0;
      var saves := !done && v.validator !in voters && Needed(r) <= |voters + {v.validator}| && CertAdmissible(t.cert, Digest(b), b.height);
      && t'.byHeight == t.byHeight && t'.staged == t.staged && t'.tip == t.tip
      && Settled(t', b, done || saves, voters + {v.validator})
      && if saves then t'.cert.Some? && t'.cert.value.hash == Digest(b) && t'.cert.value.height == b.height else t'.cert == t.cert
  {
    if Counts(r, t, v, true) {
      CountsExactly(r, t, v, Durable);
      OwnPending(r, t, v, b);
    } else {
      UncountedKeeps(r, t, v, true, Durable);
      assert voters + {v.validator} == voters || done;
    }
  }

  lemma OwnPending(r: Rule, t: VoteBook, v: Vote, b: Block)
    requires 0 < r.den && Counts(r, t, v, true) && v.hash == Digest(b) && v.height == b.height
    requires Digest(b) in t.pending ==> t.pending[Digest(b)] == b.height
    ensures
      var t' := HandleVote(r, t, v, true, Durable).0;
      && (Digest(b) in t'.pending ==> t'.pending[Digest(b)] == b.height)
      && (t'.cert == t.cert || (t'.cert.Some? && t'.cert.value.hash == Digest(b) && t'.cert.value.height == b.height))
      && (!CertAdmissible(t.cert, v.hash, v.height) ==> t'.cert == t.cert)
  {
  }

  /** Once one block has its certificate the other's can be saved only if it is higher. */
  lemma AdmissibleNow(s: VoteBook, t: VoteBook, b: Block, c: Block, lower: bool, higher: bool)
    requires b.height < c.height && CertAfter(s, t, b, c, lower, higher) && (lower ==> CertAdmissible(s.cert, Digest(b), b.height))
    ensures higher ==> !CertAdmissible(t.cert, Digest(b), b.height)
    ensures !higher && !lower ==> (CertAdmissible(t.cert, Digest(b), b.height) <==> CertAdmissible(s.cert, Digest(b), b.height))
    ensures !higher ==> (CertAdmissible(t.cert, Digest(c), c.height) <==> CertAdmissible(s.cert, Digest(c), c.height))
    ensures CertAdmissible(s.cert, Digest(b), b.height) ==> CertAdmissible(s.cert, Digest(c), c.height)
  {
  }

  lemma HigherVote(r: Rule, s: VoteBook, t: VoteBook, v: Vote, b: Block, c: Block, lower: bool, higher: bool, forB: set<Validator>, forC: set<Validator>)
    requires 0 < r.den && Stands(s, t, b, c, lower, higher, forB, forC) && b.height < c.height <= b.height + 256
    requires c.height in s.byHeight && s.byHeight[c.height] == c && (lower ==> CertAdmissible(s.cert, Digest(b), b.height))
    requires v.hash == Digest(c) && v.height == c.height && v.validator in r.committee
    ensures
      var saves := !higher && v.validator !in forC && Needed(r) <= |forC + {v.validator}| && CertAdmissible(s.cert, Digest(c), c.height);
      Stands(s, HandleVote(r, t, v, true, Durable).0, b, c, lower, higher || saves, forB, forC + {v.validator})
  {
    AdmissibleNow(s, t, b, c, lower, higher);
    assert Digest(b) != Digest(c);
    OwnSettled(r, t, v, c, higher, forC);
    OtherSettled(r, t, v, b, lower, forB);
  }

  lemma LowerVote(r: Rule, s: VoteBook, t: VoteBook, v: Vote, b: Block, c: Block, lower: bool, higher: bool, forB: set<Validator>, forC: set<Validator>)
    requires 0 < r.den && Stands(s, t, b, c, lower, higher, forB, forC) && b.height < c.height <= b.height + 256
    requires b.height in s.byHeight && s.byHeight[b.height] == b && (lower ==> CertAdmissible(s.cert, Digest(b), b.height))
    requires v.hash == Digest(b) && v.height == b.height && v.validator in r.committee
    ensures
      var saves := !lower && !higher && v.validator !in forB && Needed(r) <= |forB + {v.validator}| && CertAdmissible(s.cert, Digest(b), b.height);
      Stands(s, HandleVote(r, t, v, true, Durable).0, b, c, lower || saves, higher, forB + {v.validator}, forC)
  {
    AdmissibleNow(s, t, b, c, lower, higher);
    assert Digest(b) != Digest(c);
    OwnSettled(r, t, v, b, lower, forB);
    OtherSettled(r, t, v, c, higher, forC);
  }

  lemma LowerStays(r: Rule, s: VoteBook, init: seq<Vote>, v: Vote, b: Block, c: Block)
    requires 0 < r.den && v.hash != Digest(b)
    ensures LowerDone(r, s, init + [v], b, c) <==> LowerDone(r, s, init, b, c)
  {
    LowerSnoc(r, s, init, v, b, c);
    TallySnoc(s, init, v, b);
    TallyGrows(s, init, v, c);
    if Needed(r) <= |Tally(s, init, b)| && |Tally(s, init, c)| < Needed(r) {
      assert init[..|init|] == init;
      assert Ahead(r, s, init, b, c, |init|);
    }
  }

  /** The higher block becomes done with this vote exactly if it saves a certificate. */
  lemma HigherFlag(r: Rule, s: VoteBook, init: seq<Vote>, v: Vote, c: Block)
    requires 0 < r.den && v.hash == Digest(c)
    ensures
      var forC := Tally(s, init, c);
      var saves := !HigherDone(r, s, init, c) && v.validator !in forC && Needed(r) <= |forC + {v.validator}| && CertAdmissible(s.cert, Digest(c), c.height);
      HigherDone(r, s, init + [v], c) <==> HigherDone(r, s, init, c) || saves
  {
    TallySnoc(s, init, v, c);
    TallyGrows(s, init, v, c);
    if v.validator in Tally(s, init, c) {
      assert Tally(s, init, c) + {v.validator} == Tally(s, init, c);
    }
  }

  /** The lower block has its quorum now and could save it, the higher one has none. */
  predicate Leads(r: Rule, s: VoteBook, b: Block, forB: set<Validator>, forC: set<Validator>)
    requires 0 < r.den
  {
    CertAdmissible(s.cert, Digest(b), b.height) && Needed(r) <= |forB| && |forC| < Needed(r)
  }

  lemma LeadingIsDone(r: Rule, s: VoteBook, order: seq<Vote>, b: Block, c: Block)
    requires 0 < r.den && Leads(r, s, b, Tally(s, order, b), Tally(s, order, c))
    ensures LowerDone(r, s, order, b, c)
  {
    assert order[..|order|] == order;
    assert Ahead(r, s, order, b, c, |order|);
  }

  lemma LowerFlag(r: Rule, s: VoteBook, init: seq<Vote>, v: Vote, b: Block, c: Block)
    requires 0 < r.den && v.hash == Digest(b) && b.height < c.height
    ensures
      var forB := Tally(s, init, b);
      var saves := !LowerDone(r, s, init, b, c) && !HigherDone(r, s, init, c) && v.validator !in forB && Needed(r) <= |forB + {v.validator}|
                   && CertAdmissible(s.cert, Digest(b), b.height);
      LowerDone(r, s, init + [v], b, c) <==> LowerDone(r, s, init, b, c) || saves
  {
    var forB, forC := Tally(s, init, b), Tally(s, init, c);
    TallySnoc(s, init, v, b);
    TallySnoc(s, init, v, c);
    assert Tally(s, init + [v], c) == forC;
    LowerSnoc(r, s, init, v, b, c);
    assert LowerDone(r, s, init + [v], b, c) <==> LowerDone(r, s, init, b, c) || Leads(r, s, b, forB + {v.validator}, forC);
    if Leads(r, s, b, forB, forC) {
      LeadingIsDone(r, s, init, b, c);
    }
    SavesFlag(r, s, b, c, forB, forC, v.validator, LowerDone(r, s, init, b, c));
  }

  lemma SavesFlag(r: Rule, s: VoteBook, b: Block, c: Block, forB: set<Validator>, forC: set<Validator>, q: Validator, lower: bool)
    requires 0 < r.den && b.height < c.height && (Leads(r, s, b, forB, forC) ==> lower)
    ensures
      var higher := Needed(r) <= |forC| && CertAdmissible(s.cert, Digest(c), c.height);
      var saves := !lower && !higher && q !in forB && Needed(r) <= |forB + {q}| && CertAdmissible(s.cert, Digest(b), b.height);
      lower || saves <==> lower || Leads(r, s, b, forB + {q}, forC)
  {
    if q in forB {
      assert forB + {q} == forB;
    }
  }

  lemma MixedHigher(r: Rule, s: VoteBook, init: seq<Vote>, t: VoteBook, v: Vote, b: Block, c: Block)
    requires 0 < r.den && Mixed(r, s, init, t, b, c) && b.height < c.height <= b.height + 256
    requires c.height in s.byHeight && s.byHeight[c.height] == c
    requires v.hash == Digest(c) && v.height == c.height && v.validator in r.committee
    ensures Mixed(r, s, init + [v], HandleVote(r, t, v, true, Durable).0, b, c)
  {
    assert Digest(b) != Digest(c);
    HigherVote(r, s, t, v, b, c, LowerDone(r, s, init, b, c), HigherDone(r, s, init, c), Tally(s, init, b), Tally(s, init, c));
    HigherFlag(r, s, init, v, c);
    LowerStays(r, s, init, v, b, c);
    TallySnoc(s, init, v, b);
    TallySnoc(s, init, v, c);
  }

  lemma MixedLower(r: Rule, s: VoteBook, init: seq<Vote>, t: VoteBook, v: Vote, b: Block, c: Block)
    requires 0 < r.den && Mixed(r, s, init, t, b, c) && b.height < c.height <= b.height + 256
    requires b.height in s.byHeight && s.byHeight[b.height] == b
    requires v.hash == Digest(b) && v.height == b.height && v.validator in r.committee
    ensures Mixed(r, s, init + [v], HandleVote(r, t, v, true, Durable).0, b, c)
  {
    assert Digest(b) != Digest(c);
    LowerVote(r, s, t, v, b, c, LowerDone(r, s, init, b, c), HigherDone(r, s, init, c), Tally(s, init, b), Tally(s, init, c));
    LowerFlag(r, s, init, v, b, c);
    TallySnoc(s, init, v, b);
    TallySnoc(s, init, v, c);
  }

  /** After any interleaving of votes for two retained blocks: the higher one is finalized exactly
  by its own voters; the lower one exactly if it had its quorum while the higher one had none; an
  open tally holds exactly who voted. */
  lemma {:induction false} MixedTally(r: Rule, s: VoteBook, order: seq<Vote>, b: Block, c: Block)
    requires 0 < r.den && Open(r, s, b, c) && ForEither(r, order, b, c)
    ensures Mixed(r, s, order, HandleAll(r, s, order, Reliable), b, c)
    decreases |order|
  {
    if |order| == 0 {
      assert Tally(s, order, b) == VotersOf(s, Digest(b)) && Tally(s, order, c) == VotersOf(s, Digest(c));
      assert order[..0] == order;
      assert !LowerDone(r, s, order, b, c);
    } else {
      var init, v := order[..|order| - 1], order[|order| - 1];
      assert order == init + [v] && v in order && forall u :: u in init ==> u in order;
      MixedTally(r, s, init, b, c);
      HandleAllAppend(r, s, init, [v], Reliable);
      var t := HandleAll(r, s, init, Reliable);
      assert HandleAll(r, t, [v], Reliable) == HandleAll(r, HandleVote(r, t, v, true, Durable).0, [v][1..], Reliable);
      if v.hash == Digest(c) {
        MixedHigher(r, s, init, t, v, b, c);
      } else {
        MixedLower(r, s, init, t, v, b, c);
      }
    }
  }

  // ---- What the order decides ----

  /** Both interleavings bring the same voters to each block. */
  predicate SameVotes(p: seq<Vote>, q: seq<Vote>, b: Block, c: Block) {
    VotersFor(p, b) == VotersFor(q, b) && VotersFor(p, c) == VotersFor(q, c)
  }

  predicate SameOutcome(t: VoteBook, u: VoteBook, b: Block) {
    && VotersOf(t, Digest(b)) == VotersOf(u, Digest(b))
    && (b.height in t.finalized <==> b.height in u.finalized)
    && (b.height in t.finalized ==> t.finalized[b.height] == u.finalized[b.height])
  }

  /** The order of votes for two blocks never matters for the higher one, and matters for the lower
  one exactly if one order puts its quorum first and the other does not. */
  lemma MixedConfluence(r: Rule, s: VoteBook, p: seq<Vote>, q: seq<Vote>, b: Block, c: Block)
    requires 0 < r.den && Open(r, s, b, c) && ForEither(r, p, b, c) && ForEither(r, q, b, c) && SameVotes(p, q, b, c)
    ensures
      var t, u := HandleAll(r, s, p, Reliable), HandleAll(r, s, q, Reliable);
      && SameOutcome(t, u, c) && t.staged == u.staged
      && (SameOutcome(t, u, b) <==> (LowerDone(r, s, p, b, c) <==> LowerDone(r, s, q, b, c)))
  {
    MixedTally(r, s, p, b, c);
    MixedTally(r, s, q, b, c);
    assert Tally(s, p, c) == Tally(s, q, c) && Tally(s, p, b) == Tally(s, q, b);
  }

  /** Without a quorum for the higher block the order does not matter at all. */
  lemma LowerAlone(r: Rule, s: VoteBook, order: seq<Vote>, b: Block, c: Block)
    requires 0 < r.den && |Tally(s, order, c)| < Needed(r)
    ensures LowerDone(r, s, order, b, c) <==> CertAdmissible(s.cert, Digest(b), b.height) && Needed(r) <= |Tally(s, order, b)|
  {
    assert order[..|order|] == order;
    if LowerDone(r, s, order, b, c) {
      var n :| 0 <= n <= |order| && Ahead(r, s, order, b, c, n);
      PrefixTally(s, order, b, n);
    } else if Needed(r) <= |Tally(s, order, b)| && CertAdmissible(s.cert, Digest(b), b.height) {
      assert Ahead(r, s, order, b, c, |order|);
    }
  }

  lemma PrefixTally(s: VoteBook, order: seq<Vote>, b: Block, n: nat)
    requires n <= |order|
    ensures |Tally(s, order[..n], b)| <= |Tally(s, order, b)|
  {
    SubsetIsSmaller(Tally(s, order[..n], b), Tally(s, order, b));
  }

  const ROOT: Block := Block(0, Zero, 0)
  const LOW: Block := Block(1, Digest(ROOT), 0)
  const HIGH: Block := Block(2, Digest(LOW), 0)
  const DUO: Rule := Rule({0}, 2, 3)

  function DuoBook(): VoteBook {
    VoteBook(HIGH, map[1 := LOW, 2 := HIGH], map[], map[], map[], {}, None)
  }

  /** The order decides: a sole validator's votes for two blocks finalize both if the lower one comes
  first, and only the higher one otherwise. */
  lemma OrderDecides()
    ensures
      var low, high := OwnVote(0, LOW), OwnVote(0, HIGH);
      var t, u := HandleAll(DUO, DuoBook(), [low, high], Reliable), HandleAll(DUO, DuoBook(), [high, low], Reliable);
      1 in t.finalized && 2 in t.finalized && 1 !in u.finalized && 2 in u.finalized
  {
    var s, low, high := DuoBook(), OwnVote(0, LOW), OwnVote(0, HIGH);
    assert Needed(DUO) == 1;
    OneVoter(s, [low, high], low);
    OneVoter(s, [low, high], high);
    OneVoter(s, [high, low], low);
    OneVoter(s, [high, low], high);
    MixedTally(DUO, s, [low, high], LOW, HIGH);
    MixedTally(DUO, s, [high, low], LOW, HIGH);
    assert Ahead(DUO, s, [low, high], LOW, HIGH, 1) by {
      assert [low, high][..1] == [low];
      OneVoter(s, [low], low);
      assert Tally(s, [low], HIGH) == {};
    }
    forall n | 0 <= n <= 2 ensures !Ahead(DUO, s, [high, low], LOW, HIGH, n) {
      HighFirst(s, n);
    }
  }

  lemma OneVoter(s: VoteBook, order: seq<Vote>, v: Vote)
    requires s.votes == map[] && v in order && v.hash.Digest? && forall u :: u in order ==> u.validator == 0
    ensures Tally(s, order, v.hash.block) == {v.validator}
  {
  }

  lemma HighFirst(s: VoteBook, n: nat)
    requires s.votes == map[] && n <= 2
    ensures !Ahead(DUO, s, [OwnVote(0, HIGH), OwnVote(0, LOW)], LOW, HIGH, n)
  {
    var order := [OwnVote(0, HIGH), OwnVote(0, LOW)];
    if n == 0 {
      assert order[..0] == [] && Tally(s, [], LOW) == {};
      assert Needed(DUO) == 1;
    } else {
      assert order[..n][0] == OwnVote(0, HIGH);
      OneVoter(s, order[..n], OwnVote(0, HIGH));
    }
  }

  // ---- A retained block and the next one ----

  /** Of a list, the votes for one block. */
  function Only(order: seq<Vote>, b: Block): seq<Vote> {
    if |order| == 0 then []
    else if order[0].hash == Digest(b) then [order[0]] + Only(order[1..], b)
    else Only(order[1..], b)
  }

  /** The book with another tip, window and staging area. */
  function Moved(s: VoteBook, tip: Block, byHeight: map<nat, Block>, staged: set<Vote>): VoteBook {
    s.(tip := tip, byHeight := byHeight, staged := staged)
  }

  lemma MovedPrune(s: VoteBook, tip: Block, byHeight: map<nat, Block>, staged: set<Vote>, height: nat)
    ensures Prune(Moved(s, tip, byHeight, staged), height) == Moved(Prune(s, height), tip, byHeight, staged)
    ensures Prune(s, height).staged == s.staged && Prune(s, height).tip == s.tip && Prune(s, height).byHeight == s.byHeight
  {
  }

  lemma MovedCount(r: Rule, s: VoteBook, tip: Block, byHeight: map<nat, Block>, staged: set<Vote>, v: Vote)
    requires 0 < r.den
    ensures CountVote(r, Moved(s, tip, byHeight, staged), v, Durable).0 == Moved(CountVote(r, s, v, Durable).0, tip, byHeight, staged)
    ensures
      var t := CountVote(r, s, v, Durable).0;
      t.staged == s.staged && t.tip == s.tip && t.byHeight == s.byHeight
  {
    var voters := VotersOf(s, v.hash) + {v.validator};
    var counted := s.(votes := s.votes[v.hash := voters],
                      pending := if v.hash in s.votes then s.pending else s.pending[v.hash := v.height]);
    MovedPrune(counted, tip, byHeight, staged, v.height);
    var saved := counted.(cert := SaveCert(s.cert, Cert(v.hash, v.height, voters), Durable).0, finalized := s.finalized[v.height := v.hash],
                          votes := counted.votes - {v.hash}, pending := counted.pending - {v.hash});
    MovedPrune(saved, tip, byHeight, staged, v.height);
  }

  /** Counting a vote for a retained block does not look at the tip, at other heights or at staged votes. */
  lemma MovedVote(r: Rule, s: VoteBook, tip: Block, byHeight: map<nat, Block>, staged: set<Vote>, v: Vote)
    requires 0 < r.den && v.height in s.byHeight && v.height in byHeight && byHeight[v.height] == s.byHeight[v.height]
    ensures HandleVote(r, Moved(s, tip, byHeight, staged), v, true, Durable).0 == Moved(HandleVote(r, s, v, true, Durable).0, tip, byHeight, staged)
    ensures
      var t := HandleVote(r, s, v, true, Durable).0;
      t.staged == s.staged && t.tip == s.tip && t.byHeight == s.byHeight
  {
    MovedCount(r, s, tip, byHeight, staged, v);
  }

  lemma {:induction false} MovedVotes(r: Rule, s: VoteBook, tip: Block, byHeight: map<nat, Block>, staged: set<Vote>, order: seq<Vote>, m: Block)
    requires 0 < r.den && VotesFor(r, order, m) && m.height in s.byHeight && m.height in byHeight && byHeight[m.height] == s.byHeight[m.height]
    ensures HandleAll(r, Moved(s, tip, byHeight, staged), order, Reliable) == Moved(HandleAll(r, s, order, Reliable), tip, byHeight, staged)
    ensures
      var t := HandleAll(r, s, order, Reliable);
      t.staged == s.staged && t.tip == s.tip && t.byHeight == s.byHeight
    decreases |order|
  {
    if |order| > 0 {
      assert order[0] in order;
      MovedVote(r, s, tip, byHeight, staged, order[0]);
      MovedVotes(r, HandleVote(r, s, order[0], true, Durable).0, tip, byHeight, staged, order[1..], m);
    }
  }

  lemma {:induction false} OnlyVotes(r: Rule, order: seq<Vote>, b: Block, c: Block, d: Block)
    requires ForEither(r, order, b, c) && (d == b || d == c) && b.height != c.height
    ensures VotesFor(r, Only(order, d), d)
    ensures forall v :: v in Only(order, d) <==> v in order && v.hash == Digest(d)
  {
    if |order| > 0 {
      assert order[0] in order && forall v :: v in order <==> v == order[0] || v in order[1..];
      OnlyVotes(r, order[1..], b, c, d);
    }
  }

  /** Before the block arrives, votes for it are staged and votes for the retained block counted. */
  lemma {:induction false} EarlyMixed(r: Rule, s: VoteBook, m: Block, b: Block, early: seq<Vote>)
    requires 0 < r.den && ForEither(r, early, m, b) && m.height < b.height && m.height in s.byHeight && StagedVotes.Ahead(s, b)
    requires |s.staged + Votings(Only(early, b))| <= FUTURE_VOTE_LIMIT
    ensures HandleAll(r, s, early, Reliable) == HandleAll(r, s, Only(early, m), Reliable).(staged := s.staged + Votings(Only(early, b)))
    decreases |early|
  {
    if |early| == 0 {
      assert s.staged + Votings([]) == s.staged;
    } else {
      var v, rest := early[0], early[1..];
      assert v in early && forall u :: u in rest ==> u in early;
      OnlyVotes(r, early, m, b, m);
      OnlyVotes(r, early, m, b, b);
      OnlyVotes(r, rest, m, b, m);
      if v.hash == Digest(b) {
        VotingsSplit(Only(early, b), s.staged);
        StageOne(r, s, b, v, s.staged + Votings(Only(early, b)));
        var held := s.(staged := s.staged + {v});
        EarlyMixed(r, held, m, b, rest);
        MovedVotes(r, s, s.tip, s.byHeight, s.staged + {v}, Only(rest, m), m);
        assert Moved(s, s.tip, s.byHeight, s.staged + {v}) == held;
      } else {
        MovedVote(r, s, s.tip, s.byHeight, s.staged, v);
        EarlyMixed(r, HandleVote(r, s, v, true, Durable).0, m, b, rest);
      }
    }
  }

  /** The retained block stays in the window when the next one enters. */
  predicate Stays(m: Block, b: Block, window: nat) {
    m.height < b.height <= m.height + 256 && b.height < m.height + window
  }

  lemma StartOpen(r: Rule, s: VoteBook, m: Block, b: Block, window: nat)
    requires 0 < r.den && Stays(m, b, window) && Awaiting(r, s, b) && Counting(r, s, m)
    ensures Open(r, DropUpTo(Extend(s, b, window), b), m, b)
  {
    SameStart(r, s, b, window, []);
  }

  /** Accepting the block after the early votes is accepting it first and then counting those for
  the retained block. */
  lemma EarlyThenBlock(r: Rule, s: VoteBook, m: Block, b: Block, window: nat, early: seq<Vote>)
    requires 0 < r.den && Stays(m, b, window) && b.height == s.tip.height + 1 && Awaiting(r, s, b) && Counting(r, s, m)
    requires ForEither(r, early, m, b) && |s.staged + Votings(Only(early, b))| <= FUTURE_VOTE_LIMIT
    ensures DropUpTo(Extend(HandleAll(r, s, early, Reliable), b, window), b)
            == HandleAll(r, DropUpTo(Extend(s, b, window), b), Only(early, m), Reliable)
  {
    var start := DropUpTo(Extend(s, b, window), b);
    EarlyMixed(r, s, m, b, early);
    OnlyVotes(r, early, m, b, m);
    OnlyVotes(r, early, m, b, b);
    MovedVotes(r, s, start.tip, start.byHeight, start.staged, Only(early, m), m);
    assert Moved(s, start.tip, start.byHeight, start.staged) == start;
    var left := DropUpTo(Extend(HandleAll(r, s, early, Reliable), b, window), b);
    assert left.staged == start.staged;
  }

  /** Votes for the next block and for a retained one, split in any way around the next block and
  replayed in any order: both tallies are those of the interleaving that the process counts. */
  lemma AroundMixed(r: Rule, s: VoteBook, m: Block, b: Block, window: nat, early: seq<Vote>, order: seq<Vote>, late: seq<Vote>)
    requires 0 < r.den && Stays(m, b, window) && b.height == s.tip.height + 1 && Awaiting(r, s, b) && Counting(r, s, m)
    requires ForEither(r, early, m, b) && ForEither(r, late, m, b) && |s.staged + Votings(Only(early, b))| <= FUTURE_VOTE_LIMIT
    requires Replays(s, b, Only(early, b), order)
    ensures Mixed(r, DropUpTo(Extend(s, b, window), b), Only(early, m) + order + late, Around(r, s, b, window, early, order, late), m, b)
  {
    var start, counted := DropUpTo(Extend(s, b, window), b), Only(early, m) + order + late;
    EarlyThenBlock(r, s, m, b, window, early);
    OnlyVotes(r, early, m, b, m);
    OnlyVotes(r, early, m, b, b);
    ReplayedVotes(r, s, b, Only(early, b), order, []);
    assert order + [] == order;
    HandleAllAppend(r, start, Only(early, m), order, Reliable);
    HandleAllAppend(r, start, Only(early, m) + order, late, Reliable);
    StartOpen(r, s, m, b, window);
    assert ForEither(r, counted, m, b);
    MixedTally(r, start, counted, m, b);
  }

  lemma ReplayedOnly(r: Rule, s: VoteBook, m: Block, b: Block, early: seq<Vote>, order: seq<Vote>, v: Vote)
    requires ForEither(r, early, m, b) && m.height != b.height && Replays(s, b, Only(early, b), order)
    ensures v in order <==> v.hash == Digest(b) && ((v in s.staged && v.height == b.height) || v in early)
  {
    OnlyVotes(r, early, m, b, b);
    var held := s.(staged := s.staged + Votings(Only(early, b)));
    assert v in order <==> v in (set u | u in order);
    assert v in order <==> v in Matching(held, b);
    assert v in Votings(Only(early, b)) <==> v in Only(early, b);
  }

  lemma CountedVoters(r: Rule, s: VoteBook, m: Block, b: Block, early: seq<Vote>, order: seq<Vote>, late: seq<Vote>)
    requires ForEither(r, early, m, b) && m.height != b.height && Replays(s, b, Only(early, b), order)
    ensures
      var counted := Only(early, m) + order + late;
      && VotersFor(counted, m) == VotersFor(early + late, m)
      && VotersFor(counted, b) == StagedVoters(s, b) + VotersFor(early + late, b)
  {
    OnlyVotes(r, early, m, b, m);
    var counted := Only(early, m) + order + late;
    forall v ensures v in counted <==> (v.hash == Digest(m) && v in early) || v in late
                                       || (v.hash == Digest(b) && ((v in s.staged && v.height == b.height) || v in early)) {
      ReplayedOnly(r, s, m, b, early, order, v);
    }
  }

  /** However votes for the next block and a retained one are split and replayed, the next block ends
  the same; so does the retained one, unless one split puts its quorum first and the other does not. */
  lemma MixedBlockConfluence(r: Rule, s: VoteBook, m: Block, b: Block, window: nat, early: seq<Vote>, order: seq<Vote>, late: seq<Vote>,
                             early': seq<Vote>, order': seq<Vote>, late': seq<Vote>)
    requires 0 < r.den && Stays(m, b, window) && b.height == s.tip.height + 1 && Awaiting(r, s, b) && Counting(r, s, m)
    requires ForEither(r, early, m, b) && ForEither(r, late, m, b) && ForEither(r, early', m, b) && ForEither(r, late', m, b)
    requires |s.staged + Votings(Only(early, b))| <= FUTURE_VOTE_LIMIT && |s.staged + Votings(Only(early', b))| <= FUTURE_VOTE_LIMIT
    requires Replays(s, b, Only(early, b), order) && Replays(s, b, Only(early', b), order')
    requires SameVotes(early + late, early' + late', m, b)
    ensures
      var start := DropUpTo(Extend(s, b, window), b);
      var t, u := Around(r, s, b, window, early, order, late), Around(r, s, b, window, early', order', late');
      && SameOutcome(t, u, b) && t.staged == u.staged
      && (SameOutcome(t, u, m) <==>
          (LowerDone(r, start, Only(early, m) + order + late, m, b) <==> LowerDone(r, start, Only(early', m) + order' + late', m, b)))
  {
    var start := DropUpTo(Extend(s, b, window), b);
    AroundMixed(r, s, m, b, window, early, order, late);
    AroundMixed(r, s, m, b, window, early', order', late');
    CountedVoters(r, s, m, b, early, order, late);
    CountedVoters(r, s, m, b, early', order', late');
    SameFlags(r, start, Only(early, m) + order + late, Only(early', m) + order' + late', m, b);
  }

  lemma SameFlags(r: Rule, s: VoteBook, p: seq<Vote>, q: seq<Vote>, b: Block, c: Block)
    requires 0 < r.den && SameVotes(p, q, b, c)
    ensures Tally(s, p, b) == Tally(s, q, b) && Tally(s, p, c) == Tally(s, q, c) && (HigherDone(r, s, p, c) <==> HigherDone(r, s, q, c))
  {
  }
}
