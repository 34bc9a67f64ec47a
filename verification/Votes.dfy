/** Counting finality votes: the quorum rule, the in-memory vote book and the handling
of one vote message. */
module Votes {
  import opened Ledger
  import opened Options

  type Validator = nat

  const MAX_UINT64: nat := 0xFFFF_FFFF_FFFF_FFFF
  const FUTURE_VOTE_WINDOW: nat := 2
  const FUTURE_VOTE_LIMIT: nat := 256
  const VOTE_PRUNE_DEPTH: nat := 256

  /** A vote message. The signature covers the hash only, not the claimed height. */
  datatype Vote = Vote(hash: Hash, height: nat, validator: Validator)

  datatype Cert = Cert(hash: Hash, height: nat, voters: set<Validator>)

  /** Result of one synchronous database write: a failed write may still have reached the disk. */
  datatype Disk = Durable | Failed(persisted: bool)

  /** The fixed committee and the finality threshold num/den. */
  datatype Rule = Rule(committee: set<Validator>, num: nat, den: nat)

  predicate SafeRule(r: Rule) {
    0 < r.den && 2 * r.den <= 3 * r.num
  }

  function Needed(r: Rule): nat
    requires 0 < r.den
  {
    |r.committee| * r.num / r.den + 1
  }

  /** The engine's vote bookkeeping beside the retained window of canonical blocks. */
  datatype VoteBook = VoteBook(
    tip: Block,
    byHeight: map<nat, Block>,
    votes: map<Hash, set<Validator>>,
    pending: map<Hash, nat>,
    finalized: map<nat, Hash>,
    staged: set<Vote>,
    cert: Option<Cert>)

  predicate Known(s: VoteBook, hash: Hash) {
    exists k | k in s.byHeight :: Digest(s.byHeight[k]) == hash
  }

  function VotersOf(s: VoteBook, hash: Hash): set<Validator> {
    if hash in s.votes then s.votes[hash] else {}
  }

  /** The store refuses a certificate below the saved one, or a second hash at its height. */
  predicate CertAdmissible(prior: Option<Cert>, hash: Hash, height: nat) {
    prior.Some? ==>
      && prior.value.height <= height
      && (prior.value.height == height ==> prior.value.hash == hash)
  }

  /** The saved certificate after one write, and whether the write reported success. */
  function SaveCert(prior: Option<Cert>, c: Cert, disk: Disk): (Option<Cert>, bool) {
    if !CertAdmissible(prior, c.hash, c.height) then (prior, false)
    else if disk.Durable? then (Some(c), true)
    else (if disk.persisted then Some(c) else prior, false)
  }

  predicate Stale(pending: map<Hash, nat>, hash: Hash, height: nat) {
    height > VOTE_PRUNE_DEPTH && hash in pending && pending[hash] < height - VOTE_PRUNE_DEPTH
  }

  /** Forget votes and finalized heights more than 256 below the voted height. */
  function Prune(s: VoteBook, height: nat): VoteBook {
    s.(votes := map k | k in s.votes && !Stale(s.pending, k, height) :: s.votes[k],
       pending := map k | k in s.pending && !Stale(s.pending, k, height) :: s.pending[k],
       finalized := map k | k in s.finalized && height <= k + VOTE_PRUNE_DEPTH :: s.finalized[k])
  }

  /** A vote whose block is not retained: staged when it lies at most two above the tip. */
  function StageVote(s: VoteBook, v: Vote): (VoteBook, bool) {
    if v.height <= s.tip.height || s.tip.height > MAX_UINT64 - FUTURE_VOTE_WINDOW ||
       v.height > s.tip.height + FUTURE_VOTE_WINDOW || Known(s, v.hash) ||
       v in s.staged || |s.staged| >= FUTURE_VOTE_LIMIT
    then (s, false)
    else (s.(staged := s.staged + {v}), true)
  }

  /** Counting one vote for a retained block that is not finalized yet. */
  function CountVote(r: Rule, s: VoteBook, v: Vote, disk: Disk): (VoteBook, bool)
    requires 0 < r.den
  {
    var voters := VotersOf(s, v.hash) + {v.validator};
    var counted := s.(votes := s.votes[v.hash := voters],
                      pending := if v.hash in s.votes then s.pending else s.pending[v.hash := v.height]);
    if |voters| < Needed(r) then (Prune(counted, v.height), true)
    else
      var (cert, ok) := SaveCert(s.cert, Cert(v.hash, v.height, voters), disk);
      if !ok then (counted.(cert := cert), false)
      else
        (Prune(counted.(cert := cert,
                        finalized := s.finalized[v.height := v.hash],
                        votes := counted.votes - {v.hash},
                        pending := counted.pending - {v.hash}), v.height), true)
  }

  /** One vote message; the flag says whether it was accepted without an error. */
  function HandleVote(r: Rule, s: VoteBook, v: Vote, authentic: bool, disk: Disk): (VoteBook, bool)
    requires 0 < r.den
  {
    if v.validator !in r.committee || !authentic then (s, false)
    else if v.height !in s.byHeight then StageVote(s, v)
    else if s.byHeight[v.height].height != v.height || Digest(s.byHeight[v.height]) != v.hash then (s, false)
    else if v.height in s.finalized || v.validator in VotersOf(s, v.hash) then (s, true)
    else CountVote(r, s, v, disk)
  }

  /** What the book may look like after a vote. */
  predicate BookMoved(r: Rule, s: VoteBook, v: Vote, authentic: bool, s': VoteBook) {
    && s'.tip == s.tip && s'.byHeight == s.byHeight
    && s'.staged <= s.staged + {v}
    && (s'.staged != s.staged ==> v.validator in r.committee && authentic && s.tip.height < v.height)
    && (forall h :: h in s'.votes ==>
          || s'.votes[h] == VotersOf(s, h)
          || (h == v.hash && v.validator in r.committee && authentic &&
              s'.votes[h] == VotersOf(s, h) + {v.validator} &&
              v.height in s.byHeight && Digest(s.byHeight[v.height]) == h))
    && (forall k :: k in s'.finalized ==>
          (k in s.finalized && s'.finalized[k] == s.finalized[k]) ||
          (k == v.height && s'.finalized[k] == v.hash && s'.cert.Some? && s'.cert.value.hash == v.hash))
  }

  lemma CountVoteEffect(r: Rule, s: VoteBook, v: Vote, disk: Disk)
    requires 0 < r.den && v.validator in r.committee && v.height in s.byHeight && Digest(s.byHeight[v.height]) == v.hash
    ensures BookMoved(r, s, v, true, CountVote(r, s, v, disk).0)
  {
  }

  lemma CountVoteCert(r: Rule, s: VoteBook, v: Vote, disk: Disk)
    requires 0 < r.den
    ensures
      var s' := CountVote(r, s, v, disk).0;
      s'.cert != s.cert ==>
        && s'.cert == Some(Cert(v.hash, v.height, VotersOf(s, v.hash) + {v.validator}))
        && Needed(r) <= |VotersOf(s, v.hash) + {v.validator}|
        && CertAdmissible(s.cert, v.hash, v.height)
  {
  }

  /** The saved certificate after one vote. */
  predicate CertMoved(r: Rule, s: VoteBook, v: Vote, authentic: bool, s': VoteBook)
    requires 0 < r.den
  {
    s'.cert != s.cert ==>
      && v.validator in r.committee && authentic
      && v.height in s.byHeight && Digest(s.byHeight[v.height]) == v.hash
      && s.byHeight[v.height].height == v.height
      && s'.cert == Some(Cert(v.hash, v.height, VotersOf(s, v.hash) + {v.validator}))
      && Needed(r) <= |VotersOf(s, v.hash) + {v.validator}|
      && CertAdmissible(s.cert, v.hash, v.height)
  }

  lemma StageVoteEffect(r: Rule, s: VoteBook, v: Vote)
    requires 0 < r.den && v.validator in r.committee
    ensures BookMoved(r, s, v, true, StageVote(s, v).0) && StageVote(s, v).0.cert == s.cert
  {
  }

  lemma SameBookMoved(r: Rule, s: VoteBook, v: Vote, authentic: bool)
    requires 0 < r.den
    ensures BookMoved(r, s, v, authentic, s) && CertMoved(r, s, v, authentic, s)
  {
  }

  /** Everything the protocol proof needs from one vote: the chain view is untouched, every
  counted voter is an old one or the sender, and the saved certificate changes only to a
  quorum for the voted hash, never down in height. */
  lemma HandleVoteEffect(r: Rule, s: VoteBook, v: Vote, authentic: bool, disk: Disk)
    requires 0 < r.den
    ensures BookMoved(r, s, v, authentic, HandleVote(r, s, v, authentic, disk).0)
    ensures CertMoved(r, s, v, authentic, HandleVote(r, s, v, authentic, disk).0)
  {
    var s' := HandleVote(r, s, v, authentic, disk).0;
    if s' == s {
      SameBookMoved(r, s, v, authentic);
    } else if v.height !in s.byHeight {
      StageVoteEffect(r, s, v);
    } else {
      CountVoteEffect(r, s, v, disk);
      CountVoteCert(r, s, v, disk);
    }
  }

  // ---- What a vote leaves alone ----

  function TallyHeight(s: VoteBook, hash: Hash): Option<nat> {
    if hash in s.pending then Some(s.pending[hash]) else None
  }

  /** A vote is counted: its block is retained and open, and its sender is new. */
  predicate Counts(r: Rule, s: VoteBook, v: Vote, authentic: bool) {
    && v.validator in r.committee && authentic && v.height in s.byHeight
    && s.byHeight[v.height].height == v.height && Digest(s.byHeight[v.height]) == v.hash
    && v.height !in s.finalized && v.validator !in VotersOf(s, v.hash)
  }

  /** Pruning forgets exactly the tallies and finalized heights more than 256 below. */
  lemma PruneForgets(s: VoteBook, height: nat, h: Hash, k: nat)
    ensures
      var p := Prune(s, height);
      && (h in p.votes <==> h in s.votes && (h in s.pending ==> height <= s.pending[h] + 256))
      && (h in p.pending <==> h in s.pending && height <= s.pending[h] + 256)
      && (k in p.finalized <==> k in s.finalized && height <= k + 256)
      && (h in p.votes ==> p.votes[h] == s.votes[h]) && (h in p.pending ==> p.pending[h] == s.pending[h])
      && (k in p.finalized ==> p.finalized[k] == s.finalized[k])
  {
  }

  /** The book before pruning, with the vote counted and perhaps its certificate saved. */
  lemma CountThenPrune(r: Rule, s: VoteBook, v: Vote, disk: Disk) returns (mid: VoteBook)
    requires 0 < r.den
    ensures CountVote(r, s, v, disk).0 == (if CountVote(r, s, v, disk).1 then Prune(mid, v.height) else mid)
    ensures forall h :: h != v.hash ==>
      && (h in mid.votes <==> h in s.votes) && (h in s.votes ==> mid.votes[h] == s.votes[h])
      && (h in mid.pending <==> h in s.pending) && (h in s.pending ==> mid.pending[h] == s.pending[h])
    ensures forall k :: k != v.height ==> (k in mid.finalized <==> k in s.finalized)
    ensures forall k :: k in s.finalized && k != v.height ==> mid.finalized[k] == s.finalized[k]
  {
    var voters := VotersOf(s, v.hash) + {v.validator};
    var counted := s.(votes := s.votes[v.hash := voters],
                      pending := if v.hash in s.votes then s.pending else s.pending[v.hash := v.height]);
    var (cert, ok) := SaveCert(s.cert, Cert(v.hash, v.height, voters), disk);
    mid := if |voters| < Needed(r) then counted
           else if !ok then counted.(cert := cert)
           else counted.(cert := cert, finalized := s.finalized[v.height := v.hash],
                         votes := counted.votes - {v.hash}, pending := counted.pending - {v.hash});
  }

  /** A vote that is not counted leaves all tallies and finalized heights alone. */
  lemma UncountedKeeps(r: Rule, s: VoteBook, v: Vote, authentic: bool, disk: Disk)
    requires 0 < r.den && !Counts(r, s, v, authentic)
    ensures
      var s' := HandleVote(r, s, v, authentic, disk).0;
      s'.votes == s.votes && s'.pending == s.pending && s'.finalized == s.finalized && s'.cert == s.cert
  {
  }

  /** Tallies of other blocks at most 256 heights below the vote keep their voters and heights, and
  finalized heights at most 256 below it stay. */
  lemma OthersKept(r: Rule, s: VoteBook, v: Vote, authentic: bool, disk: Disk, h: Hash, k: nat)
    requires 0 < r.den
    ensures
      var s' := HandleVote(r, s, v, authentic, disk).0;
      && (h != v.hash && (h in s.pending ==> v.height <= s.pending[h] + 256) ==>
            VotersOf(s', h) == VotersOf(s, h) && TallyHeight(s', h) == TallyHeight(s, h))
      && (k in s.finalized && v.height <= k + 256 ==> k in s'.finalized && s'.finalized[k] == s.finalized[k])
  {
    if Counts(r, s, v, authentic) {
      var mid := CountThenPrune(r, s, v, disk);
      PruneForgets(mid, v.height, h, k);
    } else {
      UncountedKeeps(r, s, v, authentic, disk);
    }
  }

  /** A counted vote that is not stopped by a failed write forgets exactly the other tallies and
  finalized heights more than 256 below it. */
  lemma PrunesExactly(r: Rule, s: VoteBook, v: Vote, disk: Disk, h: Hash, k: nat)
    requires 0 < r.den && Counts(r, s, v, true) && HandleVote(r, s, v, true, disk).1 && h != v.hash && k != v.height
    ensures
      var s' := HandleVote(r, s, v, true, disk).0;
      && (h in s'.votes <==> h in s.votes && (h in s.pending ==> v.height <= s.pending[h] + 256))
      && (h in s'.pending <==> h in s.pending && v.height <= s.pending[h] + 256)
      && (k in s'.finalized <==> k in s.finalized && v.height <= k + 256)
  {
    var mid := CountThenPrune(r, s, v, disk);
    PruneForgets(mid, v.height, h, k);
  }

  /** A counted vote joins the voters of its block; with a quorum the block is finalized and its
  tally cleared if the certificate can be saved, and otherwise the tally waits. */
  lemma CountsExactly(r: Rule, s: VoteBook, v: Vote, disk: Disk)
    requires 0 < r.den && Counts(r, s, v, true) && (v.hash in s.votes && v.hash in s.pending ==> s.pending[v.hash] == v.height)
    ensures
      var (s', ok) := HandleVote(r, s, v, true, disk);
      var voters := VotersOf(s, v.hash) + {v.validator};
      var saves := disk.Durable? && (s.cert.Some? ==> s.cert.value.height < v.height || (s.cert.value.height == v.height && s.cert.value.hash == v.hash));
      && s'.staged == s.staged && s'.tip == s.tip && s'.byHeight == s.byHeight
      && if |voters| < Needed(r) then ok && VotersOf(s', v.hash) == voters && v.height !in s'.finalized && s'.cert == s.cert
         else if saves then
           && ok && v.height in s'.finalized && s'.finalized[v.height] == v.hash && VotersOf(s', v.hash) == {}
           && s'.cert == Some(Cert(v.hash, v.height, voters))
         else !ok && VotersOf(s', v.hash) == voters && v.height !in s'.finalized
  {
  }
}
