/** The background job that runs the daily audit in bounded batches: each batch resumes saved
progress, audits some blocks, and saves again; a finished job reports what one pass would. */
module DailyJobs {
  import opened BlockAudit
  import opened DayFold
  import opened DayReport
  import opened Options
  import opened PositionAudit

  const BATCH_BLOCKS: nat := 256

  // ---- Auditing blocks ----

  method AccumulateVaults(vaults: map<Text, VaultSum>, rows: seq<VaultRow>) returns (r: Option<map<Text, VaultSum>>)
    ensures r == AddVaults(vaults, rows)
  {
    var sums := vaults;
    var i := 0;
    while i < |rows|
      invariant 0 <= i <= |rows| && AddVaults(vaults, rows[..i]) == Some(sums)
    {
      assert rows[..i + 1][..i] == rows[..i];
      var next := AccumulateVault(sums, rows[i]);
      if next.None? {
        VaultPrefixFails(vaults, rows, i + 1);
        return None;
      }
      sums := next.value;
      i := i + 1;
    }
    assert rows[..i] == rows;
    r := Some(sums);
  }

  method AccumulateVault(vaults: map<Text, VaultSum>, v: VaultRow) returns (r: Option<map<Text, VaultSum>>)
    ensures r == AddVault(vaults, v)
  {
    var s := if v.id in vaults then vaults[v.id] else VaultSum(0, 0, 0, 0);
    s := VaultSum(s.accrued + v.accrued, s.leader + v.leaderPaid, s.guardian + v.guardianPaid, s.unfunded + v.unfunded);
    if s.accrued >= UINT64 || s.leader >= UINT64 || s.guardian >= UINT64 || s.unfunded >= UINT64 {
      return None;
    }
    r := Some(vaults[v.id := s]);
  }

  lemma {:induction false} VaultPrefixFails(vaults: map<Text, VaultSum>, rows: seq<VaultRow>, n: nat)
    requires n <= |rows| && AddVaults(vaults, rows[..n]).None?
    ensures AddVaults(vaults, rows).None?
    decreases |rows| - n
  {
    if n == |rows| {
      assert rows[..n] == rows;
    } else {
      assert rows[..n + 1][..n] == rows[..n];
      VaultPrefixFails(vaults, rows, n + 1);
    }
  }

  method AccumulatePositions(positions: map<Text, PositionSum>, rows: seq<Row>) returns (r: Option<map<Text, PositionSum>>)
    ensures r == AddPositions(positions, rows)
  {
    var sums := positions;
    var i := 0;
    while i < |rows|
      invariant 0 <= i <= |rows| && AddPositions(positions, rows[..i]) == Some(sums)
    {
      assert rows[..i + 1][..i] == rows[..i];
      var next := AccumulatePosition(sums, rows[i]);
      if next.None? {
        PositionPrefixFails(positions, rows, i + 1);
        return None;
      }
      sums := next.value;
      i := i + 1;
    }
    assert rows[..i] == rows;
    r := Some(sums);
  }

  method AccumulatePosition(positions: map<Text, PositionSum>, row: Row) returns (r: Option<map<Text, PositionSum>>)
    ensures r == AddPosition(positions, row)
  {
    if row.id == [] || row.beneficiary == [] {
      return None;
    }
    var s := PositionSum(row.beneficiary, row.vaultBefore, [], 0, 0, 0);
    if row.id in positions {
      s := positions[row.id];
    }
    if s.beneficiary != row.beneficiary {
      return None;
    }
    s := s.(vaultAfter := row.vaultAfter, accrued := s.accrued + row.accrued, paid := s.paid + row.paid,
            principal := s.principal + row.principal);
    if s.accrued >= UINT64 || s.paid >= UINT64 || s.principal >= UINT64 {
      return None;
    }
    r := Some(positions[row.id := s]);
  }

  lemma {:induction false} PositionPrefixFails(positions: map<Text, PositionSum>, rows: seq<Row>, n: nat)
    requires n <= |rows| && AddPositions(positions, rows[..n]).None?
    ensures AddPositions(positions, rows).None?
    decreases |rows| - n
  {
    if n == |rows| {
      assert rows[..n] == rows;
    } else {
      assert rows[..n + 1][..n] == rows[..n];
      PositionPrefixFails(positions, rows, n + 1);
    }
  }

  /** The checks on one included block's record. */
  method CheckRecord(env: Env, h: nat, parentTs: int, b: Block, acc: Acc) returns (ok: bool)
    ensures ok == Auditable(env, h, parentTs, b, acc)
  {
    if h == 0 || b.record.None? || !b.record.value.available || !BurnsAddUp(b.record.value.burns) {
      return false;
    }
    var r := b.record.value;
    if (acc.included == 0 && !r.funded) || (acc.closing.Some? && r.record.context.before != acc.closing.value) {
      return false;
    }
    if env.evidence(b, acc.registry).None? || |acc.vaults| + |acc.positions| + |r.record.vaults| + |r.record.rows| > MAX_ENTRIES {
      return false;
    }
    ok := VerifyRecord(r.record, parentTs, b.ts);
  }

  method IncludeBlock(env: Env, h: nat, parentTs: int, b: Block, acc: Acc) returns (r: Option<Acc>)
    ensures r == Include(env, h, parentTs, b, acc)
  {
    var ok := CheckRecord(env, h, parentTs, b, acc);
    if acc.included + 1 > MAX_BLOCKS || !ok {
      return None;
    }
    var record := b.record.value;
    var vaults := AccumulateVaults(acc.vaults, record.record.vaults);
    var positions := AccumulatePositions(acc.positions, record.record.rows);
    var burns := PlusBurns(acc.burns, record.burns);
    if vaults.None? || positions.None? || !BurnsFit(burns) {
      return None;
    }
    var counted := Counted(h, b, acc);
    r := Some(counted.(vaults := vaults.value, positions := positions.value, burns := burns,
                       closing := Some(record.record.context.after), registry := env.evidence(b, acc.registry)));
  }

  /** One round of the ancestry loop. */
  method AuditBlock(env: Env, h: nat, b: Block, acc: Acc) returns (r: Option<Acc>)
    ensures r == StepBlock(env, h, b, acc)
  {
    if h == env.anchor && h > 0 && b.prev != acc.prev {
      return None;
    }
    if h != env.anchor && (b.prev != acc.prev || b.ts < acc.priorTs) {
      return None;
    }
    var seen := acc.(prev := Digest(b), priorTs := b.ts);
    if env.start <= b.ts < env.end {
      r := IncludeBlock(env, h, acc.priorTs, b, seen);
    } else {
      r := Some(seen);
    }
  }

  /** Where a batch from `next` ends: after 256 blocks or at its time limit, but not before one
  block, and at the certificate at the latest. */
  function Stop(next: nat, cert: nat, limit: nat): (r: nat)
    requires next <= cert + 1
    ensures next <= r <= cert + 1 && (next <= cert ==> next < r)
  {
    var most := if limit < 1 then 1 else if limit < 256 then limit else 256;
    if cert + 1 - next < most then cert + 1 else next + most
  }

  /** Audits from saved progress until the batch is full or the certificate is reached. */
  method AuditRange(env: Env, view: seq<Block>, from: Progress, cert: nat, limit: nat) returns (r: Option<Progress>)
    requires from.next <= cert + 1 <= |view|
    ensures r.Some? <==> FoldFrom(env, view, from, Stop(from.next, cert, limit)).Some?
    ensures r.Some? ==> r.value.next == Stop(from.next, cert, limit) && FoldFrom(env, view, from, r.value.next) == Some(r.value.acc)
  {
    var h, acc := from.next, from.acc;
    while h <= cert
      invariant from.next <= h <= Stop(from.next, cert, limit) && FoldFrom(env, view, from, h) == Some(acc)
    {
      if h > from.next && (h - from.next >= BATCH_BLOCKS || h - from.next >= limit) {
        return Some(Progress(acc, h));
      }
      var next := AuditBlock(env, h, view[h], acc);
      if next.None? {
        FoldStaysNone(env, view, from, h + 1, Stop(from.next, cert, limit));
        return None;
      }
      acc, h := next.value, h + 1;
    }
    r := Some(Progress(acc, h));
  }

  /** A pass that fails at a height fails at every later one. */
  lemma {:induction false} FoldStaysNone(env: Env, view: seq<Block>, from: Progress, at: nat, stop: nat)
    requires from.next <= at <= stop <= |view| && FoldFrom(env, view, from, at).None?
    ensures FoldFrom(env, view, from, stop).None?
    decreases stop
  {
    if stop > at {
      FoldStaysNone(env, view, from, at, stop - 1);
    }
  }

  /** The pass up to `stop` succeeds, and is complete if that is the certificate. */
  predicate Passes(env: Env, view: seq<Block>, cert: nat, closer: nat, stop: nat)
    requires env.anchor <= cert < |view|
  {
    && env.anchor <= stop <= cert + 1 && FoldTo(env, view, stop).Some?
    && (stop == cert + 1 ==> Complete(env, FoldTo(env, view, stop).value, closer))
  }

  /** A pass that gets to the certificate gets to every batch end before it, and ends there in its last block. */
  lemma PassesBefore(env: Env, view: seq<Block>, cert: nat, closer: nat, stop: nat)
    requires env.anchor <= cert < |view| && Passes(env, view, cert, closer, cert + 1) && env.anchor < stop <= cert + 1
    ensures Passes(env, view, cert, closer, stop) && FoldTo(env, view, stop).value.prev == Digest(view[stop - 1])
  {
    if FoldTo(env, view, stop).None? {
      PassStaysNone(env, view, stop, cert + 1);
    }
    FoldEndsAt(env, view, stop);
  }

  lemma {:induction false} PassStaysNone(env: Env, view: seq<Block>, at: nat, stop: nat)
    requires env.anchor <= at <= stop <= |view| && FoldTo(env, view, at).None?
    ensures FoldTo(env, view, stop).None?
    decreases stop
  {
    if stop > at {
      PassStaysNone(env, view, at, stop - 1);
    }
  }

  // ---- The job ----

  datatype Report = Report(vaults: map<Text, VaultSum>, positions: map<Text, PositionSum>, burns: Burns, included: nat,
                           first: nat, last: nat, firstTs: int, lastTs: int)

  function ReportOf(acc: Acc): Report {
    Report(acc.vaults, acc.positions, acc.burns, acc.included, acc.first, acc.last, acc.firstTs, acc.lastTs)
  }

  datatype JobState = Queued | Failed | Finished(report: Report)

  class DailyJob {
    var state: JobState
    var progress: Option<Progress>
    ghost var seen: seq<Block>

    constructor ()
      ensures state == Queued && progress == None
    {
      state, progress, seen := Queued, None, [];
    }

    /** Saved progress is what one pass over the chain last seen gives up to its height, and a
    report is that of a complete pass. */
    ghost predicate Faithful(env: Env)
      reads this
    {
      && (progress.Some? ==>
            && Linked(seen) && env.anchor < progress.value.next <= |seen|
            && FoldTo(env, seen, progress.value.next) == Some(progress.value.acc))
      && (state.Finished? ==> progress.Some? && state.report == ReportOf(progress.value.acc))
    }

    /** The height where the next batch starts. */
    function From(env: Env): nat
      reads this
    {
      if progress.Some? then progress.value.next else env.anchor
    }

    /** Saved progress still belongs to this chain: its last block is canonical and certified. */
    predicate Resumes(view: seq<Block>, cert: nat)
      requires cert < |view|
      reads this
    {
      progress.Some? ==> 0 < progress.value.next <= cert + 1 && progress.value.acc.prev == Digest(view[progress.value.next - 1])
    }

    /** Where a batch starts: at the anchor, or where the saved progress ends if its last block is
    still canonical. */
    method Resume(env: Env, view: seq<Block>, cert: nat) returns (from: Option<Progress>)
      requires Faithful(env) && Linked(view) && env.anchor <= cert < |view|
      ensures from.Some? <==> Resumes(view, cert)
      ensures from.Some? ==>
        from.value.next == From(env) && env.anchor <= From(env) <= cert + 1 && FoldTo(env, view, From(env)) == Some(from.value.acc)
    {
      if progress.None? {
        return Some(Progress(Opened(env, view), env.anchor));
      }
      var p := progress.value;
      if p.next > cert + 1 || p.acc.prev != Digest(view[p.next - 1]) {
        return None;
      }
      FoldEndsAt(env, seen, p.next);
      HashFixesPrefix(seen, view, p.next);
      FoldPrefix(env, seen, view, p.next);
      from := Some(p);
    }

    /** One batch over the chain as it is now. `bound` says that certificate, finality and prune
    bindings still hold afterwards, `current` that the job was not replaced meanwhile, `disk`
    that saving worked. The batch fails exactly when the progress does not resume, the pass does
    not get to the end of the batch, the bindings are lost or saving fails. */
    method RunBatch(env: Env, view: seq<Block>, cert: nat, closer: nat, limit: nat, bound: bool, current: bool, disk: bool)
      requires Faithful(env) && Linked(view) && env.anchor <= cert < |view|
      modifies this
      ensures Faithful(env)
      ensures state.Finished? && old(state) != state ==>
        && FoldTo(env, view, cert + 1).Some? && Complete(env, FoldTo(env, view, cert + 1).value, closer)
        && state.report == ReportOf(FoldTo(env, view, cert + 1).value)
      ensures old(state) != Queued || !current ==> state == old(state) && progress == old(progress)
      ensures old(state) == Queued && current ==>
        var good := bound && old(Resumes(view, cert)) && old(Passes(env, view, cert, closer, Stop(From(env), cert, limit)));
        && (state.Failed? <==> !good || !disk)
        && (!good ==> progress == old(progress))
        && (good && !disk ==> progress == None)
        && (good && disk ==>
              var stop := Stop(old(From(env)), cert, limit);
              progress == Some(Progress(FoldTo(env, view, stop).value, stop)) && (state.Finished? <==> stop == cert + 1))
    {
      if state != Queued || !current {
        return;
      }
      var from := Resume(env, view, cert);
      if from.None? {
        state := Failed;
        return;
      }
      var p := AuditRange(env, view, from.value, cert, limit);
      FoldContinues(env, view, from.value, Stop(From(env), cert, limit));
      if p.None? || !bound || (p.value.next == cert + 1 && !Complete(env, p.value.acc, closer)) {
        state := Failed;
        return;
      }
      if !disk {
        state, progress := Failed, None;
        return;
      }
      progress, seen := p, view;
      if p.value.next == cert + 1 {
        state := Finished(ReportOf(p.value.acc));
      }
    }

    /** Batches repeated on a certified chain finish, whatever time each of them gets, and the report
    is that of one pass. */
    method RunToEnd(env: Env, view: seq<Block>, cert: nat, closer: nat, limits: nat -> nat)
      requires Faithful(env) && Linked(view) && env.anchor <= cert < |view|
      requires state == Queued && Resumes(view, cert) && Passes(env, view, cert, closer, cert + 1)
      modifies this
      ensures Faithful(env) && state == Finished(ReportOf(FoldTo(env, view, cert + 1).value))
    {
      var round := 0;
      while state == Queued
        invariant Faithful(env)
        invariant state == Queued ==> Resumes(view, cert) && env.anchor <= From(env)
        invariant state != Queued ==> state == Finished(ReportOf(FoldTo(env, view, cert + 1).value))
        decreases state == Queued, cert + 1 - From(env)
      {
        PassesBefore(env, view, cert, closer, Stop(From(env), cert, limits(round)));
        RunBatch(env, view, cert, closer, limits(round), true, true, true);
        round := round + 1;
      }
    }
  }
}
