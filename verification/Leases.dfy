/** Wallet snapshots shared by concurrent requests: leases keep a read view alive, closing
and expiry defer its release, and capture runs in two critical sections. Every step below
is one critical section, so a list of steps is an interleaving of requests. */
module Leases {
  import opened Options

  const GLOBAL_LIMIT: int := 16
  const ADDRESS_LIMIT: int := 2
  const CHECKPOINT_LIMIT: int := 0x200_0000

  /** `reading` says that the pinned view has not been released. */
  datatype Entry = Entry(id: nat, address: nat, reading: bool, bytes: nat, expiresAt: int, inflight: int, closed: bool)

  /** `done` is the lease's once flag. */
  datatype Lease = Lease(entry: nat, done: bool)

  /** A capture between its two critical sections, holding the creation lock. */
  datatype Pending = Pending(address: nat, available: int)

  /** `table` and `leases` hold every object ever created; `released` counts how often each
  view was handed back to the store. */
  datatype Pool = Pool(
    table: map<nat, Entry>,
    entries: map<nat, nat>,
    active: int,
    byAddress: map<nat, int>,
    bytes: int,
    leases: map<nat, Lease>,
    released: map<nat, nat>,
    pending: Option<Pending>)

  function ActiveAt(p: Pool, a: nat): int {
    if a in p.byAddress then p.byAddress[a] else 0
  }

  function ReleaseIfIdle(p: Pool, e: nat): Pool
    requires e in p.table && e in p.released
  {
    var x := p.table[e];
    if !x.closed || x.inflight != 0 || !x.reading then p
    else
      var left := ActiveAt(p, x.address) - 1;
      p.(table := p.table[e := x.(reading := false, bytes := 0)],
         active := p.active - 1,
         byAddress := if left == 0 then p.byAddress - {x.address} else p.byAddress[x.address := left],
         bytes := if p.bytes - x.bytes < 0 then 0 else p.bytes - x.bytes,
         released := p.released[e := p.released[e] + 1])
  }

  /** Unlisting an entry, by close, expiry or shutdown. */
  function Retire(p: Pool, id: nat): Pool
    requires id in p.entries && p.entries[id] in p.table && p.entries[id] in p.released
  {
    var e := p.entries[id];
    ReleaseIfIdle(p.(entries := p.entries - {id}, table := p.table[e := p.table[e].(closed := true)]), e)
  }

  function Lend(p: Pool, e: nat, l: nat): Pool
    requires e in p.table
  {
    p.(table := p.table[e := p.table[e].(inflight := p.table[e].inflight + 1)],
       leases := p.leases[l := Lease(e, false)])
  }

  /** The body of a lease's once: a second call does nothing. */
  function Return(p: Pool, l: nat): Pool
    requires l in p.leases && p.leases[l].entry in p.table && p.leases[l].entry in p.released
  {
    if p.leases[l].done then p
    else
      var e := p.leases[l].entry;
      var x := p.table[e];
      var left := if x.inflight - 1 < 0 then 0 else x.inflight - 1;
      ReleaseIfIdle(p.(table := p.table[e := x.(inflight := left)], leases := p.leases[l := Lease(e, true)]), e)
  }

  predicate MayCapture(p: Pool, address: nat) {
    && p.active < GLOBAL_LIMIT
    && ActiveAt(p, address) < ADDRESS_LIMIT
    && CHECKPOINT_LIMIT - p.bytes > 0
  }

  /** The second critical section: list the new entry with its first lease. */
  function Publish(p: Pool, e: nat, l: nat, x: Entry): Pool {
    p.(table := p.table[e := x], released := p.released[e := 0],
       entries := p.entries[x.id := e],
       active := p.active + 1,
       byAddress := p.byAddress[x.address := ActiveAt(p, x.address) + 1],
       bytes := p.bytes + x.bytes,
       leases := p.leases[l := Lease(e, false)],
       pending := None)
  }

  datatype Step =
    | BeginCapture(address: nat)
    | AbortCapture
    | FinishCapture(e: nat, l: nat, id: nat, size: nat, expiresAt: int)
    | Acquire(id: nat, address: nat, l: nat)
    | Close(id: nat)
    | Expire(id: nat)
    | Release(l: nat)

  /** When the code takes this critical section; fresh objects get fresh names. */
  predicate Enabled(p: Pool, s: Step) {
    match s
    case BeginCapture(a) => p.pending.None? && MayCapture(p, a)
    case AbortCapture => p.pending.Some?
    case FinishCapture(e, l, id, size, _) =>
      p.pending.Some? && size <= p.pending.value.available && id !in p.entries && e !in p.table && l !in p.leases
    case Acquire(id, a, l) =>
      id in p.entries && p.entries[id] in p.table && p.table[p.entries[id]].address == a && l !in p.leases
    case Close(id) => Listed(p, id)
    case Expire(id) => Listed(p, id)
    case Release(l) => l in p.leases && p.leases[l].entry in p.table && p.leases[l].entry in p.released
  }

  predicate Listed(p: Pool, id: nat) {
    id in p.entries && p.entries[id] in p.table && p.entries[id] in p.released
  }

  function Next(p: Pool, s: Step): Pool
    requires Enabled(p, s)
  {
    match s
    case BeginCapture(a) => p.(pending := Some(Pending(a, CHECKPOINT_LIMIT - p.bytes)))
    case AbortCapture => p.(pending := None)
    case FinishCapture(e, l, id, size, expiresAt) =>
      Publish(p, e, l, Entry(id, p.pending.value.address, true, size, expiresAt, 1, false))
    case Acquire(id, _, l) => Lend(p, p.entries[id], l)
    case Close(id) => Retire(p, id)
    case Expire(id) => Retire(p, id)
    case Release(l) => Return(p, l)
  }

  function Run(steps: seq<Step>): Option<Pool> {
    if |steps| == 0 then Some(Pool(map[], map[], 0, map[], 0, map[], map[], None))
    else
      var before := Run(steps[..|steps| - 1]);
      if before.Some? && Enabled(before.value, steps[|steps| - 1])
      then Some(Next(before.value, steps[|steps| - 1])) else None
  }

  // ---- Reference counts: what the counters should be ----

  function Live(table: map<nat, Entry>): set<nat> {
    set e | e in table && table[e].reading
  }

  function LiveAt(table: map<nat, Entry>, a: nat): set<nat> {
    set e | e in table && table[e].reading && table[e].address == a
  }

  function Outstanding(leases: map<nat, Lease>, e: nat): set<nat> {
    set l | l in leases && leases[l].entry == e && !leases[l].done
  }

  ghost function SumBytes(table: map<nat, Entry>, s: set<nat>): nat
    requires s <= table.Keys
  {
    if s == {} then 0
    else
      var e :| e in s;
      table[e].bytes + SumBytes(table, s - {e})
  }

  lemma {:induction false} SumRemove(table: map<nat, Entry>, s: set<nat>, e: nat)
    requires s <= table.Keys && e in s
    ensures SumBytes(table, s) == table[e].bytes + SumBytes(table, s - {e})
    decreases s
  {
    var d :| d in s && SumBytes(table, s) == table[d].bytes + SumBytes(table, s - {d});
    if d != e {
      SumRemove(table, s - {d}, e);
      SumRemove(table, s - {e}, d);
      assert s - {d} - {e} == s - {e} - {d};
    }
  }

  lemma {:induction false} SumSame(table: map<nat, Entry>, table': map<nat, Entry>, s: set<nat>)
    requires s <= table.Keys && s <= table'.Keys
    requires forall e :: e in s ==> table[e].bytes == table'[e].bytes
    ensures SumBytes(table, s) == SumBytes(table', s)
    decreases s
  {
    if s != {} {
      var e :| e in s;
      SumRemove(table, s, e);
      SumRemove(table', s, e);
      SumSame(table, table', s - {e});
    }
  }

  // ---- The invariant ----

  ghost predicate EntryInv(p: Pool, e: nat)
    requires e in p.table
  {
    var x := p.table[e];
    && x.inflight == |Outstanding(p.leases, e)|
    && (x.reading ==> !x.closed || x.inflight > 0)
    && (!x.reading ==> x.closed && x.inflight == 0)
    && e in p.released && p.released[e] == (if x.reading then 0 else 1)
    && (!x.closed ==> x.id in p.entries && p.entries[x.id] == e)
  }

  ghost predicate TableInv(p: Pool) {
    && (forall e :: e in p.table ==> EntryInv(p, e))
    && (forall l :: l in p.leases ==> p.leases[l].entry in p.table)
    && (forall id :: id in p.entries ==>
          p.entries[id] in p.table && p.table[p.entries[id]].id == id && !p.table[p.entries[id]].closed)
  }

  ghost predicate CountInv(p: Pool) {
    && p.active == |Live(p.table)|
    && (forall a :: ActiveAt(p, a) == |LiveAt(p.table, a)|)
    && (forall a :: a in p.byAddress ==> p.byAddress[a] > 0)
    && p.bytes == SumBytes(p.table, Live(p.table))
  }

  ghost predicate BoundInv(p: Pool) {
    && p.active <= GLOBAL_LIMIT
    && (forall a :: ActiveAt(p, a) <= ADDRESS_LIMIT)
    && p.bytes <= CHECKPOINT_LIMIT
    && (p.pending.Some? ==>
          && p.active < GLOBAL_LIMIT
          && ActiveAt(p, p.pending.value.address) < ADDRESS_LIMIT
          && p.bytes + p.pending.value.available <= CHECKPOINT_LIMIT)
  }

  ghost predicate Inv(p: Pool) {
    TableInv(p) && CountInv(p) && BoundInv(p)
  }

  /** Everything but "no idle closed view" for entry `e`, just before ReleaseIfIdle(e). */
  ghost predicate AlmostInv(p: Pool, e: nat) {
    && e in p.table && e in p.released
    && (forall d :: d in p.table && d != e ==> EntryInv(p, d))
    && p.table[e].inflight == |Outstanding(p.leases, e)|
    && (!p.table[e].reading ==> p.table[e].closed && p.table[e].inflight == 0)
    && p.released[e] == (if p.table[e].reading then 0 else 1)
    && (!p.table[e].closed ==> p.table[e].id in p.entries && p.entries[p.table[e].id] == e)
    && (forall l :: l in p.leases ==> p.leases[l].entry in p.table)
    && (forall id :: id in p.entries ==>
          p.entries[id] in p.table && p.table[p.entries[id]].id == id && !p.table[p.entries[id]].closed)
    && CountInv(p) && BoundInv(p)
  }

  /** Releasing one view lowers every reference count by exactly its share. */
  lemma DropLive(table: map<nat, Entry>, e: nat)
    requires e in table && table[e].reading
    ensures
      var table' := table[e := table[e].(reading := false, bytes := 0)];
      && |Live(table')| == |Live(table)| - 1
      && SumBytes(table', Live(table')) == SumBytes(table, Live(table)) - table[e].bytes
      && forall a :: |LiveAt(table', a)| == |LiveAt(table, a)| - (if a == table[e].address then 1 else 0)
  {
    var table' := table[e := table[e].(reading := false, bytes := 0)];
    assert e in Live(table);
    assert Live(table') == Live(table) - {e};
    SumRemove(table, Live(table), e);
    SumSame(table, table', Live(table'));
    forall a ensures |LiveAt(table', a)| == |LiveAt(table, a)| - (if a == table[e].address then 1 else 0) {
      DropLiveAt(table, e, a);
    }
  }

  lemma DropLiveAt(table: map<nat, Entry>, e: nat, a: nat)
    requires e in table && table[e].reading
    ensures |LiveAt(table[e := table[e].(reading := false, bytes := 0)], a)| == |LiveAt(table, a)| - (if a == table[e].address then 1 else 0)
  {
    var table' := table[e := table[e].(reading := false, bytes := 0)];
    if a == table[e].address {
      assert e in LiveAt(table, a);
      assert LiveAt(table', a) == LiveAt(table, a) - {e};
    } else {
      assert LiveAt(table', a) == LiveAt(table, a);
    }
  }

  lemma AddLive(table: map<nat, Entry>, e: nat, x: Entry)
    requires e !in table && x.reading
    ensures
      var table' := table[e := x];
      && |Live(table')| == |Live(table)| + 1
      && SumBytes(table', Live(table')) == SumBytes(table, Live(table)) + x.bytes
  {
    var table' := table[e := x];
    assert Live(table') == Live(table) + {e};
    SumRemove(table', Live(table'), e);
    assert Live(table') - {e} == Live(table);
    SumSame(table, table', Live(table));
  }

  lemma AddLiveAt(table: map<nat, Entry>, e: nat, x: Entry, a: nat)
    requires e !in table && x.reading
    ensures |LiveAt(table[e := x], a)| == |LiveAt(table, a)| + (if a == x.address then 1 else 0)
  {
    if a == x.address {
      assert LiveAt(table[e := x], a) == LiveAt(table, a) + {e};
    } else {
      assert LiveAt(table[e := x], a) == LiveAt(table, a);
    }
  }

  lemma ReleaseCounts(p: Pool, e: nat)
    requires e in p.table && e in p.released && CountInv(p) && BoundInv(p)
    ensures CountInv(ReleaseIfIdle(p, e)) && BoundInv(ReleaseIfIdle(p, e))
  {
    var q := ReleaseIfIdle(p, e);
    var x := p.table[e];
    if x.closed && x.inflight == 0 && x.reading {
      DropLive(p.table, e);
      assert ActiveAt(p, x.address) == |LiveAt(p.table, x.address)|;
      forall a ensures ActiveAt(q, a) == |LiveAt(q.table, a)| && ActiveAt(q, a) <= ActiveAt(p, a) {
        assert ActiveAt(p, a) == |LiveAt(p.table, a)|;
      }
    }
  }

  /** An entry no step touched keeps its part of the invariant. */
  lemma EntryFrame(p: Pool, q: Pool, d: nat)
    requires d in p.table && EntryInv(p, d)
    requires d in q.table && q.table[d] == p.table[d]
    requires d in q.released && q.released[d] == p.released[d]
    requires Outstanding(q.leases, d) == Outstanding(p.leases, d)
    requires !q.table[d].closed ==> q.table[d].id in q.entries && q.entries[q.table[d].id] == d
    ensures EntryInv(q, d)
  {
  }

  lemma ReleaseKeeps(p: Pool, e: nat)
    requires AlmostInv(p, e)
    ensures Inv(ReleaseIfIdle(p, e))
  {
    var q := ReleaseIfIdle(p, e);
    ReleaseCounts(p, e);
    forall d | d in q.table ensures EntryInv(q, d) {
      if d != e {
        assert EntryInv(p, d);
      }
    }
  }

  /** Changing only `closed`, `inflight` and the lists keeps every counter. */
  lemma CountsFrame(p: Pool, q: Pool)
    requires CountInv(p) && BoundInv(p)
    requires q.active == p.active && q.byAddress == p.byAddress && q.bytes == p.bytes && q.pending == p.pending
    requires q.table.Keys == p.table.Keys
    requires forall e :: e in p.table ==>
      q.table[e].reading == p.table[e].reading && q.table[e].address == p.table[e].address && q.table[e].bytes == p.table[e].bytes
    ensures CountInv(q) && BoundInv(q)
  {
    assert Live(q.table) == Live(p.table);
    SumSame(p.table, q.table, Live(p.table));
    forall a ensures ActiveAt(q, a) == |LiveAt(q.table, a)| && ActiveAt(q, a) == ActiveAt(p, a) {
      assert LiveAt(q.table, a) == LiveAt(p.table, a);
    }
  }

  lemma RetireKeeps(p: Pool, id: nat)
    requires Inv(p) && id in p.entries && p.entries[id] in p.table && p.entries[id] in p.released
    ensures Inv(Retire(p, id))
  {
    var e := p.entries[id];
    var q := p.(entries := p.entries - {id}, table := p.table[e := p.table[e].(closed := true)]);
    CountsFrame(p, q);
    forall d | d in q.table && d != e ensures EntryInv(q, d) {
      assert EntryInv(p, d);
    }
    assert EntryInv(p, e);
    ReleaseKeeps(q, e);
  }

  lemma LeaseAdded(leases: map<nat, Lease>, l: nat, e: nat, d: nat)
    requires l !in leases
    ensures
      var after := leases[l := Lease(e, false)];
      Outstanding(after, d) == if d == e then Outstanding(leases, d) + {l} else Outstanding(leases, d)
    ensures |Outstanding(leases[l := Lease(e, false)], d)| == |Outstanding(leases, d)| + (if d == e then 1 else 0)
  {
    var after := leases[l := Lease(e, false)];
    if d == e {
      assert Outstanding(after, d) == Outstanding(leases, d) + {l};
    } else {
      assert Outstanding(after, d) == Outstanding(leases, d);
    }
  }

  lemma LeaseDone(leases: map<nat, Lease>, l: nat, d: nat)
    requires l in leases && !leases[l].done
    ensures
      var after := leases[l := leases[l].(done := true)];
      && (d != leases[l].entry ==> Outstanding(after, d) == Outstanding(leases, d))
      && |Outstanding(after, d)| == |Outstanding(leases, d)| - (if d == leases[l].entry then 1 else 0)
  {
    var after := leases[l := leases[l].(done := true)];
    if d == leases[l].entry {
      assert l in Outstanding(leases, d);
      assert Outstanding(after, d) == Outstanding(leases, d) - {l};
    } else {
      assert Outstanding(after, d) == Outstanding(leases, d);
    }
  }

  lemma LendKeeps(p: Pool, id: nat, l: nat)
    requires Inv(p) && id in p.entries && p.entries[id] in p.table && l !in p.leases
    ensures Inv(Lend(p, p.entries[id], l))
  {
    var e := p.entries[id];
    var q := Lend(p, e, l);
    CountsFrame(p, q);
    forall d | d in q.table ensures EntryInv(q, d) {
      LendEntry(p, id, l, d);
    }
  }

  lemma LendEntry(p: Pool, id: nat, l: nat, d: nat)
    requires Inv(p) && id in p.entries && p.entries[id] in p.table && l !in p.leases && d in p.table
    ensures EntryInv(Lend(p, p.entries[id], l), d)
  {
    var e := p.entries[id];
    assert EntryInv(p, d);
    LeaseAdded(p.leases, l, e, d);
    if d != e {
      EntryFrame(p, Lend(p, e, l), d);
    }
  }

  function MarkDone(p: Pool, l: nat): Pool
    requires l in p.leases && p.leases[l].entry in p.table
  {
    var e := p.leases[l].entry;
    p.(table := p.table[e := p.table[e].(inflight := p.table[e].inflight - 1)],
       leases := p.leases[l := p.leases[l].(done := true)])
  }

  lemma MarkDoneAlmost(p: Pool, l: nat)
    requires Inv(p) && l in p.leases && p.leases[l].entry in p.table && !p.leases[l].done
    ensures AlmostInv(MarkDone(p, l), p.leases[l].entry)
    ensures p.table[p.leases[l].entry].inflight > 0
  {
    var e, q := p.leases[l].entry, MarkDone(p, l);
    CountsFrame(p, q);
    assert EntryInv(p, e);
    LeaseDone(p.leases, l, e);
    assert l in Outstanding(p.leases, e);
    forall d | d in q.table && d != e ensures EntryInv(q, d) {
      assert EntryInv(p, d);
      LeaseDone(p.leases, l, d);
      EntryFrame(p, q, d);
    }
  }

  lemma ReturnKeeps(p: Pool, l: nat)
    requires Inv(p) && l in p.leases && p.leases[l].entry in p.table && p.leases[l].entry in p.released
    ensures Inv(Return(p, l))
  {
    if !p.leases[l].done {
      MarkDoneAlmost(p, l);
      ReleaseKeeps(MarkDone(p, l), p.leases[l].entry);
    }
  }

  lemma PublishCounts(p: Pool, e: nat, l: nat, x: Entry)
    requires CountInv(p) && BoundInv(p) && p.pending.Some? && e !in p.table
    requires x.reading && x.address == p.pending.value.address && x.bytes <= p.pending.value.available
    ensures CountInv(Publish(p, e, l, x)) && BoundInv(Publish(p, e, l, x))
  {
    var q := Publish(p, e, l, x);
    AddLive(p.table, e, x);
    forall a ensures ActiveAt(q, a) == |LiveAt(q.table, a)| && ActiveAt(q, a) <= ADDRESS_LIMIT {
      AddLiveAt(p.table, e, x, a);
      assert ActiveAt(p, a) == |LiveAt(p.table, a)|;
    }
  }

  lemma PublishEntry(p: Pool, e: nat, l: nat, x: Entry, d: nat)
    requires TableInv(p) && e !in p.table && l !in p.leases && x.id !in p.entries
    requires x.reading && !x.closed && x.inflight == 1
    requires d in Publish(p, e, l, x).table
    ensures EntryInv(Publish(p, e, l, x), d)
  {
    LeaseAdded(p.leases, l, e, d);
    if d != e {
      assert EntryInv(p, d);
      EntryFrame(p, Publish(p, e, l, x), d);
    } else {
      assert Outstanding(p.leases, e) == {};
    }
  }

  lemma PublishKeeps(p: Pool, s: Step)
    requires Inv(p) && s.FinishCapture? && Enabled(p, s)
    ensures Inv(Next(p, s))
  {
    var x := Entry(s.id, p.pending.value.address, true, s.size, s.expiresAt, 1, false);
    var q := Publish(p, s.e, s.l, x);
    PublishCounts(p, s.e, s.l, x);
    forall d | d in q.table ensures EntryInv(q, d) {
      PublishEntry(p, s.e, s.l, x, d);
    }
  }

  lemma StepKeeps(p: Pool, s: Step)
    requires Inv(p) && Enabled(p, s)
    ensures Inv(Next(p, s))
  {
    match s
    case BeginCapture(_) =>
      assert forall e :: e in p.table ==> EntryInv(p, e);
      TableFrame(p, Next(p, s));
    case AbortCapture =>
      TableFrame(p, Next(p, s));
    case FinishCapture(_, _, _, _, _) => PublishKeeps(p, s);
    case Acquire(id, _, l) => LendKeeps(p, id, l);
    case Close(id) => RetireKeeps(p, id);
    case Expire(id) => RetireKeeps(p, id);
    case Release(l) => ReturnKeeps(p, l);
  }

  lemma TableFrame(p: Pool, q: Pool)
    requires TableInv(p) && CountInv(p)
    requires q == p.(pending := q.pending)
    ensures TableInv(q) && CountInv(q)
  {
    forall e | e in q.table ensures EntryInv(q, e) {
      assert EntryInv(p, e);
    }
    forall a ensures ActiveAt(q, a) == |LiveAt(q.table, a)| {
      assert ActiveAt(p, a) == |LiveAt(p.table, a)|;
    }
  }

  // ---- Main results, over every interleaving ----

  lemma {:induction false} RunKeeps(steps: seq<Step>)
    requires Run(steps).Some?
    ensures Inv(Run(steps).value)
  {
    if |steps| == 0 {
      assert Live(map[]) == {};
      forall a ensures LiveAt(map[], a) == {} { }
    } else {
      RunKeeps(steps[..|steps| - 1]);
      StepKeeps(Run(steps[..|steps| - 1]).value, steps[|steps| - 1]);
    }
  }

  /** A view is released at most once and never while a lease on it is outstanding; a closed
  view without leases has been released. */
  lemma LeaseSafety(steps: seq<Step>, e: nat)
    requires Run(steps).Some? && e in Run(steps).value.table
    ensures
      var p := Run(steps).value;
      && e in p.released && p.released[e] <= 1
      && (Outstanding(p.leases, e) != {} ==> p.table[e].reading && p.released[e] == 0)
      && (p.table[e].closed && Outstanding(p.leases, e) == {} ==> p.released[e] == 1)
      && p.table[e].inflight == |Outstanding(p.leases, e)|
  {
    RunKeeps(steps);
    var p := Run(steps).value;
    assert EntryInv(p, e);
    if Outstanding(p.leases, e) != {} {
      var l :| l in Outstanding(p.leases, e);
      assert Outstanding(p.leases, e) == {l} + (Outstanding(p.leases, e) - {l});
    }
  }

  /** The counters equal the unreleased views they describe, and all three capacities hold. */
  lemma CapacityBounds(steps: seq<Step>, a: nat)
    requires Run(steps).Some?
    ensures
      var p := Run(steps).value;
      && p.active == |Live(p.table)| <= GLOBAL_LIMIT
      && ActiveAt(p, a) == |LiveAt(p.table, a)| <= ADDRESS_LIMIT
      && p.bytes == SumBytes(p.table, Live(p.table)) <= CHECKPOINT_LIMIT
  {
    RunKeeps(steps);
  }

  lemma {:induction false} PendingRoom(steps: seq<Step>)
    requires Run(steps).Some? && Run(steps).value.pending.Some?
    ensures Run(steps).value.pending.value.available > 0
  {
    var before := Run(steps[..|steps| - 1]).value;
    if before.pending.Some? {
      PendingRoom(steps[..|steps| - 1]);
    }
  }

  /** When a capture may begin, told by the unreleased views themselves: fewer than 16 of them, fewer
  than 2 for the address, less than 32 MB, and no other capture under way. One that is under way has
  room left and finishes with whatever fits that room. */
  lemma CaptureExactly(steps: seq<Step>, a: nat, e: nat, l: nat, id: nat, size: nat, expiresAt: int)
    requires Run(steps).Some?
    ensures
      var p := Run(steps).value;
      && (Enabled(p, BeginCapture(a)) <==>
            p.pending.None? && |Live(p.table)| < 16 && |LiveAt(p.table, a)| < 2 && SumBytes(p.table, Live(p.table)) < 0x200_0000)
      && (p.pending.Some? ==>
            && |Live(p.table)| < 16 && |LiveAt(p.table, p.pending.value.address)| < 2
            && 0 < p.pending.value.available <= 0x200_0000 - SumBytes(p.table, Live(p.table))
            && (Enabled(p, FinishCapture(e, l, id, size, expiresAt)) <==>
                  size <= p.pending.value.available && id !in p.entries && e !in p.table && l !in p.leases))
  {
    RunKeeps(steps);
    if Run(steps).value.pending.Some? {
      PendingRoom(steps);
    }
  }
}
