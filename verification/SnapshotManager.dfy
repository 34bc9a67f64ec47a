/** The wallet snapshot manager as an object whose maps and counters change in place. Each
method is one critical section (or, for capture, one of its two); its contract names the
steps of the value model in `Leases` it performs, so what holds over every list of steps
holds of the object. */
module SnapshotManager {
  import opened Leases
  import opened Options

  /** Every listed entry and every leased one exists. */
  predicate Wired(p: Pool) {
    && (forall id :: id in p.entries ==> Listed(p, id))
    && (forall l :: l in p.leases ==> p.leases[l].entry in p.table && p.leases[l].entry in p.released)
  }

  lemma InvIsWired(p: Pool)
    requires Inv(p)
    ensures Wired(p)
  {
    forall id | id in p.entries ensures Listed(p, id) {
      assert EntryInv(p, p.entries[id]);
    }
    forall l | l in p.leases ensures p.leases[l].entry in p.released {
      assert EntryInv(p, p.leases[l].entry);
    }
  }

  /** Every reachable pool meets what the methods below demand. */
  lemma ReachableIsWired(steps: seq<Step>)
    requires Run(steps).Some?
    ensures Wired(Run(steps).value)
  {
    RunKeeps(steps);
    InvIsWired(Run(steps).value);
  }

  lemma PublishWired(p: Pool, e: nat, l: nat, x: Entry)
    requires Wired(p) && e !in p.table
    ensures Wired(Publish(p, e, l, x))
  {
    var q := Publish(p, e, l, x);
    forall id | id in q.entries ensures Listed(q, id) {
      assert id != x.id ==> Listed(p, id);
    }
  }

  /** Expiring listed entries one after another. */
  function ExpireAll(p: Pool, ids: seq<nat>): Option<Pool> {
    if |ids| == 0 then Some(p)
    else
      var before := ExpireAll(p, ids[..|ids| - 1]);
      var s := Expire(ids[|ids| - 1]);
      if before.Some? && Enabled(before.value, s) then Some(Next(before.value, s)) else None
  }

  lemma ExpireAllSnoc(p: Pool, ids: seq<nat>, q: Pool, id: nat)
    requires ExpireAll(p, ids) == Some(q) && Listed(q, id)
    ensures ExpireAll(p, ids + [id]) == Some(Retire(q, id))
  {
    assert (ids + [id])[..|ids + [id]| - 1] == ids;
  }

  /** Retiring an entry touches no other. */
  lemma RetireWired(p: Pool, id: nat)
    requires Wired(p) && Listed(p, id)
    ensures Wired(Retire(p, id)) && Retire(p, id).pending == p.pending && Retire(p, id).leases == p.leases
    ensures Retire(p, id).entries == p.entries - {id} && Retire(p, id).table.Keys == p.table.Keys
    ensures forall e :: e in p.table ==> Retire(p, id).table[e].expiresAt == p.table[e].expiresAt
  {
    var q := Retire(p, id);
    forall other | other in q.entries ensures Listed(q, other) {
      assert Listed(p, other);
    }
  }

  /** A whole expiry pass keeps the invariant. */
  lemma {:induction false} ExpireAllKeeps(p: Pool, ids: seq<nat>)
    requires Inv(p) && ExpireAll(p, ids).Some?
    ensures Inv(ExpireAll(p, ids).value)
  {
    if |ids| > 0 {
      ExpireAllKeeps(p, ids[..|ids| - 1]);
      StepKeeps(ExpireAll(p, ids[..|ids| - 1]).value, Expire(ids[|ids| - 1]));
    }
  }

  class Manager {
    var table: map<nat, Entry>
    var entries: map<nat, nat>
    var active: int
    var byAddress: map<nat, int>
    var bytes: int
    var leases: map<nat, Lease>
    var released: map<nat, nat>
    var pending: Option<Pending>

    ghost function State(): Pool
      reads this
    {
      Pool(table, entries, active, byAddress, bytes, leases, released, pending)
    }

    constructor ()
      ensures Some(State()) == Leases.Run([])
    {
      table, entries, active, byAddress, bytes := map[], map[], 0, map[], 0;
      leases, released, pending := map[], map[], None;
    }

    method ReleaseIfIdleLocked(e: nat)
      requires e in table && e in released
      modifies this
      ensures State() == ReleaseIfIdle(old(State()), e)
    {
      var x := table[e];
      if !x.closed || x.inflight != 0 || !x.reading {
        return;
      }
      var left := (if x.address in byAddress then byAddress[x.address] else 0) - 1;
      var rest := bytes - x.bytes;
      if rest < 0 {
        rest := 0;
      }
      released, active, bytes := released[e := released[e] + 1], active - 1, rest;
      if left == 0 {
        byAddress := byAddress - {x.address};
      } else {
        byAddress := byAddress[x.address := left];
      }
      table := table[e := x.(reading := false, bytes := 0)];
    }

    method RetireLocked(id: nat)
      requires Listed(State(), id)
      modifies this
      ensures State() == Retire(old(State()), id)
    {
      var e := entries[id];
      entries := entries - {id};
      table := table[e := table[e].(closed := true)];
      ReleaseIfIdleLocked(e);
    }

    /** Retire every listed entry whose deadline has passed, in map order. */
    method ExpireLocked(now: int) returns (ghost ids: seq<nat>)
      requires Wired(State())
      modifies this
      ensures Wired(State()) && ExpireAll(old(State()), ids) == Some(State())
      ensures pending == old(pending) && leases == old(leases) && table.Keys == old(table.Keys)
      ensures forall id :: id in entries ==> now < table[entries[id]].expiresAt
    {
      ids := [];
      var todo := entries.Keys;
      while todo != {}
        invariant Wired(State()) && ExpireAll(old(State()), ids) == Some(State())
        invariant pending == old(pending) && leases == old(leases) && table.Keys == old(table.Keys)
        invariant todo <= entries.Keys
        invariant forall id :: id in entries && id !in todo ==> now < table[entries[id]].expiresAt
        decreases |todo|
      {
        var id :| id in todo;
        if table[entries[id]].expiresAt <= now {
          ExpireAllSnoc(old(State()), ids, State(), id);
          RetireWired(State(), id);
          RetireLocked(id);
          ids := ids + [id];
        }
        todo := todo - {id};
      }
    }

    method Acquire(id: nat, address: nat, now: int, l: nat) returns (ok: bool, ghost ids: seq<nat>)
      requires Wired(State()) && l !in leases
      modifies this
      ensures Wired(State())
      ensures ExpireAll(old(State()), ids).Some?
      ensures
        var mid := ExpireAll(old(State()), ids).value;
        && ok == Enabled(mid, Step.Acquire(id, address, l))
        && State() == if ok then Next(mid, Step.Acquire(id, address, l)) else mid
    {
      ids := ExpireLocked(now);
      if id !in entries || table[entries[id]].address != address {
        return false, ids;
      }
      var e := entries[id];
      table := table[e := table[e].(inflight := table[e].inflight + 1)];
      leases := leases[l := Lease(e, false)];
      ok := true;
    }

    method Close(id: nat, address: nat, now: int) returns (ok: bool, ghost ids: seq<nat>)
      requires Wired(State())
      modifies this
      ensures Wired(State())
      ensures ExpireAll(old(State()), ids).Some?
      ensures
        var mid := ExpireAll(old(State()), ids).value;
        && ok == (Listed(mid, id) && mid.table[mid.entries[id]].address == address)
        && State() == if ok then Next(mid, Step.Close(id)) else mid
    {
      ids := ExpireLocked(now);
      if id !in entries || table[entries[id]].address != address {
        return false, ids;
      }
      RetireLocked(id);
      ok := true;
    }

    /** Returning a lease; the once flag makes a second call a no-op. */
    method Release(l: nat)
      requires Wired(State()) && l in leases
      modifies this
      ensures Wired(State()) && State() == Next(old(State()), Step.Release(l))
    {
      if leases[l].done {
        return;
      }
      var e := leases[l].entry;
      var left := table[e].inflight - 1;
      if left < 0 {
        left := 0;
      }
      leases := leases[l := Lease(e, true)];
      table := table[e := table[e].(inflight := left)];
      ReleaseIfIdleLocked(e);
    }

    /** The first critical section: capacity checks and the byte budget. */
    method BeginCapture(address: nat, now: int) returns (ok: bool, ghost ids: seq<nat>)
      requires Wired(State()) && pending.None?
      modifies this
      ensures Wired(State())
      ensures ExpireAll(old(State()), ids).Some?
      ensures
        var mid := ExpireAll(old(State()), ids).value;
        && ok == Enabled(mid, Step.BeginCapture(address))
        && State() == if ok then Next(mid, Step.BeginCapture(address)) else mid
    {
      ids := ExpireLocked(now);
      if active >= GLOBAL_LIMIT || (if address in byAddress then byAddress[address] else 0) >= ADDRESS_LIMIT {
        return false, ids;
      }
      var available := CHECKPOINT_LIMIT - bytes;
      if available <= 0 {
        return false, ids;
      }
      pending := Some(Pending(address, available));
      ok := true;
    }

    /** The second critical section, after the checkpoint was loaded and measured. */
    method FinishCapture(e: nat, l: nat, id: nat, size: nat, now: int, expiresAt: int)
      returns (ok: bool, ghost ids: seq<nat>)
      requires Wired(State()) && pending.Some? && e !in table && l !in leases
      modifies this
      ensures Wired(State())
      ensures ExpireAll(old(State()), ids).Some?
      ensures
        var mid := ExpireAll(old(State()), ids).value;
        && ok == Enabled(mid, Step.FinishCapture(e, l, id, size, expiresAt))
        && State() == if ok then Next(mid, Step.FinishCapture(e, l, id, size, expiresAt)) else mid.(pending := None)
    {
      ids := [];
      if size > pending.value.available {
        pending := None;
        return false, ids;
      }
      ids := ExpireLocked(now);
      if id in entries {
        pending := None;
        return false, ids;
      }
      PublishWired(State(), e, l, Entry(id, pending.value.address, true, size, expiresAt, 1, false));
      PublishLocked(e, l, id, size, expiresAt);
      ok := true;
    }

    method PublishLocked(e: nat, l: nat, id: nat, size: nat, expiresAt: int)
      requires pending.Some?
      modifies this
      ensures State() == Publish(old(State()), e, l, Entry(id, old(pending).value.address, true, size, expiresAt, 1, false))
    {
      var address := pending.value.address;
      var count := (if address in byAddress then byAddress[address] else 0) + 1;
      table, released, entries := table[e := Entry(id, address, true, size, expiresAt, 1, false)], released[e := 0], entries[id := e];
      active, byAddress, bytes := active + 1, byAddress[address := count], bytes + size;
      leases, pending := leases[l := Lease(e, false)], None;
    }
  }
}
