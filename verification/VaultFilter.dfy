/** The producer's screening of position requests: running vault totals refine totals
recomputed from the positions, deposits respect the vault and position limits, and other
transactions pass through untouched. */
module VaultFilter {
  import opened BlockAudit
  import opened Options
  import opened PositionAudit
  import opened Sums

  const MAX_POSITIONS: nat := 4096

  // ---- State ----

  /** A validator's registry entry. */
  datatype Stake = Stake(amount: nat, active: bool, seeded: bool)

  /** A request names its position; `ours` says that its genesis is this chain's. */
  datatype Tx = Other(tag: nat) | Request(id: Text, action: Action, ours: bool) | Garbled

  /** Registry, validators leaving in this block, and whether positions are active at `height`. */
  datatype Env = Env(stakes: map<Text, Stake>, exiting: set<Text>, active: bool, height: nat)

  /** The two maps the screening carries. */
  datatype Book = Book(positions: map<Text, Position>, totals: map<Text, nat>)

  function Total(totals: map<Text, nat>, v: Text): nat {
    if v in totals then totals[v] else 0
  }

  predicate Live(p: Position, v: Text) {
    p.unlockHeight == 0 && Vault(p) == v
  }

  /** The remaining principal that a position contributes. */
  function Share(p: Position): nat {
    if p.withdrawn <= p.deposit.amount then p.deposit.amount - p.withdrawn else 0
  }

  function Shares(positions: map<Text, Position>, v: Text): map<Text, nat> {
    map id | id in positions && Live(positions[id], v) :: Share(positions[id])
  }

  /** The recomputed total of a vault. */
  ghost function LiveTotal(positions: map<Text, Position>, v: Text): nat {
    Sum(Shares(positions, v))
  }

  /** The running totals are the recomputed ones, and no 64-bit total can wrap. */
  ghost predicate Exact(b: Book) {
    forall v :: Total(b.totals, v) == LiveTotal(b.positions, v) < UINT64
  }

  predicate Bounded(b: Book) {
    |b.positions| <= MAX_POSITIONS && forall id :: id in b.positions ==> b.positions[id].withdrawn <= b.positions[id].deposit.amount
  }

  // ---- Loading the checkpoint ----

  function AddTotal(totals: map<Text, nat>, v: Text, amount: nat): map<Text, nat> {
    totals[v := (Total(totals, v) + amount) % UINT64]
  }

  function SubTotal(totals: map<Text, nat>, v: Text, amount: nat): map<Text, nat> {
    totals[v := (Total(totals, v) - amount) % UINT64]
  }

  predicate Kept(p: Position) {
    !(p.returned && p.due == 0)
  }

  /** What validation of a checkpoint guarantees about its positions. */
  ghost predicate ValidCheckpoint(positions: map<Text, Position>) {
    && |positions| <= MAX_POSITIONS && (forall id :: id in positions ==> positions[id].withdrawn <= positions[id].deposit.amount)
    && Sum(map id | id in positions :: Share(positions[id])) < UINT64
  }

  /** Replacing one position changes its vault's recomputed total by its share only. */
  lemma LiveTotalPut(positions: map<Text, Position>, id: Text, p: Position, v: Text)
    ensures LiveTotal(positions[id := p], v) + (if id in positions && Live(positions[id], v) then Share(positions[id]) else 0)
         == LiveTotal(positions, v) + if Live(p, v) then Share(p) else 0
  {
    var before, after := Shares(positions, v), Shares(positions[id := p], v);
    if Live(p, v) {
      assert after == before[id := Share(p)];
      SumPut(before, id, Share(p));
    } else {
      assert after == before - {id};
      if id in before {
        SumRemove(before, id);
      } else {
        assert before - {id} == before;
      }
    }
  }

  lemma {:induction false} SumWithin(part: map<Text, nat>, whole: map<Text, nat>)
    requires forall k :: k in part ==> k in whole && part[k] <= whole[k]
    ensures Sum(part) <= Sum(whole)
    decreases |whole|
  {
    if whole != map[] {
      var k :| k in whole;
      SumRemove(whole, k);
      if k in part {
        SumRemove(part, k);
        SumWithin(part - {k}, whole - {k});
      } else {
        SumWithin(part, whole - {k});
      }
    } else {
      assert part == map[];
    }
  }

  lemma LiveTotalBounded(loaded: map<Text, Position>, positions: map<Text, Position>, v: Text)
    requires ValidCheckpoint(positions) && forall id :: id in loaded ==> id in positions && positions[id] == loaded[id]
    ensures LiveTotal(loaded, v) < UINT64
  {
    SumWithin(Shares(loaded, v), map id | id in positions :: Share(positions[id]));
  }

  /** The stored positions outside `rest` that are not settled. */
  function Unsettled(positions: map<Text, Position>, rest: set<Text>): map<Text, Position> {
    map id | id in positions && id !in rest && Kept(positions[id]) :: positions[id]
  }

  lemma UnsettledStep(positions: map<Text, Position>, rest: set<Text>, id: Text)
    requires id in positions && id in rest
    ensures Unsettled(positions, rest - {id})
         == if Kept(positions[id]) then Unsettled(positions, rest)[id := positions[id]] else Unsettled(positions, rest)
  {
  }

  function Entered(b: Book, id: Text, p: Position): Book {
    Book(b.positions[id := p], if p.unlockHeight == 0 then AddTotal(b.totals, Vault(p), Remaining(p)) else b.totals)
  }

  /** The loop over the stored positions: settled ones are dropped, live ones enter their vault's total. */
  method Load(positions: map<Text, Position>) returns (b: Book)
    requires ValidCheckpoint(positions)
    ensures b.positions == map id | id in positions && (!positions[id].returned || positions[id].due > 0) :: positions[id]
    ensures Exact(b) && Bounded(b)
  {
    b := Book(map[], map[]);
    EmptyExact();
    var rest := positions.Keys;
    while rest != {}
      invariant rest <= positions.Keys && Exact(b) && b.positions == Unsettled(positions, rest)
      decreases |rest|
    {
      var id :| id in rest;
      UnsettledStep(positions, rest, id);
      rest := rest - {id};
      if Kept(positions[id]) {
        LoadKeeps(b, positions, id);
        b := Entered(b, id, positions[id]);
      }
    }
    Smaller(b.positions.Keys, positions.Keys);
    assert Unsettled(positions, {}) == map id | id in positions && (!positions[id].returned || positions[id].due > 0) :: positions[id];
  }

  lemma AddTotalExact(totals: map<Text, nat>, v: Text, amount: nat, w: Text)
    requires Total(totals, v) + amount < UINT64
    ensures Total(AddTotal(totals, v, amount), w) == Total(totals, w) + if w == v then amount else 0
  {
  }

  lemma LoadKeeps(b: Book, positions: map<Text, Position>, id: Text)
    requires ValidCheckpoint(positions) && Exact(b) && id in positions && id !in b.positions
    requires forall k :: k in b.positions ==> k in positions && b.positions[k] == positions[k]
    ensures Exact(Entered(b, id, positions[id]))
  {
    var after := Entered(b, id, positions[id]);
    forall v ensures Total(after.totals, v) == LiveTotal(after.positions, v) < UINT64 {
      LoadKeepsTotal(b, positions, id, v);
    }
  }

  lemma LoadKeepsTotal(b: Book, positions: map<Text, Position>, id: Text, v: Text)
    requires ValidCheckpoint(positions) && Exact(b) && id in positions && id !in b.positions
    requires forall k :: k in b.positions ==> k in positions && b.positions[k] == positions[k]
    ensures Total(Entered(b, id, positions[id]).totals, v) == LiveTotal(Entered(b, id, positions[id]).positions, v) < UINT64
  {
    var p := positions[id];
    assert Total(b.totals, v) == LiveTotal(b.positions, v);
    LiveTotalPut(b.positions, id, p, v);
    LiveTotalBounded(b.positions[id := p], positions, v);
    if p.unlockHeight == 0 {
      ShareFits(positions, id);
      if v == Vault(p) {
        AddTotalExact(b.totals, v, Remaining(p), v);
      }
    }
  }

  lemma ShareFits(positions: map<Text, Position>, id: Text)
    requires ValidCheckpoint(positions) && id in positions
    ensures Remaining(positions[id]) == Share(positions[id]) < UINT64
  {
    SumRemove(map k | k in positions :: Share(positions[k]), id);
  }

  lemma {:induction false} Smaller(a: set<Text>, b: set<Text>)
    requires a <= b
    ensures |a| <= |b|
    decreases a
  {
    if a != {} {
      var x :| x in a;
      Smaller(a - {x}, b - {x});
    }
  }

  // ---- Screening one transaction ----

  /** A deposit is admitted below the vault cap, the position cap and above the tier's minimum. */
  predicate Admits(env: Env, b: Book, id: Text, d: Deposit) {
    && id !in b.positions && |b.positions| < MAX_POSITIONS
    && d.vault in env.stakes && !env.stakes[d.vault].seeded && env.stakes[d.vault].active && d.vault !in env.exiting
    && env.stakes[d.vault].amount + Total(b.totals, d.vault) + d.amount <= MAX_TIER_STAKE
    && TierOf(env.stakes[d.vault].amount + Total(b.totals, d.vault) + d.amount).Some?
    && TierOf(env.stakes[d.vault].amount + Total(b.totals, d.vault) + d.amount).value.minimumDeposit <= d.amount
  }

  function Opened(d: Deposit): Position {
    Position(d, 0, 0, false, 0, 0, 0, None)
  }

  function Withdrawn(p: Position, amount: nat, height: nat): Position {
    var closed := p.withdrawn + amount == p.deposit.amount;
    p.(nonce := p.nonce + 1, withdrawn := p.withdrawn + amount, returned := closed,
       unlockHeight := if closed then height else p.unlockHeight)
  }

  /** The book after one transaction, if it is kept. */
  function Screen(env: Env, b: Book, tx: Tx): Option<Book> {
    match tx
    case Other(_) => Some(b)
    case Garbled => None
    case Request(id, action, ours) =>
      if !env.active || !ours then None
      else match action
        case Open(d) =>
          if !Admits(env, b, id, d) then None
          else Some(Book(b.positions[id := Opened(d)], AddTotal(b.totals, d.vault, d.amount)))
        case Withdraw(_, _, _) =>
          if id !in b.positions || WithdrawalAmount(b.positions[id], action).None? then None
          else
            var p, amount := b.positions[id], WithdrawalAmount(b.positions[id], action).value;
            Some(Book(b.positions[id := Withdrawn(p, amount, env.height)], SubTotal(b.totals, Vault(p), amount)))
  }

  lemma SubTotalExact(totals: map<Text, nat>, v: Text, amount: nat, w: Text)
    requires amount <= Total(totals, v) < UINT64
    ensures Total(SubTotal(totals, v, amount), w) == Total(totals, w) - if w == v then amount else 0
  {
  }

  lemma OpenKeeps(b: Book, id: Text, d: Deposit, stake: nat)
    requires Exact(b) && Bounded(b) && id !in b.positions && |b.positions| < MAX_POSITIONS
    requires stake + Total(b.totals, d.vault) + d.amount <= MAX_TIER_STAKE
    ensures
      var after := Book(b.positions[id := Opened(d)], AddTotal(b.totals, d.vault, d.amount));
      Exact(after) && Bounded(after) && stake + LiveTotal(after.positions, d.vault) <= MAX_TIER_STAKE
  {
    var p := Opened(d);
    var after := Book(b.positions[id := p], AddTotal(b.totals, d.vault, d.amount));
    forall v ensures Total(after.totals, v) == LiveTotal(after.positions, v) < UINT64 {
      LiveTotalPut(b.positions, id, p, v);
      AddTotalExact(b.totals, d.vault, d.amount, v);
      assert Total(b.totals, v) == LiveTotal(b.positions, v);
    }
    assert Total(after.totals, d.vault) == LiveTotal(after.positions, d.vault);
    AddTotalExact(b.totals, d.vault, d.amount, d.vault);
    assert after.positions.Keys == b.positions.Keys + {id};
  }

  /** A withdrawal takes at most what the position's vault total holds. */
  lemma WithdrawalCovered(b: Book, id: Text, amount: nat)
    requires Exact(b) && id in b.positions && b.positions[id].unlockHeight == 0 && amount <= Share(b.positions[id])
    ensures amount <= Total(b.totals, Vault(b.positions[id]))
  {
    var p := b.positions[id];
    SumRemove(Shares(b.positions, Vault(p)), id);
    assert Total(b.totals, Vault(p)) == LiveTotal(b.positions, Vault(p));
  }

  lemma WithdrawKeeps(b: Book, id: Text, action: Action, height: nat)
    requires Exact(b) && Bounded(b) && id in b.positions && WithdrawalAmount(b.positions[id], action).Some?
    ensures
      var p, amount := b.positions[id], WithdrawalAmount(b.positions[id], action).value;
      var after := Book(b.positions[id := Withdrawn(p, amount, height)], SubTotal(b.totals, Vault(p), amount));
      Exact(after) && Bounded(after)
  {
    var p, amount := b.positions[id], WithdrawalAmount(b.positions[id], action).value;
    var q := Withdrawn(p, amount, height);
    var after := Book(b.positions[id := q], SubTotal(b.totals, Vault(p), amount));
    WithdrawalCovered(b, id, amount);
    assert Total(b.totals, Vault(p)) == LiveTotal(b.positions, Vault(p));
    forall v ensures Total(after.totals, v) == LiveTotal(after.positions, v) < UINT64 {
      LiveTotalPut(b.positions, id, q, v);
      SubTotalExact(b.totals, Vault(p), amount, v);
      assert Total(b.totals, v) == LiveTotal(b.positions, v);
    }
    assert after.positions.Keys == b.positions.Keys;
  }

  /** Every kept transaction keeps the running totals exact and the limits; a kept deposit
  leaves its vault within the cap. */
  lemma ScreenKeeps(env: Env, b: Book, tx: Tx)
    requires Exact(b) && Bounded(b) && Screen(env, b, tx).Some?
    ensures
      var after := Screen(env, b, tx).value;
      && Exact(after) && Bounded(after)
      && (tx.Request? && tx.action.Open? ==>
            env.stakes[tx.action.deposit.vault].amount + LiveTotal(after.positions, tx.action.deposit.vault) <= MAX_TIER_STAKE)
  {
    if tx.Request? {
      match tx.action
      case Open(d) => OpenKeeps(b, tx.id, d, env.stakes[d.vault].amount);
      case Withdraw(_, _, _) => WithdrawKeeps(b, tx.id, tx.action, env.height);
    }
  }

  // ---- What is kept, and what it does ----

  /** When a deposit is kept: the position is new and fits the limit of 4096, its vault belongs to an
  active, unseeded validator that stays, and stake plus deposits reach a tier whose minimum it meets. */
  lemma DepositExactly(env: Env, b: Book, id: Text, d: Deposit, ours: bool)
    ensures
      Screen(env, b, Request(id, Open(d), ours)).Some? <==>
        && env.active && ours && id !in b.positions && |b.positions| < 4096
        && d.vault in env.stakes && env.stakes[d.vault].active && !env.stakes[d.vault].seeded && d.vault !in env.exiting
        && var total := env.stakes[d.vault].amount + Total(b.totals, d.vault) + d.amount;
           total <= 100_000_000 * UNIT && TierOf(total).Some? && d.amount >= TierOf(total).value.minimumDeposit
    ensures Screen(env, b, Request(id, Open(d), ours)).Some? ==>
      var after := Screen(env, b, Request(id, Open(d), ours)).value;
      && after.positions.Keys == b.positions.Keys + {id} && (forall k :: k in b.positions && k != id ==> after.positions[k] == b.positions[k])
      && var p := after.positions[id];
         && p.deposit == d && p.withdrawn == 0 && p.nonce == 0 && p.unlockHeight == 0 && !p.returned && p.due == 0 && p.carry == 0
         && Vault(p) == d.vault
  {
  }

  /** When a withdrawal is kept, and what it leaves: the next nonce, the amount taken, and a closed
  position exactly when everything is taken. */
  lemma WithdrawalExactly(env: Env, b: Book, id: Text, d: Deposit, nonce: nat, amount: nat, ours: bool)
    ensures
      Screen(env, b, Request(id, Withdraw(d, nonce, amount), ours)).Some? <==>
        && env.active && ours && id in b.positions
        && var p := b.positions[id];
           && !p.returned && p.unlockHeight == 0 && p.withdrawn < p.deposit.amount && amount <= p.deposit.amount - p.withdrawn
           && d == p.deposit && nonce == p.nonce + 1 && nonce != UINT64
    ensures Screen(env, b, Request(id, Withdraw(d, nonce, amount), ours)).Some? ==>
      var p, after := b.positions[id], Screen(env, b, Request(id, Withdraw(d, nonce, amount), ours)).value;
      && after.positions.Keys == b.positions.Keys && (forall k :: k in b.positions && k != id ==> after.positions[k] == b.positions[k])
      && var q := after.positions[id];
         && q.deposit == d && q.nonce == nonce && q.withdrawn == (if amount == 0 then d.amount else p.withdrawn + amount)
         && (q.returned <==> q.withdrawn == d.amount) && q.unlockHeight == (if q.returned then env.height else 0)
         && q.due == p.due && q.carry == p.carry && Vault(q) == Vault(p)
  {
  }

  // ---- Screening a block ----

  /** The book and the kept transactions after a list. */
  function Filtered(env: Env, b: Book, txs: seq<Tx>): (Book, seq<Tx>) {
    if |txs| == 0 then (b, [])
    else
      var (before, kept) := Filtered(env, b, txs[..|txs| - 1]);
      var after := Screen(env, before, txs[|txs| - 1]);
      if after.None? then (before, kept) else (after.value, kept + [txs[|txs| - 1]])
  }

  function Others(txs: seq<Tx>): seq<Tx> {
    if |txs| == 0 then []
    else Others(txs[..|txs| - 1]) + if txs[|txs| - 1].Other? then [txs[|txs| - 1]] else []
  }

  predicate DepositInto(tx: Tx, v: Text) {
    tx.Request? && tx.action.Open? && tx.action.deposit.vault == v
  }

  /** Every vault that received one of these deposits holds at most the largest tier. */
  ghost predicate Capped(env: Env, b: Book, kept: seq<Tx>) {
    forall i, v :: 0 <= i < |kept| && DepositInto(kept[i], v) ==>
      v in env.stakes && env.stakes[v].amount + LiveTotal(b.positions, v) <= MAX_TIER_STAKE
  }

  /** Only a deposit into a vault raises its total. */
  lemma ScreenRaises(env: Env, b: Book, tx: Tx, v: Text)
    requires Exact(b) && Bounded(b) && Screen(env, b, tx).Some? && !DepositInto(tx, v)
    ensures LiveTotal(Screen(env, b, tx).value.positions, v) <= LiveTotal(b.positions, v)
  {
    if tx.Request? {
      match tx.action
      case Open(d) => LiveTotalPut(b.positions, tx.id, Opened(d), v);
      case Withdraw(_, _, _) =>
        LiveTotalPut(b.positions, tx.id, Withdrawn(b.positions[tx.id], WithdrawalAmount(b.positions[tx.id], tx.action).value, env.height), v);
    }
  }

  lemma ScreenCapped(env: Env, b: Book, kept: seq<Tx>, tx: Tx)
    requires Exact(b) && Bounded(b) && Screen(env, b, tx).Some? && Capped(env, b, kept)
    ensures Capped(env, Screen(env, b, tx).value, kept + [tx])
  {
    var after := Screen(env, b, tx).value;
    ScreenKeeps(env, b, tx);
    forall i, v | 0 <= i < |kept + [tx]| && DepositInto((kept + [tx])[i], v)
      ensures v in env.stakes && env.stakes[v].amount + LiveTotal(after.positions, v) <= MAX_TIER_STAKE
    {
      if !DepositInto(tx, v) {
        ScreenRaises(env, b, tx, v);
        assert DepositInto(kept[i], v);
      }
    }
  }

  /** After the screening totals are exact, limits hold and every vault with a kept deposit is
  within the cap; transactions that are not position requests survive in order. */
  lemma {:induction false} FilterKeeps(env: Env, b: Book, txs: seq<Tx>)
    requires Exact(b) && Bounded(b)
    ensures Exact(Filtered(env, b, txs).0) && Bounded(Filtered(env, b, txs).0)
    ensures Capped(env, Filtered(env, b, txs).0, Filtered(env, b, txs).1)
    ensures Others(Filtered(env, b, txs).1) == Others(txs)
  {
    if |txs| > 0 {
      var init, tx := txs[..|txs| - 1], txs[|txs| - 1];
      FilterKeeps(env, b, init);
      var (before, kept) := Filtered(env, b, init);
      if Screen(env, before, tx).Some? {
        ScreenKeeps(env, before, tx);
        ScreenCapped(env, before, kept, tx);
        assert (kept + [tx])[..|kept + [tx]| - 1] == kept;
      }
    }
  }

  /** The nonces of the withdrawals from one position, in order. */
  function Nonces(txs: seq<Tx>, id: Text): seq<nat> {
    if |txs| == 0 then []
    else
      var tx := txs[|txs| - 1];
      Nonces(txs[..|txs| - 1], id) + if tx.Request? && tx.id == id && tx.action.Withdraw? then [tx.action.nonce] else []
  }

  function NonceOf(b: Book, id: Text): nat {
    if id in b.positions then b.positions[id].nonce else 0
  }

  lemma ScreenNonce(env: Env, b: Book, tx: Tx, id: Text)
    requires Screen(env, b, tx).Some?
    ensures
      var after := NonceOf(Screen(env, b, tx).value, id);
      if tx.Request? && tx.id == id && tx.action.Withdraw? then after == NonceOf(b, id) + 1 == tx.action.nonce else after == NonceOf(b, id)
  {
    if tx.Request? {
      match tx.action
      case Open(d) => DepositExactly(env, b, tx.id, d, tx.ours);
      case Withdraw(d, nonce, amount) => WithdrawalExactly(env, b, tx.id, d, nonce, amount, tx.ours);
    }
  }

  lemma NoncesSnoc(txs: seq<Tx>, tx: Tx, id: Text)
    ensures Nonces(txs + [tx], id) == Nonces(txs, id) + if tx.Request? && tx.id == id && tx.action.Withdraw? then [tx.action.nonce] else []
  {
    assert (txs + [tx])[..|txs|] == txs;
  }

  /** The kept withdrawals from a position carry consecutive nonces, none repeated and none left out. */
  lemma {:induction false} KeptNonces(env: Env, b: Book, txs: seq<Tx>, id: Text)
    ensures
      var (after, kept) := Filtered(env, b, txs);
      && (forall i :: 0 <= i < |Nonces(kept, id)| ==> Nonces(kept, id)[i] == NonceOf(b, id) + 1 + i)
      && NonceOf(after, id) == NonceOf(b, id) + |Nonces(kept, id)|
  {
    if |txs| > 0 {
      var init, tx := txs[..|txs| - 1], txs[|txs| - 1];
      KeptNonces(env, b, init, id);
      var (before, kept) := Filtered(env, b, init);
      if Screen(env, before, tx).Some? {
        ScreenNonce(env, before, tx, id);
        NoncesSnoc(kept, tx, id);
      }
    }
  }

  /** Replaying the kept transactions keeps them all: the screened list is itself clean. */
  lemma {:induction false} FilterIdempotent(env: Env, b: Book, txs: seq<Tx>)
    ensures Filtered(env, b, Filtered(env, b, txs).1) == Filtered(env, b, txs)
  {
    if |txs| > 0 {
      var init, tx := txs[..|txs| - 1], txs[|txs| - 1];
      FilterIdempotent(env, b, init);
      var (before, kept) := Filtered(env, b, init);
      if Screen(env, before, tx).Some? {
        assert (kept + [tx])[..|kept + [tx]| - 1] == kept;
      }
    }
  }

  /** The producer's loop over the selected transactions. */
  method FilterPositions(env: Env, stored: map<Text, Position>, txs: seq<Tx>) returns (kept: seq<Tx>, b: Book)
    requires ValidCheckpoint(stored)
    ensures Exact(b) && |b.positions| <= 4096 && Capped(env, b, kept) && Others(kept) == Others(txs)
    ensures
      var start := if env.active then map id | id in stored && (!stored[id].returned || stored[id].due > 0) :: stored[id] else map[];
      exists loaded: Book :: loaded.positions == start && Exact(loaded) && (b, kept) == Filtered(env, loaded, txs)
  {
    b := Book(map[], map[]);
    if env.active {
      b := Load(stored);
    } else {
      EmptyExact();
    }
    ghost var loaded := b;
    kept := [];
    var i := 0;
    while i < |txs|
      invariant 0 <= i <= |txs| && (b, kept) == Filtered(env, loaded, txs[..i])
    {
      assert txs[..i + 1][..i] == txs[..i];
      var after := ScreenTx(env, b, txs[i]);
      if after.Some? {
        b, kept := after.value, kept + [txs[i]];
      }
      i := i + 1;
    }
    assert txs[..i] == txs;
    FilterKeeps(env, loaded, txs);
  }

  lemma EmptyExact()
    ensures Exact(Book(map[], map[]))
  {
    forall v ensures LiveTotal(map[], v) == 0 {
      assert Shares(map[], v) == map[];
    }
  }

  /** The switch of the loop body. */
  method ScreenTx(env: Env, b: Book, tx: Tx) returns (r: Option<Book>)
    ensures r == Screen(env, b, tx)
  {
    if tx.Other? {
      return Some(b);
    }
    if tx.Garbled? || !env.active || !tx.ours {
      return None;
    }
    if tx.action.Open? {
      r := ScreenDeposit(env, b, tx.id, tx.action.deposit);
    } else {
      r := ScreenWithdrawal(env, b, tx.id, tx.action);
    }
  }

  method ScreenDeposit(env: Env, b: Book, id: Text, d: Deposit) returns (r: Option<Book>)
    ensures r == if Admits(env, b, id, d) then Some(Book(b.positions[id := Opened(d)], AddTotal(b.totals, d.vault, d.amount))) else None
  {
    if id in b.positions || |b.positions| >= MAX_POSITIONS || d.vault !in env.stakes {
      return None;
    }
    var stake, total := env.stakes[d.vault], Total(b.totals, d.vault);
    if stake.seeded || !stake.active || d.vault in env.exiting || stake.amount > MAX_TIER_STAKE
       || total > MAX_TIER_STAKE - stake.amount || d.amount > MAX_TIER_STAKE - stake.amount - total
    {
      return None;
    }
    var tier := TierFor(stake.amount + total + d.amount);
    if tier.None? || d.amount < tier.value.minimumDeposit {
      return None;
    }
    r := Some(Book(b.positions[id := Opened(d)], AddTotal(b.totals, d.vault, d.amount)));
  }

  method ScreenWithdrawal(env: Env, b: Book, id: Text, action: Action) returns (r: Option<Book>)
    requires env.active && action.Withdraw?
    ensures r == Screen(env, b, Request(id, action, true))
  {
    if id !in b.positions {
      return None;
    }
    var p := b.positions[id];
    var amount := WithdrawalAmount(p, action);
    if amount.None? {
      return None;
    }
    r := Some(Book(b.positions[id := Withdrawn(p, amount.value, env.height)], SubTotal(b.totals, Vault(p), amount.value)));
  }
}
