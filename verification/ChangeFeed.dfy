/** The wallet change feed: bounded pages over (height, event index) that deliver every
event of the captured chain exactly once, also when paging resumes in a newer snapshot. */
module ChangeFeed {

  const MAX_EVENTS: nat := 128
  const MAX_HEIGHTS: nat := 128
  const MAX_BLOCK_BYTES: nat := 0x20_0000
  const MAX_DECODE_BYTES: nat := 0x80_0000
  const MAX_RESPONSE_SIZE: nat := 0x8_0000
  const MAX_RESUME_EVENTS: nat := 16384

  datatype Hash = Zero | Digest(block: Block)

  /** `items` are the block's outputs and spends in event order. */
  datatype Block = Block(prev: Hash, items: seq<nat>, bytes: nat)

  /** An item as reported: the opening amount is looked up in the pinned view. */
  datatype Event = Event(item: nat, amount: nat)

  /** A pinned read view: height index, readable bodies and public amounts at `height`. */
  datatype Snapshot = Snapshot(height: nat, index: map<nat, Hash>, bodies: map<nat, Block>, amounts: map<nat, nat>)

  datatype Position = Position(height: nat, event: nat)

  datatype Page = Page(events: seq<Event>, next: Position, more: bool, complete: bool) | Refused

  // ---- What has to be delivered ----

  function Report(s: Snapshot, item: nat): Event {
    Event(item, if item in s.amounts then s.amounts[item] else 0)
  }

  function EventsAt(s: Snapshot, h: nat): (r: seq<Event>) {
    if h in s.bodies then seq(|s.bodies[h].items|, k requires 0 <= k < |s.bodies[h].items| => Report(s, s.bodies[h].items[k]))
    else []
  }

  predicate Within(s: Snapshot, p: Position) {
    p.event <= |EventsAt(s, p.height)|
  }

  /** Every event at or after a position, up to the snapshot height. */
  function Tail(s: Snapshot, p: Position): seq<Event>
    requires Within(s, p)
    decreases s.height + 1 - p.height
  {
    if p.height > s.height then []
    else EventsAt(s, p.height)[p.event..] + Tail(s, Position(p.height + 1, 0))
  }

  predicate Before(p: Position, q: Position) {
    p.height < q.height || (p.height == q.height && p.event < q.event)
  }

  // ---- One page ----

  /** Block `h` is readable, inside the bounds, stored under its hash and linked to its parent. */
  predicate Linked(s: Snapshot, h: nat) {
    && h in s.index && h in s.bodies
    && Digest(s.bodies[h]) == s.index[h]
    && s.bodies[h].bytes <= MAX_BLOCK_BYTES
    && |s.bodies[h].items| <= MAX_RESUME_EVENTS
    && (h > 0 ==> h - 1 in s.index && s.bodies[h].prev == s.index[h - 1])
  }

  /** A snapshot every page can read: linked bodies inside the bounds, each of its events fits alone. */
  ghost predicate Readable(s: Snapshot, encoded: seq<Event> -> nat) {
    && (forall h :: 0 <= h <= s.height ==> Linked(s, h))
    && (forall h, k :: 0 <= h <= s.height && 0 <= k < |EventsAt(s, h)| ==> encoded([EventsAt(s, h)[k]]) <= MAX_RESPONSE_SIZE)
  }

  /** The request names a canonical start and a position of this snapshot. */
  ghost predicate Servable(s: Snapshot, from: nat, fromHash: Hash, cursor: Position, encoded: seq<Event> -> nat) {
    && Readable(s, encoded)
    && from <= s.height && from in s.index && s.index[from] == fromHash
    && from < cursor.height <= s.height + 1
    && Within(s, cursor)
  }

  /** What a page promises: its events are the next ones, the rest is what follows `next`, and
  it moves forward unless there was nothing left. */
  ghost predicate Delivers(s: Snapshot, limit: nat, cursor: Position, r: Page)
    requires Within(s, cursor)
  {
    r.Page? ==>
      && Within(s, r.next)
      && r.events + Tail(s, r.next) == Tail(s, cursor)
      && |r.events| <= limit
      && r.complete == (r.next.height > s.height)
      && r.more == !r.complete
      && (cursor.height <= s.height ==> Before(cursor, r.next))
      && (cursor.height > s.height ==> r.next == cursor)
      && r.next.height <= (if cursor.height > s.height then cursor.height else s.height + 1)
  }

  /** The events of one block that still fit the page, as many as do. */
  method TakeEvents(block: seq<Event>, start: nat, limit: nat, encoded: seq<Event> -> nat, page: seq<Event>)
    returns (events: seq<Event>, index: nat, tooLarge: bool)
    requires start <= |block| && |page| <= limit
    ensures start <= index <= |block|
    ensures events == page + block[start..index]
    ensures |events| <= limit
    ensures index < |block| ==> |events| == limit || encoded(events + [block[index]]) > MAX_RESPONSE_SIZE
    ensures index < |block| && !tooLarge ==> events != []
    ensures tooLarge ==> index < |block| && (limit == 0 || encoded([block[index]]) > MAX_RESPONSE_SIZE)
  {
    events, index, tooLarge := page, start, false;
    while index < |block|
      invariant start <= index <= |block|
      invariant events == page + block[start..index]
      invariant |events| <= limit && !tooLarge
    {
      var candidate := events + [block[index]];
      if |candidate| > limit || encoded(candidate) > MAX_RESPONSE_SIZE {
        if |events| == 0 {
          tooLarge := true;
          assert candidate == [block[index]];
        }
        return;
      }
      events, index := candidate, index + 1;
    }
  }

  predicate PrecededBy(s: Snapshot, height: nat, parent: Hash) {
    0 < height && height - 1 in s.index && s.index[height - 1] == parent
  }

  datatype Load = Fits | Later | Bad

  /** Whether the next block may be decoded into this page. */
  method LoadBlock(s: Snapshot, height: nat, parent: Hash, decoded: nat) returns (load: Load)
    ensures load.Later? <==>
      || decoded >= MAX_DECODE_BYTES
      || (height in s.bodies && s.bodies[height].bytes <= MAX_BLOCK_BYTES && decoded + s.bodies[height].bytes > MAX_DECODE_BYTES)
    ensures load.Fits? <==>
      && decoded < MAX_DECODE_BYTES && height in s.bodies && height in s.index && s.bodies[height].bytes <= MAX_BLOCK_BYTES
      && decoded + s.bodies[height].bytes <= MAX_DECODE_BYTES && |s.bodies[height].items| <= MAX_RESUME_EVENTS
      && Digest(s.bodies[height]) == s.index[height] && s.bodies[height].prev == parent
  {
    if decoded >= MAX_DECODE_BYTES {
      return Later;
    }
    if height !in s.bodies || s.bodies[height].bytes > MAX_BLOCK_BYTES {
      return Bad;
    }
    var block := s.bodies[height];
    if decoded + block.bytes > MAX_DECODE_BYTES {
      return Later;
    }
    if height !in s.index || block.prev != parent || Digest(block) != s.index[height] {
      return Bad;
    }
    if |block.items| > MAX_RESUME_EVENTS {
      return Bad;
    }
    load := Fits;
  }

  /** The bytes of the blocks from one height up to another. */
  function Decoded(s: Snapshot, low: nat, high: nat): nat
    requires low <= high
    decreases high
  {
    if low == high then 0 else Decoded(s, low, high - 1) + if high - 1 in s.bodies then s.bodies[high - 1].bytes else 0
  }

  /** A page that leaves something out has a reason: it is full, the next event does not fit the
  response, the next block does not fit the decode bound, or 128 heights were examined. */
  ghost predicate Stopped(s: Snapshot, limit: nat, cursor: Position, encoded: seq<Event> -> nat, r: Page)
    requires Within(s, cursor)
  {
    r.Page? && r.more ==>
      && cursor.height <= r.next.height <= cursor.height + 128
      && (|| |r.events| == limit
          || (r.next.event < |EventsAt(s, r.next.height)| && encoded(r.events + [EventsAt(s, r.next.height)[r.next.event]]) > 0x8_0000)
          || (Decoded(s, cursor.height, r.next.height + 1) > 0x80_0000 || Decoded(s, cursor.height, r.next.height) >= 0x80_0000)
          || r.next.height == cursor.height + 128)
  }

  /** The events of one block taken into the page, seen from the whole feed. */
  method TakeBlock(s: Snapshot, height: nat, start: nat, limit: nat, encoded: seq<Event> -> nat, page: seq<Event>, ghost cursor: Position)
    returns (events: seq<Event>, index: nat, tooLarge: bool)
    requires height <= s.height && start <= |EventsAt(s, height)| && |page| < limit && Within(s, cursor)
    requires page + Tail(s, Position(height, start)) == Tail(s, cursor)
    ensures start <= index <= |EventsAt(s, height)| && |events| <= limit
    ensures events + Tail(s, Position(height, index)) == Tail(s, cursor)
    ensures index == |EventsAt(s, height)| ==> events + Tail(s, Position(height + 1, 0)) == Tail(s, cursor)
    ensures index == start && !tooLarge ==> events == page
    ensures index < |EventsAt(s, height)| && !tooLarge ==> events != []
    ensures index < |EventsAt(s, height)| ==> |events| == limit || encoded(events + [EventsAt(s, height)[index]]) > 0x8_0000
    ensures Readable(s, encoded) ==> !tooLarge
  {
    events, index, tooLarge := TakeEvents(EventsAt(s, height), start, limit, encoded, page);
    PageStep(s, height, start, index, page, cursor);
  }

  /** The page so far: its events are the ones before `next`. */
  ghost predicate Collected(s: Snapshot, cursor: Position, events: seq<Event>, next: Position)
    requires Within(s, cursor)
  {
    Within(s, next) && events + Tail(s, next) == Tail(s, cursor)
  }

  /** Why a page may end at `next` before 128 heights. */
  ghost predicate Full(s: Snapshot, limit: nat, low: nat, encoded: seq<Event> -> nat, events: seq<Event>, next: Position) {
    || |events| == limit
    || (next.event < |EventsAt(s, next.height)| && encoded(events + [EventsAt(s, next.height)[next.event]]) > 0x8_0000)
    || (low <= next.height && (Decoded(s, low, next.height + 1) > 0x80_0000 || Decoded(s, low, next.height) >= 0x80_0000))
  }

  datatype Scan = Refuse | End | Continue

  /** One round of the page loop: load the block at `next`, and take its events. */
  method ScanHeight(s: Snapshot, parent: Hash, at: Position, limit: nat, encoded: seq<Event> -> nat, page: seq<Event>, decoded: nat,
                    ghost cursor: Position)
    returns (scan: Scan, events: seq<Event>, next: Position)
    requires at.height <= s.height && |page| < limit && Within(s, cursor) && Collected(s, cursor, page, at)
    requires cursor.height <= at.height && decoded == Decoded(s, cursor.height, at.height) && (at.event > 0 ==> decoded == 0)
    ensures !scan.Refuse? ==> Collected(s, cursor, events, next) && |events| <= limit
    ensures scan.Continue? ==>
      next == Position(at.height + 1, 0) && |events| < limit && at.height in s.index && at.height in s.bodies
    ensures scan.End? ==>
      && at.height <= next.height <= at.height + 1 && (next.height == at.height ==> at.event <= next.event)
      && (next == at ==> page != [] || decoded > 0) && Full(s, limit, cursor.height, encoded, events, next)
    ensures Readable(s, encoded) && PrecededBy(s, at.height, parent) ==> !scan.Refuse?
  {
    assert Readable(s, encoded) ==> Linked(s, at.height);
    var load := LoadBlock(s, at.height, parent, decoded);
    if load.Later? {
      return End, page, at;
    }
    if load.Bad? {
      return Refuse, page, at;
    }
    var index, tooLarge;
    events, index, tooLarge := TakeBlock(s, at.height, at.event, limit, encoded, page, cursor);
    if tooLarge {
      return Refuse, events, at;
    }
    if index < |EventsAt(s, at.height)| {
      return End, events, Position(at.height, index);
    }
    next := Position(at.height + 1, 0);
    scan := if |events| >= limit then End else Continue;
  }

  /** Before the block at `next` is read: the page so far, what was decoded, and the expected parent. */
  ghost predicate Scanning(s: Snapshot, parent: Hash, cursor: Position, limit: nat, events: seq<Event>, next: Position, decoded: nat, expected: Hash)
    requires Within(s, cursor)
  {
    && cursor.height <= next.height <= s.height + 1 && |events| < limit && Collected(s, cursor, events, next)
    && decoded == Decoded(s, cursor.height, next.height)
    && if next.height == cursor.height then next == cursor && events == [] && expected == parent
       else next.event == 0 && PrecededBy(s, next.height, expected)
  }

  lemma ScanningStart(s: Snapshot, parent: Hash, cursor: Position, limit: nat)
    requires 1 <= limit && cursor.height <= s.height && Within(s, cursor)
    ensures Scanning(s, parent, cursor, limit, [], cursor, 0, parent)
  {
    assert [] + Tail(s, cursor) == Tail(s, cursor);
  }

  lemma ScanningNext(s: Snapshot, parent: Hash, cursor: Position, limit: nat, at: nat, events: seq<Event>, decoded: nat)
    requires Within(s, cursor) && cursor.height <= at <= s.height && |events| < limit && at in s.index && at in s.bodies
    requires Collected(s, cursor, events, Position(at + 1, 0)) && decoded == Decoded(s, cursor.height, at)
    ensures Scanning(s, parent, cursor, limit, events, Position(at + 1, 0), decoded + s.bodies[at].bytes, s.index[at])
  {
  }

  /** The page loop from a cursor at or below the snapshot height. */
  method ScanBlocks(s: Snapshot, parent: Hash, cursor: Position, limit: nat, encoded: seq<Event> -> nat)
    returns (ok: bool, events: seq<Event>, next: Position)
    requires 1 <= limit <= MAX_EVENTS && cursor.height <= s.height && Within(s, cursor)
    ensures ok ==>
      && Collected(s, cursor, events, next) && |events| <= limit && Before(cursor, next) && next.height <= s.height + 1
      && next.height <= cursor.height + 128
      && (next.height <= s.height && next.height < cursor.height + 128 ==> Full(s, limit, cursor.height, encoded, events, next))
    ensures Readable(s, encoded) && PrecededBy(s, cursor.height, parent) ==> ok
  {
    events, next := [], cursor;
    var examined, expected := 0, parent;
    var decoded: nat := 0;
    ScanningStart(s, parent, cursor, limit);
    while next.height <= s.height && examined < MAX_HEIGHTS
      invariant Scanning(s, parent, cursor, limit, events, next, decoded, expected)
      invariant next.height == cursor.height + examined && examined <= MAX_HEIGHTS
      decreases s.height + 1 - next.height
    {
      var at := next;
      var scan;
      scan, events, next := ScanHeight(s, expected, at, limit, encoded, events, decoded, cursor);
      if !scan.Continue? {
        return scan.End?, events, next;
      }
      ScanningNext(s, parent, cursor, limit, at.height, events, decoded);
      expected := s.index[at.height];
      examined, decoded := examined + 1, decoded + s.bodies[at.height].bytes;
    }
    ok := true;
  }

  method ScanPage(s: Snapshot, parent: Hash, cursor: Position, limit: nat, encoded: seq<Event> -> nat)
    returns (r: Page)
    requires 1 <= limit <= MAX_EVENTS && cursor.height <= s.height && Within(s, cursor)
    ensures Delivers(s, limit, cursor, r) && Stopped(s, limit, cursor, encoded, r)
    ensures Readable(s, encoded) && PrecededBy(s, cursor.height, parent) ==> r.Page?
  {
    var ok, events, next := ScanBlocks(s, parent, cursor, limit, encoded);
    if !ok {
      return Refused;
    }
    r := Page(events, next, next.height <= s.height, next.height > s.height);
  }

  method ReadPage(s: Snapshot, from: nat, fromHash: Hash, cursor: Position, limit: nat, encoded: seq<Event> -> nat)
    returns (r: Page)
    requires 1 <= limit <= MAX_EVENTS && from < cursor.height
    ensures Within(s, cursor) ==> Delivers(s, limit, cursor, r) && Stopped(s, limit, cursor, encoded, r)
    ensures Servable(s, from, fromHash, cursor, encoded) ==> r.Page?
  {
    assert Readable(s, encoded) && 0 < cursor.height <= s.height + 1 ==> Linked(s, cursor.height - 1);
    if from > s.height || from !in s.index || s.index[from] != fromHash || cursor.height > s.height + 1 {
      return Refused;
    }
    var parent := fromHash;
    if cursor.height > from + 1 {
      if cursor.height - 1 !in s.index {
        return Refused;
      }
      parent := s.index[cursor.height - 1];
    }
    if cursor.height > s.height {
      return Page([], cursor, false, true);
    }
    if cursor.event > |EventsAt(s, cursor.height)| {
      return Refused;
    }
    r := ScanPage(s, parent, cursor, limit, encoded);
  }

  /** Taking events `start..index` of one block moves the remaining feed by exactly those. */
  lemma PageStep(s: Snapshot, height: nat, start: nat, index: nat, soFar: seq<Event>, cursor: Position)
    requires height <= s.height && start <= index <= |EventsAt(s, height)| && Within(s, cursor)
    requires soFar + Tail(s, Position(height, start)) == Tail(s, cursor)
    ensures soFar + EventsAt(s, height)[start..index] + Tail(s, Position(height, index)) == Tail(s, cursor)
    ensures index == |EventsAt(s, height)| ==>
      soFar + EventsAt(s, height)[start..index] + Tail(s, Position(height + 1, 0)) == Tail(s, cursor)
  {
    var e, rest := EventsAt(s, height), Tail(s, Position(height + 1, 0));
    TakeMiddle(soFar, e, start, index, rest);
  }

  lemma TakeMiddle(a: seq<Event>, e: seq<Event>, start: nat, index: nat, rest: seq<Event>)
    requires start <= index <= |e|
    ensures a + e[start..index] + (e[index..] + rest) == a + (e[start..] + rest)
    ensures index == |e| ==> a + e[start..index] + rest == a + (e[start..] + rest)
  {
    assert e[start..] == e[start..index] + e[index..];
  }

  // ---- The whole feed ----

  /** Following cursors from any position the snapshot serves, each page with its own limit,
  yields every event from there on once and in order, and the paging ends. */
  method FollowFeed(s: Snapshot, from: nat, fromHash: Hash, start: Position, limits: nat -> nat, encoded: seq<Event> -> nat)
    returns (all: seq<Event>, pages: nat)
    requires Servable(s, from, fromHash, start, encoded)
    requires forall k :: 1 <= limits(k) <= MAX_EVENTS
    ensures all == Tail(s, start)
    ensures pages > 0
  {
    var next, more := start, true;
    all, pages := [], 0;
    while more
      invariant from < next.height <= s.height + 1 && Within(s, next)
      invariant all + Tail(s, next) == Tail(s, start)
      invariant !more ==> next.height > s.height && pages > 0
      decreases more, s.height + 1 - next.height, |EventsAt(s, next.height)| - next.event
    {
      var page := NextPage(s, from, fromHash, next, limits(pages), encoded);
      Reassociate(all, page.events, Tail(s, page.next));
      all, next, more, pages := all + page.events, page.next, page.more, pages + 1;
    }
    assert Tail(s, next) == [];
  }

  lemma Reassociate(a: seq<Event>, b: seq<Event>, c: seq<Event>)
    ensures a + b + c == a + (b + c)
  {
  }

  /** A request with valid coordinates is always served. */
  method NextPage(s: Snapshot, from: nat, fromHash: Hash, cursor: Position, limit: nat, encoded: seq<Event> -> nat)
    returns (r: Page)
    requires Servable(s, from, fromHash, cursor, encoded) && 1 <= limit <= MAX_EVENTS
    ensures r.Page? && Delivers(s, limit, cursor, r) && Stopped(s, limit, cursor, encoded, r)
  {
    r := ReadPage(s, from, fromHash, cursor, limit, encoded);
  }

  // ---- Resuming in a newer snapshot ----

  function HashAt(s: Snapshot, h: nat): Hash {
    if h in s.index then s.index[h] else Zero
  }

  /** The checks on witness and resume coordinates against the newly captured snapshot. */
  ghost predicate ResumeAccepted(s: Snapshot, from: nat, seen: nat, seenHash: Hash,
                                 resume: Position, resumeHash: Hash, listed: seq<Event> -> nat) {
    && from <= seen <= s.height
    && seen in s.index && s.index[seen] == seenHash
    && from < resume.height <= seen + 1
    && resume.event <= MAX_RESUME_EVENTS
    && if resume.height > seen then resumeHash == seenHash && resume.event == 0
       else
         && resume.height in s.index && s.index[resume.height] == resumeHash
         && resume.height in s.bodies && s.bodies[resume.height].bytes <= MAX_BLOCK_BYTES
         && |EventsAt(s, resume.height)| <= MAX_RESUME_EVENTS && listed(EventsAt(s, resume.height)) <= MAX_DECODE_BYTES
         && resume.event <= |EventsAt(s, resume.height)|
  }

  function Items(events: seq<Event>): seq<nat> {
    seq(|events|, k requires 0 <= k < |events| => events[k].item)
  }

  ghost predicate LinkedUpTo(s: Snapshot, top: nat) {
    forall k :: 0 <= k <= top ==> Linked(s, k)
  }

  /** The two snapshots hold the same block at height `h`. */
  predicate SameBlock(s: Snapshot, t: Snapshot, h: nat) {
    h in s.bodies && h in t.bodies && s.bodies[h] == t.bodies[h]
  }

  /** A shared hash at one height fixes the whole chain below it. */
  lemma {:induction false} HashFixesHistory(s: Snapshot, t: Snapshot, top: nat, h: nat)
    requires h <= top && LinkedUpTo(s, top) && LinkedUpTo(t, top)
    requires HashAt(s, top) == HashAt(t, top)
    ensures SameBlock(s, t, h)
    decreases top - h
  {
    assert Linked(s, h) && Linked(t, h);
    if h == top {
      assert Digest(s.bodies[h]) == Digest(t.bodies[h]);
    } else {
      HashFixesHistory(s, t, top, h + 1);
      assert Linked(s, h + 1) && Linked(t, h + 1);
      assert Digest(s.bodies[h]) == Digest(t.bodies[h]);
    }
  }

  lemma ItemsAppend(a: seq<Event>, b: seq<Event>)
    ensures Items(a + b) == Items(a) + Items(b)
  {
  }

  /** Only the amounts of a block's events depend on the view. */
  lemma EventItems(s: Snapshot, h: nat, i: nat)
    requires h in s.bodies && i <= |s.bodies[h].items|
    ensures |EventsAt(s, h)| == |s.bodies[h].items|
    ensures forall k :: 0 <= k < |EventsAt(s, h)| ==>
      var item := s.bodies[h].items[k];
      EventsAt(s, h)[k] == Event(item, if item in s.amounts then s.amounts[item] else 0)
    ensures Items(EventsAt(s, h)[i..]) == s.bodies[h].items[i..]
  {
  }

  /** The newer snapshot's feed is the old feed followed by the blocks above the old height. */
  lemma {:induction false} NewerExtends(s: Snapshot, t: Snapshot, p: Position)
    requires s.height <= t.height && p.height <= s.height + 1
    requires p.height == s.height + 1 ==> p.event == 0
    requires forall h :: 0 <= h <= s.height ==> SameBlock(s, t, h)
    requires Within(s, p)
    ensures Within(t, p)
    ensures Items(Tail(t, p)) == Items(Tail(s, p)) + Items(Tail(t, Position(s.height + 1, 0)))
    decreases s.height + 1 - p.height
  {
    if p.height <= s.height {
      var q := Position(p.height + 1, 0);
      assert SameBlock(s, t, p.height);
      EventItems(s, p.height, p.event);
      EventItems(t, p.height, p.event);
      NewerExtends(s, t, q);
      ItemsAppend(EventsAt(s, p.height)[p.event..], Tail(s, q));
      ItemsAppend(EventsAt(t, p.height)[p.event..], Tail(t, q));
      JoinFeeds(s.bodies[p.height].items[p.event..], Items(Tail(s, q)), Items(Tail(t, Position(s.height + 1, 0))));
    } else {
      assert Items(Tail(s, p)) == [];
    }
  }

  lemma SharedPrefix(s: Snapshot, t: Snapshot)
    requires s.height <= t.height && LinkedUpTo(s, s.height) && LinkedUpTo(t, t.height)
    requires HashAt(s, s.height) == HashAt(t, s.height)
    ensures forall h :: 0 <= h <= s.height ==> SameBlock(s, t, h)
  {
    forall h | 0 <= h <= s.height ensures SameBlock(s, t, h) {
      HashFixesHistory(s, t, s.height, h);
    }
  }

  /** With the old checkpoint as witness, a position some page returned is accepted if and only if
  the encoded event list of its block keeps the decode bound. */
  lemma ResumeIsAccepted(s: Snapshot, t: Snapshot, from: nat, next: Position, listed: seq<Event> -> nat)
    requires LinkedUpTo(s, s.height) && LinkedUpTo(t, t.height)
    requires from <= s.height <= t.height && HashAt(s, s.height) == HashAt(t, s.height)
    requires from < next.height <= s.height + 1 && Within(s, next)
    requires next.height == s.height + 1 ==> next.event == 0
    ensures
      ResumeAccepted(t, from, s.height, HashAt(s, s.height), next, HashAt(s, if next.height <= s.height then next.height else s.height), listed)
      <==> next.height > s.height || listed(EventsAt(t, next.height)) <= MAX_DECODE_BYTES
  {
    assert Linked(s, s.height) && Linked(t, s.height);
    if next.height <= s.height {
      assert Linked(s, next.height) && Linked(t, next.height);
      HashFixesHistory(s, t, s.height, next.height);
      EventItems(s, next.height, 0);
      EventItems(t, next.height, 0);
    }
  }

  /** What was delivered plus the rest of the newer feed is the newer feed: resuming loses and
  repeats nothing. */
  lemma ResumeExactlyOnce(s: Snapshot, t: Snapshot, from: nat, delivered: seq<Event>, next: Position)
    requires LinkedUpTo(s, s.height) && LinkedUpTo(t, t.height)
    requires from <= s.height <= t.height && HashAt(s, s.height) == HashAt(t, s.height)
    requires from < next.height <= s.height + 1 && Within(s, next)
    requires next.height == s.height + 1 ==> next.event == 0
    requires delivered + Tail(s, next) == Tail(s, Position(from + 1, 0))
    ensures Within(t, next)
    ensures Items(delivered) + Items(Tail(t, next)) == Items(Tail(t, Position(from + 1, 0)))
  {
    SharedPrefix(s, t);
    NewerExtends(s, t, next);
    NewerExtends(s, t, Position(from + 1, 0));
    ItemsAppend(delivered, Tail(s, next));
    JoinFeeds(Items(delivered), Items(Tail(s, next)), Items(Tail(t, Position(s.height + 1, 0))));
  }

  /** Resuming in the newer snapshot and following it to its end: together with what was delivered
  before, every event of the newer snapshot above `from`, once and in order. */
  method ResumeFeed(s: Snapshot, t: Snapshot, from: nat, fromHash: Hash, ghost delivered: seq<Event>, next: Position,
                    limits: nat -> nat, encoded: seq<Event> -> nat)
    returns (rest: seq<Event>)
    requires LinkedUpTo(s, s.height) && Readable(t, encoded)
    requires from <= s.height <= t.height && HashAt(s, s.height) == HashAt(t, s.height) && HashAt(t, from) == fromHash
    requires from < next.height <= s.height + 1 && Within(s, next) && (next.height == s.height + 1 ==> next.event == 0)
    requires delivered + Tail(s, next) == Tail(s, Position(from + 1, 0)) && forall k :: 1 <= limits(k) <= MAX_EVENTS
    ensures Items(delivered) + Items(rest) == Items(Tail(t, Position(from + 1, 0)))
  {
    ResumeExactlyOnce(s, t, from, delivered, next);
    assert Linked(t, from);
    var pages;
    rest, pages := FollowFeed(t, from, fromHash, next, limits, encoded);
  }

  lemma JoinFeeds(a: seq<nat>, b: seq<nat>, c: seq<nat>)
    ensures a + (b + c) == (a + b) + c
  {
  }
}
