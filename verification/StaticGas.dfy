/** The admission scan over function bodies: it decodes instructions as the WebAssembly
binary format does, its count is the number of instructions, and no call of an accepted
body executes more instructions than the count. */
module StaticGas {
  import opened Bytes
  import opened AvmState
  import opened Options

  const UINT32: nat := 0x1_0000_0000

  function Pow2(n: nat): (r: nat)
    ensures r > 0
  {
    if n == 0 then 1 else 2 * Pow2(n - 1)
  }

  function Pow128(n: nat): nat {
    if n == 0 then 1 else 128 * Pow128(n - 1)
  }

  // ---- Integers: the scanner's readers ----

  /** Length of the variable-length integer that starts `data`, at most `max` bytes. */
  function VarLength(data: ByteString, max: nat): (r: Option<nat>)
    ensures r.Some? ==> 0 < r.value <= max && r.value <= |data|
    decreases max
  {
    if |data| == 0 || max == 0 then None
    else if data[0] < 128 then Some(1)
    else
      var rest := VarLength(data[1..], max - 1);
      if rest.None? then None else Some(rest.value + 1)
  }

  /** The value carried by the low seven bits of the first `n` bytes. */
  function Payload(data: ByteString, n: nat): nat
    requires n <= |data|
  {
    if n == 0 then 0 else Payload(data, n - 1) + (data[n - 1] % 128) * Pow128(n - 1)
  }

  lemma {:induction false} VarLengthScan(data: ByteString, max: nat, i: nat)
    requires i < |data| && i < max && forall j :: 0 <= j < i ==> data[j] >= 128
    ensures data[i] < 128 ==> VarLength(data, max) == Some(i + 1)
    ensures (i + 1 == |data| || i + 1 == max) && data[i] >= 128 ==> VarLength(data, max) == None
    decreases i
  {
    if i > 0 {
      VarLengthScan(data[1..], max - 1, i - 1);
    }
  }

  /** Reads an index of at most five bytes; bits beyond the 32nd are dropped. */
  method ReadU32(data: ByteString) returns (r: Option<(nat, nat)>)
    ensures r.Some? == VarLength(data, 5).Some?
    ensures r.Some? ==> r.value.1 == VarLength(data, 5).value && r.value.0 == Payload(data, r.value.1) % UINT32
  {
    var value, shift := 0, 1;
    for i := 0 to if |data| < 5 then |data| else 5
      invariant forall j :: 0 <= j < i ==> data[j] >= 128
      invariant shift == Pow128(i) && value == Payload(data, i) % UINT32
      invariant i == |data| || i == 5 ==> VarLength(data, 5) == None
    {
      VarLengthScan(data, 5, i);
      value := (value + (data[i] % 128) * shift) % UINT32;
      AddModulo(Payload(data, i), (data[i] % 128) * shift);
      if data[i] < 128 {
        return Some((value, i + 1));
      }
      shift := shift * 128;
    }
    r := None;
  }

  lemma AddModulo(a: nat, b: nat)
    ensures (a % UINT32 + b) % UINT32 == (a + b) % UINT32
  {
    assert a == UINT32 * (a / UINT32) + a % UINT32;
  }

  method SkipSigned(data: ByteString, max: nat) returns (r: Option<nat>)
    ensures r == VarLength(data, max)
  {
    for i := 0 to if |data| < max then |data| else max
      invariant forall j :: 0 <= j < i ==> data[j] >= 128
      invariant i == |data| || i == max ==> VarLength(data, max) == None
    {
      VarLengthScan(data, max, i);
      if data[i] < 128 {
        return Some(i + 1);
      }
    }
    r := None;
  }

  // ---- Integers: the grammar of section 5.2.2 of the WebAssembly Core Specification ----

  /** uN: value and length. */
  function GrammarU(bits: nat, data: ByteString): Option<(nat, nat)>
    decreases bits
  {
    if |data| == 0 then None
    else if data[0] < 128 then if data[0] < Pow2(bits) then Some((data[0], 1)) else None
    else if bits <= 7 then None
    else
      var rest := GrammarU(bits - 7, data[1..]);
      if rest.None? then None else Some((data[0] - 128 + 128 * rest.value.0, rest.value.1 + 1))
  }

  /** sN: length only. */
  function GrammarS(bits: nat, data: ByteString): Option<nat>
    decreases bits
  {
    if |data| == 0 || bits == 0 then None
    else if data[0] < 64 then if data[0] < Pow2(bits - 1) then Some(1) else None
    else if data[0] < 128 then if data[0] >= 128 - Pow2(bits - 1) then Some(1) else None
    else if bits <= 7 then None
    else
      var rest := GrammarS(bits - 7, data[1..]);
      if rest.None? then None else Some(rest.value + 1)
  }

  lemma {:induction false} PayloadShift(data: ByteString, n: nat)
    requires 0 < n <= |data|
    ensures Payload(data, n) == data[0] % 128 + 128 * Payload(data[1..], n - 1)
  {
    if n > 1 {
      PayloadShift(data, n - 1);
      assert data[n - 1] == data[1..][n - 2];
    }
  }

  /** Where exactly the five-byte reader and the u32 grammar part: on the top bits of a fifth byte. */
  ghost predicate FitsLastByte(data: ByteString, k: nat) {
    VarLength(data, k) == Some(k) ==> data[k - 1] < 16
  }

  lemma {:induction false} GrammarUAccepts(data: ByteString, k: nat, bits: nat)
    requires 1 <= k && bits == 7 * (k - 1) + 4
    ensures GrammarU(bits, data).Some? <==> VarLength(data, k).Some? && FitsLastByte(data, k)
    decreases k
  {
    assert Pow2(4) == 16;
    if k > 1 {
      SevenBits(bits);
      if |data| > 0 {
        GrammarUAccepts(data[1..], k - 1, bits - 7);
      }
    }
  }

  lemma {:induction false} GrammarUValue(data: ByteString, k: nat, bits: nat)
    requires 1 <= k && bits == 7 * (k - 1) + 4 && GrammarU(bits, data).Some? && VarLength(data, k).Some?
    ensures GrammarU(bits, data).value.1 == VarLength(data, k).value
    ensures GrammarU(bits, data).value.0 == Payload(data, VarLength(data, k).value) < Pow2(bits)
    decreases k
  {
    PayloadShift(data, VarLength(data, k).value);
    if data[0] >= 128 {
      GrammarUValue(data[1..], k - 1, bits - 7);
      SevenBits(bits);
    }
  }

  lemma SevenBits(bits: nat)
    requires bits >= 7
    ensures Pow2(bits) == 128 * Pow2(bits - 7)
  {
    assert Pow2(bits) == 4 * Pow2(bits - 2);
    assert Pow2(bits - 2) == 4 * Pow2(bits - 4);
    assert Pow2(bits - 4) == 4 * Pow2(bits - 6);
  }

  /** The index reader accepts every u32 of the grammar with its value and length, and beyond
  those only encodings whose fifth byte carries bits above the 32nd. */
  lemma ReadsU32(data: ByteString)
    ensures GrammarU(32, data).Some? <==> VarLength(data, 5).Some? && (VarLength(data, 5) == Some(5) ==> data[4] < 16)
    ensures GrammarU(32, data).Some? ==>
      var n := VarLength(data, 5).value;
      GrammarU(32, data) == Some((Payload(data, n) % UINT32, n))
  {
    GrammarUAccepts(data, 5, 32);
    if GrammarU(32, data).Some? {
      GrammarUValue(data, 5, 32);
    }
    Width32();
  }

  lemma Width32()
    ensures Pow2(32) == UINT32
  {
    assert Pow2(10) == 1024;
    assert Pow2(20) == 1024 * Pow2(10);
    assert Pow2(30) == 1024 * Pow2(20);
  }

  /** Every signed integer of the grammar is skipped over exactly. */
  lemma {:induction false} SkipsSigned(bits: nat, data: ByteString, max: nat)
    requires bits <= 7 * max
    ensures GrammarS(bits, data).Some? ==> VarLength(data, max) == GrammarS(bits, data)
    decreases bits
  {
    if |data| > 0 && data[0] >= 128 && bits > 7 {
      SkipsSigned(bits - 7, data[1..], max - 1);
    }
  }

  // ---- Instructions ----

  /** An opcode with the function index of a call or the label of a branch. */
  datatype Instr = Instr(op: Byte, operand: nat)

  const BLOCK: Byte := 0x02
  const LOOP: Byte := 0x03
  const IF: Byte := 0x04
  const ELSE: Byte := 0x05
  const END: Byte := 0x0b
  const BR: Byte := 0x0c
  const BR_IF: Byte := 0x0d
  const BR_TABLE: Byte := 0x0e
  const RETURN: Byte := 0x0f
  const CALL: Byte := 0x10
  const CALL_INDIRECT: Byte := 0x11

  predicate NoImmediate(op: Byte) {
    || op == 0x00 || op == 0x01 || op == 0x05 || op == 0x0b || op == 0x0f || op == 0x1a || op == 0x1b
    || 0x45 <= op <= 0x5a || 0x67 <= op <= 0x8a || 0xa7 <= op <= 0xb1 || 0xc0 <= op <= 0xc4
  }

  predicate FloatMemory(op: Byte) { op == 0x2a || op == 0x2b || op == 0x38 || op == 0x39 }

  /** Length of a block type, or nothing for a floating-point one. */
  function BlockTypeLength(data: ByteString): Option<nat> {
    if |data| == 0 then None
    else if data[0] == 0x40 || data[0] == 0x7f || data[0] == 0x7e then Some(1)
    else if data[0] == 0x7d || data[0] == 0x7c then None
    else VarLength(data, 10)
  }

  /** Alignment and offset of a memory instruction. */
  function MemArgLength(data: ByteString): (r: Option<nat>)
    ensures r.Some? ==> r.value <= |data|
  {
    var first := VarLength(data, 5);
    if first.None? || VarLength(data[first.value..], 5).None? then None
    else Some(first.value + VarLength(data[first.value..], 5).value)
  }

  /** Length of the immediate that follows an opcode, if the scan admits the instruction. */
  function ImmediateLength(op: Byte, data: ByteString, imports: nat): (r: Option<nat>)
    ensures r.Some? ==> r.value <= |data|
  {
    if op == BLOCK || op == IF then BlockTypeLength(data)
    else if op == CALL then
      if VarLength(data, 5).Some? && CalleeOf(op, data) < imports then VarLength(data, 5) else None
    else if 0x20 <= op <= 0x24 || op == 0x3f || op == 0x40 then VarLength(data, 5)
    else if 0x28 <= op <= 0x3e && !FloatMemory(op) then
      MemArgLength(data)
    else if op == 0x41 || op == 0x42 then VarLength(data, 10)
    else if NoImmediate(op) then Some(0)
    else None
  }

  function CalleeOf(op: Byte, data: ByteString): nat {
    if op == CALL && VarLength(data, 5).Some? then Payload(data, VarLength(data, 5).value) % UINT32 else 0
  }

  function InstrAt(body: ByteString, at: nat): Instr
    requires at < |body|
  {
    Instr(body[at], CalleeOf(body[at], body[at + 1..]))
  }

  /** Gives the length of the immediate after an opcode, if it admits the instruction. */
  type Reader = (Byte, ByteString) -> Option<nat>

  function Scanner(imports: nat): Reader {
    (op: Byte, data: ByteString) => ImmediateLength(op, data, imports)
  }

  /** All instructions of a body from offset `at` on, if the reader admits every one. */
  function Decode(read: Reader, body: ByteString, at: nat): (r: Option<seq<Instr>>)
    requires at <= |body|
    ensures r.Some? ==> |r.value| <= |body| - at
    decreases |body| - at
  {
    if at == |body| then Some([])
    else
      var n := read(body[at], body[at + 1..]);
      if n.None? || at + 1 + n.value > |body| then None
      else Prefixed([InstrAt(body, at)], Decode(read, body, at + 1 + n.value))
  }

  function Prefixed(front: seq<Instr>, rest: Option<seq<Instr>>): Option<seq<Instr>> {
    if rest.None? then None else Some(front + rest.value)
  }

  /** The instructions of an admitted body. */
  function Instructions(body: ByteString, imports: nat): Option<seq<Instr>> {
    Decode(Scanner(imports), body, 0)
  }

  /** Not a loop, a branch, an indirect call or a call of a local function. */
  predicate Metered(instr: Instr, imports: nat) {
    && instr.op != LOOP && instr.op != BR && instr.op != BR_IF && instr.op != BR_TABLE && instr.op != CALL_INDIRECT
    && (instr.op == CALL ==> instr.operand < imports)
  }

  lemma AdmitsMetered(op: Byte, data: ByteString, imports: nat)
    requires ImmediateLength(op, data, imports).Some?
    ensures Metered(Instr(op, CalleeOf(op, data)), imports)
  {
  }

  ghost predicate AdmitsOnlyMetered(read: Reader, imports: nat) {
    forall op, data :: read(op, data).Some? ==> Metered(Instr(op, CalleeOf(op, data)), imports)
  }

  lemma {:induction false} AllMetered(read: Reader, body: ByteString, at: nat, imports: nat)
    requires at <= |body| && AdmitsOnlyMetered(read, imports) && Decode(read, body, at).Some?
    ensures forall i :: 0 <= i < |Decode(read, body, at).value| ==> Metered(Decode(read, body, at).value[i], imports)
    decreases |body| - at
  {
    if at < |body| {
      AllMetered(read, body, at + 1 + read(body[at], body[at + 1..]).value, imports);
    }
  }

  lemma InstructionsMetered(body: ByteString, imports: nat)
    requires Instructions(body, imports).Some?
    ensures |Instructions(body, imports).value| <= |body|
    ensures forall i :: 0 <= i < |Instructions(body, imports).value| ==> Metered(Instructions(body, imports).value[i], imports)
  {
    forall op, data | ImmediateLength(op, data, imports).Some? ensures Metered(Instr(op, CalleeOf(op, data)), imports) {
      AdmitsMetered(op, data, imports);
    }
    AllMetered(Scanner(imports), body, 0, imports);
  }

  /** Nesting after a prefix; a stray end does not go below zero. */
  function Nesting(instrs: seq<Instr>): nat {
    if |instrs| == 0 then 0
    else
      var before, op := Nesting(instrs[..|instrs| - 1]), instrs[|instrs| - 1].op;
      if op == BLOCK || op == IF then before + 1 else if op == END && before > 0 then before - 1 else before
  }

  function Opens(instrs: seq<Instr>): nat {
    if |instrs| == 0 then 0
    else Opens(instrs[..|instrs| - 1]) + if instrs[|instrs| - 1].op == 0x02 || instrs[|instrs| - 1].op == 0x04 then 1 else 0
  }

  function Ends(instrs: seq<Instr>): nat {
    if |instrs| == 0 then 0 else Ends(instrs[..|instrs| - 1]) + if instrs[|instrs| - 1].op == 0x0b then 1 else 0
  }

  /** While ends do not outnumber openings, nesting is openings less ends. */
  lemma {:induction false} NestingBalances(instrs: seq<Instr>)
    requires forall i :: 0 <= i <= |instrs| ==> Ends(instrs[..i]) <= Opens(instrs[..i])
    ensures Nesting(instrs) == Opens(instrs) - Ends(instrs)
  {
    if |instrs| > 0 {
      var init := instrs[..|instrs| - 1];
      assert forall i :: 0 <= i <= |init| ==> init[..i] == instrs[..i];
      NestingBalances(init);
      assert instrs[..|instrs|] == instrs;
    }
  }

  predicate NestsWithin(instrs: seq<Instr>, max: int) {
    max > 0 ==> forall i :: 0 <= i <= |instrs| ==> Nesting(instrs[..i]) <= max
  }

  // ---- The scan ----

  method SkipBlockType(data: ByteString) returns (r: Option<nat>)
    ensures r == BlockTypeLength(data)
  {
    if |data| == 0 {
      return None;
    }
    if data[0] == 0x40 || data[0] == 0x7f || data[0] == 0x7e {
      return Some(1);
    }
    if data[0] == 0x7d || data[0] == 0x7c {
      return None;
    }
    r := SkipSigned(data, 10);
  }

  /** The scanner's step over the immediate of one opcode. */
  method SkipImmediate(op: Byte, data: ByteString, imports: nat) returns (r: Option<nat>)
    ensures r == ImmediateLength(op, data, imports)
  {
    if op == LOOP || op == BR || op == BR_IF || op == BR_TABLE || op == CALL_INDIRECT {
      return None;
    } else if op == CALL {
      var index := ReadU32(data);
      return if index.None? || index.value.0 >= imports then None else Some(index.value.1);
    } else if op == BLOCK || op == IF {
      r := SkipBlockType(data);
    } else if 0x20 <= op <= 0x24 || op == 0x3f || op == 0x40 {
      var index := ReadU32(data);
      return if index.None? then None else Some(index.value.1);
    } else if 0x28 <= op <= 0x3e {
      if FloatMemory(op) {
        return None;
      }
      var first := ReadU32(data);
      if first.None? {
        return None;
      }
      var second := ReadU32(data[first.value.1..]);
      return if second.None? then None else Some(first.value.1 + second.value.1);
    } else if op == 0x41 || op == 0x42 {
      r := SkipSigned(data, 10);
    } else {
      return if NoImmediate(op) then Some(0) else None;
    }
  }

  /** Accepts exactly the bodies that decode into admitted instructions nested no deeper than
  the limit, and returns their number. */
  method ValidateInstructions(body: ByteString, imports: nat, maxDepth: int) returns (r: Option<nat>)
    ensures r.Some? <==> Admitted(body, imports, maxDepth)
    ensures r.Some? ==> r.value == |Instructions(body, imports).value|
  {
    r := Scan(body, maxDepth, Scanner(imports));
  }

  /** The nesting depth after one more opcode, and whether it is still admitted. */
  method Nest(op: Byte, depth: nat, maxDepth: int, ghost seen: seq<Instr>, ghost instr: Instr) returns (ok: bool, d: nat)
    requires depth == Nesting(seen) && NestsWithin(seen, maxDepth) && instr.op == op
    ensures d == Nesting(seen + [instr])
    ensures if ok then NestsWithin(seen + [instr], maxDepth) else 0 < maxDepth < Nesting(seen + [instr])
  {
    assert (seen + [instr])[..|seen|] == seen && seen[..|seen|] == seen;
    d := depth;
    if op == BLOCK || op == IF {
      d := d + 1;
      if maxDepth > 0 && d > maxDepth {
        return false, d;
      }
    } else if op == END && d > 0 {
      d := d - 1;
    }
    NestsWithinSnoc(seen, instr, maxDepth);
    ok := true;
  }

  ghost predicate StaysInside(read: Reader) {
    forall op, data :: read(op, data).Some? ==> read(op, data).value <= |data|
  }

  /** The loop over a body, with the step over an immediate as a parameter; `SkipImmediate`
  computes the scanner's own step. */
  method Scan(body: ByteString, maxDepth: int, read: Reader) returns (r: Option<nat>)
    requires StaysInside(read)
    ensures r.Some? <==> Decode(read, body, 0).Some? && NestsWithin(Decode(read, body, 0).value, maxDepth)
    ensures r.Some? ==> r.value == |Decode(read, body, 0).value|
  {
    var offset, count, depth := 0, 0, 0;
    ghost var seen: seq<Instr> := [];
    ghost var all, rest := Decode(read, body, 0), Decode(read, body, 0);
    PrefixedEmpty(rest);
    assert Remains(read, body, 0, rest);
    while offset < |body|
      invariant offset <= |body| && count == |seen| && depth == Nesting(seen) && NestsWithin(seen, maxDepth)
      invariant Remains(read, body, offset, rest) && all == Prefixed(seen, rest)
    {
      var op := body[offset];
      var n := read(op, body[offset + 1..]);
      if n.None? {
        DecodeStops(read, body, offset, rest);
        return None;
      }
      ghost var instr;
      instr, rest := DecodeStep(read, body, offset, n.value, seen, rest);
      var shallow;
      shallow, depth := Nest(op, depth, maxDepth, seen, instr);
      seen := seen + [instr];
      if !shallow {
        TooDeep(seen, rest, maxDepth);
        return None;
      }
      offset, count := offset + 1 + n.value, count + 1;
    }
    DecodeEnds(read, body, rest);
    assert seen + [] == seen;
    r := Some(count);
  }

  /** `rest` is what is left to decode at an offset. */
  predicate Remains(read: Reader, body: ByteString, at: nat, rest: Option<seq<Instr>>)
    requires at <= |body|
  {
    rest == Decode(read, body, at)
  }

  lemma DecodeStops(read: Reader, body: ByteString, at: nat, rest: Option<seq<Instr>>)
    requires at < |body| && Remains(read, body, at, rest) && read(body[at], body[at + 1..]).None?
    ensures rest.None?
  {
  }

  lemma DecodeEnds(read: Reader, body: ByteString, rest: Option<seq<Instr>>)
    requires Remains(read, body, |body|, rest)
    ensures rest == Some([])
  {
  }

  lemma PrefixedEmpty(rest: Option<seq<Instr>>)
    ensures Prefixed([], rest) == rest
  {
    if rest.Some? {
      assert [] + rest.value == rest.value;
    }
  }

  lemma DecodeStep(read: Reader, body: ByteString, at: nat, n: nat, front: seq<Instr>, whole: Option<seq<Instr>>)
    returns (instr: Instr, rest: Option<seq<Instr>>)
    requires at + 1 + n <= |body| && read(body[at], body[at + 1..]) == Some(n) && Remains(read, body, at, whole)
    ensures instr.op == body[at] && Remains(read, body, at + 1 + n, rest)
    ensures Prefixed(front, whole) == Prefixed(front + [instr], rest)
  {
    instr, rest := InstrAt(body, at), Decode(read, body, at + 1 + n);
    if rest.Some? {
      assert front + ([instr] + rest.value) == front + [instr] + rest.value;
    }
  }

  lemma NestsWithinSnoc(front: seq<Instr>, instr: Instr, max: int)
    requires NestsWithin(front, max) && (max > 0 ==> Nesting(front + [instr]) <= max)
    ensures NestsWithin(front + [instr], max)
  {
    if max > 0 {
      forall i | 0 <= i <= |front + [instr]| ensures Nesting((front + [instr])[..i]) <= max {
        if i <= |front| {
          assert (front + [instr])[..i] == front[..i];
        } else {
          assert (front + [instr])[..i] == front + [instr];
        }
      }
    }
  }

  lemma TooDeep(front: seq<Instr>, rest: Option<seq<Instr>>, max: int)
    requires 0 < max < Nesting(front)
    ensures Prefixed(front, rest).Some? ==> !NestsWithin(Prefixed(front, rest).value, max)
  {
    if rest.Some? {
      assert (front + rest.value)[..|front|] == front;
    }
  }

  // ---- Instructions: the grammar of section 5.4 of the WebAssembly Core Specification ----

  /** Length of a block type. */
  function GrammarBlockType(data: ByteString): Option<nat> {
    if |data| > 0 && (data[0] == 0x40 || 0x7b <= data[0] <= 0x7f || data[0] == 0x70 || data[0] == 0x6f) then Some(1)
    else GrammarS(33, data)
  }

  /** Length of an index. */
  function GrammarIndex(data: ByteString): Option<nat> {
    if GrammarU(32, data).None? then None else Some(GrammarU(32, data).value.1)
  }

  /** Length of an alignment and an offset. */
  function GrammarMemArg(data: ByteString): Option<nat> {
    var align := GrammarIndex(data);
    if align.None? || align.value > |data| then None
    else
      var offset := GrammarIndex(data[align.value..]);
      if offset.None? then None else Some(align.value + offset.value)
  }

  /** Length of the immediate of an integer instruction of the format. */
  function GrammarImmediate(op: Byte, data: ByteString): Option<nat> {
    if op == 0x02 || op == 0x04 then GrammarBlockType(data)
    else if op == 0x41 then GrammarS(32, data)
    else if op == 0x42 then GrammarS(64, data)
    else if op == 0x3f || op == 0x40 then if |data| > 0 && data[0] == 0 then Some(1) else None
    else if op == 0x10 || 0x20 <= op <= 0x24 then GrammarIndex(data)
    else if 0x28 <= op <= 0x3e then GrammarMemArg(data)
    else if NoImmediate(op) then Some(0)
    else None
  }

  /** What the scan refuses although the grammar allows it. */
  predicate Refused(op: Byte, data: ByteString, imports: nat) {
    || FloatMemory(op)
    || ((op == BLOCK || op == IF) && |data| > 0 && (data[0] == 0x7d || data[0] == 0x7c))
    || (op == CALL && GrammarU(32, data).Some? && GrammarU(32, data).value.0 >= imports)
  }

  lemma IndexFollows(data: ByteString)
    ensures GrammarIndex(data).Some? ==> VarLength(data, 5) == GrammarIndex(data)
    ensures GrammarIndex(data).Some? ==> CalleeOf(CALL, data) == GrammarU(32, data).value.0
  {
    ReadsU32(data);
  }

  lemma MemArgFollows(data: ByteString)
    requires GrammarMemArg(data).Some?
    ensures MemArgLength(data) == GrammarMemArg(data)
  {
    IndexFollows(data);
    IndexFollows(data[GrammarIndex(data).value..]);
  }

  lemma BlockTypeFollows(data: ByteString)
    requires GrammarBlockType(data).Some? && data[0] != 0x7d && data[0] != 0x7c
    ensures BlockTypeLength(data) == GrammarBlockType(data)
  {
    SkipsSigned(33, data, 10);
  }

  /** On the grammar's own encodings the scan advances by exactly one instruction. */
  lemma ScanFollowsGrammar(op: Byte, data: ByteString, imports: nat)
    requires GrammarImmediate(op, data).Some? && !Refused(op, data, imports)
    ensures ImmediateLength(op, data, imports) == GrammarImmediate(op, data)
  {
    if op == BLOCK || op == IF {
      BlockTypeFollows(data);
    } else if op == 0x41 {
      SkipsSigned(32, data, 10);
    } else if op == 0x42 {
      SkipsSigned(64, data, 10);
    } else if op == CALL || 0x20 <= op <= 0x24 {
      IndexFollows(data);
    } else if 0x28 <= op <= 0x3e {
      MemArgFollows(data);
    }
  }

  /** Of the format's instructions the scan admits exactly those that are no floating-point load or
  store, open no block of a floating-point type, and call no local function. */
  lemma AdmitsExactly(op: Byte, data: ByteString, imports: nat)
    requires GrammarImmediate(op, data).Some?
    ensures ImmediateLength(op, data, imports).Some? <==>
      && op != 0x2a && op != 0x2b && op != 0x38 && op != 0x39
      && ((op == 0x02 || op == 0x04) ==> |data| > 0 && data[0] != 0x7d && data[0] != 0x7c)
      && (op == 0x10 ==> GrammarU(32, data).value.0 < imports)
  {
    if op == 0x10 {
      IndexFollows(data);
    }
    if !Refused(op, data, imports) {
      ScanFollowsGrammar(op, data, imports);
    }
  }

  /** Whatever follows it, an opcode outside the list is refused: loops, branches, indirect calls,
  floating point, and everything unknown. */
  lemma RefusesOpcodes(op: Byte, data: ByteString, imports: nat)
    requires ImmediateLength(op, data, imports).Some?
    ensures
      || op == 0x00 || op == 0x01 || op == 0x02 || op == 0x04 || op == 0x05 || op == 0x0b || op == 0x0f || op == 0x10 || op == 0x1a || op == 0x1b
      || 0x20 <= op <= 0x24 || 0x28 <= op <= 0x29 || 0x2c <= op <= 0x37 || 0x3a <= op <= 0x42 || 0x45 <= op <= 0x5a
      || 0x67 <= op <= 0x8a || 0xa7 <= op <= 0xb1 || 0xc0 <= op <= 0xc4
  {
  }

  /** A constant ends with its first byte below 0x80, at the tenth at the latest. */
  lemma ConstantExactly(op: Byte, data: ByteString, imports: nat, i: nat)
    requires (op == 0x41 || op == 0x42) && i < |data| && forall j :: 0 <= j < i ==> data[j] >= 0x80
    ensures i < 10 && data[i] < 0x80 ==> ImmediateLength(op, data, imports) == Some(i + 1)
    ensures i >= 10 || (data[i] >= 0x80 && (i == 9 || i + 1 == |data|)) ==> ImmediateLength(op, data, imports).None?
  {
    VarLengthScan(data, 10, if i < 10 then i else 9);
  }

  /** Reads by the grammar, refusing what the scan refuses. */
  function Grammar(imports: nat): Reader {
    (op: Byte, data: ByteString) => if Refused(op, data, imports) then None else GrammarImmediate(op, data)
  }

  lemma {:induction false} DecodeFollows(strict: Reader, loose: Reader, body: ByteString, at: nat)
    requires at <= |body|
    requires forall op, data :: strict(op, data).Some? ==> loose(op, data) == strict(op, data)
    requires Decode(strict, body, at).Some?
    ensures Decode(loose, body, at) == Decode(strict, body, at)
    decreases |body| - at
  {
    if at < |body| {
      DecodeFollows(strict, loose, body, at + 1 + strict(body[at], body[at + 1..]).value);
    }
  }

  /** A body of the format is decoded into exactly its instructions. */
  lemma DecodesFormat(body: ByteString, imports: nat)
    requires Decode(Grammar(imports), body, 0).Some?
    ensures Instructions(body, imports) == Decode(Grammar(imports), body, 0)
  {
    forall op, data | !Refused(op, data, imports) && GrammarImmediate(op, data).Some?
      ensures ImmediateLength(op, data, imports) == GrammarImmediate(op, data)
    {
      ScanFollowsGrammar(op, data, imports);
    }
    DecodeFollows(Grammar(imports), Scanner(imports), body, 0);
  }

  // ---- Execution ----

  /** The else or end that closes the construct around position `i`. */
  function Matching(instrs: seq<Instr>, i: nat, depth: nat, stopAtElse: bool): (r: Option<nat>)
    ensures r.Some? ==> i <= r.value < |instrs|
    decreases |instrs| - i
  {
    if i >= |instrs| then None
    else
      var op := instrs[i].op;
      if op == BLOCK || op == LOOP || op == IF then Matching(instrs, i + 1, depth + 1, stopAtElse)
      else if op == END && depth > 0 then Matching(instrs, i + 1, depth - 1, stopAtElse)
      else if depth == 0 && (op == END || (op == ELSE && stopAtElse)) then Some(i)
      else Matching(instrs, i + 1, depth, stopAtElse)
  }

  /** The start of the construct that a branch label names, counting outwards from before `i`. */
  function Labelled(instrs: seq<Instr>, i: nat, depth: nat, outer: nat): (r: Option<nat>)
    requires i <= |instrs|
    ensures r.Some? ==> r.value < i
    decreases i
  {
    if i == 0 then None
    else
      var op := instrs[i - 1].op;
      if op == END then Labelled(instrs, i - 1, depth + 1, outer)
      else if op != BLOCK && op != LOOP && op != IF then Labelled(instrs, i - 1, depth, outer)
      else if depth > 0 then Labelled(instrs, i - 1, depth - 1, outer)
      else if outer > 0 then Labelled(instrs, i - 1, depth, outer - 1)
      else Some(i - 1)
  }

  /** A branch continues at the body of the loop it names, or behind the block; out of the
  function there is no next instruction. */
  predicate Branches(instrs: seq<Instr>, pc: nat, next: nat)
    requires pc < |instrs|
  {
    var target := Labelled(instrs, pc, 0, instrs[pc].operand);
    target.Some? &&
    if instrs[target.value].op == LOOP then next == target.value + 1
    else Matching(instrs, target.value + 1, 0, false).Some? && next == Matching(instrs, target.value + 1, 0, false).value + 1
  }

  /** One instruction passes control from `pc` to `next`. A branch table or a call into local code
  may continue anywhere. */
  predicate Passes(instrs: seq<Instr>, imports: nat, pc: nat, next: nat)
    requires pc < |instrs|
  {
    var op := instrs[pc].op;
    if op == LOOP then next == pc + 1
    else if op == BR then Branches(instrs, pc, next)
    else if op == BR_IF then next == pc + 1 || Branches(instrs, pc, next)
    else if !Metered(instrs[pc], imports) then true
    else if op == 0x00 || op == RETURN then false
    else if op == IF then
      var skip := Matching(instrs, pc + 1, 0, true);
      next == pc + 1 || (skip.Some? && next == if instrs[skip.value].op == ELSE then skip.value + 1 else skip.value)
    else if op == ELSE then
      Matching(instrs, pc + 1, 0, false) == Some(next)
    else next == pc + 1
  }

  /** The instructions executed by one call, in order. */
  predicate Execution(instrs: seq<Instr>, imports: nat, trace: seq<nat>) {
    && (forall i :: 0 <= i < |trace| ==> trace[i] < |instrs|)
    && (forall i :: 0 <= i < |trace| - 1 ==> Passes(instrs, imports, trace[i], trace[i + 1]))
  }

  lemma {:induction false} ControlMovesForward(instrs: seq<Instr>, imports: nat, trace: seq<nat>, i: nat)
    requires Execution(instrs, imports, trace) && i < |trace|
    requires forall k :: 0 <= k < |instrs| ==> Metered(instrs[k], imports)
    ensures trace[i] >= i
  {
    if i > 0 {
      ControlMovesForward(instrs, imports, trace, i - 1);
      assert Passes(instrs, imports, trace[i - 1], trace[i]);
    }
  }

  /** No call of an accepted body executes more instructions than the scan counted, and the
  count is at most the body's length. */
  lemma StaticGasBoundsExecution(body: ByteString, imports: nat, trace: seq<nat>)
    requires Instructions(body, imports).Some?
    requires Execution(Instructions(body, imports).value, imports, trace)
    ensures |trace| <= |Instructions(body, imports).value| <= |body|
  {
    if |trace| > 0 {
      InstructionsMetered(body, imports);
      ControlMovesForward(Instructions(body, imports).value, imports, trace, |trace| - 1);
    }
  }

  /** The bound is attained: code without control instructions runs through all of them. */
  lemma StraightLineRuns(instrs: seq<Instr>, imports: nat, trace: seq<nat>)
    requires forall i :: 0 <= i < |instrs| ==>
      var op := instrs[i].op;
      && (op == 0x01 || op == 0x02 || op == 0x0b || op == 0x1a || op == 0x1b || op >= 0x20 || op == 0x10)
      && (op == 0x10 ==> instrs[i].operand < imports)
    requires |trace| == |instrs| && forall i :: 0 <= i < |trace| ==> trace[i] == i
    ensures Execution(instrs, imports, trace)
  {
  }

  /** A conditional runs its first arm and skips the second, or the other way round, and never both. */
  lemma ConditionalRuns(a: Instr, b: Instr)
    requires 0x45 <= a.op <= 0x5a && 0x45 <= b.op <= 0x5a
    ensures
      var body := [Instr(0x04, 0), a, Instr(0x05, 0), b, Instr(0x0b, 0)];
      Execution(body, 0, [0, 1, 2, 4]) && Execution(body, 0, [0, 3, 4]) && !Execution(body, 0, [0, 1, 2, 3]) && !Execution(body, 0, [0, 2])
  {
    var body := [Instr(0x04, 0), a, Instr(0x05, 0), b, Instr(0x0b, 0)];
    assert Matching(body, 2, 0, true) == Some(2);
    assert Matching(body, 1, 0, true) == Some(2);
    assert Matching(body, 4, 0, false) == Some(4);
    assert Matching(body, 3, 0, false) == Some(4);
    assert !Passes(body, 0, [0, 1, 2, 3][2], [0, 1, 2, 3][3]);
    assert !Passes(body, 0, [0, 2][0], [0, 2][1]);
  }

  /** Nothing runs after a trap or a return. */
  lemma ReturnEnds(instrs: seq<Instr>, imports: nat, pc: nat, next: nat)
    requires pc < |instrs| && (instrs[pc].op == 0x00 || instrs[pc].op == 0x0f)
    ensures !Passes(instrs, imports, pc, next)
  {
  }

  /** The bound needs the ban: a loop whose body branches back runs for any number of instructions. */
  lemma LoopsAreUnbounded(n: nat)
    ensures exists trace :: |trace| == n && Execution([Instr(LOOP, 0), Instr(BR, 0), Instr(END, 0)], 0, trace)
  {
    var body := [Instr(LOOP, 0), Instr(BR, 0), Instr(END, 0)];
    var trace := seq(n, i => if i == 0 then 0 else 1);
    assert Labelled(body, 1, 0, 0) == Some(0);
    assert Execution(body, 0, trace);
  }

  function Total(bodies: seq<ByteString>, imports: nat): nat
    requires forall i :: 0 <= i < |bodies| ==> Instructions(bodies[i], imports).Some?
  {
    if |bodies| == 0 then 0
    else Total(bodies[..|bodies| - 1], imports) + |Instructions(bodies[|bodies| - 1], imports).value|
  }

  /** The total is that of no body, or of the others and one more. */
  lemma TotalSnoc(bodies: seq<ByteString>, body: ByteString, imports: nat)
    requires Instructions(body, imports).Some? && forall i :: 0 <= i < |bodies| ==> Instructions(bodies[i], imports).Some?
    ensures Total([], imports) == 0 && Total(bodies + [body], imports) == Total(bodies, imports) + |Instructions(body, imports).value|
  {
    assert (bodies + [body])[..|bodies|] == bodies;
  }

  predicate Admitted(body: ByteString, imports: nat, maxDepth: int) {
    Instructions(body, imports).Some? && NestsWithin(Instructions(body, imports).value, maxDepth)
  }

  /** The gas charged up front, for the modules whose every body is admitted. */
  method StaticCharge(bodies: seq<ByteString>, imports: nat, maxDepth: int) returns (r: Option<nat>)
    ensures r.Some? <==> forall i :: 0 <= i < |bodies| ==> Admitted(bodies[i], imports, maxDepth)
    ensures r.Some? ==> r.value == 100 + Total(bodies, imports)
  {
    var sum := 0;
    for i := 0 to |bodies|
      invariant forall j :: 0 <= j < i ==> Admitted(bodies[j], imports, maxDepth)
      invariant sum == Total(bodies[..i], imports)
    {
      var count := ValidateInstructions(bodies[i], imports, maxDepth);
      if count.None? {
        return None;
      }
      assert bodies[..i + 1][..i] == bodies[..i];
      sum := sum + count.value;
    }
    assert bodies[..|bodies|] == bodies;
    r := Some(100 + sum);
  }

  /** The charge covers one call of any function of the module, with 100 to spare. */
  lemma {:induction false} ChargeCoversCalls(bodies: seq<ByteString>, imports: nat, i: nat, trace: seq<nat>)
    requires forall j :: 0 <= j < |bodies| ==> Instructions(bodies[j], imports).Some?
    requires i < |bodies| && Execution(Instructions(bodies[i], imports).value, imports, trace)
    ensures |trace| <= Total(bodies, imports)
  {
    if i == |bodies| - 1 {
      StaticGasBoundsExecution(bodies[i], imports, trace);
    } else {
      ChargeCoversCalls(bodies[..|bodies| - 1], imports, i, trace);
    }
  }
}
