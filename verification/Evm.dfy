/** The EVM interpreter loop: gas, stack, memory, storage, static frames and nested calls (evm_interpreter.py). */
module Evm {
  import opened Collections
  import opened Bytecode

  const WORD_LIMIT: nat := 0x1_0000000000000000_0000000000000000_0000000000000000_0000000000000000

  type Storage = map<int, int>

  datatype Log = Log(topics: seq<int>, data: seq<Byte>)

  datatype CallKind = PlainCall | CallCode | DelegateCall | StaticCall

  /** What the interpreter hands to `contract_call`. */
  datatype NestedCall = NestedCall(kind: CallKind, to: int, value: int, gas: int, data: seq<Byte>, readOnly: bool)

  /** What any callee may answer, delegate callees with a replacement for the caller's storage. */
  datatype CallReply = CallReply(gasUsed: int, returnData: seq<Byte>, storage: Option<Storage>, success: bool, reverted: bool)

  /** What it hands to `contract_create`; only CREATE2 names a salt. */
  datatype NestedCreate = NestedCreate(value: int, code: seq<Byte>, salt: Option<int>)

  datatype CreateReply = CreateReply(gasUsed: int, success: bool, reverted: bool, address: int)

  /**
   * The fixed surroundings of a frame. Word arithmetic, hashing, environment reads and the callees
   * are arbitrary functions; the n-th nested call or create gets the n-th reply.
   */
  datatype Context = Context(
    code: seq<Byte>,
    jumpTable: set<nat>,
    gasLimit: int,
    readOnly: bool,
    calldata: seq<Byte>,
    value: (int, seq<int>) -> int,
    keccak: seq<Byte> -> int,
    externalCode: (int, int, int) -> seq<Byte>,
    planGas: (int, int, int, CallKind) -> int,
    onCall: Option<(nat, NestedCall) -> CallReply>,
    onCreate: Option<(nat, NestedCreate) -> CreateReply>)

  datatype Frame = Frame(
    pc: nat,
    gasUsed: int,
    stack: seq<int>,               // the top is the last element
    memory: seq<Byte>,
    storage: Storage,
    transient: Storage,
    logs: seq<Log>,
    returnData: seq<Byte>,
    running: bool,
    reverted: bool,
    trace: seq<nat>,               // the pc of every opcode executed
    calls: seq<NestedCall>,        // the nested calls made
    creates: nat)

  /** How one opcode ends: the loop goes on, the loop breaks, or an exception leaves it. */
  datatype Flow = Next(frame: Frame) | Halt(frame: Frame) | Raise(frame: Frame)

  // ---------------------------------------------------------------- gas

  /** `GAS_COSTS.get(name, 3)` by opcode; names missing from the table cost 3. */
  function BaseCost(op: int): nat {
    if op == 0x00 || op == 0xF3 || op == 0xFD then 0
    else if op == 0x5B then 1
    else if op == 0x02 || (0x04 <= op <= 0x07) || op == 0x0B || op == 0x47 then 5
    else if op == 0x08 || op == 0x09 || op == 0x56 then 8
    else if op == 0x0A || op == 0x57 then 10
    else if op == 0x20 then 30
    else if op == 0x40 then 20
    else if op == 0x31 then 400
    else if op == 0x54 then 200
    else if op == 0x55 || op == 0xFF then 5000
    else if op == 0x5C || op == 0x5D then 100
    else if op == 0x3B || op == 0x3C || op == 0x3F || op == 0xF1 || op == 0xF2 || op == 0xF4 || op == 0xFA then 700
    else if op == 0xF0 || op == 0xF5 then 32000
    else if op == 0x30 || (0x32 <= op <= 0x34) || op == 0x36 || op == 0x38 || op == 0x3A || op == 0x3D
            || (0x41 <= op <= 0x46) || op == 0x48 || op == 0x4A || op == 0x50 || (0x58 <= op <= 0x5A) || op == 0x5F then 2
    else 3
  }

  predicate IsLog(op: int) { 0xA0 <= op <= 0xA4 }

  function Remaining(c: Context, f: Frame): nat {
    if c.gasLimit > f.gasUsed then c.gasLimit - f.gasUsed else 0
  }

  // ---------------------------------------------------------------- stack and memory

  /** `value & (2**256 - 1)`, which for negative Python integers is the residue too. */
  function Masked(v: int): (w: int)
    ensures 0 <= w < WORD_LIMIT
  {
    v % WORD_LIMIT
  }

  /** The k-th pop counted from 0. */
  function Arg(f: Frame, k: nat): int { if k < |f.stack| then f.stack[|f.stack| - 1 - k] else 0 }

  function Args(f: Frame, k: nat): seq<int> { seq(k, i requires 0 <= i < k => Arg(f, i)) }

  function Popped(f: Frame, k: nat): Frame { f.(stack := if k <= |f.stack| then f.stack[..|f.stack| - k] else []) }

  function Pushed(f: Frame, v: int): Frame { f.(stack := f.stack + [Masked(v)]) }

  function Advance(f: Frame): Frame { f.(pc := f.pc + 1) }

  /** `_mem_extend`: grow with zeros up to `offset + size`. */
  function Extended(mem: seq<Byte>, offset: nat, size: nat): (r: seq<Byte>)
    ensures |r| >= |mem| && |r| >= offset + size && r[..|mem|] == mem
  {
    if offset + size > |mem| then mem + seq(offset + size - |mem|, i => 0) else mem
  }

  /** `evm_memory_copy`: zero-padded source, never writing past the end. */
  function Copied(mem: seq<Byte>, dest: nat, src: seq<Byte>, from: nat, size: nat): (r: seq<Byte>)
    ensures |r| == |mem|
  {
    seq(|mem|, i requires 0 <= i < |mem| =>
          if dest <= i < dest + size then (if from + (i - dest) < |src| then src[from + (i - dest)] else 0) else mem[i])
  }

  function WithMemory(f: Frame, dest: nat, size: nat, src: seq<Byte>, from: nat): Frame {
    f.(memory := Copied(Extended(f.memory, dest, size), dest, src, from, size))
  }

  function Touched(f: Frame, offset: nat, size: nat): Frame { f.(memory := Extended(f.memory, offset, size)) }

  // ---------------------------------------------------------------- opcodes that pop k words and push one

  /** Arithmetic, comparison, environment and host reads: words popped, or -1 when not such an opcode. */
  function PureArity(op: int): int {
    if op == 0x15 || op == 0x19 || op == 0x31 || op == 0x35 || op == 0x3B || op == 0x3F || op == 0x40 || op == 0x49
       || op == 0x54 || op == 0x5C then 1
    else if (0x01 <= op <= 0x07) || op == 0x0A || op == 0x0B || (0x10 <= op <= 0x14) || (0x16 <= op <= 0x18)
            || (0x1A <= op <= 0x1D) then 2
    else if op == 0x08 || op == 0x09 then 3
    else if op == 0x30 || (0x32 <= op <= 0x34) || op == 0x36 || op == 0x38 || op == 0x3A || op == 0x3D
            || (0x41 <= op <= 0x48) || op == 0x4A || (0x58 <= op <= 0x5A) || op == 0x5F then 0
    else -1
  }

  function Load(s: Storage, key: int): int { if key in s then s[key] else 0 }

  function PureValue(c: Context, f: Frame, op: int): int {
    if op == 0x54 then Load(f.storage, Arg(f, 0))
    else if op == 0x5C then Load(f.transient, Arg(f, 0))
    else if op == 0x58 then f.pc
    else if op == 0x59 then (if |f.memory| == 0 then 0 else (|f.memory| + 31) / 32 * 32)
    else if op == 0x5A then Remaining(c, f)
    else if op == 0x5F then 0
    else if op == 0x36 then |c.calldata|
    else if op == 0x38 then |c.code|
    else if op == 0x3D then |f.returnData|
    else if op == 0x45 then c.gasLimit
    else c.value(op, Args(f, if PureArity(op) >= 0 then PureArity(op) else 0))
  }

  function PureStep(c: Context, f: Frame, op: int): Flow
    requires PureArity(op) >= 0
  {
    var k := PureArity(op);
    if |f.stack| < k then Raise(f) else Next(Advance(Pushed(Popped(f, k), PureValue(c, f, op))))
  }

  // ---------------------------------------------------------------- stack shuffling, memory and jumps

  function DupStep(f: Frame, n: nat): Flow
    requires n > 0
  {
    if n > |f.stack| then Raise(f) else Next(Advance(f.(stack := f.stack + [f.stack[|f.stack| - n]])))
  }

  function SwapStep(f: Frame, n: nat): Flow
    requires n > 0
  {
    if n >= |f.stack| then Raise(f)
    else
      var (top, deep) := (|f.stack| - 1, |f.stack| - 1 - n);
      Next(Advance(f.(stack := f.stack[top := f.stack[deep]][deep := f.stack[top]])))
  }

  predicate IsMemoryOp(op: int) {
    op == 0x20 || op == 0x37 || op == 0x39 || op == 0x3C || op == 0x3E || (0x51 <= op <= 0x53) || op == 0x5E
  }

  function MemoryPops(op: int): nat {
    if op == 0x51 then 1
    else if op == 0x20 || op == 0x52 || op == 0x53 then 2
    else if op == 0x3C then 4
    else 3
  }

  /** Words on the stack are never negative, so they serve as offsets and sizes. */
  function Offset(f: Frame, k: nat): nat { if Arg(f, k) >= 0 then Arg(f, k) else 0 }

  /** The `size` bytes at `offset` once memory has grown over them. */
  function Range(g: Frame, offset: nat, size: nat): seq<Byte> { Slice(Touched(g, offset, size).memory, offset, size) }

  /** Push a word computed from memory, growing memory over its range first. */
  function ReadStep(g: Frame, offset: nat, size: nat, word: int): Flow {
    Next(Advance(Pushed(Touched(g, offset, size), word)))
  }

  function CopyStep(g: Frame, dest: nat, size: nat, src: seq<Byte>, from: nat): Flow {
    Next(Advance(WithMemory(g, dest, size, src, from)))
  }

  /** MCOPY pays its base cost a second time, plus 3 per word. */
  function MoveStep(c: Context, g: Frame, dest: nat, src: nat, size: nat): Flow {
    var cost := BaseCost(0x5E) + 3 * ((size + 31) / 32);
    if g.gasUsed + cost > c.gasLimit then Raise(g)
    else
      var h := Touched(Touched(g.(gasUsed := g.gasUsed + cost), dest, size), src, size);
      CopyStep(h, dest, size, Slice(h.memory, src, size), 0)
  }

  function MemoryStep(c: Context, f: Frame, op: int): Flow
    requires IsMemoryOp(op)
  {
    if |f.stack| < MemoryPops(op) then Raise(f)
    else
      var g := Popped(f, MemoryPops(op));
      var (a0, a1, a2) := (Offset(f, 0), Offset(f, 1), Offset(f, 2));
      if op == 0x20 then ReadStep(g, a0, a1, c.keccak(Range(g, a0, a1)))
      else if op == 0x51 then ReadStep(g, a0, 32, FromBytes(Range(g, a0, 32)))
      else if op == 0x52 then CopyStep(g, a0, 32, ToBytes(a1, 32), 0)
      else if op == 0x53 then CopyStep(g, a0, 1, [a1 % 256], 0)
      else if op == 0x37 then CopyStep(g, a0, a2, c.calldata, a1)
      else if op == 0x39 then CopyStep(g, a0, a2, c.code, a1)
      else if op == 0x3E then CopyStep(g, a0, a2, f.returnData, a1)
      else if op == 0x3C then CopyStep(g, a1, a2, c.externalCode(Arg(f, 3), a0, a2), 0)
      else MoveStep(c, g, a2, a1, a0)
  }

  function JumpStep(c: Context, f: Frame, op: int): Flow
    requires op == 0x56 || op == 0x57
  {
    var k := if op == 0x56 then 1 else 2;
    if |f.stack| < k then Raise(f)
    else if op == 0x57 && Arg(f, 1) == 0 then Next(Advance(Popped(f, k)))
    else if Arg(f, 0) >= 0 && Arg(f, 0) in c.jumpTable then Next(Popped(f, k).(pc := Arg(f, 0)))
    else Raise(f)
  }

  // ---------------------------------------------------------------- state writes

  function Write(s: Storage, key: int, value: int): Storage { if value == 0 then s - {key} else s[key := value] }

  /** A write in a static frame reverts the frame. */
  function StaticRevert(f: Frame): Flow { Halt(f.(reverted := true, running := false)) }

  predicate IsWrite(op: int) { op == 0x55 || op == 0x5D || IsLog(op) || op == 0xF0 || op == 0xF5 || op == 0xFF }

  function LogStep(c: Context, f: Frame, n: nat): Flow {
    if |f.stack| < n + 2 then Raise(f)
    else
      var (size, offset) := (Offset(f, n), Offset(f, n + 1));
      var cost := 375 + n * 375 + size;
      if f.gasUsed + cost > c.gasLimit then Raise(f)
      else
        var g := Touched(Popped(f, n + 2).(gasUsed := f.gasUsed + cost), offset, size);
        var topics := seq(n, i requires 0 <= i < n => Arg(f, n - 1 - i));
        Next(Advance(g.(logs := g.logs + [Log(topics, Slice(g.memory, offset, size))])))
  }

  /** The creation `_execute_create` hands on. */
  function CreateOf(f: Frame, op: int): NestedCreate {
    var k := if op == 0xF5 then 4 else 3;
    var (size, offset) := (Offset(f, k - 3), Offset(f, k - 2));
    NestedCreate(Arg(f, k - 1), Slice(Extended(f.memory, offset, size), offset, size), if op == 0xF5 then Some(Arg(f, 0)) else None)
  }

  function CreateStep(c: Context, f: Frame, op: int): Flow {
    var k := if op == 0xF5 then 4 else 3;
    if |f.stack| < k then Raise(f)
    else
      var g := Popped(f, k);
      if c.onCreate.None? then Next(Advance(Pushed(g, 0)))
      else
        var (size, offset) := (Offset(f, k - 3), Offset(f, k - 2));
        var reply := c.onCreate.value(f.creates, CreateOf(f, op));
        var h := Charged(Touched(g, offset, size).(creates := f.creates + 1), reply.gasUsed);
        if h.gasUsed > c.gasLimit && reply.gasUsed > 0 then Raise(h)
        else Next(Advance(Pushed(h, if !reply.success || reply.reverted then 0 else reply.address)))
  }

  function WriteStep(c: Context, f: Frame, op: int): Flow
    requires IsWrite(op)
  {
    if c.readOnly then StaticRevert(f)
    else if op == 0x55 then
      if |f.stack| < 2 then Raise(f)
      else Next(Advance(Popped(f, 2).(storage := Write(f.storage, Arg(f, 0), Arg(f, 1)))))
    else if op == 0x5D then
      if |f.stack| < 2 then Raise(f)
      else Next(Advance(Popped(f, 2).(transient := Write(f.transient, Arg(f, 0), Arg(f, 1)))))
    else if IsLog(op) then LogStep(c, f, op - 0xA0)
    else if op == 0xFF then
      if |f.stack| < 1 then Raise(f) else Halt(Popped(f, 1).(running := false))
    else CreateStep(c, f, op)
  }

  // ---------------------------------------------------------------- nested calls

  predicate IsCall(op: int) { op == 0xF1 || op == 0xF2 || op == 0xF4 || op == 0xFA }

  function Charged(f: Frame, sub: int): Frame { if sub > 0 then f.(gasUsed := f.gasUsed + sub) else f }

  /** The call `_execute_call` hands on; a static frame makes every nested call static. */
  function CallOf(c: Context, f: Frame, op: int): NestedCall {
    var readOnly := op == 0xFA || c.readOnly;
    var kind := if readOnly then StaticCall else if op == 0xF4 then DelegateCall else if op == 0xF2 then CallCode else PlainCall;
    var value := if op == 0xF1 || op == 0xF2 then Arg(f, 2) else 0;
    var k := if op == 0xF1 || op == 0xF2 then 3 else 2;
    var mem := Extended(f.memory, Offset(f, k), Offset(f, k + 1));
    NestedCall(kind, Arg(f, 1), value, c.planGas(Remaining(c, f), Arg(f, 0), value, kind),
               Slice(mem, Offset(f, k), Offset(f, k + 1)), readOnly)
  }

  /** A value transfer out of a static frame reverts it, pushing 0 and letting the loop condition end it. */
  function RefusedCall(g: Frame): Frame { Advance(Pushed(g.(returnData := [], reverted := true, running := false), 0)) }

  /** Charge the callee's gas, adopt delegated storage, copy the return data out, push success. */
  function AnsweredCall(c: Context, h: Frame, sub: int, adopts: bool, reply: CallReply, ret: nat, size: nat): Flow {
    var paid := Charged(h, sub);
    if sub > 0 && paid.gasUsed > c.gasLimit then Raise(paid)
    else
      var back := paid.(returnData := reply.returnData,
                        storage := if adopts && reply.storage.Some? && !c.readOnly then reply.storage.value else paid.storage);
      Next(Advance(Pushed(WithMemory(back, ret, size, reply.returnData, 0), if reply.success && !reply.reverted then 1 else 0)))
  }

  function CallStep(c: Context, f: Frame, op: int): Flow
    requires IsCall(op)
  {
    var k := if op == 0xF1 || op == 0xF2 then 3 else 2;
    if |f.stack| < k + 4 then Raise(f)
    else
      var g := Popped(f, k + 4);
      var call := CallOf(c, f, op);
      if c.readOnly && call.value != 0 then Next(RefusedCall(g))
      else if c.onCall.None? then Next(Advance(Pushed(g.(returnData := []), 0)))
      else
        var reply := c.onCall.value(|f.calls|, call);
        var sub := if reply.gasUsed < call.gas then reply.gasUsed else call.gas;
        var h := Touched(g, Offset(f, k), Offset(f, k + 1)).(calls := f.calls + [call]);
        AnsweredCall(c, h, sub, op == 0xF4 || op == 0xF2, reply, Offset(f, k + 2), Offset(f, k + 3))
  }

  // ---------------------------------------------------------------- one iteration of the loop

  function ReturnStep(f: Frame, reverts: bool): Flow {
    if |f.stack| < 2 then Raise(f)
    else
      var g := Touched(Popped(f, 2), Offset(f, 0), Offset(f, 1));
      Halt(g.(returnData := Slice(g.memory, Offset(f, 0), Offset(f, 1)), reverted := g.reverted || reverts, running := false))
  }

  function Dispatch(c: Context, f: Frame, op: int): Flow
    requires f.pc < |c.code|
  {
    if op == 0x00 then Halt(f.(running := false))
    else if 0x60 <= op <= 0x7F then Next(Pushed(f, ReadPush(c.code, f.pc, op - 0x5F)).(pc := f.pc + 1 + (op - 0x5F)))
    else if PureArity(op) >= 0 then PureStep(c, f, op)
    else if IsMemoryOp(op) then MemoryStep(c, f, op)
    else if op == 0x50 then if |f.stack| < 1 then Raise(f) else Next(Advance(Popped(f, 1)))
    else if op == 0x5B then Next(Advance(f))
    else if op == 0x56 || op == 0x57 then JumpStep(c, f, op)
    else if 0x80 <= op <= 0x8F then DupStep(f, op - 0x7F)
    else if 0x90 <= op <= 0x9F then SwapStep(f, op - 0x8F)
    else if IsWrite(op) then WriteStep(c, f, op)
    else if IsCall(op) then CallStep(c, f, op)
    else if op == 0xF3 || op == 0xFD then ReturnStep(f, op == 0xFD)
    else Raise(f)
  }

  /** Charge, record, execute. LOG charges itself, after its static check. */
  function Step(c: Context, f: Frame): Flow
    requires f.pc < |c.code|
  {
    var op := c.code[f.pc];
    var cost := if IsLog(op) then 0 else BaseCost(op);
    if !IsLog(op) && f.gasUsed + cost > c.gasLimit then Raise(f)
    else Dispatch(c, f.(gasUsed := f.gasUsed + cost, trace := f.trace + [f.pc]), op)
  }
}
