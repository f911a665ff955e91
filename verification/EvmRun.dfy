/** Whole runs of the interpreter: bounds, boundaries, static frames and frame atomicity. */
module EvmRun {
  import opened Bytecode
  import opened Evm

  // ---------------------------------------------------------------- what one opcode keeps

  ghost predicate Words(f: Frame) { forall i | 0 <= i < |f.stack| :: 0 <= f.stack[i] < WORD_LIMIT }

  /** Memory only grows, the call record only grows, and a static frame writes nothing and calls statically. */
  ghost predicate Kept(c: Context, f: Frame, g: Frame) {
    && |g.memory| >= |f.memory|
    && f.calls <= g.calls
    && (c.readOnly ==> g.storage == f.storage && g.transient == f.transient && g.logs == f.logs)
    && (c.readOnly ==> forall i | |f.calls| <= i < |g.calls| :: g.calls[i].readOnly)
  }

  ghost predicate WithinGas(c: Context, f: Frame, g: Frame) {
    f.gasUsed <= g.gasUsed && (f.gasUsed <= c.gasLimit ==> g.gasUsed <= c.gasLimit)
  }

  /** The contract of every opcode, once charged: `f` is the frame it starts in. */
  ghost predicate Good(c: Context, f: Frame, op: int, flow: Flow)
    requires f.pc < |c.code|
  {
    match flow
    case Next(g) =>
      && Kept(c, f, g) && WithinGas(c, f, g) && Words(g) && g.trace == f.trace
      && (IsLog(op) ==> f.gasUsed < g.gasUsed <= c.gasLimit)
      && (g.pc == NextPc(c.code, f.pc) || g.pc in c.jumpTable)
    case Halt(g) => Kept(c, f, g) && WithinGas(c, f, g) && Words(g) && g.trace == f.trace
    case Raise(g) => Kept(c, f, g) && g.trace == f.trace
  }

  /** Growing memory and copying into it keeps everything else. */
  lemma MemoryKeeps(f: Frame, dest: nat, size: nat, src: seq<Byte>, from: nat)
    ensures var g := WithMemory(f, dest, size, src, from);
            |g.memory| >= |f.memory| && g == f.(memory := g.memory)
    ensures var h := Touched(f, dest, size);
            |h.memory| >= |f.memory| && h == f.(memory := h.memory)
  {
  }

  lemma PureGood(c: Context, f: Frame, op: int)
    requires f.pc < |c.code| && c.code[f.pc] == op && Words(f) && PureArity(op) >= 0
    ensures Good(c, f, op, PureStep(c, f, op))
  {
  }

  lemma ShuffleGood(c: Context, f: Frame, op: int)
    requires f.pc < |c.code| && c.code[f.pc] == op && Words(f) && 0x80 <= op <= 0x9F
    ensures Good(c, f, op, if op <= 0x8F then DupStep(f, op - 0x7F) else SwapStep(f, op - 0x8F))
  {
  }

  /** The frame differs from `f` only in stack, memory, gas and return data; its words are words and its memory has not shrunk. */
  ghost predicate Plain(c: Context, f: Frame, g: Frame) {
    && Words(g) && |g.memory| >= |f.memory| && WithinGas(c, f, g)
    && g.pc == f.pc && g.storage == f.storage && g.transient == f.transient && g.logs == f.logs
    && g.trace == f.trace && g.calls == f.calls
  }

  lemma ReadPlain(c: Context, f: Frame, g: Frame, offset: nat, size: nat, word: int)
    requires Plain(c, f, g)
    ensures var flow := ReadStep(g, offset, size, word); flow.Next? && Plain(c, f, flow.frame.(pc := f.pc)) && flow.frame.pc == f.pc + 1
  {
    hide Masked, Extended, Slice;
  }

  lemma CopyPlain(c: Context, f: Frame, g: Frame, dest: nat, size: nat, src: seq<Byte>, from: nat)
    requires Plain(c, f, g)
    ensures var flow := CopyStep(g, dest, size, src, from); flow.Next? && Plain(c, f, flow.frame.(pc := f.pc)) && flow.frame.pc == f.pc + 1
  {
    hide Extended, Copied;
  }

  lemma MovePlain(c: Context, f: Frame, g: Frame, dest: nat, src: nat, size: nat)
    requires Plain(c, f, g)
    ensures var flow := MoveStep(c, g, dest, src, size);
            && (flow.Next? ==> Plain(c, f, flow.frame.(pc := f.pc)) && flow.frame.pc == f.pc + 1)
            && (flow.Raise? ==> flow.frame == g)
  {
    hide Extended, Copied, Slice, CopyStep;
    var cost := BaseCost(0x5E) + 3 * ((size + 31) / 32);
    if g.gasUsed + cost <= c.gasLimit {
      var h := Touched(Touched(g.(gasUsed := g.gasUsed + cost), dest, size), src, size);
      CopyPlain(c, f, h, dest, size, Slice(h.memory, src, size), 0);
    }
  }

  lemma PlainKept(c: Context, f: Frame, g: Frame)
    requires Words(f)
    ensures Plain(c, f, g) ==> Kept(c, f, g) && g.trace == f.trace
    ensures Plain(c, f, f)
  {
  }

  lemma PopPlain(c: Context, f: Frame, k: nat)
    requires Words(f)
    ensures Plain(c, f, Popped(f, k))
  {
  }

  lemma PlainGood(c: Context, f: Frame, op: int, flow: Flow)
    requires f.pc < |c.code| && c.code[f.pc] == op && !IsLog(op) && PushSize(op) == 0
    requires flow.Next? ==> Plain(c, f, flow.frame.(pc := f.pc)) && flow.frame.pc == f.pc + 1
    requires flow.Raise? ==> Kept(c, f, flow.frame) && flow.frame.trace == f.trace
    requires !flow.Halt?
    ensures Good(c, f, op, flow)
  {
  }

  /** Every memory opcode pops its operands, reshapes memory, and pushes at most one word. */
  lemma MemoryGood(c: Context, f: Frame, op: int)
    requires f.pc < |c.code| && c.code[f.pc] == op && Words(f) && IsMemoryOp(op)
    ensures Good(c, f, op, MemoryStep(c, f, op))
  {
    hide Range, Popped, Words, Offset, ReadStep, CopyStep, MoveStep, Plain, Good, BaseCost, FromBytes, ToBytes;
    var g := Popped(f, MemoryPops(op));
    PopPlain(c, f, MemoryPops(op));
    var (a0, a1, a2) := (Offset(f, 0), Offset(f, 1), Offset(f, 2));
    if |f.stack| >= MemoryPops(op) {
      if op == 0x20 { ReadPlain(c, f, g, a0, a1, c.keccak(Range(g, a0, a1))); }
      else if op == 0x51 { ReadPlain(c, f, g, a0, 32, FromBytes(Range(g, a0, 32))); }
      else if op == 0x52 { CopyPlain(c, f, g, a0, 32, ToBytes(a1, 32), 0); }
      else if op == 0x53 { CopyPlain(c, f, g, a0, 1, [a1 % 256], 0); }
      else if op == 0x37 { CopyPlain(c, f, g, a0, a2, c.calldata, a1); }
      else if op == 0x39 { CopyPlain(c, f, g, a0, a2, c.code, a1); }
      else if op == 0x3E { CopyPlain(c, f, g, a0, a2, f.returnData, a1); }
      else if op == 0x3C { CopyPlain(c, f, g, a1, a2, c.externalCode(Arg(f, 3), a0, a2), 0); }
      else {
        MovePlain(c, f, g, a2, a1, a0);
        MoveNeverHalts(c, g, a2, a1, a0);
      }
    }
    PlainKept(c, f, g);
    PlainKept(c, f, f);
    PlainGood(c, f, op, MemoryStep(c, f, op));
  }

  lemma MoveNeverHalts(c: Context, g: Frame, dest: nat, src: nat, size: nat)
    ensures !MoveStep(c, g, dest, src, size).Halt?
  {
  }

  lemma PopFrame(f: Frame, k: nat)
    requires Words(f)
    ensures Words(Popped(f, k)) && Words(Advance(Popped(f, k))) && Popped(f, k) == f.(stack := Popped(f, k).stack)
  {
  }

  lemma PushFrame(f: Frame, v: int)
    requires Words(f)
    ensures Words(Pushed(f, v)) && Words(Advance(Pushed(f, v))) && Pushed(f, v) == f.(stack := Pushed(f, v).stack)
  {
  }

  lemma SameWords(f: Frame, g: Frame)
    requires Words(f) && f.stack == g.stack
    ensures Words(g) && Words(Advance(g))
  {
  }

  lemma JumpGood(c: Context, f: Frame, op: int)
    requires f.pc < |c.code| && c.code[f.pc] == op && Words(f) && (op == 0x56 || op == 0x57)
    ensures Good(c, f, op, JumpStep(c, f, op))
  {
  }

  lemma LogGood(c: Context, f: Frame, op: int)
    requires f.pc < |c.code| && c.code[f.pc] == op && Words(f) && IsLog(op) && !c.readOnly
    ensures Good(c, f, op, LogStep(c, f, op - 0xA0))
  {
  }

  lemma CreateGood(c: Context, f: Frame, op: int)
    requires f.pc < |c.code| && c.code[f.pc] == op && Words(f) && (op == 0xF0 || op == 0xF5) && !c.readOnly
    ensures Good(c, f, op, CreateStep(c, f, op))
  {
    hide Pushed, Popped, Masked, Extended, Words, Touched, Offset;
    var k := if op == 0xF5 then 4 else 3;
    PopFrame(f, k);
    var g := Popped(f, k);
    PushFrame(g, 0);
    if c.onCreate.Some? {
      var reply := c.onCreate.value(f.creates, CreateOf(f, op));
      MemoryKeeps(g, Offset(f, k - 2), Offset(f, k - 3), [], 0);
      var h := Charged(Touched(g, Offset(f, k - 2), Offset(f, k - 3)).(creates := f.creates + 1), reply.gasUsed);
      SameWords(g, h);
      PushFrame(h, if !reply.success || reply.reverted then 0 else reply.address);
    }
  }

  lemma WriteGood(c: Context, f: Frame, op: int)
    requires f.pc < |c.code| && c.code[f.pc] == op && Words(f) && IsWrite(op)
    ensures Good(c, f, op, WriteStep(c, f, op))
  {
    if !c.readOnly {
      if IsLog(op) { LogGood(c, f, op); }
      if op == 0xF0 || op == 0xF5 { CreateGood(c, f, op); }
    }
  }

  lemma AnsweredGood(c: Context, h: Frame, sub: int, adopts: bool, reply: CallReply, ret: nat, size: nat)
    requires Words(h)
    ensures match AnsweredCall(c, h, sub, adopts, reply, ret, size)
            case Next(g) =>
              && Words(g) && |g.memory| >= |h.memory| && WithinGas(c, h, g) && g.pc == h.pc + 1
              && (c.readOnly ==> g.storage == h.storage) && g.transient == h.transient && g.logs == h.logs
              && g.trace == h.trace && g.calls == h.calls
            case Halt(_) => false
            case Raise(g) => g == h.(gasUsed := g.gasUsed)
  {
    hide Masked, Extended, Copied;
  }

  /** A refused call reverts the frame and moves on by one. */
  lemma RefusedPlain(c: Context, f: Frame, k: nat)
    requires Words(f)
    ensures Plain(c, f, RefusedCall(Popped(f, k)).(pc := f.pc)) && RefusedCall(Popped(f, k)).pc == f.pc + 1
    ensures var h := Advance(Pushed(Popped(f, k).(returnData := []), 0)); Plain(c, f, h.(pc := f.pc)) && h.pc == f.pc + 1
  {
    hide Masked;
  }

  lemma CallGood(c: Context, f: Frame, op: int)
    requires f.pc < |c.code| && c.code[f.pc] == op && Words(f) && IsCall(op)
    ensures Good(c, f, op, CallStep(c, f, op))
  {
    hide Popped, Pushed, Slice, Extended, Offset, Arg, Remaining, AnsweredCall, Words, Charged, Touched, RefusedCall,
         Good, Kept, Plain;
    var k := if op == 0xF1 || op == 0xF2 then 3 else 2;
    var g := Popped(f, k + 4);
    var call := CallOf(c, f, op);
    if |f.stack| < k + 4 {
      PlainKept(c, f, f);
      PlainGood(c, f, op, CallStep(c, f, op));
    } else {
      if (c.readOnly && call.value != 0) || c.onCall.None? {
        RefusedPlain(c, f, k + 4);
        PlainGood(c, f, op, CallStep(c, f, op));
      } else {
        PopPlain(c, f, k + 4);
        var reply := c.onCall.value(|f.calls|, call);
        var sub := if reply.gasUsed < call.gas then reply.gasUsed else call.gas;
        AnsweredAtLast(c, f, op, g, call, sub, reply, k);
      }
    }
  }

  lemma AnsweredAtLast(c: Context, f: Frame, op: int, g: Frame, call: NestedCall, sub: int, reply: CallReply, k: nat)
    requires f.pc < |c.code| && c.code[f.pc] == op && IsCall(op) && Plain(c, f, g) && (c.readOnly ==> call.readOnly)
    ensures var h := Touched(g, Offset(f, k), Offset(f, k + 1)).(calls := f.calls + [call]);
            Good(c, f, op, AnsweredCall(c, h, sub, op == 0xF4 || op == 0xF2, reply, Offset(f, k + 2), Offset(f, k + 3)))
  {
    hide Extended, Offset, AnsweredCall;
    var h := Touched(g, Offset(f, k), Offset(f, k + 1)).(calls := f.calls + [call]);
    AnsweredGood(c, h, sub, op == 0xF4 || op == 0xF2, reply, Offset(f, k + 2), Offset(f, k + 3));
  }

  lemma ReturnGood(c: Context, f: Frame, op: int)
    requires f.pc < |c.code| && c.code[f.pc] == op && Words(f) && (op == 0xF3 || op == 0xFD)
    ensures Good(c, f, op, ReturnStep(f, op == 0xFD))
  {
    hide Popped, Extended, Words, Touched, Slice, Offset;
    PopFrame(f, 2);
    MemoryKeeps(Popped(f, 2), Offset(f, 0), Offset(f, 1), [], 0);
    if ReturnStep(f, op == 0xFD).Halt? {
      SameWords(Popped(f, 2), ReturnStep(f, op == 0xFD).frame);
    }
  }

  lemma DispatchGood(c: Context, f: Frame, op: int)
    requires f.pc < |c.code| && c.code[f.pc] == op && Words(f)
    ensures Good(c, f, op, Dispatch(c, f, op))
  {
    hide PureStep, MemoryStep, JumpStep, WriteStep, CallStep, DupStep, SwapStep, ReturnStep,
         Pushed, Popped, Masked, Extended, Words, Touched, ReadPush;
    if 0x60 <= op <= 0x7F {
      var h := Pushed(f, ReadPush(c.code, f.pc, op - 0x5F));
      PushFrame(f, ReadPush(c.code, f.pc, op - 0x5F));
      SameWords(h, h.(pc := f.pc + 1 + (op - 0x5F)));
    }
    if op == 0x50 {
      PopFrame(f, 1);
      SameWords(Popped(f, 1), Popped(f, 1));
    }
    SameWords(f, f);
    SameWords(f, f.(running := false));
    if op == 0xF3 || op == 0xFD { ReturnGood(c, f, op); }
    if PureArity(op) >= 0 { PureGood(c, f, op); }
    if 0x80 <= op <= 0x9F { ShuffleGood(c, f, op); }
    if IsMemoryOp(op) { MemoryGood(c, f, op); }
    if op == 0x56 || op == 0x57 { JumpGood(c, f, op); }
    if IsWrite(op) { WriteGood(c, f, op); }
    if IsCall(op) { CallGood(c, f, op); }
  }

  /** Every opcode that lets the loop go on costs at least one unit of gas. */
  lemma StepGood(c: Context, f: Frame)
    requires f.pc < |c.code| && Words(f)
    ensures match Step(c, f)
            case Next(g) =>
              && Kept(c, f, g) && Words(g) && g.trace == f.trace + [f.pc]
              && f.gasUsed < g.gasUsed <= c.gasLimit
              && (g.pc == NextPc(c.code, f.pc) || g.pc in c.jumpTable)
            case Halt(g) =>
              && Kept(c, f, g) && Words(g) && g.trace == f.trace + [f.pc]
              && (f.gasUsed <= c.gasLimit ==> f.gasUsed <= g.gasUsed <= c.gasLimit)
            case Raise(g) => Kept(c, f, g) && (g.trace == f.trace || g.trace == f.trace + [f.pc])
  {
    hide Dispatch;
    var op := c.code[f.pc];
    var cost := if IsLog(op) then 0 else BaseCost(op);
    var charged := f.(gasUsed := f.gasUsed + cost, trace := f.trace + [f.pc]);
    assert Words(charged) by { SameWords(f, charged); }
    DispatchGood(c, charged, op);
    if cost == 0 && !IsLog(op) { HaltsFree(c, charged, op); }
  }

  /** Only opcodes that halt are free. */
  lemma HaltsFree(c: Context, f: Frame, op: int)
    requires f.pc < |c.code| && BaseCost(op) == 0
    ensures !Dispatch(c, f, op).Next?
  {
  }

  // ---------------------------------------------------------------- whole runs

  datatype Final = Done(frame: Frame) | Raised(frame: Frame)

  /** The interpreter loop as a function; gas is its termination measure. */
  function Exec(c: Context, f: Frame): Final
    requires Words(f)
    decreases if c.gasLimit >= f.gasUsed then c.gasLimit - f.gasUsed else 0
  {
    if f.pc >= |c.code| || !f.running then Done(f)
    else
      StepGood(c, f);
      match Step(c, f)
      case Next(g) => Exec(c, g)
      case Halt(g) => Done(g)
      case Raise(g) => Raised(g)
  }

  /** The jump table holds exactly the JUMPDEST bytes of the linear decode. */
  ghost predicate TableOk(c: Context) { forall n: nat :: n in c.jumpTable <==> ValidJump(c.code, n) }

  ghost predicate AtBoundary(c: Context, f: Frame) {
    && (f.pc < |c.code| ==> Boundary(c.code, f.pc))
    && forall p | p in f.trace :: p < |c.code| && Boundary(c.code, p)
  }

  lemma StepBoundary(c: Context, f: Frame)
    requires f.pc < |c.code| && Words(f) && TableOk(c) && AtBoundary(c, f)
    ensures match Step(c, f) case Next(g) => AtBoundary(c, g) case Halt(g) => Traced(c, g) case Raise(g) => Traced(c, g)
  {
    hide Step, ReachedFrom;
    StepGood(c, f);
    ReachedNext(c.code, 0, f.pc);
  }

  ghost predicate Traced(c: Context, f: Frame) { forall p | p in f.trace :: p < |c.code| && Boundary(c.code, p) }

  /** Every pc at which an opcode executes starts an instruction of the linear decode, in every run of every bytecode. */
  lemma {:induction false} ExecutesOnlyInstructions(c: Context, f: Frame)
    requires Words(f) && TableOk(c) && AtBoundary(c, f)
    ensures Traced(c, Exec(c, f).frame)
    decreases if c.gasLimit >= f.gasUsed then c.gasLimit - f.gasUsed else 0
  {
    hide Step, Boundary;
    if f.pc < |c.code| && f.running {
      StepGood(c, f);
      StepBoundary(c, f);
      if Step(c, f).Next? { ExecutesOnlyInstructions(c, Step(c, f).frame); }
    }
  }

  /** No opcode executes inside push data. */
  lemma NeverInsidePushData(c: Context, f: Frame, p: nat, m: nat)
    requires Words(f) && TableOk(c) && AtBoundary(c, f) && p in Exec(c, f).frame.trace
    ensures !PushDataOf(c.code, m, p)
  {
    hide Exec;
    ExecutesOnlyInstructions(c, f);
    BoundaryOrData(c.code, p);
  }

  function Budget(c: Context, f: Frame): nat { if c.gasLimit >= f.gasUsed then c.gasLimit - f.gasUsed else 0 }

  /** At most one opcode more than the gas left executes; a normal exit is within gas; words stay words; memory never shrinks. */
  lemma {:induction false} ExecBounds(c: Context, f: Frame)
    requires Words(f)
    ensures |Exec(c, f).frame.trace| <= |f.trace| + Budget(c, f) + 1
    ensures |Exec(c, f).frame.memory| >= |f.memory|
    ensures Exec(c, f).Done? ==> Words(Exec(c, f).frame) && (f.gasUsed <= c.gasLimit ==> Exec(c, f).frame.gasUsed <= c.gasLimit)
    decreases Budget(c, f)
  {
    hide Step, Words;
    if f.pc < |c.code| && f.running {
      StepGood(c, f);
      if Step(c, f).Next? { ExecBounds(c, Step(c, f).frame); }
    }
  }

  /** A static frame leaves storage, transient storage and logs alone and makes every nested call static, whatever the callees answer. */
  lemma {:induction false} StaticFrameWritesNothing(c: Context, f: Frame)
    requires Words(f) && c.readOnly
    ensures Kept(c, f, Exec(c, f).frame)
    decreases Budget(c, f)
  {
    hide Step, Words;
    if f.pc < |c.code| && f.running {
      StepGood(c, f);
      if Step(c, f).Next? { StaticFrameWritesNothing(c, Step(c, f).frame); }
    }
  }

  // ---------------------------------------------------------------- how a run ends

  /** STOP, RETURN, REVERT and SELFDESTRUCT. */
  predicate Halts(op: int) { op == 0x00 || op == 0xF3 || op == 0xFD || op == 0xFF }

  /** The last opcode executed is `op`. */
  predicate EndsBy(code: seq<Byte>, trace: seq<nat>, op: int) {
    trace != [] && trace[|trace| - 1] < |code| && code[trace[|trace| - 1]] == op
  }

  predicate EndsByHalt(code: seq<Byte>, trace: seq<nat>) {
    trace != [] && trace[|trace| - 1] < |code| && Halts(code[trace[|trace| - 1]])
  }

  /** What an opcode does to the flags of a frame that is running and not reverted. */
  ghost predicate Flags(c: Context, f: Frame, op: int, flow: Flow) {
    match flow
    case Next(g) =>
      !Halts(op) && ((g.running && !g.reverted) || (c.readOnly && IsCall(op) && g.reverted && !g.running))
    case Halt(g) =>
      !g.running && (Halts(op) || (c.readOnly && IsWrite(op)))
      && (g.reverted <==> op == 0xFD || (c.readOnly && IsWrite(op)))
    case Raise(g) => Halts(op) ==> op != 0x00 && |g.stack| < 2
  }

  lemma MemoryFlags(c: Context, f: Frame, op: int)
    requires f.running && !f.reverted && IsMemoryOp(op)
    ensures Flags(c, f, op, MemoryStep(c, f, op))
  {
    hide Extended, Copied, Slice, FromBytes, ToBytes, Masked, Range;
  }

  lemma WriteFlags(c: Context, f: Frame, op: int)
    requires f.running && !f.reverted && IsWrite(op)
    ensures Flags(c, f, op, WriteStep(c, f, op))
  {
    hide Extended, Slice, Masked;
  }

  lemma CallFlags(c: Context, f: Frame, op: int)
    requires f.running && !f.reverted && IsCall(op)
    ensures Flags(c, f, op, CallStep(c, f, op))
  {
    hide Extended, Copied, Slice, Masked, CallOf, Remaining;
  }

  lemma DispatchFlags(c: Context, f: Frame, op: int)
    requires f.pc < |c.code| && f.running && !f.reverted
    ensures Flags(c, f, op, Dispatch(c, f, op))
  {
    hide MemoryStep, WriteStep, CallStep, Extended, Masked, ReadPush, PureValue, Slice, Args;
    if IsMemoryOp(op) { MemoryFlags(c, f, op); }
    if IsWrite(op) { WriteFlags(c, f, op); }
    if IsCall(op) { CallFlags(c, f, op); }
  }

  lemma StepFlags(c: Context, f: Frame)
    requires f.pc < |c.code| && f.running && !f.reverted && Words(f)
    ensures var (flow, op) := (Step(c, f), c.code[f.pc]);
            Flags(c, f, op, flow) || (flow.Raise? && flow.frame.trace == f.trace)
    ensures Step(c, f).Raise? && Step(c, f).frame.trace == f.trace ==> Step(c, f) == Raise(f)
  {
    hide Dispatch;
    var op := c.code[f.pc];
    var charged := f.(gasUsed := f.gasUsed + if IsLog(op) then 0 else BaseCost(op), trace := f.trace + [f.pc]);
    assert Words(charged) by { SameWords(f, charged); }
    DispatchFlags(c, charged, op);
    DispatchGood(c, charged, op);
  }

  /** The run from `f` ends in `x`, for the reason its last opcode gives. */
  ghost predicate EndsAsTraced(c: Context, f: Frame, x: Final) {
    var (g, ran) := (x.frame, |x.frame.trace| > |f.trace|);
    && f.trace <= g.trace
    && (ran ==> g.trace[|g.trace| - 1] < |c.code|)
    && (x.Done? ==>
          && (ran && EndsBy(c.code, g.trace, 0xFD) ==> g.reverted)
          && (g.reverted ==> ran && (EndsBy(c.code, g.trace, 0xFD) || c.readOnly))
          && (ran && EndsByHalt(c.code, g.trace) ==> !g.running)
          && (!g.running ==> ran && (EndsByHalt(c.code, g.trace) || c.readOnly)))
    && (x.Raised? && ran && EndsByHalt(c.code, g.trace) ==> !EndsBy(c.code, g.trace, 0x00) && |g.stack| < 2)
  }

  /**
   * A frame is reverted when its last opcode is REVERT, and only then unless it is static; it stops running
   * when its last opcode is a halting one, and only then unless it is static; and a halting opcode fails only
   * for want of operands, STOP never.
   */
  lemma {:induction false} RunEndsAsTraced(c: Context, f: Frame)
    requires Words(f) && f.running && !f.reverted
    ensures EndsAsTraced(c, f, Exec(c, f))
    decreases Budget(c, f)
  {
    hide Step, Words, IsWrite, IsCall;
    if f.pc < |c.code| {
      StepGood(c, f);
      StepFlags(c, f);
      var flow := Step(c, f);
      if flow.Next? {
        var g := flow.frame;
        assert g.trace[|g.trace| - 1] == f.pc;
        if g.running {
          RunEndsAsTraced(c, g);
        }
      } else {
        assert flow.frame.trace != f.trace ==> flow.frame.trace[|f.trace|] == f.pc;
      }
    }
  }

  // ---------------------------------------------------------------- the interpreter as an object

  datatype Result =
    | Completed(success: bool, frame: Frame)
    | Failed

  /** `_execute_bytecode_impl` resets everything but memory, storage and transient storage. */
  function Entry(memory: seq<Byte>, storage: Storage, transient: Storage): Frame {
    Frame(0, 0, [], memory, storage, transient, [], [], true, false, [], [], 0)
  }

  /** The answer and the storage a finished loop leaves: a revert or an exception gives the old storage back. */
  function Settled(final: Final, before: Storage): (Result, Storage) {
    match final
    case Raised(_) => (Failed, before)
    case Done(f) =>
      var storage := if f.reverted then before else f.storage;
      var success := f.running || (!f.reverted && (f.returnData != [] || f.stack != []));
      (Completed(success, f.(storage := storage)), storage)
  }

  ghost function JumpSet(code: seq<Byte>): set<nat> { set n: nat | n < |code| && ValidJump(code, n) }

  class EVM {
    const surroundings: Context
    var pc: nat
    var gasUsed: int
    var stack: seq<int>
    var memory: seq<Byte>
    var storage: Storage
    var transientStorage: Storage
    var logs: seq<Log>
    var returnData: seq<Byte>
    var running: bool
    var reverted: bool
    var trace: seq<nat>
    var calls: seq<NestedCall>
    var creates: nat

    function View(): Frame
      reads this
    {
      Frame(pc, gasUsed, stack, memory, storage, transientStorage, logs, returnData, running, reverted, trace, calls, creates)
    }

    constructor (surroundings: Context, storage: Storage)
      ensures this.surroundings == surroundings && View() == Entry([], storage, map[])
    {
      this.surroundings := surroundings;
      pc, gasUsed, stack, memory, this.storage, transientStorage := 0, 0, [], [], storage, map[];
      logs, returnData, running, reverted, trace, calls, creates := [], [], true, false, [], [], 0;
    }

    method Become(f: Frame)
      modifies this
      ensures View() == f
    {
      pc, gasUsed, stack, memory, storage, transientStorage := f.pc, f.gasUsed, f.stack, f.memory, f.storage, f.transient;
      logs, returnData, running, reverted, trace := f.logs, f.returnData, f.running, f.reverted, f.trace;
      calls, creates := f.calls, f.creates;
    }

    /** The while loop; an exception leaves the fields as they were when it was raised. */
    method RunLoop(c: Context) returns (raised: bool)
      requires Words(View())
      modifies this
      ensures Exec(c, old(View())) == if raised then Raised(View()) else Done(View())
    {
      hide Step, Words;
      while pc < |c.code| && running
        invariant Words(View()) && Exec(c, View()) == Exec(c, old(View()))
        decreases Budget(c, View())
      {
        StepGood(c, View());
        match Step(c, View()) {
          case Next(g) => Become(g);
          case Halt(g) => Become(g); return false;
          case Raise(g) => Become(g); return true;
        }
      }
      return false;
    }

    /**
     * `execute_bytecode`: snapshot storage, run, and put the snapshot back when the frame reverted or
     * failed, even if a delegated call replaced the storage in between.
     */
    method ExecuteBytecode(code: seq<Byte>) returns (r: Result)
      modifies this
      ensures (r, storage) == Settled(Exec(surroundings.(code := code, jumpTable := JumpSet(code)),
                                           Entry(old(memory), old(storage), old(transientStorage))), old(storage))
      ensures r.Failed? || r.frame.reverted ==> storage == old(storage)
      ensures EndsBy(code, trace, 0xFD) ==> (r.Failed? || r.frame.reverted) && storage == old(storage)
      ensures r.Completed? && !surroundings.readOnly ==> (r.frame.reverted <==> EndsBy(code, trace, 0xFD))
      ensures r.Completed? && !r.frame.reverted ==>
                storage == Exec(surroundings.(code := code, jumpTable := JumpSet(code)),
                                Entry(old(memory), old(storage), old(transientStorage))).frame.storage
      ensures r.Failed? && EndsByHalt(code, trace) ==> !EndsBy(code, trace, 0x00) && |stack| < 2
      ensures r.Completed? && !surroundings.readOnly ==>
                (r.success <==> !EndsBy(code, trace, 0xFD) && (!EndsByHalt(code, trace) || returnData != [] || stack != []))
      ensures r.Completed? ==> r.frame == View() && r.frame.storage == storage
      ensures forall p, m: nat | p in trace :: p < |code| && Boundary(code, p) && !PushDataOf(code, m, p)
      ensures |trace| <= (if surroundings.gasLimit > 0 then surroundings.gasLimit else 0) + 1
      ensures |memory| >= old(|memory|)
      ensures r.Completed? ==> (surroundings.gasLimit >= 0 ==> gasUsed <= surroundings.gasLimit) && Words(View())
      ensures surroundings.readOnly ==>
                storage == old(storage) && transientStorage == old(transientStorage) && logs == []
                && forall i | 0 <= i < |calls| :: calls[i].readOnly
    {
      hide Exec, Step, Boundary, PushDataOf;
      var snapshot := storage;
      var table := BuildJumpTable(code);
      assert table == JumpSet(code);
      var c := surroundings.(code := code, jumpTable := table);
      Become(Entry(memory, storage, transientStorage));
      ghost var entry := View();
      EntryOk(c, entry);
      ExecutesOnlyInstructions(c, entry);
      forall p, m: nat | p in Exec(c, entry).frame.trace ensures !PushDataOf(code, m, p) {
        NeverInsidePushData(c, entry, p, m);
      }
      ExecBounds(c, entry);
      RunEndsAsTraced(c, entry);
      if c.readOnly { StaticFrameWritesNothing(c, entry); }
      var raised := RunLoop(c);
      if raised {
        storage := snapshot;
        return Failed;
      }
      var success := running || (!reverted && (returnData != [] || stack != []));
      if reverted { storage := snapshot; }
      return Completed(success, View());
    }
  }

  lemma EntryOk(c: Context, f: Frame)
    requires f == Entry(f.memory, f.storage, f.transient) && TableOk(c)
    ensures Words(f) && AtBoundary(c, f)
  {
  }
}
