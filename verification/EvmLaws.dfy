/** What the opcodes mean to a contract: reads give back what was written, and nothing else moves. */
module EvmLaws {
  import opened Collections
  import opened Bytecode
  import opened Evm

  // ---------------------------------------------------------------- memory

  /** Zero-padded reading cannot tell extended memory from the original. */
  lemma ExtensionUnseen(mem: seq<Byte>, offset: nat, size: nat, at: nat, n: nat)
    ensures Slice(Extended(mem, offset, size), at, n) == Slice(mem, at, n)
  {
    var big := Extended(mem, offset, size);
    assert forall i | 0 <= i < |mem| :: big[i] == big[..|mem|][i] == mem[i];
    assert forall i | |mem| <= i < |big| :: big[i] == 0;
  }

  /** A copy puts the source range, zero-padded, at its destination. */
  lemma CopyReadsBack(f: Frame, dest: nat, size: nat, src: seq<Byte>, from: nat)
    ensures CopyStep(f, dest, size, src, from).Next?
    ensures Slice(CopyStep(f, dest, size, src, from).frame.memory, dest, size) == Slice(src, from, size)
  {
  }

  /** A copy leaves every byte outside its destination as it reads. */
  lemma CopyElsewhere(f: Frame, dest: nat, size: nat, src: seq<Byte>, from: nat, at: nat, n: nat)
    requires at + n <= dest || dest + size <= at
    ensures CopyStep(f, dest, size, src, from).Next?
    ensures Slice(CopyStep(f, dest, size, src, from).frame.memory, at, n) == Slice(f.memory, at, n)
  {
    var big := Extended(f.memory, dest, size);
    ExtensionUnseen(f.memory, dest, size, at, n);
    assert Slice(Copied(big, dest, src, from, size), at, n) == Slice(big, at, n);
  }

  lemma {:induction false} PowSplit(a: nat, b: nat)
    ensures Pow256(a + b) == Pow256(a) * Pow256(b)
  {
    if a > 0 {
      PowSplit(a - 1, b);
      assert Pow256(a + b) == 256 * (Pow256(a - 1) * Pow256(b));
    }
  }

  lemma WordIsThirtyTwoBytes()
    ensures Pow256(32) == WORD_LIMIT
  {
    var p := Pow256(4);
    assert p == 0x1_0000_0000 by { assert Pow256(2) == 0x1_0000; PowSplit(2, 2); }
    PowSplit(4, 4);
    PowSplit(8, 8);
    PowSplit(16, 16);
  }

  /** MSTORE then MLOAD at the same offset gives the stored word back, whatever was in memory. */
  lemma LoadAfterStore(c: Context, f: Frame, offset: nat, word: nat)
    requires word < WORD_LIMIT && |f.stack| >= 2 && Arg(f, 0) == offset && Arg(f, 1) == word
    ensures var stored := MemoryStep(c, f, 0x52);
            && stored.Next?
            && var g := stored.frame.(stack := stored.frame.stack + [offset]);
               MemoryStep(c, g, 0x51).Next?
               && MemoryStep(c, g, 0x51).frame.stack == f.stack[..|f.stack| - 2] + [word]
               && MemoryStep(c, g, 0x51).frame.memory == stored.frame.memory
  {
    hide Copied, Slice, FromBytes, ToBytes;
    var stored := MemoryStep(c, f, 0x52);
    var p := Popped(f, 2);
    assert stored == CopyStep(p, offset, 32, ToBytes(word, 32), 0);
    CopyReadsBack(p, offset, 32, ToBytes(word, 32), 0);
    SliceWhole(ToBytes(word, 32));
    var g := stored.frame.(stack := stored.frame.stack + [offset]);
    assert Arg(g, 0) == offset && Popped(g, 1).stack == stored.frame.stack;
    WordIsThirtyTwoBytes();
    BytesRoundTrip(word, 32);
    ReadStored(Popped(g, 1), offset, word);
  }

  lemma ReadStored(g: Frame, offset: nat, word: nat)
    requires |g.memory| >= offset + 32 && FromBytes(Slice(g.memory, offset, 32)) == word && word < WORD_LIMIT
    ensures ReadStep(g, offset, 32, FromBytes(Range(g, offset, 32))) == Next(Advance(g.(stack := g.stack + [word])))
  {
    assert Extended(g.memory, offset, 32) == g.memory;
    assert Touched(g, offset, 32) == g;
  }

  lemma SliceWhole(bs: seq<Byte>)
    ensures Slice(bs, 0, |bs|) == bs
  {
  }

  // ---------------------------------------------------------------- storage

  /** Reading after a write gives the value written at that key and the old value at every other; 0 clears. */
  lemma ReadAfterWrite(s: Storage, key: int, value: int, other: int)
    ensures Load(Write(s, key, value), other) == if other == key then value else Load(s, other)
    ensures key in Write(s, key, value) <==> value != 0
  {
  }

  /** SSTORE followed by SLOAD of any key, in a frame that is not static. */
  lemma SloadAfterSstore(c: Context, f: Frame, other: int)
    requires !c.readOnly && |f.stack| >= 2 && forall i | 0 <= i < |f.stack| :: 0 <= f.stack[i] < WORD_LIMIT
    ensures var stored := WriteStep(c, f, 0x55);
            && stored.Next?
            && stored.frame.transient == f.transient
            && var g := stored.frame.(stack := stored.frame.stack + [other]);
               PureStep(c, g, 0x54).Next?
               && PureStep(c, g, 0x54).frame.stack
                  == f.stack[..|f.stack| - 2] + [Masked(if other == Arg(f, 0) then Arg(f, 1) else Load(f.storage, other))]
  {
    ReadAfterWrite(f.storage, Arg(f, 0), Arg(f, 1), other);
    var g := WriteStep(c, f, 0x55).frame;
    var h := g.(stack := g.stack + [other]);
    assert Popped(h, 1).stack == g.stack;
  }

  // ---------------------------------------------------------------- stack

  /** SWAPn is its own inverse, and moves nothing but the two words it names. */
  lemma SwapTwice(f: Frame, n: nat)
    requires 0 < n < |f.stack|
    ensures var once := SwapStep(f, n);
            && once.Next?
            && SwapStep(once.frame, n) == Next(f.(pc := f.pc + 2))
            && Arg(once.frame, 0) == Arg(f, n) && Arg(once.frame, n) == Arg(f, 0)
            && forall k | 0 < k < |f.stack| && k != n :: Arg(once.frame, k) == Arg(f, k)
  {
    var once := SwapStep(f, n).frame;
    assert |once.stack| == |f.stack|;
    assert SwapStep(once, n).frame.stack == f.stack;
  }

  /** DUPn pushes the n-th word and a POP takes it off again. */
  lemma DupThenPop(f: Frame, n: nat)
    requires 0 < n <= |f.stack|
    ensures var once := DupStep(f, n);
            && once.Next?
            && Arg(once.frame, 0) == Arg(f, n - 1)
            && Popped(once.frame, 1) == f.(pc := f.pc + 1)
  {
    assert Popped(DupStep(f, n).frame, 1).stack == f.stack;
  }

  /** PUSHn of the n-byte form of a word pushes that word and lands on the next instruction. */
  lemma PushReadsImmediate(c: Context, f: Frame, op: int, word: nat)
    requires 0x60 <= op <= 0x7F && f.pc + PushSize(op) < |c.code| && c.code[f.pc] == op
    requires word < Pow256(PushSize(op)) && c.code[f.pc + 1..f.pc + 1 + PushSize(op)] == ToBytes(word, PushSize(op))
    ensures Dispatch(c, f, op) == Next(f.(stack := f.stack + [word], pc := NextPc(c.code, f.pc)))
  {
    hide Slice, FromBytes, ToBytes;
    var n := PushSize(op);
    SliceInside(c.code, f.pc + 1, n);
    BytesRoundTrip(word, n);
    PowGrows(n, 32);
    WordIsThirtyTwoBytes();
  }

  lemma SliceInside(bs: seq<Byte>, at: nat, n: nat)
    requires at + n <= |bs|
    ensures Slice(bs, at, n) == bs[at..at + n]
  {
  }

  lemma {:induction false} PowGrows(a: nat, b: nat)
    requires a <= b
    ensures Pow256(a) <= Pow256(b)
    decreases b - a
  {
    if a < b { PowGrows(a + 1, b); }
  }

  /** Every byte outside the range reads as before. */
  ghost predicate SameOutside(before: seq<Byte>, after: seq<Byte>, offset: nat, size: nat) {
    forall at: nat, n: nat | at + n <= offset || offset + size <= at :: Slice(after, at, n) == Slice(before, at, n)
  }

  /** The memory has grown to cover the range, if it did not, and reads as before everywhere. */
  ghost predicate GrownOver(before: seq<Byte>, after: seq<Byte>, offset: nat, size: nat) {
    && |after| == (if offset + size > |before| then offset + size else |before|)
    && SameOutside(before, after, 0, 0)
  }

  lemma TouchedGrows(f: Frame, offset: nat, size: nat)
    ensures GrownOver(f.memory, Touched(f, offset, size).memory, offset, size)
  {
    var m := Touched(f, offset, size).memory;
    forall at: nat, n: nat ensures Slice(m, at, n) == Slice(f.memory, at, n) {
      ExtensionUnseen(f.memory, offset, size, at, n);
    }
  }

  // ---------------------------------------------------------------- control flow

  /** RETURN and REVERT stop the frame with exactly the named range of memory; only REVERT marks it reverted. */
  lemma ReturnGives(f: Frame, reverts: bool)
    ensures if |f.stack| < 2 then ReturnStep(f, reverts) == Raise(f)
            else
              && ReturnStep(f, reverts).Halt?
              && var g := ReturnStep(f, reverts).frame;
                 && g.returnData == Slice(f.memory, Offset(f, 0), Offset(f, 1))
                 && !g.running && (g.reverted <==> f.reverted || reverts)
                 && g.stack == f.stack[..|f.stack| - 2] && GrownOver(f.memory, g.memory, Offset(f, 0), Offset(f, 1))
                 && g.storage == f.storage && g.transient == f.transient && g.logs == f.logs && g.gasUsed == f.gasUsed
  {
    hide Extended, Slice, GrownOver;
    ExtensionUnseen(f.memory, Offset(f, 0), Offset(f, 1), Offset(f, 0), Offset(f, 1));
    TouchedGrows(f, Offset(f, 0), Offset(f, 1));
  }

  /** A jump lands exactly on the JUMPDEST instructions of the code; a conditional one with a zero condition falls through. */
  lemma JumpsLand(c: Context, f: Frame, op: int)
    requires (op == 0x56 || op == 0x57) && |f.stack| >= (if op == 0x56 then 1 else 2) && Arg(f, 0) >= 0
    requires forall n: nat :: n in c.jumpTable <==> ValidJump(c.code, n)
    ensures var rest := f.stack[..|f.stack| - if op == 0x56 then 1 else 2];
            JumpStep(c, f, op) ==
              if op == 0x57 && Arg(f, 1) == 0 then Next(f.(stack := rest, pc := f.pc + 1))
              else if ValidJump(c.code, Arg(f, 0)) then Next(f.(stack := rest, pc := Arg(f, 0)))
              else Raise(f)
  {
  }

  // ---------------------------------------------------------------- nested calls

  /** The operands of a call: the value is read by CALL and CALLCODE only, and shifts the rest. */
  ghost predicate CallOperands(f: Frame, op: int, value: int, args: nat, argSize: nat, ret: nat, retSize: nat) {
    var k := if op == 0xF1 || op == 0xF2 then 3 else 2;
    && |f.stack| >= k + 4 && (k == 3 ==> Arg(f, 2) == value) && (k == 2 ==> value == 0)
    && Arg(f, k) == args && Arg(f, k + 1) == argSize && Arg(f, k + 2) == ret && Arg(f, k + 3) == retSize
  }

  /** What a call hands over: the callee, the value, and the named range of memory; a static caller or STATICCALL calls statically. */
  lemma CallHandsOver(c: Context, f: Frame, op: int, value: int, args: nat, argSize: nat, ret: nat, retSize: nat)
    requires IsCall(op) && CallOperands(f, op, value, args, argSize, ret, retSize)
    ensures var call := CallOf(c, f, op);
            && call.to == Arg(f, 1) && call.value == value && call.data == Slice(f.memory, args, argSize)
            && call.gas == c.planGas(Remaining(c, f), Arg(f, 0), value, call.kind)
            && (call.readOnly <==> c.readOnly || op == 0xFA) && (call.kind == StaticCall <==> call.readOnly)
            && (!call.readOnly ==> (call.kind == DelegateCall <==> op == 0xF4) && (call.kind == CallCode <==> op == 0xF2))
  {
    hide Slice, Extended;
    ExtensionUnseen(f.memory, args, argSize, args, argSize);
  }

  /**
   * What an answered call leaves: the success word, the return data at its place in memory and nothing else
   * moved there, the gas the callee used up to what it was given, and a replaced storage only for
   * DELEGATECALL and CALLCODE out of a frame that is not static.
   */
  lemma CallAnswers(c: Context, h: Frame, sub: int, adopts: bool, reply: CallReply, ret: nat, size: nat)
    ensures var flow := AnsweredCall(c, h, sub, adopts, reply, ret, size);
            var gas := h.gasUsed + if sub > 0 then sub else 0;
            if sub > 0 && gas > c.gasLimit then flow.Raise?
            else
              && flow.Next?
              && var g := flow.frame;
                 && g.stack == h.stack + [if reply.success && !reply.reverted then 1 else 0]
                 && g.returnData == reply.returnData && g.gasUsed == gas
                 && Slice(g.memory, ret, size) == Slice(reply.returnData, 0, size)
                 && SameOutside(h.memory, g.memory, ret, size)
                 && g.storage == (if adopts && !c.readOnly && reply.storage.Some? then reply.storage.value else h.storage)
                 && g.transient == h.transient && g.logs == h.logs && g.calls == h.calls && g.pc == h.pc + 1
  {
    hide Slice, Copied, Extended;
    CopyReadsBack(h, ret, size, reply.returnData, 0);
    var m := CopyStep(h, ret, size, reply.returnData, 0).frame.memory;
    forall at: nat, n: nat | at + n <= ret || ret + size <= at ensures Slice(m, at, n) == Slice(h.memory, at, n) {
      CopyElsewhere(h, ret, size, reply.returnData, 0, at, n);
    }
  }

  /** A call with too few operands fails; a transfer out of a static frame reverts it and calls nobody; with no callee it pushes 0. */
  lemma CallRefused(c: Context, f: Frame, op: int)
    requires IsCall(op)
    ensures var k := if op == 0xF1 || op == 0xF2 then 3 else 2;
            && (|f.stack| < k + 4 ==> CallStep(c, f, op) == Raise(f))
            && (|f.stack| >= k + 4 && c.readOnly && k == 3 && Arg(f, 2) != 0 ==>
                  CallStep(c, f, op) == Next(f.(stack := f.stack[..|f.stack| - 7] + [0], returnData := [],
                                                reverted := true, running := false, pc := f.pc + 1)))
            && (|f.stack| >= k + 4 && !(c.readOnly && k == 3 && Arg(f, 2) != 0) && c.onCall.None? ==>
                  CallStep(c, f, op) == Next(f.(stack := f.stack[..|f.stack| - k - 4] + [0], returnData := [], pc := f.pc + 1)))
  {
    ZeroIsAWord();
  }

  /** A call that is made, from its operands to its answer. */
  lemma CallMade(c: Context, f: Frame, op: int, value: int, args: nat, argSize: nat, ret: nat, retSize: nat)
    requires IsCall(op) && CallOperands(f, op, value, args, argSize, ret, retSize)
    requires c.onCall.Some? && !(c.readOnly && value != 0)
    ensures var (k, call, flow) := (if op == 0xF1 || op == 0xF2 then 3 else 2, CallOf(c, f, op), CallStep(c, f, op));
            var reply := c.onCall.value(|f.calls|, call);
            var used := if reply.gasUsed < call.gas then reply.gasUsed else call.gas;
            var gas := f.gasUsed + if used > 0 then used else 0;
            if used > 0 && gas > c.gasLimit then flow.Raise?
            else
              && flow.Next?
              && var g := flow.frame;
                 && g.stack == f.stack[..|f.stack| - k - 4] + [if reply.success && !reply.reverted then 1 else 0]
                 && g.calls == f.calls + [call] && g.returnData == reply.returnData && g.gasUsed == gas && g.pc == f.pc + 1
                 && Slice(g.memory, ret, retSize) == Slice(reply.returnData, 0, retSize)
                 && SameOutside(f.memory, g.memory, ret, retSize)
                 && g.storage == (if (op == 0xF4 || op == 0xF2) && !c.readOnly && reply.storage.Some? then reply.storage.value else f.storage)
  {
    hide AnsweredCall, CallOf, Slice, Extended, CallStep, SameOutside;
    var k := if op == 0xF1 || op == 0xF2 then 3 else 2;
    var call := CallOf(c, f, op);
    var reply := c.onCall.value(|f.calls|, call);
    var used := if reply.gasUsed < call.gas then reply.gasUsed else call.gas;
    var h := Touched(Popped(f, k + 4), args, argSize).(calls := f.calls + [call]);
    CallIsAnswered(c, f, op, value, args, argSize, ret, retSize);
    CallAnswers(c, h, used, op == 0xF4 || op == 0xF2, reply, ret, retSize);
    var flow := CallStep(c, f, op);
    if flow.Next? { OutsideTouched(f.memory, args, argSize, flow.frame.memory, ret, retSize); }
  }

  lemma CallIsAnswered(c: Context, f: Frame, op: int, value: int, args: nat, argSize: nat, ret: nat, retSize: nat)
    requires IsCall(op) && CallOperands(f, op, value, args, argSize, ret, retSize)
    requires c.onCall.Some? && !(c.readOnly && value != 0)
    ensures var (k, call) := (if op == 0xF1 || op == 0xF2 then 3 else 2, CallOf(c, f, op));
            var reply := c.onCall.value(|f.calls|, call);
            CallStep(c, f, op) == AnsweredCall(c, Touched(Popped(f, k + 4), args, argSize).(calls := f.calls + [call]),
                                               if reply.gasUsed < call.gas then reply.gasUsed else call.gas,
                                               op == 0xF4 || op == 0xF2, reply, ret, retSize)
  {
    hide AnsweredCall, CallOf, Touched, Popped;
    CallHandsOver(c, f, op, value, args, argSize, ret, retSize);
  }

  lemma OutsideTouched(mem: seq<Byte>, args: nat, argSize: nat, after: seq<Byte>, ret: nat, size: nat)
    requires SameOutside(Extended(mem, args, argSize), after, ret, size)
    ensures SameOutside(mem, after, ret, size)
  {
    hide Slice, Extended;
    forall at: nat, n: nat | at + n <= ret || ret + size <= at ensures Slice(after, at, n) == Slice(mem, at, n) {
      ExtensionUnseen(mem, args, argSize, at, n);
      assert Slice(after, at, n) == Slice(Extended(mem, args, argSize), at, n);
    }
  }

  // ---------------------------------------------------------------- transient storage, logs, copies

  /** TSTORE followed by TLOAD of any key, in a frame that is not static; the storage is not touched. */
  lemma TloadAfterTstore(c: Context, f: Frame, other: int)
    requires !c.readOnly && |f.stack| >= 2 && forall i | 0 <= i < |f.stack| :: 0 <= f.stack[i] < WORD_LIMIT
    ensures var stored := WriteStep(c, f, 0x5D);
            && stored.Next?
            && stored.frame.storage == f.storage
            && var g := stored.frame.(stack := stored.frame.stack + [other]);
               PureStep(c, g, 0x5C).Next?
               && PureStep(c, g, 0x5C).frame.stack
                  == f.stack[..|f.stack| - 2] + [Masked(if other == Arg(f, 0) then Arg(f, 1) else Load(f.transient, other))]
  {
    ReadAfterWrite(f.transient, Arg(f, 0), Arg(f, 1), other);
    var g := WriteStep(c, f, 0x5D).frame;
    var h := g.(stack := g.stack + [other]);
    assert Popped(h, 1).stack == g.stack;
  }

  /** LOGn appends one entry: its n topics, first popped last, and the named range of memory. */
  lemma LogAppends(c: Context, f: Frame, n: nat)
    requires |f.stack| >= n + 2 && f.gasUsed + 375 + 375 * n + Offset(f, n) <= c.gasLimit
    ensures LogStep(c, f, n).Next? && LogStep(c, f.(gasUsed := c.gasLimit), n).Raise?
    ensures var g := LogStep(c, f, n).frame;
            && |g.logs| == |f.logs| + 1 && g.logs[..|f.logs|] == f.logs
            && g.gasUsed == f.gasUsed + 375 + 375 * n + Offset(f, n) && g.stack == f.stack[..|f.stack| - n - 2]
            && GrownOver(f.memory, g.memory, Offset(f, n + 1), Offset(f, n))
            && var entry := g.logs[|f.logs|];
               && entry.topics == f.stack[|f.stack| - n..]
               && entry.data == Slice(f.memory, Offset(f, n + 1), Offset(f, n))
  {
    hide Slice, Extended, GrownOver;
    ExtensionUnseen(f.memory, Offset(f, n + 1), Offset(f, n), Offset(f, n + 1), Offset(f, n));
    TouchedGrows(f, Offset(f, n + 1), Offset(f, n));
    var g := LogStep(c, f, n).frame;
    assert Popped(f, n + 2).memory == f.memory;
    var (topics, top) := (g.logs[|f.logs|].topics, f.stack[|f.stack| - n..]);
    forall i | 0 <= i < n ensures topics[i] == top[i] {
      assert topics[i] == Arg(f, n - 1 - i) && top[i] == f.stack[|f.stack| - n + i];
    }
  }

  /** MCOPY pays by the word, and reads its source before it writes, so overlapping ranges copy correctly. */
  lemma McopyMoves(c: Context, g: Frame, dest: nat, src: nat, size: nat)
    ensures var (flow, gas) := (MoveStep(c, g, dest, src, size), g.gasUsed + 3 + 3 * ((size + 31) / 32));
            if gas > c.gasLimit then flow == Raise(g)
            else
              && flow.Next? && flow.frame.gasUsed == gas && flow.frame.stack == g.stack && flow.frame.pc == g.pc + 1
              && Slice(flow.frame.memory, dest, size) == Slice(g.memory, src, size)
              && SameOutside(g.memory, flow.frame.memory, dest, size)
  {
    hide Slice, Copied, Extended;
    var cost := BaseCost(0x5E) + 3 * ((size + 31) / 32);
    if g.gasUsed + cost <= c.gasLimit {
      var h0 := Touched(g.(gasUsed := g.gasUsed + cost), dest, size);
      var h := Touched(h0, src, size);
      var chunk := Slice(h.memory, src, size);
      assert |chunk| == size && MoveStep(c, g, dest, src, size) == CopyStep(h, dest, size, chunk, 0);
      ExtensionUnseen(g.memory, dest, size, src, size);
      ExtensionUnseen(h0.memory, src, size, src, size);
      CopyReadsBack(h, dest, size, chunk, 0);
      SliceWhole(chunk);
      var m := MoveStep(c, g, dest, src, size).frame.memory;
      forall at: nat, n: nat | at + n <= dest || dest + size <= at ensures Slice(m, at, n) == Slice(g.memory, at, n) {
        ExtensionUnseen(g.memory, dest, size, at, n);
        ExtensionUnseen(h0.memory, src, size, at, n);
        CopyElsewhere(h, dest, size, chunk, 0, at, n);
      }
    }
  }

  /** CREATE pushes the new address, or 0 for a refused or failed creation, and charges what it used. */
  lemma CreateAnswers(c: Context, f: Frame, op: int)
    requires op == 0xF0 || op == 0xF5
    ensures |f.stack| < (if op == 0xF5 then 4 else 3) ==> CreateStep(c, f, op) == Raise(f)
    ensures |f.stack| >= (if op == 0xF5 then 4 else 3) ==>
            var (k, flow) := (if op == 0xF5 then 4 else 3, CreateStep(c, f, op));
            var rest := f.stack[..|f.stack| - k];
            if c.onCreate.None? then flow == Next(f.(stack := rest + [0], pc := f.pc + 1))
            else
              var reply := c.onCreate.value(f.creates, CreateOf(f, op));
              var gas := f.gasUsed + if reply.gasUsed > 0 then reply.gasUsed else 0;
              if reply.gasUsed > 0 && gas > c.gasLimit then flow.Raise?
              else
                && flow.Next? && flow.frame.gasUsed == gas && flow.frame.storage == f.storage && flow.frame.creates == f.creates + 1
                && flow.frame.stack == rest + [if reply.success && !reply.reverted then Masked(reply.address) else 0]
                && GrownOver(f.memory, flow.frame.memory, Offset(f, k - 2), Offset(f, k - 3))
  {
    hide Extended, Offset, Slice, CreateOf, GrownOver, Touched, Charged, Popped;
    ZeroIsAWord();
    hide Masked;
    var k := if op == 0xF5 then 4 else 3;
    if |f.stack| >= k {
      PoppedIs(f, k);
      if c.onCreate.Some? {
        CreatingFrame(f, k, Offset(f, k - 2), Offset(f, k - 3), c.onCreate.value(f.creates, CreateOf(f, op)).gasUsed);
      }
    }
  }

  lemma PoppedIs(f: Frame, k: nat)
    requires |f.stack| >= k
    ensures Popped(f, k) == f.(stack := f.stack[..|f.stack| - k])
  {
  }

  lemma CreatingFrame(f: Frame, k: nat, offset: nat, size: nat, used: int)
    requires |f.stack| >= k
    ensures var h := Charged(Touched(Popped(f, k), offset, size).(creates := f.creates + 1), used);
            && h == f.(stack := f.stack[..|f.stack| - k], memory := h.memory, creates := f.creates + 1,
                       gasUsed := f.gasUsed + if used > 0 then used else 0)
            && GrownOver(f.memory, h.memory, offset, size)
  {
    hide Extended, Slice, GrownOver;
    TouchedGrows(f, offset, size);
  }

  /** What a creation hands over: the value, the named range of memory as code, and for CREATE2 the salt on top of the stack. */
  lemma CreateHandsOver(f: Frame, op: int)
    requires (op == 0xF0 && |f.stack| >= 3) || (op == 0xF5 && |f.stack| >= 4)
    ensures var s := f.stack[..|f.stack| - if op == 0xF5 then 1 else 0];
            var top := |s| - 1;
            && CreateOf(f, op).value == s[top - 2]
            && (s[top] >= 0 && s[top - 1] >= 0 ==> CreateOf(f, op).code == Slice(f.memory, s[top - 1], s[top]))
            && CreateOf(f, op).salt == if op == 0xF5 then Some(f.stack[|f.stack| - 1]) else None
  {
    var k := if op == 0xF5 then 4 else 3;
    ExtensionUnseen(f.memory, Offset(f, k - 2), Offset(f, k - 3), Offset(f, k - 2), Offset(f, k - 3));
  }

  // ---------------------------------------------------------------- operands

  const NO_OPERANDS: set<int> := {0x30, 0x32, 0x33, 0x34, 0x36, 0x38, 0x3A, 0x3D, 0x41, 0x42, 0x43, 0x44, 0x45, 0x46, 0x47, 0x48,
                                  0x4A, 0x58, 0x59, 0x5A, 0x5F}
  const ONE_OPERAND: set<int> := {0x15, 0x19, 0x31, 0x35, 0x3B, 0x3F, 0x40, 0x49, 0x54, 0x5C}
  const TWO_OPERANDS: set<int> := {0x01, 0x02, 0x03, 0x04, 0x05, 0x06, 0x07, 0x0A, 0x0B, 0x10, 0x11, 0x12, 0x13, 0x14, 0x16, 0x17,
                                   0x18, 0x1A, 0x1B, 0x1C, 0x1D}
  const THREE_OPERANDS: set<int> := {0x08, 0x09}

  lemma Arities(op: int)
    ensures op in NO_OPERANDS <==> PureArity(op) == 0
    ensures op in ONE_OPERAND <==> PureArity(op) == 1
    ensures op in TWO_OPERANDS <==> PureArity(op) == 2
    ensures op in THREE_OPERANDS <==> PureArity(op) == 3
  {
  }

  /** Such an opcode fails for want of operands, and otherwise replaces them by one word and changes nothing else. */
  lemma PureReplaces(c: Context, f: Frame, op: int, k: nat)
    requires PureArity(op) == k
    ensures |f.stack| < k ==> PureStep(c, f, op) == Raise(f)
    ensures |f.stack| >= k ==>
              && PureStep(c, f, op).Next?
              && var w := Arg(PureStep(c, f, op).frame, 0);
                 0 <= w < WORD_LIMIT && PureStep(c, f, op) == Next(f.(stack := f.stack[..|f.stack| - k] + [w], pc := f.pc + 1))
  {
  }

  /** Word arithmetic and host reads see their operands in the order they are popped. */
  lemma HostSees(c: Context, f: Frame, op: int, k: nat)
    requires PureArity(op) == k <= |f.stack| && op !in {0x54, 0x5C, 0x58, 0x59, 0x5A, 0x5F, 0x36, 0x38, 0x3D, 0x45}
    ensures exists args: seq<int> ::
              |args| == k && (forall i | 0 <= i < k :: args[i] == f.stack[|f.stack| - 1 - i])
              && Arg(PureStep(c, f, op).frame, 0) == Masked(c.value(op, args))
  {
    var args := Args(f, k);
    assert |args| == k && forall i | 0 <= i < k :: args[i] == f.stack[|f.stack| - 1 - i];
  }

  /** POP drops the top word and fails on an empty stack. */
  lemma PopDrops(c: Context, f: Frame)
    requires f.pc < |c.code|
    ensures Dispatch(c, f, 0x50)
         == if f.stack == [] then Raise(f) else Next(f.(stack := f.stack[..|f.stack| - 1], pc := f.pc + 1))
  {
  }

  /** The copying opcodes: from call data, code, return data, or another account's code. */
  lemma CopyOpcodes(c: Context, f: Frame, op: int)
    requires op in {0x37, 0x39, 0x3E, 0x3C}
    ensures var (k, first) := (if op == 0x3C then 4 else 3, if op == 0x3C then 1 else 0);
            var (dest, from, size) := (Offset(f, first), Offset(f, 1 - first), Offset(f, 2));
            if |f.stack| < k then MemoryStep(c, f, op) == Raise(f)
            else
              && MemoryStep(c, f, op).Next?
              && var g := MemoryStep(c, f, op).frame;
                 && g == f.(stack := f.stack[..|f.stack| - k], pc := f.pc + 1, memory := g.memory)
                 && SameOutside(f.memory, g.memory, dest, size)
                 && Slice(g.memory, dest, size)
                    == (if op == 0x37 then Slice(c.calldata, from, size)
                        else if op == 0x39 then Slice(c.code, from, size)
                        else if op == 0x3E then Slice(f.returnData, from, size)
                        else Slice(c.externalCode(f.stack[|f.stack| - 4], from, size), 0, size))
  {
    hide Slice, Copied, Extended;
    var k := if op == 0x3C then 4 else 3;
    if |f.stack| >= k {
      var p := Popped(f, k);
      var (src, at) := if op == 0x37 then (c.calldata, Offset(f, 1)) else if op == 0x39 then (c.code, Offset(f, 1))
                       else if op == 0x3E then (f.returnData, Offset(f, 1)) else (c.externalCode(Arg(f, 3), Offset(f, 0), Offset(f, 2)), 0);
      var dest := if op == 0x3C then Offset(f, 1) else Offset(f, 0);
      CopyWhole(p, dest, Offset(f, 2), src, at);
    }
  }

  lemma CopyWhole(f: Frame, dest: nat, size: nat, src: seq<Byte>, from: nat)
    ensures var flow := CopyStep(f, dest, size, src, from);
            && flow.Next? && flow.frame == f.(memory := flow.frame.memory, pc := f.pc + 1)
            && Slice(flow.frame.memory, dest, size) == Slice(src, from, size) && SameOutside(f.memory, flow.frame.memory, dest, size)
  {
    hide Slice, Copied, Extended;
    CopyReadsBack(f, dest, size, src, from);
    var m := CopyStep(f, dest, size, src, from).frame.memory;
    forall at: nat, n: nat | at + n <= dest || dest + size <= at ensures Slice(m, at, n) == Slice(f.memory, at, n) {
      CopyElsewhere(f, dest, size, src, from, at, n);
    }
  }

  /** MSTORE and MSTORE8 write exactly their word or byte; SHA3 hashes exactly its range; MCOPY passes its operands on. */
  lemma StoreOpcodes(c: Context, f: Frame, op: int)
    requires op in {0x20, 0x51, 0x52, 0x53, 0x5E}
    ensures var k := if op == 0x51 then 1 else if op == 0x5E then 3 else 2;
            && (|f.stack| < k ==> MemoryStep(c, f, op) == Raise(f))
            && (|f.stack| >= k && (op == 0x52 || op == 0x53) ==>
                  && MemoryStep(c, f, op).Next?
                  && var (g, size) := (MemoryStep(c, f, op).frame, if op == 0x52 then 32 else 1);
                     && g == f.(stack := f.stack[..|f.stack| - 2], pc := f.pc + 1, memory := g.memory)
                     && Slice(g.memory, Offset(f, 0), size) == ToBytes(Offset(f, 1), size)
                     && SameOutside(f.memory, g.memory, Offset(f, 0), size))
            && (|f.stack| >= k && (op == 0x20 || op == 0x51) ==>
                  && MemoryStep(c, f, op).Next?
                  && MemoryStep(c, f, op).frame.stack == f.stack[..|f.stack| - k] +
                       [Masked(if op == 0x20 then c.keccak(Slice(f.memory, Offset(f, 0), Offset(f, 1))) else FromBytes(Slice(f.memory, Offset(f, 0), 32)))])
            && (|f.stack| >= k && op == 0x5E ==>
                  MemoryStep(c, f, op) == MoveStep(c, f.(stack := f.stack[..|f.stack| - 3]), Offset(f, 2), Offset(f, 1), Offset(f, 0)))
  {
    hide Slice, Copied, Extended, MoveStep;
    var p := if |f.stack| >= 2 then Popped(f, 2) else f;
    if op == 0x52 { CopyWhole(p, Offset(f, 0), 32, ToBytes(Offset(f, 1), 32), 0); SliceWhole(ToBytes(Offset(f, 1), 32)); }
    if op == 0x53 {
      OneByte(Offset(f, 1));
      CopyWhole(p, Offset(f, 0), 1, [Offset(f, 1) % 256], 0);
      SliceWhole([Offset(f, 1) % 256]);
    }
    ExtensionUnseen(f.memory, Offset(f, 0), Offset(f, 1), Offset(f, 0), Offset(f, 1));
    ExtensionUnseen(f.memory, Offset(f, 0), 32, Offset(f, 0), 32);
  }

  lemma OneByte(v: nat)
    ensures ToBytes(v, 1) == [v % 256]
  {
    assert ToBytes(v / 256, 0) == [];
  }

  /** A state write fails for want of operands, and otherwise takes exactly its own off the stack. */
  lemma WritesTakeOperands(c: Context, f: Frame, op: int)
    requires !c.readOnly && op in {0x55, 0x5D, 0xFF}
    ensures var k := if op == 0xFF then 1 else 2;
            if |f.stack| < k then WriteStep(c, f, op) == Raise(f)
            else if op == 0xFF then WriteStep(c, f, op) == Halt(f.(stack := f.stack[..|f.stack| - 1], running := false))
            else WriteStep(c, f, op).Next? && WriteStep(c, f, op).frame.stack == f.stack[..|f.stack| - 2]
  {
  }

  /** DUPn and SWAPn fail exactly when the stack does not reach. */
  lemma ShufflesReach(f: Frame, n: nat)
    requires n > 0
    ensures DupStep(f, n).Raise? <==> |f.stack| < n
    ensures SwapStep(f, n).Raise? <==> |f.stack| < n + 1
  {
  }

  /** Which opcodes are duplicates, exchanges and logs: sixteen of each of the first two, five of the last. */
  lemma NumberedOpcodes(c: Context, f: Frame, n: nat)
    requires f.pc < |c.code| && !c.readOnly
    ensures 1 <= n <= 16 ==> Dispatch(c, f, 0x7F + n) == DupStep(f, n) && Dispatch(c, f, 0x8F + n) == SwapStep(f, n)
    ensures n <= 4 ==> Dispatch(c, f, 0xA0 + n) == LogStep(c, f, n)
    ensures Dispatch(c, f, 0x5B) == Next(f.(pc := f.pc + 1)) && Dispatch(c, f, 0x00) == Halt(f.(running := false))
  {
    hide PureStep, MemoryStep, CallStep, JumpStep, DupStep, SwapStep, ReturnStep, Pushed, ReadPush, LogStep;
  }

  /** Every opcode but LOG pays its price before it acts, and fails untouched exactly when it cannot. */
  lemma PaysFirst(c: Context, f: Frame)
    requires f.pc < |c.code|
    ensures var op := c.code[f.pc];
            Step(c, f) ==
              if IsLog(op) then Dispatch(c, f.(trace := f.trace + [f.pc]), op)
              else if f.gasUsed + BaseCost(op) > c.gasLimit then Raise(f)
              else Dispatch(c, f.(gasUsed := f.gasUsed + BaseCost(op), trace := f.trace + [f.pc]), op)
  {
    hide Dispatch, BaseCost;
    var op := c.code[f.pc];
    if IsLog(op) { assert f.(gasUsed := f.gasUsed + 0) == f; }
  }

  /** Which family each opcode belongs to. */
  lemma PureFamily(c: Context, f: Frame, op: int)
    requires f.pc < |c.code| && PureArity(op) >= 0
    ensures Dispatch(c, f, op) == PureStep(c, f, op)
  {
    hide PureStep, MemoryStep, WriteStep, CallStep, JumpStep, DupStep, SwapStep, ReturnStep, Pushed, ReadPush;
  }

  lemma MemoryFamily(c: Context, f: Frame, op: int)
    requires f.pc < |c.code| && op in {0x20, 0x37, 0x39, 0x3C, 0x3E, 0x51, 0x52, 0x53, 0x5E}
    ensures IsMemoryOp(op) && Dispatch(c, f, op) == MemoryStep(c, f, op)
  {
    hide PureStep, MemoryStep, WriteStep, CallStep, JumpStep, DupStep, SwapStep, ReturnStep, Pushed, ReadPush;
  }

  lemma WriteFamily(c: Context, f: Frame, op: int)
    requires f.pc < |c.code| && op in {0x55, 0x5D, 0xF0, 0xF5, 0xFF}
    ensures IsWrite(op) && Dispatch(c, f, op) == WriteStep(c, f, op)
    ensures !c.readOnly && (op == 0xF0 || op == 0xF5) ==> Dispatch(c, f, op) == CreateStep(c, f, op)
  {
    hide PureStep, MemoryStep, CreateStep, CallStep, JumpStep, DupStep, SwapStep, ReturnStep, Pushed, ReadPush;
  }

  lemma FlowFamily(c: Context, f: Frame, op: int)
    requires f.pc < |c.code|
    ensures op in {0x56, 0x57} ==> Dispatch(c, f, op) == JumpStep(c, f, op)
    ensures op in {0xF1, 0xF2, 0xF4, 0xFA} ==> IsCall(op) && Dispatch(c, f, op) == CallStep(c, f, op)
    ensures op == 0xF3 ==> Dispatch(c, f, op) == ReturnStep(f, false)
    ensures op == 0xFD ==> Dispatch(c, f, op) == ReturnStep(f, true)
  {
    hide PureStep, MemoryStep, WriteStep, CallStep, JumpStep, DupStep, SwapStep, ReturnStep, Pushed, ReadPush;
  }

  /** An opcode that is not known fails. */
  lemma UnknownFails(c: Context, f: Frame, op: int)
    requires f.pc < |c.code|
    requires 0x0C <= op <= 0x0F || 0x1E <= op <= 0x1F || 0x21 <= op <= 0x2F || 0x4B <= op <= 0x4F || 0xA5 <= op <= 0xEF
             || 0xF6 <= op <= 0xF9 || 0xFB <= op <= 0xFC || op == 0xFE
    ensures Dispatch(c, f, op) == Raise(f)
  {
    hide PureStep, MemoryStep, WriteStep, CallStep, JumpStep, DupStep, SwapStep, ReturnStep, Pushed, ReadPush;
  }

  // ---------------------------------------------------------------- what a frame reads of itself

  /**
   * GAS pushes what is left once it has paid for itself, PC its own position, MSIZE the least multiple of 32
   * that covers the memory, and the size opcodes the sizes of call data, code and return data.
   */
  lemma ReadsItself(c: Context, f: Frame)
    requires f.pc < |c.code| && Step(c, f).Next? && PureArity(c.code[f.pc]) == 0
    ensures var (op, g) := (c.code[f.pc], Step(c, f).frame);
            && g.gasUsed == f.gasUsed + BaseCost(op) <= c.gasLimit && g.pc == f.pc + 1
            && g.memory == f.memory && g.storage == f.storage && |g.stack| == |f.stack| + 1 && g.stack[..|f.stack|] == f.stack
            && (op == 0x5A ==> Arg(g, 0) == Masked(c.gasLimit - g.gasUsed))
            && (op == 0x58 ==> Arg(g, 0) == Masked(f.pc))
            && (op == 0x5F ==> Arg(g, 0) == 0)
            && (op == 0x36 ==> Arg(g, 0) == Masked(|c.calldata|)) && (op == 0x38 ==> Arg(g, 0) == Masked(|c.code|))
            && (op == 0x3D ==> Arg(g, 0) == Masked(|f.returnData|)) && (op == 0x45 ==> Arg(g, 0) == Masked(c.gasLimit))
            && (op == 0x59 ==> exists n: nat :: Covers(n, |f.memory|) && Arg(g, 0) == Masked(32 * n))
  {
    hide Masked;
    var op := c.code[f.pc];
    ZeroIsAWord();
    if op == 0x59 { assert Covers((|f.memory| + 31) / 32, |f.memory|); }
  }

  lemma ZeroIsAWord()
    ensures Masked(0) == 0
  {
  }

  /** `n` words hold `size` bytes and fewer do not. */
  ghost predicate Covers(n: nat, size: nat) { 32 * n >= size && (n > 0 ==> 32 * (n - 1) < size) }

  // ---------------------------------------------------------------- the price list

  /**
   * The environment and position reads, POP and PUSH0 cost 2.
   */
  lemma ReadsCostTwo(op: int)
    requires op in {0x30, 0x32, 0x33, 0x34, 0x36, 0x38, 0x3A, 0x3D, 0x41, 0x42, 0x43, 0x44, 0x45, 0x46,
                    0x48, 0x4A, 0x50, 0x58, 0x59, 0x5A, 0x5F}
    ensures BaseCost(op) == 2
  {
  }

  /** The other listed prices, by name. */
  lemma ListedPrices()
    ensures BaseCost(0x00) == BaseCost(0xF3) == BaseCost(0xFD) == 0  // STOP, RETURN, REVERT
    ensures BaseCost(0x5B) == 1  // JUMPDEST
    ensures BaseCost(0x02) == BaseCost(0x04) == BaseCost(0x05) == BaseCost(0x06) == BaseCost(0x07) == BaseCost(0x0B) == 5  // MUL, DIV, SDIV, MOD, SMOD, SIGNEXTEND
    ensures BaseCost(0x47) == 5  // SELFBALANCE
    ensures BaseCost(0x08) == BaseCost(0x09) == BaseCost(0x56) == 8  // ADDMOD, MULMOD, JUMP
    ensures BaseCost(0x0A) == BaseCost(0x57) == 10  // EXP, JUMPI
    ensures BaseCost(0x40) == 20  // BLOCKHASH
    ensures BaseCost(0x20) == 30  // SHA3
    ensures BaseCost(0x5C) == BaseCost(0x5D) == 100  // TLOAD, TSTORE
    ensures BaseCost(0x54) == 200  // SLOAD
    ensures BaseCost(0x31) == 400  // BALANCE
    ensures BaseCost(0x3B) == BaseCost(0x3C) == BaseCost(0x3F) == BaseCost(0xF1) == BaseCost(0xF2) == BaseCost(0xF4) == 700  // EXTCODESIZE, EXTCODECOPY, EXTCODEHASH, CALL, CALLCODE, DELEGATECALL
    ensures BaseCost(0xFA) == 700  // STATICCALL
    ensures BaseCost(0x55) == BaseCost(0xFF) == 5000  // SSTORE, SELFDESTRUCT
    ensures BaseCost(0xF0) == BaseCost(0xF5) == 32000  // CREATE, CREATE2
  {
  }

  /** Everything else, pushes, dups and swaps among them, costs 3, on the list or not. */
  lemma OthersCostThree(op: int)
    requires op !in {0x00, 0x02, 0x04, 0x05, 0x06, 0x07, 0x08, 0x09, 0x0A, 0x0B, 0x20, 0x30, 0x31, 0x32,
                     0x33, 0x34, 0x36, 0x38, 0x3A, 0x3B, 0x3C, 0x3D, 0x3F, 0x40, 0x41, 0x42, 0x43, 0x44,
                     0x45, 0x46, 0x47, 0x48, 0x4A, 0x50, 0x54, 0x55, 0x56, 0x57, 0x58, 0x59, 0x5A, 0x5B,
                     0x5C, 0x5D, 0x5F, 0xF0, 0xF1, 0xF2, 0xF3, 0xF4, 0xF5, 0xFA, 0xFD, 0xFF}
    ensures BaseCost(op) == 3
  {
  }
}
