/** The linear decode of EVM bytecode and its jump-destination table (crypto/native.py, evm_interpreter.py). */
module Bytecode {

  type Byte = b: int | 0 <= b < 256

  const JUMPDEST: int := 0x5B

  function PushSize(op: int): nat { if 0x60 <= op <= 0x7F then op - 0x5F else 0 }

  /** Where the instruction after the one at `pc` starts. */
  function NextPc(code: seq<Byte>, pc: nat): nat
    requires pc < |code|
  {
    pc + 1 + PushSize(code[pc])
  }

  /** `n` is reached by decoding forward from `at`. */
  predicate ReachedFrom(code: seq<Byte>, at: nat, n: nat)
    decreases n - at
  {
    at == n || (at < n && at < |code| && ReachedFrom(code, NextPc(code, at), n))
  }

  /** An instruction starts at `n` in the linear decode of the code. */
  predicate Boundary(code: seq<Byte>, n: nat) { ReachedFrom(code, 0, n) }

  /** `n` holds immediate data of the push instruction at `m`. */
  ghost predicate PushDataOf(code: seq<Byte>, m: nat, n: nat) {
    m < |code| && Boundary(code, m) && m < n < NextPc(code, m)
  }

  lemma {:induction false} ReachedNext(code: seq<Byte>, at: nat, n: nat)
    requires ReachedFrom(code, at, n) && n < |code|
    ensures ReachedFrom(code, at, NextPc(code, n))
    decreases n - at
  {
    if at < n { ReachedNext(code, NextPc(code, at), n); }
  }

  /** Decoding from one boundary reaches every later boundary. */
  lemma {:induction false} ReachedThrough(code: seq<Byte>, at: nat, m: nat, n: nat)
    requires ReachedFrom(code, at, m) && ReachedFrom(code, at, n) && m <= n
    ensures ReachedFrom(code, m, n)
    decreases n - at
  {
    if at < m { ReachedThrough(code, NextPc(code, at), m, n); }
  }

  /** A position inside the code is an instruction boundary or push data, never both. */
  lemma BoundaryOrData(code: seq<Byte>, n: nat)
    requires n < |code|
    ensures Boundary(code, n) <==> !exists m :: PushDataOf(code, m, n)
  {
    if Boundary(code, n) {
      forall m ensures !PushDataOf(code, m, n) {
        if PushDataOf(code, m, n) { ReachedThrough(code, 0, m, n); }
      }
    } else {
      var m := EnclosingPush(code, 0, n);
      assert PushDataOf(code, m, n);
    }
  }

  lemma {:induction false} EnclosingPush(code: seq<Byte>, at: nat, n: nat) returns (m: nat)
    requires Boundary(code, at) && at < n < |code| && !ReachedFrom(code, at, n)
    ensures PushDataOf(code, m, n)
    decreases n - at
  {
    ReachedNext(code, 0, at);
    var next := NextPc(code, at);
    if next < n { m := EnclosingPush(code, next, n); } else { m := at; }
  }

  /** The valid jump destinations: JUMPDEST bytes that start an instruction. */
  ghost predicate ValidJump(code: seq<Byte>, n: nat) {
    n < |code| && code[n] == JUMPDEST && Boundary(code, n)
  }

  /** `evm_build_jumpdest_table`: one linear scan that skips push data. The bitmap is a set here. */
  method BuildJumpTable(code: seq<Byte>) returns (table: set<nat>)
    ensures forall n: nat :: n in table <==> ValidJump(code, n)
  {
    table := {};
    var pc := 0;
    while pc < |code|
      invariant Boundary(code, pc)
      invariant forall n: nat :: n in table <==> n < pc && ValidJump(code, n)
      decreases |code| - pc
    {
      ReachedNext(code, 0, pc);
      var op := code[pc];
      ghost var before := table;
      if op == JUMPDEST { table := table + {pc}; }
      forall n: nat | pc < n < NextPc(code, pc) ensures !ValidJump(code, n) {
        if n < |code| {
          assert PushDataOf(code, pc, n);
          BoundaryOrData(code, n);
        }
      }
      pc := if 0x60 <= op <= 0x7F then pc + 1 + (op - 0x5F) else pc + 1;
    }
  }

  /** `evm_read_push`: big-endian immediate, zero-padded past the end of the code. */
  function ReadPush(code: seq<Byte>, pc: nat, n: nat): nat { FromBytes(Slice(code, pc + 1, n)) }

  /** `size` bytes from `offset`, zero-padded. */
  function Slice(mem: seq<Byte>, offset: nat, size: nat): (r: seq<Byte>)
    ensures |r| == size
  {
    seq(size, i requires 0 <= i < size => if offset + i < |mem| then mem[offset + i] else 0)
  }

  function FromBytes(bs: seq<Byte>): nat {
    if bs == [] then 0 else 256 * FromBytes(bs[..|bs| - 1]) + bs[|bs| - 1]
  }

  /** The `n` low-order bytes of `v`, most significant first. */
  function ToBytes(v: nat, n: nat): (r: seq<Byte>)
    ensures |r| == n
  {
    if n == 0 then [] else ToBytes(v / 256, n - 1) + [v % 256]
  }

  function Pow256(n: nat): nat { if n == 0 then 1 else 256 * Pow256(n - 1) }

  lemma {:induction false} BytesRoundTrip(v: nat, n: nat)
    requires v < Pow256(n)
    ensures FromBytes(ToBytes(v, n)) == v
  {
    if n > 0 {
      BytesRoundTrip(v / 256, n - 1);
      var bs := ToBytes(v, n);
      assert bs[..|bs| - 1] == ToBytes(v / 256, n - 1);
    }
  }
}
