/** Two-shard acknowledgement quorums (consensus/cross_shard_coordinator.py). */
module Coordinator {

  type TxId = string
  datatype Shard = Shard(number: int)
  type Id = string

  /** Smallest integer not below `x`. */
  function Ceil(x: real): (c: int)
    ensures (c - 1) as real < x <= c as real
  {
    -((-x).Floor)
  }

  /** The configured fraction is clamped to one half at least and the whole committee at most. */
  function Clamped(fraction: real): (q: real)
    ensures 0.5 <= q <= 1.0
    ensures 0.5 <= fraction <= 1.0 ==> q == fraction
  {
    if fraction < 0.5 then 0.5 else if fraction > 1.0 then 1.0 else fraction
  }

  function QuorumSize(n: int, fraction: real): (k: nat)
    requires 0.5 <= fraction <= 1.0
    ensures n <= 0 ==> k == 0
    ensures n > 0 ==> 1 <= k <= n && k as real >= n as real * fraction > (k - 1) as real
  {
    if n <= 0 then 0
    else
      assert n as real * fraction >= n as real * 0.5 > 0.0;
      assert n as real * fraction <= n as real by { assert n as real * (1.0 - fraction) >= 0.0; }
      var c := Ceil(n as real * fraction);
      if c > 1 then c else 1
  }

  /** Any two quorums of a committee share members: a third of it at the default fraction. */
  lemma QuorumsOverlap(committee: set<Id>, a: set<Id>, b: set<Id>, fraction: real)
    requires 0.5 <= fraction <= 1.0 && a <= committee && b <= committee
    requires |a| >= QuorumSize(|committee|, fraction) && |b| >= QuorumSize(|committee|, fraction)
    ensures |a * b| as real >= (2.0 * fraction - 1.0) * |committee| as real
    ensures fraction == 2.0 / 3.0 ==> 3 * |a * b| >= |committee|
  {
    assert |a + b| + |a * b| == |a| + |b|;
    assert committee == (a + b) + (committee - (a + b));
    assert |committee| == |a + b| + |committee - (a + b)|;
    var (n, k) := (|committee|, QuorumSize(|committee|, fraction));
    assert k as real >= n as real * fraction;
    assert (2.0 * fraction - 1.0) * n as real == 2.0 * (n as real * fraction) - n as real;
    if fraction == 2.0 / 3.0 {
      assert 3.0 * (n as real * fraction) == 2.0 * n as real;
      assert 3.0 * |a * b| as real >= n as real;
    }
  }

  // ---------------------------------------------------------------- the books

  datatype Books = Books(
    required: map<TxId, set<Shard>>,
    acks: map<TxId, set<Shard>>,
    validatorAcks: map<TxId, map<Shard, set<Id>>>,
    committees: map<Shard, set<Id>>,
    fraction: real)
  {
    function Committee(s: Shard): set<Id> { if s in committees then committees[s] else {} }

    function Acked(tx: TxId): set<Shard> { if tx in acks then acks[tx] else {} }

    function Signers(tx: TxId, s: Shard): set<Id> {
      if tx in validatorAcks && s in validatorAcks[tx] then validatorAcks[tx][s] else {}
    }

    /** With a committee the signers must reach its quorum; without one a plain shard ack is enough. */
    predicate ShardMet(tx: TxId, s: Shard)
      requires 0.5 <= fraction <= 1.0
    {
      if Committee(s) == {} then s in Acked(tx) else |Signers(tx, s)| >= QuorumSize(|Committee(s)|, fraction)
    }

    predicate Reached(tx: TxId)
      requires 0.5 <= fraction <= 1.0
    {
      tx in required && required[tx] != {} && forall s | s in required[tx] :: ShardMet(tx, s)
    }

    function Begin(tx: TxId, origin: Shard, target: Shard): Books {
      this.(required := required[tx := {origin, target}], acks := acks[tx := Acked(tx)], validatorAcks := validatorAcks - {tx})
    }

    function WithSigner(tx: TxId, s: Shard, id: Id): Books {
      var rows := if tx in validatorAcks then validatorAcks[tx] else map[];
      this.(validatorAcks := validatorAcks[tx := rows[s := Signers(tx, s) + {id}]])
    }

    /** The acknowledgement of a named member, for a required shard, by its committee when it has one. */
    predicate Accepts(tx: TxId, s: Shard, id: Id) {
      id != "" && tx in required && s in required[tx] && (Committee(s) != {} ==> id in Committee(s))
    }

    /** A shard that has a committee cannot be acknowledged without its signatures. */
    predicate AcceptsShard(tx: TxId, s: Shard) { tx in required && required[tx] != {} && Committee(s) == {} }

    /** Only accepted signers are recorded. */
    function ValidatorAck(tx: TxId, s: Shard, id: Id): Books
      requires 0.5 <= fraction <= 1.0
    {
      if !Accepts(tx, s, id) then this
      else
        var signed := WithSigner(tx, s, id);
        if signed.ShardMet(tx, s) then signed.(acks := acks[tx := Acked(tx) + {s}]) else signed
    }

    function ShardAck(tx: TxId, s: Shard): Books {
      if AcceptsShard(tx, s) then this.(acks := acks[tx := Acked(tx) + {s}]) else this
    }

    function Clear(tx: TxId): Books {
      this.(required := required - {tx}, acks := acks - {tx}, validatorAcks := validatorAcks - {tx})
    }
  }

  class CrossShardCoordinator {
    const fraction: real
    var required: map<TxId, set<Shard>>
    var acks: map<TxId, set<Shard>>
    var validatorAcks: map<TxId, map<Shard, set<Id>>>
    var committees: map<Shard, set<Id>>

    ghost predicate Valid()
    {
      0.5 <= fraction <= 1.0
    }

    ghost function View(): Books
      reads this
    {
      Books(required, acks, validatorAcks, committees, fraction)
    }

    constructor (fraction: real)
      ensures Valid() && View() == Books(map[], map[], map[], map[], Clamped(fraction))
    {
      this.fraction := Clamped(fraction);
      required, acks, validatorAcks, committees := map[], map[], map[], map[];
    }

    method RegisterShardValidator(s: Shard, id: Id)
      modifies this`committees
      ensures committees == if id == "" then old(committees) else old(committees)[s := old(View()).Committee(s) + {id}]
    {
      if id == "" { return; }
      var bucket := if s in committees then committees[s] else {};
      committees := committees[s := bucket + {id}];
    }

    method BeginTransfer(tx: TxId, origin: Shard, target: Shard)
      modifies this
      ensures View() == old(View()).Begin(tx, origin, target)
    {
      required := required[tx := {origin, target}];
      if tx !in acks { acks := acks[tx := {}]; }
      validatorAcks := validatorAcks - {tx};
      assert acks == old(acks)[tx := old(View()).Acked(tx)];
    }

    method RecordValidatorAck(tx: TxId, s: Shard, id: Id) returns (reached: bool)
      requires Valid()
      modifies this
      ensures View() == old(View()).ValidatorAck(tx, s, id)
      ensures reached == (old(View()).Accepts(tx, s, id) && View().Reached(tx))
    {
      hide QuorumSize, Books.Reached;
      if id == "" { return false; }
      if tx !in required || required[tx] == {} || s !in required[tx] { return false; }
      var committee := if s in committees then committees[s] else {};
      if committee != {} && id !in committee { return false; }
      var rows := if tx in validatorAcks then validatorAcks[tx] else map[];
      var signers := if s in rows then rows[s] else {};
      validatorAcks := validatorAcks[tx := rows[s := signers + {id}]];
      assert View() == old(View()).WithSigner(tx, s, id);
      var met := ShardMet(tx, s);
      if met {
        acks := acks[tx := (if tx in acks then acks[tx] else {}) + {s}];
      }
      reached := QuorumReached(tx);
    }

    method RecordAck(tx: TxId, s: Shard) returns (reached: bool)
      requires Valid()
      modifies this
      ensures View() == old(View()).ShardAck(tx, s)
      ensures reached == (old(View()).AcceptsShard(tx, s) && View().Reached(tx))
    {
      if tx !in required || required[tx] == {} { return false; }
      if s in committees && committees[s] != {} { return false; }
      acks := acks[tx := (if tx in acks then acks[tx] else {}) + {s}];
      reached := QuorumReached(tx);
    }

    method ShardMet(tx: TxId, s: Shard) returns (met: bool)
      requires Valid()
      ensures met == View().ShardMet(tx, s)
    {
      var committee := if s in committees then committees[s] else {};
      if committee == {} { return tx in acks && s in acks[tx]; }
      var signers := if tx in validatorAcks && s in validatorAcks[tx] then validatorAcks[tx][s] else {};
      return |signers| >= QuorumSize(|committee|, fraction);
    }

    /** Every required shard must be met; a transfer never begun is never reached. */
    method QuorumReached(tx: TxId) returns (reached: bool)
      requires Valid()
      ensures reached == View().Reached(tx)
    {
      if tx !in required || required[tx] == {} { return false; }
      var todo := required[tx];
      while todo != {}
        invariant todo <= required[tx]
        invariant forall s | s in required[tx] - todo :: View().ShardMet(tx, s)
      {
        var s :| s in todo;
        var met := ShardMet(tx, s);
        if !met { return false; }
        assert required[tx] - (todo - {s}) == (required[tx] - todo) + {s};
        todo := todo - {s};
      }
      return true;
    }

    method Clear(tx: TxId)
      modifies this
      ensures View() == old(View()).Clear(tx)
    {
      acks := acks - {tx};
      required := required - {tx};
      validatorAcks := validatorAcks - {tx};
    }
  }

  // ---------------------------------------------------------------- acknowledgements only grow

  ghost predicate Grows(b: Books, b': Books, tx: TxId) {
    && b.Acked(tx) <= b'.Acked(tx)
    && (forall s :: b.Signers(tx, s) <= b'.Signers(tx, s))
    && (tx in b.required ==> tx in b'.required && b'.required[tx] == b.required[tx])
  }

  lemma ValidatorAckGrows(b: Books, tx: TxId, other: TxId, s: Shard, id: Id)
    requires 0.5 <= b.fraction <= 1.0
    ensures Grows(b, b.ValidatorAck(other, s, id), tx)
  {
  }

  /** The only signer an acknowledgement can add is the one it names, under its own transfer and shard. */
  lemma ValidatorAckAdds(b: Books, tx: TxId, s: Shard, id: Id, k: TxId, u: Shard, x: Id)
    requires 0.5 <= b.fraction <= 1.0 && x in b.ValidatorAck(tx, s, id).Signers(k, u) && x !in b.Signers(k, u)
    ensures k == tx && u == s && x == id && (b.Committee(s) != {} ==> id in b.Committee(s))
  {
  }

  lemma OthersGrow(b: Books, tx: TxId, other: TxId, s: Shard, origin: Shard, target: Shard)
    ensures Grows(b, b.ShardAck(other, s), tx)
    ensures tx != other ==> Grows(b, b.Begin(other, origin, target), tx) && Grows(b, b.Clear(other), tx)
  {
  }

  /**
   * Recorded acknowledgements of a transfer only grow, and a reached quorum stays reached, under
   * every operation except clearing or restarting that same transfer.
   */
  lemma AcksGrow(b: Books, tx: TxId, other: TxId, s: Shard, id: Id, origin: Shard, target: Shard)
    requires 0.5 <= b.fraction <= 1.0
    ensures forall b' | b' == b.ValidatorAck(other, s, id) || b' == b.ShardAck(other, s)
                        || (tx != other && (b' == b.Begin(other, origin, target) || b' == b.Clear(other))) ::
              Grows(b, b', tx) && (b.Reached(tx) ==> b'.fraction == b.fraction && b'.Reached(tx))
  {
    hide *;
    forall b' | b' == b.ValidatorAck(other, s, id) || b' == b.ShardAck(other, s)
                || (tx != other && (b' == b.Begin(other, origin, target) || b' == b.Clear(other)))
      ensures Grows(b, b', tx) && (b.Reached(tx) ==> b'.fraction == b.fraction && b'.Reached(tx))
    {
      ValidatorAckGrows(b, tx, other, s, id);
      OthersGrow(b, tx, other, s, origin, target);
      SameSetup(b, tx, other, s, id, origin, target);
      if b.Reached(tx) { ReachedGrows(b, b', tx); }
    }
  }

  lemma SameSetup(b: Books, tx: TxId, other: TxId, s: Shard, id: Id, origin: Shard, target: Shard)
    requires 0.5 <= b.fraction <= 1.0
    ensures forall b' | b' == b.ValidatorAck(other, s, id) || b' == b.ShardAck(other, s)
                        || b' == b.Begin(other, origin, target) || b' == b.Clear(other) ::
              b'.fraction == b.fraction && b'.committees == b.committees
  {
  }

  lemma ReachedGrows(b: Books, b': Books, tx: TxId)
    requires 0.5 <= b.fraction <= 1.0 && b'.fraction == b.fraction && b'.committees == b.committees
    requires Grows(b, b', tx) && b.Reached(tx)
    ensures b'.Reached(tx)
  {
    hide QuorumSize;
    forall s | s in b'.required[tx] ensures b'.ShardMet(tx, s) {
      assert b.ShardMet(tx, s) && b'.Committee(s) == b.Committee(s);
      assert b'.Signers(tx, s) == b.Signers(tx, s) + (b'.Signers(tx, s) - b.Signers(tx, s));
    }
  }

  // ---------------------------------------------------------------- what is not recorded, and what is forgotten

  /** A vote is refused without trace when it is unnamed, for no begun transfer, for another shard, or from outside the committee. */
  lemma RefusedLeavesNoTrace(b: Books, tx: TxId, s: Shard, id: Id)
    requires 0.5 <= b.fraction <= 1.0
    requires id == "" || tx !in b.required || s !in b.required[tx] || (b.Committee(s) != {} && id !in b.Committee(s))
    ensures b.ValidatorAck(tx, s, id) == b
  {
  }

  /** A plain acknowledgement is refused without trace for no begun transfer and for a shard that has a committee. */
  lemma ShardRefusedLeavesNoTrace(b: Books, tx: TxId, s: Shard)
    requires tx !in b.required || b.required[tx] == {} || b.Committee(s) != {}
    ensures b.ShardAck(tx, s) == b
  {
  }

  /** The vote that completes its shard's quorum acknowledges the shard. */
  lemma CompletingVoteAcks(b: Books, tx: TxId, s: Shard, id: Id)
    requires 0.5 <= b.fraction <= 1.0 && tx in b.required && s in b.required[tx] && id in b.Committee(s) && id != ""
    requires |b.Signers(tx, s) + {id}| >= QuorumSize(|b.Committee(s)|, b.fraction)
    ensures s in b.ValidatorAck(tx, s, id).Acked(tx)
  {
    hide QuorumSize;
    var signed := b.WithSigner(tx, s, id);
    assert signed.Signers(tx, s) == b.Signers(tx, s) + {id} && signed.Committee(s) == b.Committee(s);
  }

  /** Clearing forgets everything about the transfer and nothing about others. */
  lemma ClearForgets(b: Books, tx: TxId, other: TxId, s: Shard)
    ensures tx !in b.Clear(tx).required && b.Clear(tx).Acked(tx) == {} && b.Clear(tx).Signers(tx, s) == {}
    ensures other != tx ==>
              && (other in b.Clear(tx).required <==> other in b.required)
              && (other in b.required ==> b.Clear(tx).required[other] == b.required[other])
              && b.Clear(tx).Acked(other) == b.Acked(other) && b.Clear(tx).Signers(other, s) == b.Signers(other, s)
  {
  }

  // ---------------------------------------------------------------- exactly when a quorum is reached

  datatype Call =
    | BeginCall(tx: TxId, origin: Shard, target: Shard)
    | VoteCall(tx: TxId, shard: Shard, id: Id)
    | ShardCall(tx: TxId, shard: Shard)
    | ClearCall(tx: TxId)

  function Do(b: Books, c: Call): Books
    requires 0.5 <= b.fraction <= 1.0
  {
    match c
    case BeginCall(tx, origin, target) => b.Begin(tx, origin, target)
    case VoteCall(tx, s, id) => b.ValidatorAck(tx, s, id)
    case ShardCall(tx, s) => b.ShardAck(tx, s)
    case ClearCall(tx) => b.Clear(tx)
  }

  function DoAll(b: Books, cs: seq<Call>): (r: Books)
    requires 0.5 <= b.fraction <= 1.0
    ensures r.fraction == b.fraction
  {
    if cs == [] then b else Do(DoAll(b, cs[..|cs| - 1]), cs[|cs| - 1])
  }

  /** The calls leave transfer `tx` begun. */
  ghost predicate LeavesBegun(cs: seq<Call>, tx: TxId) {
    forall c | c in cs && (c.BeginCall? || c.ClearCall?) :: c.tx != tx
  }

  /** The votes of a shard that count: named ones, from its committee when it has one. */
  ghost function Votes(b: Books, cs: seq<Call>, tx: TxId, s: Shard): set<Id> {
    set c | c in cs && c.VoteCall? && c.tx == tx && c.shard == s && c.id != "" && (b.Committee(s) != {} ==> c.id in b.Committee(s)) :: c.id
  }

  /** What the calls leave on record for `tx`, begun between the shards `both`. */
  ghost predicate OnRecord(start: Books, b: Books, cs: seq<Call>, tx: TxId, both: set<Shard>) {
    && b.committees == start.committees && b.fraction == start.fraction
    && tx in b.required && b.required[tx] == both
    && (forall s | s in both :: b.Signers(tx, s) == Votes(start, cs, tx, s))
    && (forall s | s in both && start.Committee(s) == {} ::
          (s in b.Acked(tx) <==> s in start.Acked(tx) || ShardCall(tx, s) in cs))
  }

  /** The vote this call casts for shard `s` of `tx`, if it counts. */
  ghost function VoteOf(b: Books, c: Call, tx: TxId, s: Shard): set<Id> {
    if c.VoteCall? && c.tx == tx && c.shard == s && c.id != "" && (b.Committee(s) != {} ==> c.id in b.Committee(s)) then {c.id} else {}
  }

  lemma VotesMore(b: Books, cs: seq<Call>, c: Call, tx: TxId, s: Shard)
    ensures Votes(b, cs + [c], tx, s) == Votes(b, cs, tx, s) + VoteOf(b, c, tx, s)
  {
    assert forall x :: x in cs + [c] <==> x in cs || x == c;
  }

  /** What one call does to the record of a begun transfer. */
  lemma CallEffect(b: Books, c: Call, tx: TxId, s: Shard)
    requires 0.5 <= b.fraction <= 1.0 && tx in b.required && s in b.required[tx]
    requires (c.BeginCall? || c.ClearCall?) ==> c.tx != tx
    ensures var b' := Do(b, c);
            && b'.committees == b.committees && b'.fraction == b.fraction
            && tx in b'.required && b'.required[tx] == b.required[tx]
            && b'.Signers(tx, s) == b.Signers(tx, s) + VoteOf(b, c, tx, s)
            && (b.Committee(s) == {} ==> (s in b'.Acked(tx) <==> s in b.Acked(tx) || c == ShardCall(tx, s)))
  {
    hide QuorumSize;
    if c.VoteCall? {
      hide Do;
      VoteEffect(b, c.tx, c.shard, c.id, tx, s);
    }
  }

  lemma VoteEffect(b: Books, k: TxId, u: Shard, id: Id, tx: TxId, s: Shard)
    requires 0.5 <= b.fraction <= 1.0 && tx in b.required && s in b.required[tx]
    ensures var b' := Do(b, VoteCall(k, u, id));
            && b'.committees == b.committees && b'.fraction == b.fraction
            && tx in b'.required && b'.required[tx] == b.required[tx]
            && b'.Signers(tx, s) == b.Signers(tx, s) + VoteOf(b, VoteCall(k, u, id), tx, s)
            && (b.Committee(s) == {} ==> (s in b'.Acked(tx) <==> s in b.Acked(tx)))
  {
    hide QuorumSize, Books.WithSigner;
    if b.Accepts(k, u, id) { SignerAdded(b, k, u, id, tx, s); }
  }

  lemma SignerAdded(b: Books, k: TxId, u: Shard, id: Id, tx: TxId, s: Shard)
    ensures var b' := b.WithSigner(k, u, id);
            && b'.committees == b.committees && b'.fraction == b.fraction && b'.required == b.required && b'.acks == b.acks
            && b'.Signers(tx, s) == b.Signers(tx, s) + if k == tx && u == s then {id} else {}
  {
  }

  lemma CallRecords(start: Books, b: Books, cs: seq<Call>, c: Call, tx: TxId, both: set<Shard>)
    requires 0.5 <= b.fraction <= 1.0 && both != {}
    requires OnRecord(start, b, cs, tx, both) && ((c.BeginCall? || c.ClearCall?) ==> c.tx != tx)
    ensures OnRecord(start, Do(b, c), cs + [c], tx, both)
  {
    hide QuorumSize, Do, Votes, VoteOf;
    var any :| any in both;
    CallEffect(b, c, tx, any);
    assert forall x :: x in cs + [c] <==> x in cs || x == c;
    forall s | s in both
      ensures Do(b, c).Signers(tx, s) == Votes(start, cs + [c], tx, s)
      ensures start.Committee(s) == {} ==> (s in Do(b, c).Acked(tx) <==> s in start.Acked(tx) || ShardCall(tx, s) in cs + [c])
    {
      CallEffect(b, c, tx, s);
      VotesMore(start, cs, c, tx, s);
      SameVote(start, b, c, tx, s);
    }
  }

  lemma SameVote(a: Books, b: Books, c: Call, tx: TxId, s: Shard)
    requires a.committees == b.committees
    ensures VoteOf(a, c, tx, s) == VoteOf(b, c, tx, s) && a.Committee(s) == b.Committee(s)
  {
  }

  lemma {:induction false} CallsRecord(b: Books, tx: TxId, origin: Shard, target: Shard, cs: seq<Call>)
    requires 0.5 <= b.fraction <= 1.0 && LeavesBegun(cs, tx)
    ensures OnRecord(b, DoAll(b.Begin(tx, origin, target), cs), cs, tx, {origin, target})
  {
    hide Do, OnRecord;
    if cs == [] {
      NothingOnRecord(b, tx, origin, target);
    } else {
      var (init, c) := (cs[..|cs| - 1], cs[|cs| - 1]);
      CallsRecord(b, tx, origin, target, init);
      CallRecords(b, DoAll(b.Begin(tx, origin, target), init), init, c, tx, {origin, target});
      assert init + [c] == cs;
    }
  }

  lemma NothingOnRecord(b: Books, tx: TxId, origin: Shard, target: Shard)
    ensures OnRecord(b, b.Begin(tx, origin, target), [], tx, {origin, target})
  {
  }

  /**
   * After a transfer is begun and until it is cleared or begun again, whatever is called in between and in
   * whatever order, its quorum is reached exactly when each of its two shards has a quorum of distinct votes
   * from its committee, or, without a committee, a shard acknowledgement.
   */
  lemma QuorumExactly(b: Books, tx: TxId, origin: Shard, target: Shard, cs: seq<Call>)
    requires 0.5 <= b.fraction <= 1.0 && LeavesBegun(cs, tx)
    ensures DoAll(b.Begin(tx, origin, target), cs).Reached(tx) <==>
            forall s | s == origin || s == target ::
              if b.Committee(s) != {} then |Votes(b, cs, tx, s)| >= QuorumSize(|b.Committee(s)|, b.fraction)
              else s in b.Acked(tx) || ShardCall(tx, s) in cs
  {
    hide QuorumSize, DoAll;
    CallsRecord(b, tx, origin, target, cs);
    var r := DoAll(b.Begin(tx, origin, target), cs);
    forall s | s == origin || s == target
      ensures r.ShardMet(tx, s) <==>
              if b.Committee(s) != {} then |Votes(b, cs, tx, s)| >= QuorumSize(|b.Committee(s)|, b.fraction)
              else s in b.Acked(tx) || ShardCall(tx, s) in cs
    {
      assert r.Committee(s) == b.Committee(s);
    }
  }
}
