/** Equivocation detection and stake accounting (consensus/slashing.py). */
module Slashing {
  import opened Collections
  import opened Ghost
  import opened Lmd

  datatype Reason = DoubleVote | DoubleProposal

  datatype SlashEvent = SlashEvent(validator: Validator, reason: Reason, epoch: int, penalty: nat)

  const PROPOSAL_EPOCH_LENGTH := 32

  function Penalty(reason: Reason): nat {
    match reason
    case DoubleVote => 100
    case DoubleProposal => 200
  }

  /** What the engine remembers: ballots by validator and slot, proposals by height and validator. */
  datatype Record = Record(
    votes: map<Validator, map<int, Hash>>,
    proposals: map<int, map<Validator, Hash>>,
    slashed: set<Validator>,
    events: seq<SlashEvent>)
  {
    function Ballot(v: Validator, slot: int): Option<Hash> {
      if v in votes && slot in votes[v] then Some(votes[v][slot]) else None
    }

    function Proposal(v: Validator, height: int): Option<Hash> {
      if height in proposals && v in proposals[height] then Some(proposals[height][v]) else None
    }

    function Slash(v: Validator, reason: Reason, epoch: int): Record {
      if v in slashed then this
      else this.(slashed := slashed + {v}, events := events + [SlashEvent(v, reason, epoch, Penalty(reason))])
    }

    /** `record_vote`: the record after a ballot, and whether it was accepted. */
    function Vote(v: Validator, slot: int, hash: Hash): (Record, bool) {
      if v in slashed then (this, false)
      else
        var mine := if v in votes then votes[v] else map[];
        if slot in mine then
          var seen := this.(votes := votes[v := mine]);
          if mine[slot] != hash then (seen.Slash(v, DoubleVote, slot), false) else (seen, true)
        else (this.(votes := votes[v := mine[slot := hash]]), true)
    }

    /** `record_proposal`: hash-idempotent, conflicting hashes at one height slash once. */
    function Propose(v: Validator, height: int, hash: Hash): (Record, bool) {
      var row := if height in proposals then proposals[height] else map[];
      var seen := this.(proposals := proposals[height := row]);
      if v in row then
        if row[v] == hash then (seen, true)
        else (seen.Slash(v, DoubleProposal, FloorDiv(height, PROPOSAL_EPOCH_LENGTH)), false)
      else (this.(proposals := proposals[height := row[v := hash]]), true)
    }
  }

  /** Floor division by a positive number, which for a positive divisor is Dafny's own. */
  function FloorDiv(a: int, b: int): (q: int)
    requires b > 0
    ensures q * b <= a < (q + 1) * b
  {
    a / b
  }

  const EMPTY := Record(map[], map[], {}, [])

  class SlashingEngine {
    var votes: map<Validator, map<int, Hash>>
    var proposals: map<int, map<Validator, Hash>>
    var slashed: set<Validator>
    var events: seq<SlashEvent>
    var stakes: Stakes

    ghost function Recorded(): Record
      reads this
    {
      Record(votes, proposals, slashed, events)
    }

    constructor ()
      ensures Recorded() == EMPTY && stakes == map[]
    {
      votes, proposals, slashed, events, stakes := map[], map[], {}, [], map[];
    }

    method RegisterValidator(v: Validator, stake: int) returns (ok: bool)
      modifies this`stakes
      ensures ok == (stake > 0)
      ensures stakes == if stake > 0 then old(stakes)[v := stake] else old(stakes)
    {
      ok := stake > 0;
      if ok { stakes := stakes[v := stake]; }
    }

    method AddVote(v: Validator, slot: int, hash: Hash) returns (accepted: bool)
      modifies this`votes, this`slashed, this`events
      ensures (Recorded(), accepted) == old(Recorded()).Vote(v, slot, hash)
    {
      if v in slashed { return false; }
      if v !in votes { votes := votes[v := map[]]; }
      if slot in votes[v] {
        if votes[v][slot] != hash {
          SlashValidator(v, DoubleVote, slot);
          return false;
        }
        assert votes == old(votes)[v := votes[v]];
        return true;
      }
      votes := votes[v := votes[v][slot := hash]];
      assert votes == old(votes)[v := votes[v]];
      return true;
    }

    method RecordProposal(v: Validator, height: int, hash: Hash) returns (accepted: bool)
      modifies this`proposals, this`slashed, this`events
      ensures (Recorded(), accepted) == old(Recorded()).Propose(v, height, hash)
    {
      if height !in proposals { proposals := proposals[height := map[]]; }
      if v in proposals[height] {
        assert proposals == old(proposals)[height := proposals[height]];
        if proposals[height][v] == hash { return true; }
        if v !in slashed {
          SlashValidator(v, DoubleProposal, FloorDiv(height, PROPOSAL_EPOCH_LENGTH));
        }
        return false;
      }
      proposals := proposals[height := proposals[height][v := hash]];
      assert proposals == old(proposals)[height := proposals[height]];
      return true;
    }

    method SlashValidator(v: Validator, reason: Reason, epoch: int)
      modifies this`slashed, this`events
      ensures Recorded() == old(Recorded()).Slash(v, reason, epoch)
    {
      if v in slashed { return; }
      slashed := slashed + {v};
      events := events + [SlashEvent(v, reason, epoch, Penalty(reason))];
    }

    /** 0 for a slashed or unknown validator. */
    method GetStake(v: Validator) returns (stake: nat)
      ensures stake == if v in slashed then 0 else Stake(stakes, v)
    {
      stake := if v in slashed || v !in stakes then 0 else stakes[v];
    }

    /** `get_total_active_stake`: one pass over the stake table. */
    method TotalActiveStake() returns (total: nat)
      ensures total == StakeOf(stakes, stakes.Keys - slashed)
    {
      total := 0;
      var todo := stakes.Keys;
      while todo != {}
        invariant todo <= stakes.Keys
        invariant total == StakeOf(stakes, (stakes.Keys - todo) - slashed)
      {
        var v :| v in todo;
        ghost var before := (stakes.Keys - todo) - slashed;
        todo := todo - {v};
        ghost var after := (stakes.Keys - todo) - slashed;
        if v !in slashed {
          total := total + stakes[v];
          assert after - {v} == before;
          StakeRemove(stakes, after, v);
        } else {
          assert after == before;
        }
      }
      assert (stakes.Keys - todo) - slashed == stakes.Keys - slashed;
    }
  }

  // ---------------------------------------------------------------- whole runs

  datatype Message = Ballot(validator: Validator, slot: int, hash: Hash)
                   | Proposal(validator: Validator, height: int, hash: Hash)

  function Receive(r: Record, m: Message): Record {
    match m
    case Ballot(v, slot, hash) => r.Vote(v, slot, hash).0
    case Proposal(v, height, hash) => r.Propose(v, height, hash).0
  }

  function Run(ms: seq<Message>): Record {
    if ms == [] then EMPTY else Receive(Run(ms[..|ms| - 1]), ms[|ms| - 1])
  }

  /** Two messages of one validator for the same slot, or for the same height. */
  ghost predicate SameKey(a: Message, b: Message) {
    && a.validator == b.validator
    && ((a.Ballot? && b.Ballot? && a.slot == b.slot) || (a.Proposal? && b.Proposal? && a.height == b.height))
  }

  ghost predicate Conflict(a: Message, b: Message) { SameKey(a, b) && a.hash != b.hash }

  ghost predicate Equivocated(ms: seq<Message>, v: Validator) {
    exists a, b :: a in ms && b in ms && a.validator == v && Conflict(a, b)
  }

  /** The hash on record under the key of `m`. */
  ghost function Kept(r: Record, m: Message): Option<Hash> {
    match m
    case Ballot(v, slot, _) => r.Ballot(v, slot)
    case Proposal(v, height, _) => r.Proposal(v, height)
  }

  /** The record holds only what was sent, and all that was sent by validators not slashed. */
  ghost predicate Remembers(r: Record, ms: seq<Message>) {
    && (forall m :: Kept(r, m) == Some(m.hash) ==> m in ms)
    && (forall m | m in ms && m.validator !in r.slashed :: Kept(r, m) == Some(m.hash))
  }

  /** One message touches only what is kept under its own key, and slashes only on a conflict there. */
  lemma ReceiveEffect(r: Record, m: Message, o: Message)
    ensures var r' := Receive(r, m);
            && (!SameKey(m, o) ==> Kept(r', o) == Kept(r, o))
            && (Kept(r', m) == if (m.Ballot? && m.validator in r.slashed) || Kept(r, m).Some? then Kept(r, m) else Some(m.hash))
            && r.slashed <= r'.slashed <= r.slashed + {m.validator}
            && (m.validator in r'.slashed && m.validator !in r.slashed <==>
                  m.validator !in r.slashed && Kept(r, m).Some? && Kept(r, m) != Some(m.hash))
  {
  }

  lemma {:induction false} RunRemembers(ms: seq<Message>)
    ensures Remembers(Run(ms), ms)
    ensures forall v | v in Run(ms).slashed :: Equivocated(ms, v)
  {
    if ms != [] {
      var init, m := ms[..|ms| - 1], ms[|ms| - 1];
      RunRemembers(init);
      assert ms == init + [m];
      RememberStep(Run(init), init, m);
      ReceiveEffect(Run(init), m, m);
      forall v | v in Run(ms).slashed ensures Equivocated(ms, v) {
        if v in Run(init).slashed {
          var a, b :| a in init && b in init && a.validator == v && Conflict(a, b);
          assert a in ms && b in ms;
        } else {
          var other := m.(hash := Kept(Run(init), m).value);
          assert Kept(Run(init), other) == Some(other.hash);
          assert other in ms && m in ms && Conflict(m, other);
        }
      }
    }
  }

  lemma RememberStep(r: Record, ms: seq<Message>, m: Message)
    requires Remembers(r, ms)
    ensures Remembers(Receive(r, m), ms + [m])
  {
    var r' := Receive(r, m);
    assert forall x :: x in ms + [m] <==> x in ms || x == m;
    forall o
      ensures Kept(r', o) == Some(o.hash) ==> o in ms + [m]
      ensures o in ms + [m] && o.validator !in r'.slashed ==> Kept(r', o) == Some(o.hash)
    {
      ReceiveEffect(r, m, o);
      if SameKey(m, o) { SameKeyKept(r, m, o); SameKeyKept(r', m, o); }
    }
  }

  lemma SameKeyKept(r: Record, a: Message, b: Message)
    requires SameKey(a, b)
    ensures Kept(r, a) == Kept(r, b)
    ensures a.hash == b.hash ==> a == b
  {
  }

  /**
   * A validator is slashed exactly when the run holds two conflicting messages of its own: two
   * ballots for one slot or two proposals for one height. The order of arrival does not matter.
   */
  lemma SlashedIffEquivocated(ms: seq<Message>, v: Validator)
    ensures v in Run(ms).slashed <==> Equivocated(ms, v)
  {
    RunRemembers(ms);
    if Equivocated(ms, v) {
      var a, b :| a in ms && b in ms && a.validator == v && Conflict(a, b);
      SameKeyKept(Run(ms), a, b);
    }
  }

  /** One message adds at most one event, about its own sender, which was not slashed before. */
  lemma ReceiveEvents(r: Record, m: Message)
    ensures var r' := Receive(r, m);
            || (r'.events == r.events && r'.slashed == r.slashed)
            || (exists reason: Reason, epoch: int :: m.validator !in r.slashed && r'.slashed == r.slashed + {m.validator}
                  && r'.events == r.events + [SlashEvent(m.validator, reason, epoch, Penalty(reason))])
  {
    var r' := Receive(r, m);
    if m.Ballot? {
      assert r' == r.Vote(m.validator, m.slot, m.hash).0;
      if r'.events != r.events { assert r'.events == r.events + [SlashEvent(m.validator, DoubleVote, m.slot, Penalty(DoubleVote))]; }
    } else {
      var e := FloorDiv(m.height, PROPOSAL_EPOCH_LENGTH);
      if r'.events != r.events { assert r'.events == r.events + [SlashEvent(m.validator, DoubleProposal, e, Penalty(DoubleProposal))]; }
    }
  }

  /** Every slashed validator is slashed once, with one event that carries the listed penalty. */
  lemma {:induction false} OneEventPerSlash(ms: seq<Message>)
    ensures var r := Run(ms);
            && (forall i, j | 0 <= i < j < |r.events| :: r.events[i].validator != r.events[j].validator)
            && r.slashed == (set i | 0 <= i < |r.events| :: r.events[i].validator)
            && forall i | 0 <= i < |r.events| :: r.events[i].penalty == Penalty(r.events[i].reason)
  {
    hide Receive;
    if ms != [] {
      var r, m := Run(ms[..|ms| - 1]), ms[|ms| - 1];
      OneEventPerSlash(ms[..|ms| - 1]);
      var r' := Run(ms);
      ReceiveEvents(r, m);
      if r'.events != r.events {
        assert forall i | 0 <= i < |r.events| :: r'.events[i] == r.events[i];
        assert r'.events[|r.events|].validator == m.validator && |r'.events| == |r.events| + 1;
        forall v ensures v in r'.slashed <==> exists i :: 0 <= i < |r'.events| && r'.events[i].validator == v {
          if v in r.slashed {
            var i :| 0 <= i < |r.events| && r.events[i].validator == v;
            assert r'.events[i].validator == v;
          }
        }
      }
    }
  }

  // ---------------------------------------------------------------- what the answers and the events say

  /** The hash of the first proposal of `v` at `height`. */
  ghost function FirstProposal(ms: seq<Message>, v: Validator, height: int): Option<Hash> {
    if ms == [] then None
    else
      var before := FirstProposal(ms[..|ms| - 1], v, height);
      if before.Some? then before
      else match ms[|ms| - 1]
           case Proposal(u, h, hash) => if u == v && h == height then Some(hash) else None
           case Ballot(_, _, _) => None
  }

  lemma {:induction false} ProposalOnRecord(ms: seq<Message>, v: Validator, height: int)
    ensures Run(ms).Proposal(v, height) == FirstProposal(ms, v, height)
  {
    if ms != [] { ProposalOnRecord(ms[..|ms| - 1], v, height); }
  }

  /** In every run a proposal is accepted exactly when it repeats its validator's first one at that height, or is it. */
  lemma ProposalAcceptedIff(ms: seq<Message>, v: Validator, height: int, hash: Hash)
    ensures Run(ms).Propose(v, height, hash).1 <==> FirstProposal(ms, v, height) in {None, Some(hash)}
  {
    ProposalOnRecord(ms, v, height);
  }

  /** In every run a ballot is accepted exactly when its validator has not equivocated, this ballot included. */
  lemma BallotAcceptedIff(ms: seq<Message>, v: Validator, slot: int, hash: Hash)
    ensures Run(ms).Vote(v, slot, hash).1 <==> !Equivocated(ms + [Ballot(v, slot, hash)], v)
  {
    var m := Ballot(v, slot, hash);
    var more := ms + [m];
    assert more[..|more| - 1] == ms && Run(more) == Receive(Run(ms), m);
    SlashedIffEquivocated(more, v);
    ReceiveEffect(Run(ms), m, m);
  }

  /** What an event records: a double vote by its slot at 100, a double proposal by its epoch of 32 heights at 200. */
  ghost function EventFor(m: Message): SlashEvent {
    match m
    case Ballot(v, slot, _) => SlashEvent(v, DoubleVote, slot, 100)
    case Proposal(v, height, _) => SlashEvent(v, DoubleProposal, FloorDiv(height, 32), 200)
  }

  lemma ReceiveRecords(r: Record, m: Message)
    ensures var r' := Receive(r, m);
            if m.validator !in r.slashed && m.validator in r'.slashed then r'.events == r.events + [EventFor(m)] else r'.events == r.events
  {
  }

  /** In every run the newest event, if the last message made one, describes that message. */
  lemma EventsTell(ms: seq<Message>)
    requires ms != []
    ensures var (before, m) := (Run(ms[..|ms| - 1]), ms[|ms| - 1]);
            Run(ms).events == before.events +
              if Equivocated(ms, m.validator) && !Equivocated(ms[..|ms| - 1], m.validator) then [EventFor(m)] else []
  {
    var (init, m) := (ms[..|ms| - 1], ms[|ms| - 1]);
    SlashedIffEquivocated(init, m.validator);
    SlashedIffEquivocated(ms, m.validator);
    ReceiveRecords(Run(init), m);
  }

  /** Slashing moves stake from active to slashed and loses none of it. */
  lemma StakeConserved(stakes: Stakes, slashed: set<Validator>)
    ensures StakeOf(stakes, stakes.Keys - slashed) + StakeOf(stakes, slashed) == StakeOf(stakes, stakes.Keys + slashed)
    ensures StakeOf(stakes, stakes.Keys + slashed) == StakeOf(stakes, stakes.Keys)
  {
    StakeDisjoint(stakes, stakes.Keys - slashed, slashed);
    assert (stakes.Keys - slashed) + slashed == stakes.Keys + slashed;
    StakeDisjoint(stakes, stakes.Keys, slashed - stakes.Keys);
    assert stakes.Keys + (slashed - stakes.Keys) == stakes.Keys + slashed;
    NoStake(stakes, slashed - stakes.Keys);
  }

  lemma {:induction false} NoStake(stakes: Stakes, vs: set<Validator>)
    requires vs !! stakes.Keys
    ensures StakeOf(stakes, vs) == 0
    decreases |vs|
  {
    if vs != {} {
      var v :| v in vs;
      StakeRemove(stakes, vs, v);
      NoStake(stakes, vs - {v});
    }
  }
}
