/** Latest-message-driven vote table: one vote per validator, newer slot wins (consensus/lmd.py). */
module Lmd {
  import opened Collections
  import opened Ghost

  type Validator = string
  datatype Vote = Vote(hash: Hash, slot: int)
  type Votes = map<Validator, Vote>
  type Stakes = map<Validator, nat>

  function Stake(stakes: Stakes, v: Validator): nat { if v in stakes then stakes[v] else 0 }

  /** The table after an attestation: strict slot order, unknown validators ignored. */
  function Updated(latest: Votes, stakes: Stakes, v: Validator, vote: Vote): Votes {
    if v in stakes && (v !in latest || vote.slot > latest[v].slot) then latest[v := vote] else latest
  }

  ghost function StakeFn(stakes: Stakes): Validator -> nat { (v: Validator) => Stake(stakes, v) }

  ghost function StakeOf(stakes: Stakes, vs: set<Validator>): nat { Sum(vs, StakeFn(stakes)) }

  /** The validators whose latest vote is in `s`. */
  ghost function VotersIn(latest: Votes, s: set<Hash>): set<Validator> {
    set v | v in latest && latest[v].hash in s
  }

  ghost function VotersFor(latest: Votes, h: Hash): set<Validator> {
    set v | v in latest && latest[v].hash == h
  }

  /** Every voted hash weighs the stake of those whose latest vote names it. */
  ghost predicate WeightsFrom(w: Weights, latest: Votes, stakes: Stakes) {
    forall h: Hash :: Weight(w, h) == StakeOf(stakes, VotersFor(latest, h))
  }

  class LmdTable {
    var latestVote: Votes
    var validatorStake: Stakes

    constructor ()
      ensures latestVote == map[] && validatorStake == map[]
    {
      latestVote, validatorStake := map[], map[];
    }

    /** Refuses a missing or non-positive stake. */
    method AddValidator(v: Validator, stake: int) returns (ok: bool)
      modifies this`validatorStake
      ensures ok == (stake > 0)
      ensures validatorStake == if stake > 0 then old(validatorStake)[v := stake] else old(validatorStake)
    {
      ok := stake > 0;
      if ok { validatorStake := validatorStake[v := stake]; }
    }

    method Update(v: Validator, hash: Hash, slot: int) returns (changed: bool)
      modifies this`latestVote
      ensures latestVote == Updated(old(latestVote), validatorStake, v, Vote(hash, slot))
      ensures changed == (v in validatorStake && (v !in old(latestVote) || slot > old(latestVote)[v].slot))
    {
      if v !in validatorStake { return false; }
      if v !in latestVote || slot > latestVote[v].slot {
        latestVote := latestVote[v := Vote(hash, slot)];
        return true;
      }
      return false;
    }

    /** One pass over the vote table, in any order, adding each stake to the block it votes for. */
    method GetWeights() returns (weights: Weights)
      ensures WeightsFrom(weights, latestVote, validatorStake)
    {
      weights := map[];
      var todo := latestVote.Keys;
      ghost var done: Votes := map[];
      while todo != {}
        invariant todo <= latestVote.Keys
        invariant done == map v | v in latestVote && v !in todo :: latestVote[v]
        invariant WeightsFrom(weights, done, validatorStake)
      {
        var v :| v in todo;
        todo := todo - {v};
        var hash := latestVote[v].hash;
        var stake := if v in validatorStake then validatorStake[v] else 0;
        AddVoter(weights, done, validatorStake, v, latestVote[v]);
        weights := weights[hash := Weight(weights, hash) + stake];
        done := done[v := latestVote[v]];
      }
      assert done == latestVote;
    }
  }

  lemma AddVoter(w: Weights, done: Votes, stakes: Stakes, v: Validator, vote: Vote)
    requires v !in done && WeightsFrom(w, done, stakes)
    ensures WeightsFrom(w[vote.hash := Weight(w, vote.hash) + Stake(stakes, v)], done[v := vote], stakes)
  {
    var w' := w[vote.hash := Weight(w, vote.hash) + Stake(stakes, v)];
    forall h: Hash ensures Weight(w', h) == StakeOf(stakes, VotersFor(done[v := vote], h)) {
      var voters := VotersFor(done[v := vote], h);
      assert Weight(w, h) == StakeOf(stakes, VotersFor(done, h));
      if h == vote.hash {
        assert voters - {v} == VotersFor(done, h);
        StakeRemove(stakes, voters, v);
      } else {
        assert voters == VotersFor(done, h);
      }
    }
  }

  lemma StakeRemove(stakes: Stakes, vs: set<Validator>, v: Validator)
    requires v in vs
    ensures StakeOf(stakes, vs) == Stake(stakes, v) + StakeOf(stakes, vs - {v})
  {
    var f := StakeFn(stakes);
    SumRemove(vs, f, v);
  }

  lemma StakeMonotone(stakes: Stakes, a: set<Validator>, b: set<Validator>)
    requires a <= b
    ensures StakeOf(stakes, a) <= StakeOf(stakes, b)
  {
    var f := StakeFn(stakes);
    SumMonotone(a, b, f);
  }

  lemma StakeDisjoint(stakes: Stakes, a: set<Validator>, b: set<Validator>)
    requires a !! b
    ensures StakeOf(stakes, a + b) == StakeOf(stakes, a) + StakeOf(stakes, b)
  {
    SumDisjoint(a, b, StakeFn(stakes));
  }

  lemma TotalWeightRemove(w: Weights, s: set<Hash>, h: Hash)
    requires h in s
    ensures TotalWeight(w, s) == Weight(w, h) + TotalWeight(w, s - {h})
  {
    SumRemove(s, WeightFn(w), h);
  }

  lemma VotersSplit(latest: Votes, s: set<Hash>, h: Hash)
    requires h in s
    ensures VotersIn(latest, s) == VotersFor(latest, h) + VotersIn(latest, s - {h})
    ensures VotersFor(latest, h) !! VotersIn(latest, s - {h})
  {
  }

  /** Summing block weights over a set of blocks is summing stakes over those who vote into it. */
  lemma {:induction false} TotalWeightIsStake(w: Weights, latest: Votes, stakes: Stakes, s: set<Hash>)
    requires WeightsFrom(w, latest, stakes)
    ensures TotalWeight(w, s) == StakeOf(stakes, VotersIn(latest, s))
    decreases |s|
  {
    if s == {} {
      assert VotersIn(latest, s) == {};
    } else {
      var h :| h in s;
      var rest := s - {h};
      assert Weight(w, h) == StakeOf(stakes, VotersFor(latest, h));
      hide WeightsFrom, TotalWeight, StakeOf, VotersIn, VotersFor, Weight;
      TotalWeightIsStake(w, latest, stakes, rest);
      TotalWeightRemove(w, s, h);
      VotersSplit(latest, s, h);
      StakeDisjoint(stakes, VotersFor(latest, h), VotersIn(latest, rest));
    }
  }

  /** The validators whose latest vote lies at or below `b`. */
  ghost function Supporters(t: Tree, rank: Hash -> nat, latest: Votes, b: Hash): set<Validator>
    requires Ranked(t, rank)
  {
    set v | v in latest && Below(t, rank, b, latest[v].hash)
  }

  /**
   * The weight GHOST computes for a block is exactly the stake of the validators whose latest vote
   * lies at or below it.
   */
  lemma WeightIsStakeAtOrBelow(t: Tree, w: Weights, rank: Hash -> nat, latest: Votes, stakes: Stakes, b: Hash)
    requires Ranked(t, rank) && WellFormed(t) && b in t && WeightsFrom(w, latest, stakes)
    ensures SubtreeSum(t, w, rank, b) == StakeOf(stakes, Supporters(t, rank, latest, b))
  {
    SubtreeSumIsTotal(t, w, rank, b);
    TotalWeightIsStake(w, latest, stakes, Subtree(t, rank, b));
    forall v | v in latest && Below(t, rank, b, latest[v].hash) ensures latest[v].hash in t {
      BelowInTree(t, rank, b, latest[v].hash);
    }
    assert VotersIn(latest, Subtree(t, rank, b)) == Supporters(t, rank, latest, b);
  }

  /**
   * A registered validator that moves its latest vote to the current head does not move the head,
   * whichever block it voted for before.
   */
  lemma HeadStability(t: Tree, w: Weights, w': Weights, rank: Hash -> nat, latest: Votes, stakes: Stakes,
                      head: Hash, v: Validator, slot: int)
    requires Ranked(t, rank) && WellFormed(t) && IsHead(t, w, rank, Some(head))
    requires WeightsFrom(w, latest, stakes)
    requires WeightsFrom(w', Updated(latest, stakes, v, Vote(head, slot)), stakes)
    ensures IsHead(t, w', rank, Some(head))
  {
    forall b | b in t
      ensures Below(t, rank, b, head) ==> SubtreeSum(t, w', rank, b) >= SubtreeSum(t, w, rank, b)
      ensures !Below(t, rank, b, head) ==> SubtreeSum(t, w', rank, b) <= SubtreeSum(t, w, rank, b)
    {
      SupportShift(t, w, w', rank, latest, stakes, head, v, slot, b);
    }
    HeadKept(t, w, w', rank, head);
  }

  lemma SupportShift(t: Tree, w: Weights, w': Weights, rank: Hash -> nat, latest: Votes, stakes: Stakes,
                     head: Hash, v: Validator, slot: int, b: Hash)
    requires Ranked(t, rank) && WellFormed(t) && b in t
    requires WeightsFrom(w, latest, stakes)
    requires WeightsFrom(w', Updated(latest, stakes, v, Vote(head, slot)), stakes)
    ensures Below(t, rank, b, head) ==> SubtreeSum(t, w', rank, b) >= SubtreeSum(t, w, rank, b)
    ensures !Below(t, rank, b, head) ==> SubtreeSum(t, w', rank, b) <= SubtreeSum(t, w, rank, b)
  {
    var latest' := Updated(latest, stakes, v, Vote(head, slot));
    WeightIsStakeAtOrBelow(t, w, rank, latest, stakes, b);
    WeightIsStakeAtOrBelow(t, w', rank, latest', stakes, b);
    var (was, now) := (Supporters(t, rank, latest, b), Supporters(t, rank, latest', b));
    if Below(t, rank, b, head) {
      StakeMonotone(stakes, was, now);
    } else {
      StakeMonotone(stakes, now, was);
    }
  }
}
