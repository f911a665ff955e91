/** The two vote-weight finality gadgets (consensus/finality_beacon.py, consensus/finality_casper.py). */
module Ffg {
  import opened Collections

  type BlockHash = string

  // ---------------------------------------------------------------- tallies and threshold

  /** One epoch's tally: blocks with accumulated weight, in order of first vote. */
  type Tally = seq<(BlockHash, int)>

  function WeightIn(t: Tally, h: BlockHash): int {
    if t == [] then 0 else if t[0].0 == h then t[0].1 else WeightIn(t[1..], h)
  }

  /** Every call accumulates, whoever votes. */
  function Accumulated(t: Tally, h: BlockHash, weight: int): (r: Tally)
    ensures r != []
    ensures forall k :: WeightIn(r, k) == WeightIn(t, k) + if k == h then weight else 0
  {
    if t == [] then [(h, weight)]
    else if t[0].0 == h then [(h, t[0].1 + weight)] + t[1..]
    else
      var rest := Accumulated(t[1..], h, weight);
      var r := [t[0]] + rest;
      assert r[1..] == rest;
      r
  }

  /** Entry `k` is the first of greatest weight. */
  ghost predicate FirstBest(t: Tally, k: nat) {
    && k < |t|
    && (forall j | 0 <= j < |t| :: t[j].1 <= t[k].1)
    && (forall j | 0 <= j < k :: t[j].1 < t[k].1)
  }

  /** `b` is the first entry of greatest weight. */
  ghost predicate IsBest(t: Tally, b: (BlockHash, int)) { exists k: nat :: FirstBest(t, k) && t[k] == b }

  /** The first entry of greatest weight. */
  function Best(t: Tally): (b: (BlockHash, int))
    requires t != []
    ensures IsBest(t, b)
  {
    if |t| == 1 then
      assert FirstBest(t, 0);
      t[0]
    else
      var rest := t[1..];
      var b := Best(rest);
      BestOfRest(t, b);
      if t[0].1 >= b.1 then t[0] else b
  }

  lemma BestOfRest(t: Tally, b: (BlockHash, int))
    requires t != [] && IsBest(t[1..], b)
    ensures IsBest(t, if t[0].1 >= b.1 then t[0] else b)
  {
    var rest := t[1..];
    var k: nat :| FirstBest(rest, k) && rest[k] == b;
    assert forall j | 1 <= j < |t| :: t[j] == rest[j - 1];
    assert FirstBest(t, if t[0].1 >= b.1 then 0 else k + 1);
  }

  /** `int(total * 2/3)` in exact arithmetic. */
  function Threshold(total: nat): (q: nat)
    ensures 3 * q <= 2 * total < 3 * q + 3
  {
    2 * total / 3
  }

  function Row(votes: map<int, Tally>, e: int): Tally { if e in votes then votes[e] else [] }

  function Voted(votes: map<int, Tally>, e: int, h: BlockHash, weight: int): map<int, Tally> {
    votes[e := Accumulated(Row(votes, e), h, weight)]
  }

  /** The block that carries epoch `e` over the threshold, if any. */
  function Supermajority(votes: map<int, Tally>, e: int, total: nat): Option<BlockHash> {
    if Row(votes, e) == [] then None
    else if Best(votes[e]).1 >= Threshold(total) then Some(Best(votes[e]).0)
    else None
  }

  // ---------------------------------------------------------------- Beacon

  datatype Beacon = Beacon(
    votes: map<int, Tally>,
    total: nat,
    justified: set<int>,
    blocks: map<int, BlockHash>,
    finalized: set<int>,
    lastJustified: Option<(int, BlockHash)>,
    lastFinalized: Option<(int, BlockHash)>)

  const BEACON := Beacon(map[], 0, {}, map[], {}, None, None)

  /** Finalise only at the moment of justification. */
  function BeaconEvaluated(s: Beacon, e: int): Beacon {
    var best := Supermajority(s.votes, e, s.total);
    if best.None? || e in s.justified then s
    else
      var j := s.(justified := s.justified + {e}, blocks := s.blocks[e := best.value], lastJustified := Some((e, best.value)));
      if e - 1 in j.justified && e - 1 !in j.finalized then
        j.(finalized := j.finalized + {e - 1},
           lastFinalized := Some((e - 1, if e - 1 in j.blocks then j.blocks[e - 1] else "")))
      else j
  }

  function BeaconVote(s: Beacon, e: int, h: BlockHash, weight: int): Beacon {
    BeaconEvaluated(s.(votes := Voted(s.votes, e, h, weight)), e)
  }

  class BeaconFinality {
    const epochSize: nat
    var votes: map<int, Tally>
    var totalStake: nat
    var justifiedEpochs: set<int>
    var justifiedBlocks: map<int, BlockHash>
    var finalizedEpochs: set<int>
    var lastJustified: Option<(int, BlockHash)>
    var lastFinalized: Option<(int, BlockHash)>

    ghost function View(): Beacon
      reads this
    {
      Beacon(votes, totalStake, justifiedEpochs, justifiedBlocks, finalizedEpochs, lastJustified, lastFinalized)
    }

    constructor (epochSize: nat)
      ensures this.epochSize == epochSize && View() == BEACON
    {
      this.epochSize := epochSize;
      votes, totalStake, justifiedEpochs, justifiedBlocks, finalizedEpochs := map[], 0, {}, map[], {};
      lastJustified, lastFinalized := None, None;
    }

    method SetTotalStake(total: nat)
      modifies this`totalStake
      ensures View() == old(View()).(total := total)
    {
      totalStake := total;
    }

    method AddVote(h: BlockHash, slot: int, weight: int)
      requires epochSize > 0
      modifies this
      ensures View() == BeaconVote(old(View()), slot / epochSize, h, weight)
    {
      var e := slot / epochSize;
      if e !in votes { votes := votes[e := []]; }
      votes := votes[e := Accumulated(votes[e], h, weight)];
      assert votes == Voted(old(votes), e, h, weight);
      Evaluate(e);
    }

    method Evaluate(e: int)
      modifies this
      ensures View() == BeaconEvaluated(old(View()), e)
    {
      if e !in votes || votes[e] == [] { return; }
      var (h, weight) := Best(votes[e]);
      if weight >= Threshold(totalStake) {
        if e !in justifiedEpochs {
          justifiedEpochs := justifiedEpochs + {e};
          justifiedBlocks := justifiedBlocks[e := h];
          lastJustified := Some((e, h));
          if e - 1 in justifiedEpochs && e - 1 !in finalizedEpochs {
            finalizedEpochs := finalizedEpochs + {e - 1};
            lastFinalized := Some((e - 1, if e - 1 in justifiedBlocks then justifiedBlocks[e - 1] else ""));
          }
        }
      }
    }
  }

  // ---------------------------------------------------------------- Casper

  datatype Casper = Casper(
    votes: map<int, Tally>,
    total: nat,
    justified: set<int>,
    blocks: map<int, BlockHash>,
    finalized: set<int>)

  const CASPER := Casper(map[], 0, {}, map[], {})

  /** Finalise on every vote that finds its epoch over the threshold. */
  function CasperEvaluated(s: Casper, e: int): Casper {
    var best := Supermajority(s.votes, e, s.total);
    if best.None? then s
    else
      var j := if e in s.justified then s else s.(justified := s.justified + {e}, blocks := s.blocks[e := best.value]);
      if e - 1 in j.justified && e - 1 !in j.finalized then j.(finalized := j.finalized + {e - 1}) else j
  }

  function CasperVote(s: Casper, e: int, h: BlockHash, weight: int): Casper {
    CasperEvaluated(s.(votes := Voted(s.votes, e, h, weight)), e)
  }

  class CasperFinality {
    var epochVotes: map<int, Tally>
    var totalStake: nat
    var justifiedEpochs: set<int>
    var justifiedBlocks: map<int, BlockHash>
    var finalizedEpochs: set<int>

    ghost function View(): Casper
      reads this
    {
      Casper(epochVotes, totalStake, justifiedEpochs, justifiedBlocks, finalizedEpochs)
    }

    constructor ()
      ensures View() == CASPER
    {
      epochVotes, totalStake, justifiedEpochs, justifiedBlocks, finalizedEpochs := map[], 0, {}, map[], {};
    }

    method SetTotalStake(total: nat)
      modifies this`totalStake
      ensures View() == old(View()).(total := total)
    {
      totalStake := total;
    }

    method AddVote(e: int, h: BlockHash, weight: int)
      modifies this
      ensures View() == CasperVote(old(View()), e, h, weight)
    {
      if e !in epochVotes { epochVotes := epochVotes[e := []]; }
      epochVotes := epochVotes[e := Accumulated(epochVotes[e], h, weight)];
      assert epochVotes == Voted(old(epochVotes), e, h, weight);
      Evaluate(e);
    }

    method Evaluate(e: int)
      modifies this
      ensures View() == CasperEvaluated(old(View()), e)
    {
      if e !in epochVotes || epochVotes[e] == [] { return; }
      var (h, weight) := Best(epochVotes[e]);
      if weight >= Threshold(totalStake) {
        if e !in justifiedEpochs {
          justifiedEpochs := justifiedEpochs + {e};
          justifiedBlocks := justifiedBlocks[e := h];
        }
        if e - 1 in justifiedEpochs && e - 1 !in finalizedEpochs {
          finalizedEpochs := finalizedEpochs + {e - 1};
        }
      }
    }
  }

  // ---------------------------------------------------------------- both gadgets on one run

  datatype Event = SetStake(total: nat) | Vote(epoch: int, hash: BlockHash, weight: int)

  function BeaconStep(s: Beacon, ev: Event): Beacon {
    match ev
    case SetStake(total) => s.(total := total)
    case Vote(e, h, weight) => BeaconVote(s, e, h, weight)
  }

  function CasperStep(s: Casper, ev: Event): Casper {
    match ev
    case SetStake(total) => s.(total := total)
    case Vote(e, h, weight) => CasperVote(s, e, h, weight)
  }

  function RunBeacon(es: seq<Event>): Beacon {
    if es == [] then BEACON else BeaconStep(RunBeacon(es[..|es| - 1]), es[|es| - 1])
  }

  function RunCasper(es: seq<Event>): Casper {
    if es == [] then CASPER else CasperStep(RunCasper(es[..|es| - 1]), es[|es| - 1])
  }

  // ---------------------------------------------------------------- what the events alone say

  /** All votes cast, by epoch. */
  ghost function Cast(es: seq<Event>): map<int, Tally> {
    if es == [] then map[]
    else
      var (init, ev) := (es[..|es| - 1], es[|es| - 1]);
      if ev.Vote? then Voted(Cast(init), ev.epoch, ev.hash, ev.weight) else Cast(init)
  }

  /** The total stake last set. */
  ghost function StakeSet(es: seq<Event>): nat {
    if es == [] then 0
    else if es[|es| - 1].SetStake? then es[|es| - 1].total
    else StakeSet(es[..|es| - 1])
  }

  /** Event `i` is a vote in epoch `e` that finds the epoch over the threshold. */
  ghost predicate Crossing(es: seq<Event>, i: int, e: int) {
    && 0 <= i < |es| && es[i].Vote? && es[i].epoch == e
    && Supermajority(Cast(es[..i + 1]), e, StakeSet(es[..i + 1])).Some?
  }

  ghost predicate Crossed(es: seq<Event>, e: int) { exists i :: Crossing(es, i, e) }

  /** Epoch `e` is first justified by event `i`. */
  ghost predicate First(es: seq<Event>, i: int, e: int) {
    Crossing(es, i, e) && forall k | Crossing(es, k, e) :: i <= k
  }

  /** The last event does not change which earlier ones were crossings. */
  lemma CrossingsKept(es: seq<Event>, e: int)
    requires es != []
    ensures forall i | i < |es| - 1 :: Crossing(es, i, e) <==> Crossing(es[..|es| - 1], i, e)
  {
    hide Cast, StakeSet, Supermajority;
    forall i | i < |es| - 1 ensures Crossing(es, i, e) <==> Crossing(es[..|es| - 1], i, e) {
      if 0 <= i { assert es[..|es| - 1][..i + 1] == es[..i + 1]; }
    }
  }

  lemma FirstKept(es: seq<Event>, i: int, e: int)
    requires es != [] && i < |es| - 1
    ensures First(es, i, e) <==> First(es[..|es| - 1], i, e)
  {
    hide Crossing;
    var init := es[..|es| - 1];
    CrossingsKept(es, e);
    CrossingInside(init, e);
    if First(es, i, e) {
      forall k | Crossing(init, k, e) ensures i <= k { assert Crossing(es, k, e); }
    }
    if First(init, i, e) {
      forall k | Crossing(es, k, e) ensures i <= k {
        if k < |es| - 1 { assert Crossing(init, k, e); }
      }
    }
  }

  lemma NewFirst(es: seq<Event>, e: int)
    requires es != []
    ensures First(es, |es| - 1, e) <==> Crossing(es, |es| - 1, e) && !Crossed(es[..|es| - 1], e)
  {
    hide Crossing;
    var init := es[..|es| - 1];
    CrossingsKept(es, e);
    CrossingInside(init, e);
    forall k | Crossing(init, k, e) ensures Crossing(es, k, e) && k < |es| - 1 {}
    forall k | Crossing(es, k, e) && k < |es| - 1 ensures Crossing(init, k, e) {}
  }

  /** A justified epoch has a first over-threshold vote. */
  lemma {:induction false} HasFirst(es: seq<Event>, i: int, e: int) returns (k: int)
    requires Crossing(es, i, e)
    ensures First(es, k, e) && k <= i
    decreases i
  {
    if j :| 0 <= j < i && Crossing(es, j, e) { k := HasFirst(es, j, e); } else { k := i; }
  }

  /** The two gadgets agree on votes, stake and justification at every point of a run. */
  lemma {:induction false} SameJustification(es: seq<Event>)
    ensures var (b, c) := (RunBeacon(es), RunCasper(es));
            b.votes == c.votes && b.total == c.total && b.justified == c.justified && b.blocks == c.blocks
  {
    if es != [] { SameJustification(es[..|es| - 1]); }
  }

  lemma {:induction false} RunTally(es: seq<Event>)
    ensures RunCasper(es).votes == Cast(es) && RunCasper(es).total == StakeSet(es)
  {
    if es != [] { RunTally(es[..|es| - 1]); }
  }

  lemma LastEvent(es: seq<Event>)
    requires es != []
    ensures RunCasper(es) == CasperStep(RunCasper(es[..|es| - 1]), es[|es| - 1])
    ensures RunBeacon(es) == BeaconStep(RunBeacon(es[..|es| - 1]), es[|es| - 1])
  {
    hide CasperStep, BeaconStep;
  }

  /** Event `ev` is a vote in epoch `e`, which these votes and stake put over the threshold. */
  ghost predicate Over(votes: map<int, Tally>, total: nat, ev: Event, e: int) {
    ev.Vote? && ev.epoch == e && Supermajority(votes, e, total).Some?
  }

  lemma CasperStepEffect(s: Casper, ev: Event, e: int)
    ensures var s' := CasperStep(s, ev);
            && (e in s'.justified <==> e in s.justified || Over(s'.votes, s'.total, ev, e))
            && (e in s'.finalized <==> e in s.finalized || (Over(s'.votes, s'.total, ev, e + 1) && e in s.justified))
  {
    hide Supermajority, Voted;
  }

  lemma BeaconStepEffect(s: Beacon, ev: Event, e: int)
    ensures var s' := BeaconStep(s, ev);
            e in s'.finalized <==>
            e in s.finalized || (Over(s'.votes, s'.total, ev, e + 1) && e + 1 !in s.justified && e in s.justified)
  {
    hide Supermajority, Voted;
  }

  lemma LastCrossing(es: seq<Event>, e: int)
    requires es != []
    ensures Crossing(es, |es| - 1, e) <==> Over(RunCasper(es).votes, RunCasper(es).total, es[|es| - 1], e)
  {
    hide RunCasper, Cast, StakeSet, Supermajority;
    RunTally(es);
    assert es[..|es|] == es;
  }

  /** What the last event of a run adds to the marks of epoch `e`; for Beacon only a first over-threshold vote counts. */
  lemma LastAdds(es: seq<Event>, e: int)
    requires es != []
    ensures var (init, n) := (es[..|es| - 1], |es| - 1);
            var (s, s', b, b') := (RunCasper(init), RunCasper(es), RunBeacon(init), RunBeacon(es));
            && (e in s'.justified <==> e in s.justified || Crossing(es, n, e))
            && (e in s'.finalized <==> e in s.finalized || (Crossing(es, n, e + 1) && e in s.justified))
            && (e in b'.finalized <==>
                  e in b.finalized || (Crossing(es, n, e + 1) && e + 1 !in s.justified && e in s.justified))
  {
    hide RunCasper, RunBeacon, CasperStep, BeaconStep, Crossing, Over;
    var init := es[..|es| - 1];
    LastEvent(es);
    SameJustification(init);
    SameJustification(es);
    LastCrossing(es, e);
    LastCrossing(es, e + 1);
    CasperStepEffect(RunCasper(init), es[|es| - 1], e);
    BeaconStepEffect(RunBeacon(init), es[|es| - 1], e);
  }

  /** An epoch is justified exactly when some vote in it found it over the threshold. */
  lemma {:induction false} JustifiedExactly(es: seq<Event>, e: int)
    ensures e in RunCasper(es).justified <==> Crossed(es, e)
  {
    hide RunCasper, Crossing;
    if es == [] {
      NothingYet(e);
    } else {
      var init := es[..|es| - 1];
      JustifiedExactly(init, e);
      LastAdds(es, e);
      CrossingsKept(es, e);
      CrossingInside(es, e);
      CrossingInside(init, e);
      if Crossed(init, e) {
        var i :| Crossing(init, i, e);
        assert Crossing(es, i, e);
      }
      if Crossed(es, e) {
        var i :| Crossing(es, i, e);
        if i < |es| - 1 { assert Crossing(init, i, e); }
      }
    }
  }

  lemma BestIsFirst(t: Tally) returns (k: nat)
    requires t != []
    ensures FirstBest(t, k) && t[k] == Best(t)
  {
    var b := Best(t);
    k := FirstOf(t, b);
  }

  lemma FirstOf(t: Tally, b: (BlockHash, int)) returns (k: nat)
    requires IsBest(t, b)
    ensures FirstBest(t, k) && t[k] == b
  {
    k :| FirstBest(t, k) && t[k] == b;
  }

  lemma BestReaches(t: Tally, q: int)
    requires t != []
    ensures Best(t).1 >= q <==> Reaches(t, q)
  {
    hide Best;
    var k := BestIsFirst(t);
  }

  /** Some entry of the tally weighs at least `q`. */
  ghost predicate Reaches(t: Tally, q: int) { exists k :: 0 <= k < |t| && t[k].1 >= q }

  /** `h` is the block of the first entry of greatest weight. */
  ghost predicate Leads(t: Tally, h: BlockHash) { exists k: nat :: FirstBest(t, k) && t[k].0 == h }

  lemma BestLeads(t: Tally)
    requires t != []
    ensures Leads(t, Best(t).0)
  {
    hide Best, FirstBest;
    var k := BestIsFirst(t);
  }

  /**
   * The block that carries an epoch: the tally is over the threshold exactly when some entry of it is, and
   * then the block is the first of greatest weight.
   */
  lemma SupermajorityIff(votes: map<int, Tally>, e: int, total: nat)
    ensures Supermajority(votes, e, total).Some? <==> Reaches(Row(votes, e), Threshold(total))
    ensures Supermajority(votes, e, total).Some? ==> Leads(Row(votes, e), Supermajority(votes, e, total).value)
  {
    hide Best, Threshold, Leads;
    if Row(votes, e) != [] {
      hide Reaches;
      BestReaches(votes[e], Threshold(total));
      BestLeads(votes[e]);
    }
  }

  lemma CasperStepBlock(s: Casper, ev: Event, e: int)
    requires s.justified == s.blocks.Keys
    ensures var s' := CasperStep(s, ev);
            && s'.justified == s'.blocks.Keys
            && (e in s.blocks ==> e in s'.blocks && s'.blocks[e] == s.blocks[e])
            && (e in s'.blocks && e !in s.blocks ==>
                  Over(s'.votes, s'.total, ev, e) && s'.blocks[e] == Supermajority(s'.votes, e, s'.total).value)
  {
    hide Supermajority, Voted;
  }

  lemma {:induction false} BlocksAreJustified(es: seq<Event>)
    ensures RunCasper(es).justified == RunCasper(es).blocks.Keys
  {
    if es != [] {
      hide CasperStep;
      BlocksAreJustified(es[..|es| - 1]);
      CasperStepBlock(RunCasper(es[..|es| - 1]), es[|es| - 1], 0);
    }
  }

  /** The block justified for an epoch is the one that carried its first over-threshold vote, for ever. */
  lemma {:induction false} JustifiedBlock(es: seq<Event>, i: int, e: int)
    requires First(es, i, e)
    ensures e in RunCasper(es).blocks
    ensures Some(RunCasper(es).blocks[e]) == Supermajority(Cast(es[..i + 1]), e, StakeSet(es[..i + 1]))
  {
    hide RunCasper, CasperStep, Supermajority, Cast, StakeSet;
    var (init, n) := (es[..|es| - 1], |es| - 1);
    BlocksAreJustified(init);
    BlocksAreJustified(es);
    LastEvent(es);
    CasperStepBlock(RunCasper(init), es[n], e);
    JustifiedExactly(init, e);
    JustifiedExactly(es, e);
    if i < n {
      FirstKept(es, i, e);
      JustifiedBlock(init, i, e);
      assert init[..i + 1] == es[..i + 1];
    } else {
      NewFirst(es, e);
      RunTally(es);
      assert es[..i + 1] == es;
    }
  }

  /** Beacon's marks of what it justified and finalised last name an epoch it did, with that epoch's block. */
  ghost predicate LastMarks(s: Beacon) {
    && s.justified == s.blocks.Keys
    && (s.lastJustified.None? <==> s.justified == {}) && (s.lastFinalized.None? <==> s.finalized == {})
    && (s.lastJustified.Some? ==> var (e, h) := s.lastJustified.value; e in s.blocks && s.blocks[e] == h)
    && (s.lastFinalized.Some? ==> var (e, h) := s.lastFinalized.value; e in s.finalized && e in s.blocks && s.blocks[e] == h)
  }

  /** A vote that justifies moves the mark to its own epoch, and one that finalises to the epoch before. */
  lemma LastMarksMove(s: Beacon, ev: Event)
    requires LastMarks(s)
    ensures var s' := BeaconStep(s, ev);
            && LastMarks(s')
            && (s'.justified != s.justified ==> ev.Vote? && s'.lastJustified == Some((ev.epoch, s'.blocks[ev.epoch])))
            && (s'.justified == s.justified ==> s'.lastJustified == s.lastJustified)
            && (s'.finalized != s.finalized ==> ev.Vote? && s'.lastFinalized.Some? && s'.lastFinalized.value.0 == ev.epoch - 1)
            && (s'.finalized == s.finalized ==> s'.lastFinalized == s.lastFinalized)
  {
    hide Supermajority, Voted;
  }

  lemma {:induction false} LastMarksHold(es: seq<Event>)
    ensures LastMarks(RunBeacon(es))
  {
    if es != [] {
      hide BeaconStep, LastMarks;
      LastMarksHold(es[..|es| - 1]);
      LastMarksMove(RunBeacon(es[..|es| - 1]), es[|es| - 1]);
    }
  }

  lemma NothingYet(e: int)
    ensures e !in RunCasper([]).justified && e !in RunCasper([]).finalized && e !in RunBeacon([]).finalized
    ensures !Crossed([], e)
  {
  }

  lemma CrossingInside(es: seq<Event>, e: int)
    ensures forall i | Crossing(es, i, e) :: 0 <= i < |es|
  {
  }

  /** Over-threshold votes in `e` and then in `next`. */
  ghost predicate Sealed(es: seq<Event>, e: int, next: int) {
    exists j, k :: j < k && Crossing(es, j, e) && Crossing(es, k, next)
  }

  /** Both epochs are justified, and `e` first. */
  ghost predicate SealedAtOnce(es: seq<Event>, e: int, next: int) {
    exists j, k :: j < k && First(es, j, e) && First(es, k, next)
  }

  /** Casper finalises an epoch exactly when a vote in its successor finds the successor over the threshold after the epoch was justified. */
  lemma {:induction false} CasperFinalizedExactly(es: seq<Event>, e: int)
    ensures e in RunCasper(es).finalized <==> Sealed(es, e, e + 1)
  {
    hide RunCasper, Crossing;
    CrossingInside(es, e);
    CrossingInside(es, e + 1);
    if es == [] {
      NothingYet(e);
    } else {
      var (init, n) := (es[..|es| - 1], |es| - 1);
      CasperFinalizedExactly(init, e);
      JustifiedExactly(init, e);
      LastAdds(es, e);
      CrossingInside(init, e);
      CrossingInside(init, e + 1);
      CrossingsKept(es, e);
      CrossingsKept(es, e + 1);
      if Sealed(init, e, e + 1) {
        var j, k :| j < k && Crossing(init, j, e) && Crossing(init, k, e + 1);
        assert Crossing(es, j, e) && Crossing(es, k, e + 1);
      }
      if Crossing(es, n, e + 1) && Crossed(init, e) {
        var j :| Crossing(init, j, e);
        assert Crossing(es, j, e);
      }
      if Sealed(es, e, e + 1) {
        var j, k :| j < k && Crossing(es, j, e) && Crossing(es, k, e + 1);
        assert Crossing(init, j, e);
        if k < n { assert Crossing(init, k, e + 1); }
      }
    }
  }

  /** Beacon finalises exactly the epochs first justified before their successor. */
  lemma {:induction false} BeaconFinalizedExactly(es: seq<Event>, e: int)
    ensures e in RunBeacon(es).finalized <==> SealedAtOnce(es, e, e + 1)
  {
    hide RunCasper, RunBeacon, Crossing;
    CrossingInside(es, e);
    CrossingInside(es, e + 1);
    if es == [] {
      NothingYet(e);
    } else {
      var (init, n) := (es[..|es| - 1], |es| - 1);
      BeaconFinalizedExactly(init, e);
      JustifiedExactly(init, e);
      JustifiedExactly(init, e + 1);
      SameJustification(init);
      LastAdds(es, e);
      CrossingInside(init, e);
      CrossingInside(init, e + 1);
      CrossingsKept(es, e);
      CrossingsKept(es, e + 1);
      if SealedAtOnce(init, e, e + 1) {
        var j, k :| j < k && First(init, j, e) && First(init, k, e + 1);
        FirstKept(es, j, e);
        FirstKept(es, k, e + 1);
        assert First(es, j, e) && First(es, k, e + 1);
      }
      if Crossing(es, n, e + 1) && !Crossed(init, e + 1) && Crossed(init, e) {
        var i :| Crossing(init, i, e);
        var j := HasFirst(init, i, e);
        FirstKept(es, j, e);
        NewFirst(es, e + 1);
        assert First(es, j, e) && First(es, n, e + 1);
      }
      if SealedAtOnce(es, e, e + 1) {
        var j, k :| j < k && First(es, j, e) && First(es, k, e + 1);
        FirstKept(es, j, e);
        if k < n {
          FirstKept(es, k, e + 1);
        } else {
          NewFirst(es, e + 1);
        }
      }
    }
  }

  /** Refinement: Beacon's finality is contained in Casper's, and both need two consecutive justified epochs. */
  lemma {:induction false} FinalityRefinement(es: seq<Event>)
    ensures RunBeacon(es).finalized <= RunCasper(es).finalized
    ensures forall e | e in RunCasper(es).finalized :: e in RunCasper(es).justified && e + 1 in RunCasper(es).justified
  {
    if es != [] {
      FinalityRefinement(es[..|es| - 1]);
      SameJustification(es[..|es| - 1]);
    }
  }

  /** Epoch `e` is first justified after its successor, and a later vote in the successor is over the threshold again. */
  ghost predicate SealedLate(es: seq<Event>, e: int) { LateBetween(es, e, e + 1) }

  ghost predicate LateBetween(es: seq<Event>, e: int, next: int) {
    exists i, j, k :: i < j < k && First(es, i, next) && First(es, j, e) && Crossing(es, k, next)
  }

  /** Casper finalises beyond Beacon exactly the epochs sealed late. */
  lemma CasperBeyondBeacon(es: seq<Event>, e: int)
    ensures e in RunCasper(es).finalized && e !in RunBeacon(es).finalized <==> SealedLate(es, e)
  {
    hide RunCasper, RunBeacon, Crossing;
    CasperFinalizedExactly(es, e);
    BeaconFinalizedExactly(es, e);
    CrossingOnce(es, e);
    if Sealed(es, e, e + 1) {
      var m, k :| m < k && Crossing(es, m, e) && Crossing(es, k, e + 1);
      var j := HasFirst(es, m, e);
      var i := HasFirst(es, k, e + 1);
      assert i != j;
      assert i < j ==> SealedLate(es, e);
      assert j < i ==> SealedAtOnce(es, e, e + 1);
    }
  }

  lemma CrossingOnce(es: seq<Event>, e: int)
    ensures forall i | Crossing(es, i, e) :: !Crossing(es, i, e + 1)
  {
  }

  /** The two gadgets finalise the same epochs exactly when no epoch is sealed late. */
  lemma FinalityAgreesIff(es: seq<Event>)
    ensures RunBeacon(es).finalized == RunCasper(es).finalized <==> forall e :: !SealedLate(es, e)
  {
    hide RunCasper, RunBeacon, SealedLate;
    FinalityRefinement(es);
    forall e ensures e in RunCasper(es).finalized && e !in RunBeacon(es).finalized <==> SealedLate(es, e) {
      CasperBeyondBeacon(es, e);
    }
    if forall e :: !SealedLate(es, e) {
      forall e | e in RunCasper(es).finalized ensures e in RunBeacon(es).finalized {
        assert !SealedLate(es, e);
      }
    }
  }

  /** Epochs are first justified in increasing order. */
  ghost predicate InOrder(es: seq<Event>) {
    forall d, e, i, k | d < e && First(es, i, d) && First(es, k, e) :: i < k
  }

  /** Then both sets are exactly the epochs justified with their successor. */
  lemma InOrderFinalityAgrees(es: seq<Event>)
    requires InOrder(es)
    ensures RunBeacon(es).finalized == RunCasper(es).finalized
    ensures forall e :: e in RunBeacon(es).finalized <==> e in RunBeacon(es).justified && e + 1 in RunBeacon(es).justified
  {
    hide RunCasper, RunBeacon, Crossing;
    SameJustification(es);
    FinalityAgreesIff(es);
    FinalityRefinement(es);
    forall e | e in RunCasper(es).justified && e + 1 in RunCasper(es).justified ensures e in RunBeacon(es).finalized {
      JustifiedExactly(es, e);
      JustifiedExactly(es, e + 1);
      var i :| Crossing(es, i, e);
      var k :| Crossing(es, k, e + 1);
      var i0 := HasFirst(es, i, e);
      var k0 := HasFirst(es, k, e + 1);
      BeaconFinalizedExactly(es, e);
    }
  }

  /** Out of order they differ: epoch 1 justified first, then epoch 0, then one more vote in epoch 1. */
  lemma OutOfOrderDiffers(a: BlockHash, b: BlockHash)
    ensures var es := [SetStake(3), Vote(1, a, 2), Vote(0, b, 2), Vote(1, a, 1)];
            RunBeacon(es).finalized == {} && RunCasper(es).finalized == {0}
  {
    var es := [SetStake(3), Vote(1, a, 2), Vote(0, b, 2), Vote(1, a, 1)];
    assert es[..3] == [SetStake(3), Vote(1, a, 2), Vote(0, b, 2)];
    assert es[..3][..2] == [SetStake(3), Vote(1, a, 2)];
    assert es[..3][..2][..1] == [SetStake(3)] && [SetStake(3)][..0] == [];
    var c1 := RunCasper(es[..3][..2][..1]);
    var c2 := RunCasper(es[..3][..2]);
    assert c2 == CasperVote(c1, 1, a, 2) && c2.votes == map[1 := [(a, 2)]] && c2.justified == {1};
    var c3 := RunCasper(es[..3]);
    assert c3 == CasperVote(c2, 0, b, 2) && c3.votes[0] == [(b, 2)] && c3.votes[1] == [(a, 2)] && c3.justified == {0, 1};
    SameJustification(es[..3][..2]);
    SameJustification(es[..3]);
  }
}
