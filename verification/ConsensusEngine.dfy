/** The composed LMD-GHOST engine with slashing (consensus/engine_slashing.py). */
module ConsensusEngine {
  import opened Collections
  import opened Ghost
  import opened Lmd
  import opened Slashing

  datatype Block = Block(hash: Hash, parent: Option<Hash>, number: int)

  // ---------------------------------------------------------------- the forest

  /** `add_block`: record the node (or upgrade a parent stub), then hang it under its parent. */
  function AddBlock(t: Tree, b: Block): Tree {
    var placed :=
      if b.hash !in t then t[b.hash := Node(b.parent, [], b.number)]
      else
        var n := t[b.hash];
        t[b.hash := n.(parent := if n.parent.None? then b.parent else n.parent, number := b.number)];
    if b.parent.None? then placed
    else
      var p := b.parent.value;
      var stubbed := if p in placed then placed else placed[p := Node(None, [], 0)];
      if b.hash in stubbed[p].children then stubbed
      else stubbed[p := stubbed[p].(children := stubbed[p].children + [b.hash])]
  }

  /** A block hash determines its parent and number. */
  ghost predicate Consistent(blocks: set<Block>) {
    forall a, b | a in blocks && b in blocks && a.hash == b.hash :: a == b
  }

  /** `rank` shrinks from every parent to its child: no cycle among the received blocks. */
  ghost predicate BlocksRanked(blocks: set<Block>, rank: Hash -> nat) {
    forall b | b in blocks && b.parent.Some? :: rank(b.hash) < rank(b.parent.value)
  }

  ghost predicate Received(blocks: set<Block>, h: Hash) { exists b :: b in blocks && b.hash == h }

  ghost predicate IsParent(blocks: set<Block>, h: Hash) { exists b :: b in blocks && b.parent == Some(h) }

  ghost predicate IsChild(blocks: set<Block>, p: Hash, c: Hash) {
    exists b :: b in blocks && b.hash == c && b.parent == Some(p)
  }

  /**
   * What the forest must be once exactly `blocks` have arrived: a node per block and per parent,
   * stubs where only a child was seen, and every child listed once.
   */
  ghost predicate Describes(t: Tree, blocks: set<Block>) {
    && (forall h :: h in t <==> Received(blocks, h) || IsParent(blocks, h))
    && (forall b | b in blocks :: b.hash in t && t[b.hash].parent == b.parent && t[b.hash].number == b.number)
    && (forall h | h in t && !Received(blocks, h) :: t[h].parent == None && t[h].number == 0)
    && (forall h | h in t :: NoDup(t[h].children))
    && (forall h, c | h in t :: c in t[h].children <==> IsChild(blocks, h, c))
  }

  lemma AddBlockKeys(t: Tree, blocks: set<Block>, b: Block, h: Hash)
    requires Describes(t, blocks) && Consistent(blocks + {b})
    ensures h in AddBlock(t, b) <==> Received(blocks + {b}, h) || IsParent(blocks + {b}, h)
    ensures h in AddBlock(t, b) && !Received(blocks + {b}, h) ==>
              AddBlock(t, b)[h].parent == None && AddBlock(t, b)[h].number == 0
  {
  }

  lemma AddBlockData(t: Tree, blocks: set<Block>, b: Block, x: Block)
    requires Describes(t, blocks) && Consistent(blocks + {b}) && x in blocks + {b}
    ensures var t' := AddBlock(t, b);
            x.hash in t' && t'[x.hash].parent == x.parent && t'[x.hash].number == x.number
  {
  }

  lemma AddBlockChildren(t: Tree, blocks: set<Block>, b: Block, h: Hash)
    requires Describes(t, blocks) && Consistent(blocks + {b}) && h in AddBlock(t, b)
    ensures NoDup(AddBlock(t, b)[h].children)
    ensures forall c :: c in AddBlock(t, b)[h].children <==> IsChild(blocks + {b}, h, c)
  {
  }

  lemma AddBlockDescribes(t: Tree, blocks: set<Block>, b: Block)
    requires Describes(t, blocks) && Consistent(blocks + {b})
    ensures Describes(AddBlock(t, b), blocks + {b})
  {
    forall h { AddBlockKeys(t, blocks, b, h); }
    forall x | x in blocks + {b} { AddBlockData(t, blocks, b, x); }
    forall h | h in AddBlock(t, b) { AddBlockChildren(t, blocks, b, h); }
  }

  /** The forest is a function of the set of received blocks, up to the order of child lists. */
  lemma DescribesDetermines(t: Tree, u: Tree, blocks: set<Block>)
    requires Describes(t, blocks) && Describes(u, blocks)
    ensures Agree(t, u)
  {
  }

  lemma DescribesWellFormed(t: Tree, blocks: set<Block>, rank: Hash -> nat)
    requires Describes(t, blocks) && BlocksRanked(blocks, rank)
    ensures WellFormed(t) && Ranked(t, rank)
  {
  }

  // ---------------------------------------------------------------- the engine

  datatype Event = Arrive(block: Block) | Attest(validator: Validator, hash: Hash, slot: int)

  datatype State = State(tree: Tree, latest: Votes, stakes: Stakes, record: Record)

  /** `on_attestation`: slashing check first, then the vote table. */
  function Attested(s: State, v: Validator, hash: Hash, slot: int): (State, bool) {
    var (record, ok) := s.record.Vote(v, slot, hash);
    if !ok then (s.(record := record), false)
    else if v in record.slashed || Stake(s.stakes, v) == 0 then (s.(record := record), true)
    else (s.(record := record, latest := Updated(s.latest, s.stakes, v, Lmd.Vote(hash, slot))), true)
  }

  function Step(s: State, e: Event): State {
    match e
    case Arrive(b) => s.(tree := AddBlock(s.tree, b))
    case Attest(v, hash, slot) => Attested(s, v, hash, slot).0
  }

  function Initial(stakes: Stakes): State { State(map[], map[], stakes, EMPTY) }

  function Execute(stakes: Stakes, es: seq<Event>): State {
    if es == [] then Initial(stakes) else Step(Execute(stakes, es[..|es| - 1]), es[|es| - 1])
  }

  class Engine {
    const lmd: LmdTable
    const slashing: SlashingEngine
    var blockTree: Tree

    ghost predicate Valid()
      reads this, lmd, slashing
    {
      lmd.validatorStake == slashing.stakes
    }

    ghost function View(): State
      reads this, lmd, slashing
    {
      State(blockTree, lmd.latestVote, lmd.validatorStake, slashing.Recorded())
    }

    constructor ()
      ensures Valid() && View() == Initial(map[]) && fresh(lmd) && fresh(slashing)
    {
      lmd := new LmdTable();
      slashing := new SlashingEngine();
      blockTree := map[];
    }

    /** Registers one stake with both sub-engines, or with neither. */
    method AddValidator(v: Validator, stake: int) returns (ok: bool)
      requires Valid()
      modifies lmd, slashing
      ensures Valid() && ok == (stake > 0)
      ensures View() == if ok then old(View()).(stakes := old(View()).stakes[v := stake]) else old(View())
    {
      if stake <= 0 { return false; }
      ok := lmd.AddValidator(v, stake);
      var registered := slashing.RegisterValidator(v, stake);
    }

    method OnBlock(b: Block)
      requires Valid()
      modifies this`blockTree
      ensures Valid() && View() == Step(old(View()), Arrive(b))
    {
      if b.hash !in blockTree {
        blockTree := blockTree[b.hash := Node(b.parent, [], b.number)];
      } else {
        var node := blockTree[b.hash];
        if node.parent.None? && b.parent.Some? {
          node := node.(parent := b.parent);
        }
        blockTree := blockTree[b.hash := node.(number := b.number)];
      }
      if b.parent.Some? {
        var p := b.parent.value;
        if p !in blockTree {
          blockTree := blockTree[p := Node(None, [], 0)];
        }
        if b.hash !in blockTree[p].children {
          blockTree := blockTree[p := blockTree[p].(children := blockTree[p].children + [b.hash])];
        }
      }
    }

    method OnAttestation(v: Validator, hash: Hash, slot: int) returns (accepted: bool)
      requires Valid()
      modifies lmd, slashing
      ensures Valid() && (View(), accepted) == Attested(old(View()), v, hash, slot)
    {
      accepted := slashing.AddVote(v, slot, hash);
      if !accepted { return; }
      var stake := slashing.GetStake(v);
      if stake > 0 {
        var changed := lmd.Update(v, hash, slot);
      }
    }

    method GetHead(ghost rank: Hash -> nat) returns (head: Option<Hash>)
      requires Valid() && Ranked(blockTree, rank)
      ensures HeadOf(View(), rank, head)
    {
      var weights := lmd.GetWeights();
      head := SelectHead(blockTree, weights, rank);
    }
  }

  /** `head` is what fork choice answers in state `s`. */
  ghost predicate HeadOf(s: State, rank: Hash -> nat, head: Option<Hash>)
    requires Ranked(s.tree, rank)
  {
    exists w :: WeightsFrom(w, s.latest, s.stakes) && IsHead(s.tree, w, rank, head)
  }

  // ---------------------------------------------------------------- convergence

  ghost function BlocksOf(es: seq<Event>): set<Block> {
    set e | e in es && e.Arrive? :: e.block
  }

  /** No validator with stake attests two different hashes in one slot. */
  ghost predicate Honest(stakes: Stakes, es: seq<Event>) {
    forall a, b | a in es && b in es :: !Equivocates(stakes, a, b)
  }

  /** Two ballots of one validator with stake for one slot, with different hashes. */
  ghost predicate Equivocates(stakes: Stakes, a: Event, b: Event) {
    && a.Attest? && b.Attest? && a.validator == b.validator && a.slot == b.slot && a.hash != b.hash
    && Stake(stakes, a.validator) > 0
  }

  /** The two runs deliver the same events, in any order and any number of times. */
  ghost predicate SameEvents(es: seq<Event>, fs: seq<Event>) { forall e :: e in es <==> e in fs }

  /** The vote table depends on the events seen only as a set, and nobody with stake is slashed. */
  ghost predicate Summarises(s: State, stakes: Stakes, es: seq<Event>) {
    && s.stakes == stakes
    && (forall v | v in s.record.slashed :: Stake(stakes, v) == 0)
    && (forall v, slot | Stake(stakes, v) > 0 && s.record.Ballot(v, slot).Some? ::
          Attest(v, s.record.Ballot(v, slot).value, slot) in es)
    && (forall v | v in s.latest :: Stake(stakes, v) > 0 && Attest(v, s.latest[v].hash, s.latest[v].slot) in es)
    && (forall e | e in es && e.Attest? && Stake(stakes, e.validator) > 0 ::
          e.validator in s.latest && e.slot <= s.latest[e.validator].slot)
  }

  lemma {:induction false} ExecuteDescribes(stakes: Stakes, es: seq<Event>)
    requires Consistent(BlocksOf(es))
    ensures Describes(Execute(stakes, es).tree, BlocksOf(es))
  {
    if es != [] {
      var (init, e) := (es[..|es| - 1], es[|es| - 1]);
      assert forall x :: x in es <==> x in init || x == e;
      if e.Arrive? {
        assert BlocksOf(es) == BlocksOf(init) + {e.block};
      } else {
        assert BlocksOf(es) == BlocksOf(init);
      }
      hide Describes, AddBlock;
      ExecuteDescribes(stakes, init);
      if e.Arrive? { AddBlockDescribes(Execute(stakes, init).tree, BlocksOf(init), e.block); }
    }
  }

  lemma {:induction false} ExecuteSummarises(stakes: Stakes, es: seq<Event>)
    requires Honest(stakes, es)
    ensures Summarises(Execute(stakes, es), stakes, es)
  {
    if es != [] {
      var (init, e) := (es[..|es| - 1], es[|es| - 1]);
      assert es == init + [e];
      assert forall x :: x in es <==> x in init || x == e;
      ExecuteSummarises(stakes, init);
      var s := Execute(stakes, init);
      match e {
        case Arrive(b) =>
        case Attest(v, hash, slot) =>
          if Stake(stakes, v) > 0 { StakedSummarises(s, stakes, init, v, hash, slot); }
          else { UnstakedSummarises(s, stakes, init, v, hash, slot); }
      }
    }
  }

  /** An attestation that contradicts no earlier ballot of its validator. */
  lemma StakedAttest(s: State, v: Validator, hash: Hash, slot: int)
    requires Stake(s.stakes, v) > 0 && v !in s.record.slashed
    requires s.record.Ballot(v, slot).Some? ==> s.record.Ballot(v, slot) == Some(hash)
    ensures var s' := Attested(s, v, hash, slot).0;
            && s'.tree == s.tree && s'.stakes == s.stakes && s'.record.slashed == s.record.slashed
            && s'.latest == Updated(s.latest, s.stakes, v, Lmd.Vote(hash, slot))
            && forall u, k :: s'.record.Ballot(u, k) == if u == v && k == slot then Some(hash) else s.record.Ballot(u, k)
  {
  }

  /** Without stake a ballot reaches the slashing record only. */
  lemma UnstakedAttest(s: State, v: Validator, hash: Hash, slot: int)
    requires Stake(s.stakes, v) == 0
    ensures var s' := Attested(s, v, hash, slot).0;
            && s'.tree == s.tree && s'.stakes == s.stakes && s'.latest == s.latest
            && s'.record.slashed <= s.record.slashed + {v}
            && forall u, k | u != v :: s'.record.Ballot(u, k) == s.record.Ballot(u, k)
  {
  }

  lemma StakedSummarises(s: State, stakes: Stakes, es: seq<Event>, v: Validator, hash: Hash, slot: int)
    requires Summarises(s, stakes, es) && Honest(stakes, es + [Attest(v, hash, slot)]) && Stake(stakes, v) > 0
    ensures Summarises(Attested(s, v, hash, slot).0, stakes, es + [Attest(v, hash, slot)])
  {
    hide Attested;
    var e := Attest(v, hash, slot);
    var es' := es + [e];
    assert forall x :: x in es' <==> x in es || x == e;
    if s.record.Ballot(v, slot).Some? {
      var b := Attest(v, s.record.Ballot(v, slot).value, slot);
      assert b in es' && !Equivocates(stakes, b, e);
    }
    StakedAttest(s, v, hash, slot);
  }

  lemma UnstakedSummarises(s: State, stakes: Stakes, es: seq<Event>, v: Validator, hash: Hash, slot: int)
    requires Summarises(s, stakes, es) && Stake(stakes, v) == 0
    ensures Summarises(Attested(s, v, hash, slot).0, stakes, es + [Attest(v, hash, slot)])
  {
    hide Attested;
    var e := Attest(v, hash, slot);
    assert forall x :: x in es + [e] <==> x in es || x == e;
    UnstakedAttest(s, v, hash, slot);
  }

  /**
   * Convergence. Two engines with the same validators that receive the same set of blocks and
   * attestations, in any order and with any repetition, children before parents included, hold the
   * same forest up to child order and the same vote table, and answer the same head.
   */
  lemma Convergence(stakes: Stakes, es: seq<Event>, fs: seq<Event>, rank: Hash -> nat)
    requires SameEvents(es, fs)
    requires Consistent(BlocksOf(es)) && BlocksRanked(BlocksOf(es), rank) && Honest(stakes, es)
    ensures var (s, u) := (Execute(stakes, es), Execute(stakes, fs));
            && Agree(s.tree, u.tree) && s.latest == u.latest
            && WellFormed(s.tree) && Ranked(s.tree, rank) && Ranked(u.tree, rank)
            && forall h, k | HeadOf(s, rank, h) && HeadOf(u, rank, k) :: h == k
  {
    assert BlocksOf(es) == BlocksOf(fs);
    hide Execute, Describes, BlocksOf, Consistent, BlocksRanked, Agree, WellFormed, IsHead, WeightsFrom, SubtreeSum;
    SameVotes(stakes, es, fs);
    ExecuteDescribes(stakes, es);
    ExecuteDescribes(stakes, fs);
    var (s, u) := (Execute(stakes, es), Execute(stakes, fs));
    DescribesDetermines(s.tree, u.tree, BlocksOf(es));
    DescribesDetermines(u.tree, s.tree, BlocksOf(es));
    DescribesWellFormed(s.tree, BlocksOf(es), rank);
    DescribesWellFormed(u.tree, BlocksOf(es), rank);
    forall h, k | HeadOf(s, rank, h) && HeadOf(u, rank, k) ensures h == k {
      var w :| WeightsFrom(w, s.latest, stakes) && IsHead(s.tree, w, rank, h);
      var x :| WeightsFrom(x, u.latest, stakes) && IsHead(u.tree, x, rank, k);
      HeadAgree(u.tree, s.tree, x, rank, k);
      SameWeights(s.tree, w, x, rank, s.latest, stakes, k);
      HeadUnique(s.tree, w, rank, h, k);
    }
  }

  lemma SameVotes(stakes: Stakes, es: seq<Event>, fs: seq<Event>)
    requires SameEvents(es, fs) && Honest(stakes, es)
    ensures Execute(stakes, es).latest == Execute(stakes, fs).latest
    ensures Execute(stakes, es).stakes == Execute(stakes, fs).stakes == stakes
  {
    hide Execute;
    ExecuteSummarises(stakes, es);
    ExecuteSummarises(stakes, fs);
    var (s, u) := (Execute(stakes, es), Execute(stakes, fs));
    forall v | v in s.latest && v in u.latest ensures s.latest[v] == u.latest[v] {
      var (a, b) := (Attest(v, s.latest[v].hash, s.latest[v].slot), Attest(v, u.latest[v].hash, u.latest[v].slot));
      assert a in es && b in es && !Equivocates(stakes, a, b);
    }
  }

  /** Fork choice reads the weights only block by block. */
  lemma SameWeights(t: Tree, w: Weights, x: Weights, rank: Hash -> nat, latest: Votes, stakes: Stakes, head: Option<Hash>)
    requires Ranked(t, rank) && WellFormed(t)
    requires WeightsFrom(w, latest, stakes) && WeightsFrom(x, latest, stakes) && IsHead(t, x, rank, head)
    ensures IsHead(t, w, rank, head)
  {
    if head.Some? {
      forall b | b in t ensures SubtreeSum(t, w, rank, b) == SubtreeSum(t, x, rank, b) {
        WeightIsStakeAtOrBelow(t, w, rank, latest, stakes, b);
        WeightIsStakeAtOrBelow(t, x, rank, latest, stakes, b);
      }
      HeadKept(t, x, w, rank, head.value);
    }
  }

  // ---------------------------------------------------------------- what the answers say

  /** The ballots among the events, as the slashing engine receives them. */
  function BallotsOf(es: seq<Event>): seq<Message> {
    if es == [] then []
    else
      var init := BallotsOf(es[..|es| - 1]);
      match es[|es| - 1] case Arrive(_) => init case Attest(v, hash, slot) => init + [Ballot(v, slot, hash)]
  }

  lemma {:induction false} RecordIsRun(stakes: Stakes, es: seq<Event>)
    ensures Execute(stakes, es).record == Run(BallotsOf(es))
  {
    if es != [] {
      var (init, e) := (es[..|es| - 1], es[|es| - 1]);
      RecordIsRun(stakes, init);
      if e.Attest? {
        var ms := BallotsOf(es);
        assert ms[..|ms| - 1] == BallotsOf(init);
      }
    }
  }

  /** In every run an attestation is accepted exactly when its validator has not equivocated, this one included. */
  lemma AttestationAcceptedIff(stakes: Stakes, es: seq<Event>, v: Validator, hash: Hash, slot: int)
    ensures Attested(Execute(stakes, es), v, hash, slot).1 <==> !Equivocated(BallotsOf(es) + [Ballot(v, slot, hash)], v)
  {
    hide Execute, Equivocated, Run;
    RecordIsRun(stakes, es);
    BallotAcceptedIff(BallotsOf(es), v, slot, hash);
  }

  /** An accepted attestation of a validator with stake is its vote, unless a later one stands already. */
  lemma AcceptedIsCounted(s: State, v: Validator, hash: Hash, slot: int)
    requires Attested(s, v, hash, slot).1 && Stake(s.stakes, v) > 0
    ensures var latest := Attested(s, v, hash, slot).0.latest;
            && v in latest && latest[v] == (if v in s.latest && s.latest[v].slot >= slot then s.latest[v] else Lmd.Vote(hash, slot))
            && forall u | u != v :: (u in latest <==> u in s.latest) && (u in latest ==> latest[u] == s.latest[u])
  {
  }

  // ---------------------------------------------------------------- exactly when it converges

  lemma FrozenStep(s: State, e: Event, v: Validator)
    requires v in s.record.slashed && v in s.latest
    ensures var s' := Step(s, e); v in s'.record.slashed && v in s'.latest && s'.latest[v] == s.latest[v]
  {
  }

  /** A slashed validator's vote is frozen: no later event moves it, and the validator stays slashed. */
  lemma {:induction false} FrozenVote(stakes: Stakes, before: seq<Event>, es: seq<Event>, v: Validator)
    requires v in Execute(stakes, before).record.slashed && v in Execute(stakes, before).latest
    ensures var s := Execute(stakes, before + es);
            v in s.record.slashed && v in s.latest && s.latest[v] == Execute(stakes, before).latest[v]
  {
    if es == [] {
      assert before + es == before;
    } else {
      var (init, e) := (es[..|es| - 1], es[|es| - 1]);
      hide Step;
      FrozenVote(stakes, before, init, v);
      FrozenStep(Execute(stakes, before + init), e, v);
      assert before + es == (before + init) + [e];
      assert Execute(stakes, before + es) == Step(Execute(stakes, before + init), e);
    }
  }

  /** Two conflicting ballots delivered first: the earlier one is the vote for ever after. */
  lemma FirstBallotStays(stakes: Stakes, a: Event, b: Event, es: seq<Event>)
    requires Equivocates(stakes, a, b)
    ensures var latest := Execute(stakes, [a, b] + es).latest;
            a.validator in latest && latest[a.validator] == Lmd.Vote(a.hash, a.slot)
  {
    assert [a, b][..1] == [a] && [a][..0] == [];
    assert Execute(stakes, [a]) == Step(Initial(stakes), a);
    assert Execute(stakes, [a, b]) == Step(Execute(stakes, [a]), b);
    FrozenVote(stakes, [a, b], es, a.validator);
  }

  /**
   * Whatever else is delivered, one equivocation of a validator with stake gives two deliveries of
   * the same events that leave different vote tables.
   */
  lemma EquivocationBreaksConvergence(stakes: Stakes, es: seq<Event>, a: Event, b: Event)
    requires a in es && b in es && Equivocates(stakes, a, b)
    ensures SameEvents([a, b] + es, es) && SameEvents([b, a] + es, es)
    ensures Execute(stakes, [a, b] + es).latest != Execute(stakes, [b, a] + es).latest
  {
    FirstBallotStays(stakes, a, b, es);
    FirstBallotStays(stakes, b, a, es);
  }

  /** Every delivery of the same events leaves the same vote table exactly when no validator with stake equivocates. */
  lemma ConvergesIff(stakes: Stakes, es: seq<Event>)
    ensures (forall fs | SameEvents(fs, es) :: Execute(stakes, fs).latest == Execute(stakes, es).latest) <==> Honest(stakes, es)
  {
    hide Execute;
    if Honest(stakes, es) {
      forall fs | SameEvents(fs, es) ensures Execute(stakes, fs).latest == Execute(stakes, es).latest {
        SameVotes(stakes, es, fs);
      }
    } else {
      var a, b :| a in es && b in es && Equivocates(stakes, a, b);
      EquivocationBreaksConvergence(stakes, es, a, b);
    }
  }
}
