/**
 * The finalised floor and what it protects: the ledger, the finality engine fed by accepted blocks,
 * and reorgs gated by the floor (consensus/adapter.py, core/blockchain.py, finality_engine.py).
 */
module FinalizedPrefix {
  import opened Collections
  import L = Ledger
  import F = FinalityEngine

  // ---------------------------------------------------------------- the floor

  /** Epoch `e` is finalised with a checkpoint at block number `h`. */
  ghost predicate FinalAt(s: F.State, e: int, h: int) {
    e in s.finalized && e in s.checkpoints && s.checkpoints[e].number == h
  }

  /** The greatest of the round height and the block numbers of the first `k` finalised checkpoints. */
  function FloorUpTo(s: F.State, round: nat, k: nat): nat
    requires k <= |s.finalized|
  {
    if k == 0 then round
    else
      var (floor, e) := (FloorUpTo(s, round, k - 1), s.finalized[k - 1]);
      if e in s.checkpoints && s.checkpoints[e].number > floor then s.checkpoints[e].number else floor
  }

  function Floor(s: F.State, round: nat): nat { FloorUpTo(s, round, |s.finalized|) }

  /** `get_finalized_floor_height`: a running maximum. */
  method FinalizedFloorHeight(s: F.State, round: nat) returns (floor: nat)
    ensures floor == Floor(s, round)
    ensures floor >= round && forall e, h | FinalAt(s, e, h) :: floor >= h
    ensures floor == round || exists e :: FinalAt(s, e, floor)
  {
    floor := round;
    for k := 0 to |s.finalized|
      invariant floor == FloorUpTo(s, round, k) && floor >= round
      invariant forall j | 0 <= j < k :: s.finalized[j] in s.checkpoints ==> floor >= s.checkpoints[s.finalized[j]].number
      invariant floor == round || exists e :: FinalAt(s, e, floor)
    {
      var e := s.finalized[k];
      if e in s.checkpoints && s.checkpoints[e].number > floor {
        floor := s.checkpoints[e].number;
        assert FinalAt(s, e, floor);
      }
    }
  }

  lemma {:induction false} FloorUpToIsMax(s: F.State, round: nat, k: nat)
    requires k <= |s.finalized|
    ensures FloorUpTo(s, round, k) >= round
    ensures forall j | 0 <= j < k :: s.finalized[j] in s.checkpoints ==> FloorUpTo(s, round, k) >= s.checkpoints[s.finalized[j]].number
    ensures FloorUpTo(s, round, k) == round || exists e :: FinalAt(s, e, FloorUpTo(s, round, k))
  {
    if k > 0 {
      FloorUpToIsMax(s, round, k - 1);
      assert s.finalized[k - 1] in s.finalized;
      if FloorUpTo(s, round, k) != FloorUpTo(s, round, k - 1) {
        assert FinalAt(s, s.finalized[k - 1], FloorUpTo(s, round, k));
      }
    }
  }

  lemma FloorIsMax(s: F.State, round: nat)
    ensures Floor(s, round) >= round && forall e, h | FinalAt(s, e, h) :: Floor(s, round) >= h
    ensures Floor(s, round) == round || exists e :: FinalAt(s, e, Floor(s, round))
  {
    FloorUpToIsMax(s, round, |s.finalized|);
  }

  // ---------------------------------------------------------------- the finality engine only adds

  /** Checkpoints are write-once and finalised epochs stay finalised, whatever the validator count does. */
  ghost predicate Grows(s: F.State, s': F.State) {
    && s.finalized <= s'.finalized
    && forall e | e in s.checkpoints ::
         e in s'.checkpoints && s'.checkpoints[e].number == s.checkpoints[e].number && s'.checkpoints[e].hash == s.checkpoints[e].hash
  }

  lemma {:induction false} RangeGrows(s: F.State, lo: int, hi: int)
    ensures Grows(s, F.FinalizedRange(s, lo, hi))
    decreases hi - lo
  {
    if lo < hi { RangeGrows(s, lo, hi - 1); }
  }

  lemma FinalityGrows(s: F.State, ev: F.Event)
    ensures Grows(s, F.Step(s, ev))
  {
    match ev {
      case Create(number, hash) =>
      case Attest(v, e, hash) =>
      case Finalize(e) =>
      case Process(number, hash, v) =>
        var s1 := F.Created(s, number, hash);
        var s2 := F.Attested(s1, v, F.Epoch(number), hash);
        assert Grows(s, s1) && Grows(s1, s2);
        RangeGrows(s2, s.currentEpoch, F.Epoch(number) + 1);
    }
  }

  lemma FloorGrows(s: F.State, s': F.State, round: nat, round': nat)
    requires Grows(s, s') && round <= round'
    ensures Floor(s, round) <= Floor(s', round')
  {
    FloorIsMax(s, round);
    FloorIsMax(s', round');
    if Floor(s, round) != round {
      var e :| FinalAt(s, e, Floor(s, round));
      assert FinalAt(s', e, Floor(s, round));
    }
  }

  // ---------------------------------------------------------------- a node that runs both

  datatype Node = Node(ledger: L.Node, finality: F.State, round: nat)

  datatype Step =
    | Add(block: L.Block, verdicts: L.Verdicts)
    | Import(block: L.Block, shape: bool, verdicts: L.Verdicts)
    | Reorg(height: int)
    | Repair
    | Finality(event: F.Event)
    | ValidatorCount(count: nat)
    | RoundFinal(final: nat)

  function FloorOf(x: Node): nat { Floor(x.finality, x.round) }

  /** The ledger's part of a step; reorgs and repairs are gated by the node's own floor. */
  function LedgerStep(x: Node, step: Step): Option<L.Step> {
    match step
    case Add(b, v) => Some(L.Add(b, v))
    case Import(b, shape, v) => Some(L.Import(b, shape, v))
    case Reorg(h) => Some(L.Reorg(h, FloorOf(x)))
    case Repair => Some(L.Repair(FloorOf(x)))
    case _ => None
  }

  /** `_on_new_block`: an accepted block is announced to the finality engine as a vote of its miner. */
  function Announced(s: F.State, before: seq<L.Block>, after: seq<L.Block>): F.State {
    if |after| > 0 && after == before + [after[|after| - 1]] then
      var b := after[|after| - 1];
      F.Step(s, F.Process(b.height, b.hash, b.miner))
    else s
  }

  function Next(r: L.Rules, cfg: L.Config, alloc: L.Accounts, x: Node, step: Step): Node {
    match LedgerStep(x, step)
    case Some(ls) =>
      var ledger := L.Next(r, cfg, alloc, x.ledger, ls);
      Node(ledger, Announced(x.finality, x.ledger.rows, ledger.rows), x.round)
    case None =>
      match step
      case Finality(ev) => x.(finality := F.Step(x.finality, ev))
      case ValidatorCount(n) => x.(finality := x.finality.(activeCount := n))
      case RoundFinal(h) => x.(round := if h > x.round then h else x.round)
      case _ => x
  }

  function Run(r: L.Rules, cfg: L.Config, alloc: L.Accounts, x: Node, steps: seq<Step>): Node {
    if steps == [] then x else Next(r, cfg, alloc, Run(r, cfg, alloc, x, steps[..|steps| - 1]), steps[|steps| - 1])
  }

  /** The step replaces no genesis block and names a height, not a negative number. */
  ghost predicate KeepsGenesis(genesis: L.Block, step: Step) {
    && (step.Import? && step.block.height == 0 ==> step.block.hash == genesis.hash)
    && (step.Reorg? ==> step.height >= 0)
  }

  ghost predicate Canonical(r: L.Rules, alloc: L.Accounts, x: Node) {
    L.Canonical(r, alloc, x.ledger.rows, x.ledger.accounts)
  }

  /** Every block of `x` up to height `h` is still there in `y`. */
  ghost predicate Kept(x: Node, y: Node, h: int) {
    forall i | 0 <= i <= h && i < |x.ledger.rows| :: i < |y.ledger.rows| && y.ledger.rows[i] == x.ledger.rows[i]
  }

  lemma LedgerKeepsPrefix(r: L.Rules, cfg: L.Config, alloc: L.Accounts, s: L.Node, step: L.Step, floor: nat)
    requires L.CollisionFree(r) && L.Canonical(r, alloc, s.rows, s.accounts) && L.KeepsGenesis(s.rows[0], step)
    requires (step.Reorg? ==> step.floor == floor && step.height >= 0) && (step.Repair? ==> step.floor == floor)
    ensures var rows := L.Next(r, cfg, alloc, s, step).rows;
            forall i | 0 <= i <= floor && i < |s.rows| :: i < |rows| && rows[i] == s.rows[i]
  {
    hide L.Added, L.Imported, L.Reorged, L.Ensured, L.Linked, L.Rooted;
    match step {
      case Add(b, v) =>
      case Import(b, shape, v) => ImportExtends(r, cfg, alloc, s, b, shape, v);
      case Reorg(h, f) =>
        L.ReorgOutcome(r, cfg, alloc, s.rows, s.accounts, h, f);
      case Repair(f) =>
        NoDriftNoRepair(r, cfg, alloc, s, f);
    }
  }

  lemma ImportExtends(r: L.Rules, cfg: L.Config, alloc: L.Accounts, s: L.Node, b: L.Block, shape: bool, v: L.Verdicts)
    requires L.Canonical(r, alloc, s.rows, s.accounts) && (b.height == 0 ==> b.hash == s.rows[0].hash)
    ensures s.rows <= L.Imported(r, cfg, alloc, s.rows, s.accounts, b, shape, v).0
  {
    hide L.Added;
    L.GetBlockContiguous(s.rows, 0);
  }

  lemma NoDriftNoRepair(r: L.Rules, cfg: L.Config, alloc: L.Accounts, s: L.Node, floor: nat)
    requires L.Canonical(r, alloc, s.rows, s.accounts)
    ensures L.Ensured(r, cfg, alloc, s.rows, s.accounts, floor) == (s.rows, s.accounts, true)
  {
    L.GetBlockContiguous(s.rows, |s.rows| - 1);
  }

  /** One step: the ledger stays canonical, the floor does not fall, and nothing at or below it moves. */
  lemma StepKeepsFinalized(r: L.Rules, cfg: L.Config, alloc: L.Accounts, x: Node, step: Step)
    requires L.CollisionFree(r) && Canonical(r, alloc, x) && KeepsGenesis(x.ledger.rows[0], step)
    ensures var y := Next(r, cfg, alloc, x, step);
            && Canonical(r, alloc, y) && y.ledger.rows[0] == x.ledger.rows[0]
            && Grows(x.finality, y.finality)
            && FloorOf(x) <= FloorOf(y) && Kept(x, y, FloorOf(x))
  {
    hide L.Canonical, L.Next, F.Step, Floor;
    var y := Next(r, cfg, alloc, x, step);
    match LedgerStep(x, step) {
      case Some(ls) =>
        L.NextKeepsCanonical(r, cfg, alloc, x.ledger, ls);
        LedgerKeepsPrefix(r, cfg, alloc, x.ledger, ls, FloorOf(x));
        assert y.ledger == L.Next(r, cfg, alloc, x.ledger, ls);
        assert Kept(x, y, FloorOf(x));
        if y.finality != x.finality {
          var b := y.ledger.rows[|y.ledger.rows| - 1];
          FinalityGrows(x.finality, F.Process(b.height, b.hash, b.miner));
        }
      case None =>
        assert y.ledger == x.ledger;
        if step.Finality? { FinalityGrows(x.finality, step.event); }
    }
    FloorGrows(x.finality, y.finality, x.round, y.round);
  }

  /**
   * Finalised prefix. Over any run of blocks, attestations, validator-count changes, reorgs and repairs
   * that keeps the genesis, the floor never decreases and no block at or below both the floor and the
   * tip is ever removed or replaced.
   */
  lemma {:induction false} FinalizedPrefixIsPermanent(r: L.Rules, cfg: L.Config, alloc: L.Accounts, x: Node, steps: seq<Step>)
    requires L.CollisionFree(r) && Canonical(r, alloc, x)
    requires forall step | step in steps :: KeepsGenesis(x.ledger.rows[0], step)
    ensures var y := Run(r, cfg, alloc, x, steps);
            && Canonical(r, alloc, y) && y.ledger.rows[0] == x.ledger.rows[0]
            && Grows(x.finality, y.finality)
            && FloorOf(x) <= FloorOf(y) && Kept(x, y, FloorOf(x))
  {
    hide L.Canonical, Next, Floor;
    if steps != [] {
      var init := steps[..|steps| - 1];
      FinalizedPrefixIsPermanent(r, cfg, alloc, x, init);
      StepKeepsFinalized(r, cfg, alloc, Run(r, cfg, alloc, x, init), steps[|steps| - 1]);
    }
  }

  /** The checkpoint of epoch `e` names a block of the chain. */
  ghost predicate OnChain(x: Node, e: int)
    requires e in x.finality.checkpoints
  {
    var c := x.finality.checkpoints[e];
    0 <= c.number < |x.ledger.rows| && x.ledger.rows[c.number].hash == c.hash
  }

  lemma {:induction false} RangeFinalizesKnown(s: F.State, lo: int, hi: int, e: int)
    requires e in F.FinalizedRange(s, lo, hi).finalized
    ensures e in s.finalized || e in F.FinalizedRange(s, lo, hi).checkpoints
    decreases hi - lo
  {
    if lo < hi {
      if e in F.FinalizedRange(s, lo, hi - 1).finalized { RangeFinalizesKnown(s, lo, hi - 1, e); }
    }
  }

  lemma FinalizesKnown(s: F.State, ev: F.Event, e: int)
    requires e !in s.finalized && e in F.Step(s, ev).finalized
    ensures e in F.Step(s, ev).checkpoints
  {
    if ev.Process? {
      var e0 := F.Epoch(ev.number);
      RangeFinalizesKnown(F.Attested(F.Created(s, ev.number, ev.hash), ev.validator, e0, ev.hash), s.currentEpoch, e0 + 1, e);
    }
  }

  /** The step finalises epoch `e`. */
  ghost predicate Finalizes(x: Node, y: Node, e: int) { e !in x.finality.finalized && e in y.finality.finalized }

  lemma FinalizedIsKnown(r: L.Rules, cfg: L.Config, alloc: L.Accounts, x: Node, step: Step, e: int)
    requires Finalizes(x, Next(r, cfg, alloc, x, step), e)
    ensures e in Next(r, cfg, alloc, x, step).finality.checkpoints
  {
    hide L.Next, F.Step;
    var y := Next(r, cfg, alloc, x, step);
    if LedgerStep(x, step).Some? {
      var b := y.ledger.rows[|y.ledger.rows| - 1];
      FinalizesKnown(x.finality, F.Process(b.height, b.hash, b.miner), e);
    } else if step.Finality? {
      FinalizesKnown(x.finality, step.event, e);
    }
  }

  /** The chain has a row at the number of the checkpoint of epoch `e`. */
  ghost predicate HasRow(x: Node, e: int)
    requires e in x.finality.checkpoints
  {
    0 <= x.finality.checkpoints[e].number < |x.ledger.rows|
  }

  /**
   * As soon as the chain has a row at the number of a finalised checkpoint, that row decides for ever
   * whether the checkpoint's block is on the chain.
   */
  lemma FirstRowDecides(r: L.Rules, cfg: L.Config, alloc: L.Accounts, x: Node, steps: seq<Step>, e: int)
    requires L.CollisionFree(r) && Canonical(r, alloc, x)
    requires forall step | step in steps :: KeepsGenesis(x.ledger.rows[0], step)
    requires e in x.finality.finalized && e in x.finality.checkpoints && HasRow(x, e)
    ensures var y := Run(r, cfg, alloc, x, steps);
            e in y.finality.finalized && e in y.finality.checkpoints && HasRow(y, e) && (OnChain(y, e) <==> OnChain(x, e))
  {
    hide L.Canonical, Run, Floor;
    FinalizedPrefixIsPermanent(r, cfg, alloc, x, steps);
    FloorIsMax(x.finality, x.round);
    var i := x.finality.checkpoints[e].number;
    assert FinalAt(x.finality, e, i);
    var row := x.ledger.rows[i];
    assert i <= FloorOf(x) && row == x.ledger.rows[i];
  }

  /** None of the steps replaces the genesis. */
  ghost predicate AllKeep(x: Node, steps: seq<Step>) {
    x.ledger.rows != [] && forall step | step in steps :: KeepsGenesis(x.ledger.rows[0], step)
  }

  /** Whatever happens next, short of replacing the genesis, the checkpoint's block is on the chain. */
  ghost predicate OnChainForEver(r: L.Rules, cfg: L.Config, alloc: L.Accounts, x: Node, e: int) {
    forall steps | AllKeep(x, steps) :: OnChainAfter(r, cfg, alloc, x, steps, e)
  }

  ghost predicate OnChainAfter(r: L.Rules, cfg: L.Config, alloc: L.Accounts, x: Node, steps: seq<Step>, e: int) {
    e in Run(r, cfg, alloc, x, steps).finality.checkpoints && OnChain(Run(r, cfg, alloc, x, steps), e)
  }

  /**
   * Finality does not look at the chain. The block of a checkpoint is on the chain for ever after the step
   * that finalises it exactly when that step leaves the checkpoint's hash in the row at its number. If the
   * row holds another hash it is on the chain never again. If there is no such row yet, it is not on the
   * chain until the chain grows there, and then the row that comes first decides.
   */
  lemma FinalizedBlockStaysIff(r: L.Rules, cfg: L.Config, alloc: L.Accounts, x: Node, step: Step, e: int)
    requires L.CollisionFree(r) && Canonical(r, alloc, x) && KeepsGenesis(x.ledger.rows[0], step)
    requires Finalizes(x, Next(r, cfg, alloc, x, step), e)
    ensures var y := Next(r, cfg, alloc, x, step);
            && Canonical(r, alloc, y) && e in y.finality.checkpoints
            && (OnChainForEver(r, cfg, alloc, y, e) <==>
                  HasRow(y, e) && y.ledger.rows[y.finality.checkpoints[e].number].hash == y.finality.checkpoints[e].hash)
            && forall steps, more | AllKeep(y, steps) && AllKeep(y, more) ::
                 DecidedBy(r, cfg, alloc, y, steps, more, e)
  {
    hide Next, Run, L.Canonical, Floor;
    var y := Next(r, cfg, alloc, x, step);
    FinalizedIsKnown(r, cfg, alloc, x, step, e);
    StepKeepsFinalized(r, cfg, alloc, x, step);
    NotEmpty(r, alloc, x);
    NotEmpty(r, alloc, y);
    if OnChain(y, e) {
      forall steps | AllKeep(y, steps) ensures OnChainAfter(r, cfg, alloc, y, steps, e) {
        FirstRowDecides(r, cfg, alloc, y, steps, e);
      }
    }
    if OnChainForEver(r, cfg, alloc, y, e) {
      assert OnChainAfter(r, cfg, alloc, y, [], e);
      NoSteps(r, cfg, alloc, y);
    }
    forall steps, more | AllKeep(y, steps) && AllKeep(y, more) ensures DecidedBy(r, cfg, alloc, y, steps, more, e) {
      Decided(r, cfg, alloc, y, steps, more, e);
    }
  }

  /** If `steps` bring the chain to the checkpoint's number, what then stands there decides after `more` steps too. */
  ghost predicate DecidedBy(r: L.Rules, cfg: L.Config, alloc: L.Accounts, y: Node, steps: seq<Step>, more: seq<Step>, e: int) {
    var z := Run(r, cfg, alloc, y, steps);
    var u := Run(r, cfg, alloc, z, more);
    && e in z.finality.checkpoints && e in u.finality.checkpoints
    && (if HasRow(z, e) then OnChain(u, e) <==> OnChain(z, e) else !OnChain(z, e))
  }

  lemma Decided(r: L.Rules, cfg: L.Config, alloc: L.Accounts, y: Node, steps: seq<Step>, more: seq<Step>, e: int)
    requires L.CollisionFree(r) && Canonical(r, alloc, y) && AllKeep(y, steps) && AllKeep(y, more)
    requires e in y.finality.finalized && e in y.finality.checkpoints
    ensures DecidedBy(r, cfg, alloc, y, steps, more, e)
  {
    hide Run, L.Canonical, Floor;
    var z := Run(r, cfg, alloc, y, steps);
    FinalizedPrefixIsPermanent(r, cfg, alloc, y, steps);
    NotEmpty(r, alloc, z);
    FinalizedPrefixIsPermanent(r, cfg, alloc, z, more);
    if HasRow(z, e) { FirstRowDecides(r, cfg, alloc, z, more, e); }
  }

  lemma NotEmpty(r: L.Rules, alloc: L.Accounts, x: Node)
    requires Canonical(r, alloc, x)
    ensures x.ledger.rows != []
  {
  }

  lemma NoSteps(r: L.Rules, cfg: L.Config, alloc: L.Accounts, x: Node)
    ensures Run(r, cfg, alloc, x, []) == x
  {
  }
}
