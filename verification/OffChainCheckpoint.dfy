/**
 * A run in which a finalised checkpoint is not on the chain: the block is reorged away between the
 * creation of the checkpoint and its finalisation (core/blockchain.py, finality_engine.py).
 */
module OffChainCheckpoint {
  import opened Collections
  import L = Ledger
  import F = FinalityEngine
  import opened FinalizedPrefix

  const YES := L.Verdicts(true, true, true, true)

  /** An empty block on top of the tip. */
  function EmptyOn(rows: seq<L.Block>, miner: string): L.Block
    requires rows != []
  {
    L.Block(rows[|rows| - 1].height + 1, rows[|rows| - 1].hash, miner, 0, "", [], "", "")
  }

  /** Adding it succeeds and is announced; nothing else changes. */
  lemma AddEmpty(r: L.Rules, cfg: L.Config, alloc: L.Accounts, x: Node, miner: string)
    requires L.CollisionFree(r) && Canonical(r, alloc, x)
    ensures x.ledger.rows != []
    ensures var (step, n) := (Add(EmptyOn(x.ledger.rows, miner), YES), |x.ledger.rows|);
            var y := Next(r, cfg, alloc, x, step);
            && Canonical(r, alloc, y) && KeepsGenesis(x.ledger.rows[0], step)
            && |y.ledger.rows| == n + 1 && y.ledger.rows[..n] == x.ledger.rows && y.round == x.round
            && y.ledger.rows[n].height == n && y.ledger.rows[n].miner == miner
            && y.finality == F.Processed(x.finality, n, y.ledger.rows[n].hash, miner)
  {
    hide F.Processed, L.Added, L.Rooted;
    var b := EmptyOn(x.ledger.rows, miner);
    EmptyAdded(r, cfg, x.ledger.rows, x.ledger.accounts, miner);
    StepKeepsFinalized(r, cfg, alloc, x, Add(b, YES));
  }

  lemma EmptyAdded(r: L.Rules, cfg: L.Config, rows: seq<L.Block>, a: L.Accounts, miner: string)
    requires rows != [] && L.Contiguous(rows)
    ensures var added := L.Added(r, cfg, rows, a, EmptyOn(rows, miner), false, YES);
            added.Some? && added.value.0.height == |rows| && added.value.0.miner == miner
  {
    L.GetBlockContiguous(rows, |rows|);
    var b := EmptyOn(rows, miner);
    assert L.ApplyTxs(r, a, [], b.height, b.miner) == Some(a);
  }

  /** Rows of one height but different miners have different hashes. */
  lemma DifferentMiners(r: L.Rules, a: L.Block, b: L.Block)
    requires L.CollisionFree(r) && a.hash == r.digest(L.HeaderOf(a)) && b.hash == r.digest(L.HeaderOf(b)) && a.miner != b.miner
    ensures a.hash != b.hash
  {
    assert L.HeaderOf(a) != L.HeaderOf(b);
  }

  // ---------------------------------------------------------------- the finality engine along the run

  /** Epoch 0 is justified by "A" and "B" out of three validators, and nothing else has happened. */
  ghost predicate Epoch0(s: F.State) {
    && s.checkpoints.Keys == {0} && s.checkpoints[0].justified && s.justified == [0] && s.finalized == []
    && "A" in F.Voters(s, 0) && F.Voters(s, 1) == [] && s.currentEpoch == 0 && s.activeCount == 3
  }

  /** A further block of epoch 0 by "A" adds nothing. */
  lemma StaysEpoch0(s: F.State, number: int, hash: string)
    requires Epoch0(s) && 0 <= number < 32
    ensures Epoch0(F.Processed(s, number, hash, "A"))
  {
    assert F.Epoch(number) == 0;
    var t := F.Attested(s, "A", 0, hash);
    assert Epoch0(t);
    assert F.FinalizedRange(t, 0, 1) == F.Finalized(F.FinalizedRange(t, 0, 0), 0) == t;
  }

  /** Block `number` by "A" opened epoch 1 with one vote. */
  ghost predicate Epoch1(s: F.State, number: int, hash: string) {
    && 1 in s.checkpoints && s.checkpoints[1] == F.Checkpoint(1, hash, number, 1, false, false)
    && s.justified == [0] && s.finalized == [] && F.Voters(s, 1) == ["A"] && s.currentEpoch == 1 && s.activeCount == 3
  }

  lemma OpensEpoch1(s: F.State, hash: string)
    requires Epoch0(s)
    ensures Epoch1(F.Processed(s, 32, hash, "A"), 32, hash)
  {
    var t := F.Attested(F.Created(s, 32, hash), "A", 1, hash);
    assert !F.Quorum(1, 3);
    assert F.FinalizedRange(t, 0, 2) == F.Finalized(F.FinalizedRange(t, 0, 1), 1);
    assert F.FinalizedRange(t, 0, 1) == F.Finalized(F.FinalizedRange(t, 0, 0), 0) == t;
  }

  /** A competing block of epoch 1 changes nothing: the checkpoint is write-once and the hash does not match. */
  lemma CompetitorIgnored(s: F.State, hash: string, number: int, other: string, v: string)
    requires Epoch1(s, 32, hash) && other != hash && 32 <= number < 64
    ensures Epoch1(F.Processed(s, number, other, v), 32, hash)
  {
    assert F.Epoch(number) == 1;
    assert F.FinalizedRange(s, 1, 2) == F.Finalized(F.FinalizedRange(s, 1, 1), 1) == s;
  }

  /** The vote of "B" for the old block completes the quorum, and the next block of the epoch finalises it. */
  lemma LateVoteFinalizes(s: F.State, hash: string, number: int, other: string, v: string)
    requires Epoch1(s, 32, hash) && other != hash && 32 <= number < 64
    ensures var t := F.Processed(F.Attested(s, "B", 1, hash), number, other, v);
            1 in t.finalized && 1 in t.checkpoints && t.checkpoints[1].number == 32 && t.checkpoints[1].hash == hash
  {
    var u := F.Attested(s, "B", 1, hash);
    assert F.Epoch(number) == 1 && F.Quorum(2, 3);
    assert u.justified == [0, 1];
    assert F.FinalizedRange(u, 1, 2) == F.Finalized(F.FinalizedRange(u, 1, 1), 1) == F.Finalized(u, 1);
  }

  // ---------------------------------------------------------------- the run

  lemma Append(r: L.Rules, cfg: L.Config, alloc: L.Accounts, x: Node, steps: seq<Step>, step: Step)
    ensures Run(r, cfg, alloc, x, steps + [step]) == Next(r, cfg, alloc, Run(r, cfg, alloc, x, steps), step)
  {
    assert (steps + [step])[..|steps|] == steps;
  }

  ghost predicate Reaches(r: L.Rules, cfg: L.Config, alloc: L.Accounts, g: L.Block, steps: seq<Step>, y: Node) {
    && Run(r, cfg, alloc, Node(L.Node([g], alloc), F.INITIAL, 0), steps) == y
    && (forall step | step in steps :: KeepsGenesis(g, step))
    && Canonical(r, alloc, y) && y.ledger.rows[0] == g && y.round == 0
  }

  lemma ReachAdd(r: L.Rules, cfg: L.Config, alloc: L.Accounts, g: L.Block, steps: seq<Step>, y: Node, miner: string)
    returns (steps': seq<Step>, z: Node)
    requires L.CollisionFree(r) && Reaches(r, cfg, alloc, g, steps, y)
    ensures Reaches(r, cfg, alloc, g, steps', z)
    ensures |z.ledger.rows| == |y.ledger.rows| + 1 && z.ledger.rows[..|y.ledger.rows|] == y.ledger.rows
    ensures z.ledger.rows[|y.ledger.rows|].miner == miner
    ensures z.finality == F.Processed(y.finality, |y.ledger.rows|, z.ledger.rows[|y.ledger.rows|].hash, miner)
  {
    hide Next, Run, L.Canonical, F.Processed;
    AddEmpty(r, cfg, alloc, y, miner);
    var step := Add(EmptyOn(y.ledger.rows, miner), YES);
    steps', z := steps + [step], Next(r, cfg, alloc, y, step);
    Append(r, cfg, alloc, Node(L.Node([g], alloc), F.INITIAL, 0), steps, step);
    assert z.ledger.rows[0] == z.ledger.rows[..|y.ledger.rows|][0];
  }

  lemma ReachEvent(r: L.Rules, cfg: L.Config, alloc: L.Accounts, g: L.Block, steps: seq<Step>, y: Node, step: Step)
    requires L.CollisionFree(r) && Reaches(r, cfg, alloc, g, steps, y) && (step.Finality? || step.ValidatorCount? || step.Reorg?)
    requires step.Reorg? ==> step.height >= 0
    ensures Reaches(r, cfg, alloc, g, steps + [step], Next(r, cfg, alloc, y, step))
  {
    hide Next, Run, L.Canonical;
    StepKeepsFinalized(r, cfg, alloc, y, step);
    Append(r, cfg, alloc, Node(L.Node([g], alloc), F.INITIAL, 0), steps, step);
    SameRound(r, cfg, alloc, y, step);
  }

  lemma SameRound(r: L.Rules, cfg: L.Config, alloc: L.Accounts, y: Node, step: Step)
    requires step.Finality? || step.ValidatorCount? || step.Reorg?
    ensures Next(r, cfg, alloc, y, step).round == y.round
  {
  }

  /** Three validators, block 1 by "A", and the vote of "B" for it. */
  lemma Begin(r: L.Rules, cfg: L.Config, alloc: L.Accounts, g: L.Block) returns (steps: seq<Step>, y: Node)
    requires L.CollisionFree(r) && L.IsGenesis(r, alloc, g)
    ensures Reaches(r, cfg, alloc, g, steps, y) && |y.ledger.rows| == 2 && Epoch0(y.finality)
  {
    hide Run, F.Step, F.Processed, Epoch0;
    var x := Node(L.Node([g], alloc), F.INITIAL, 0);
    NoSteps(r, cfg, alloc, x);
    assert Reaches(r, cfg, alloc, g, [], x);
    ReachEvent(r, cfg, alloc, g, [], x, ValidatorCount(3));
    var x1 := Next(r, cfg, alloc, x, ValidatorCount(3));
    steps, y := ReachAdd(r, cfg, alloc, g, [] + [ValidatorCount(3)], x1, "A");
    var h := y.ledger.rows[1].hash;
    var vote := Finality(F.Attest("B", 0, h));
    ReachEvent(r, cfg, alloc, g, steps, y, vote);
    FirstTwoVotes(h);
    assert x1.finality == F.INITIAL.(activeCount := 3);
    steps, y := steps + [vote], Next(r, cfg, alloc, y, vote);
  }

  lemma FirstTwoVotes(h: string)
    ensures Epoch0(F.Step(F.Processed(F.INITIAL.(activeCount := 3), 1, h, "A"), F.Attest("B", 0, h)))
  {
    var s := F.INITIAL.(activeCount := 3);
    var t := F.Attested(F.Created(s, 1, h), "A", 0, h);
    assert F.Epoch(1) == 0 && !F.Quorum(1, 3) && F.Quorum(2, 3);
    assert F.FinalizedRange(t, 0, 1) == F.Finalized(F.FinalizedRange(t, 0, 0), 0) == t;
  }

  /** "A" extends the chain to height 31, inside epoch 0. */
  lemma Grow(r: L.Rules, cfg: L.Config, alloc: L.Accounts, g: L.Block, steps: seq<Step>, y: Node) returns (steps': seq<Step>, z: Node)
    requires L.CollisionFree(r) && Reaches(r, cfg, alloc, g, steps, y) && 2 <= |y.ledger.rows| <= 32 && Epoch0(y.finality)
    ensures Reaches(r, cfg, alloc, g, steps', z) && |z.ledger.rows| == 32 && Epoch0(z.finality)
    decreases 32 - |y.ledger.rows|
  {
    hide Reaches, Epoch0, F.Processed;
    if |y.ledger.rows| == 32 {
      steps', z := steps, y;
    } else {
      steps', z := ReachAdd(r, cfg, alloc, g, steps, y, "A");
      StaysEpoch0(y.finality, |y.ledger.rows|, z.ledger.rows[|y.ledger.rows|].hash);
      steps', z := Grow(r, cfg, alloc, g, steps', z);
    }
  }

  /** With no finalised epoch the floor is 0, and the reorg to height 31 drops block 32. */
  lemma DropTip(r: L.Rules, cfg: L.Config, alloc: L.Accounts, x: Node)
    requires L.CollisionFree(r) && Canonical(r, alloc, x) && |x.ledger.rows| == 33 && x.finality.finalized == [] && x.round == 0
    ensures var y := Next(r, cfg, alloc, x, Reorg(31));
            y.ledger.rows == x.ledger.rows[..32] && y.finality == x.finality
  {
    hide L.Reorged, L.Linked, L.Rooted;
    L.ReorgOutcome(r, cfg, alloc, x.ledger.rows, x.ledger.accounts, 31, FloorOf(x));
  }

  lemma RowHash(r: L.Rules, alloc: L.Accounts, x: Node, i: nat)
    requires Canonical(r, alloc, x) && i < |x.ledger.rows|
    ensures x.ledger.rows[i].hash == r.digest(L.HeaderOf(x.ledger.rows[i]))
  {
  }

  /**
   * From every genesis: "A" builds up to block 32, which opens epoch 1; a reorg drops it; "B" builds
   * another block 32; the vote of "B" for the old one arrives; the next block finalises epoch 1. The
   * finalised checkpoint sets the floor to 32 and names a block that is not on the chain.
   */
  lemma FinalizedOffChain(r: L.Rules, cfg: L.Config, alloc: L.Accounts, g: L.Block) returns (steps: seq<Step>, y: Node)
    requires L.CollisionFree(r) && L.IsGenesis(r, alloc, g)
    ensures Reaches(r, cfg, alloc, g, steps, y)
    ensures 1 in y.finality.finalized && 1 in y.finality.checkpoints && HasRow(y, 1) && !OnChain(y, 1) && FloorOf(y) >= 32
  {
    hide Reaches, Epoch0, Epoch1, F.Processed, F.Attested, Next;
    steps, y := Begin(r, cfg, alloc, g);
    steps, y := Grow(r, cfg, alloc, g, steps, y);
    var before := y;
    steps, y := ReachAdd(r, cfg, alloc, g, steps, y, "A");
    var old32 := y.ledger.rows[32];
    OpensEpoch1(before.finality, old32.hash);
    steps, y := Finish(r, cfg, alloc, g, steps, y, old32);
  }

  /** From block 32 of "A" to the end of the run. */
  lemma Finish(r: L.Rules, cfg: L.Config, alloc: L.Accounts, g: L.Block, steps: seq<Step>, x: Node, old32: L.Block)
    returns (steps': seq<Step>, y: Node)
    requires L.CollisionFree(r) && Reaches(r, cfg, alloc, g, steps, x) && |x.ledger.rows| == 33
    requires old32 == x.ledger.rows[32] && old32.miner == "A" && Epoch1(x.finality, 32, old32.hash)
    ensures Reaches(r, cfg, alloc, g, steps', y)
    ensures 1 in y.finality.finalized && 1 in y.finality.checkpoints && HasRow(y, 1) && !OnChain(y, 1) && FloorOf(y) >= 32
  {
    hide L.Canonical, F.Processed, F.Attested, Next, Run;
    RowHash(r, alloc, x, 32);
    DropTip(r, cfg, alloc, x);
    ReachEvent(r, cfg, alloc, g, steps, x, Reorg(31));
    var cut := Next(r, cfg, alloc, x, Reorg(31));
    var z;
    steps', z := ReachAdd(r, cfg, alloc, g, steps + [Reorg(31)], cut, "B");
    var new32 := z.ledger.rows[32];
    RowHash(r, alloc, z, 32);
    DifferentMiners(r, old32, new32);
    CompetitorIgnored(cut.finality, old32.hash, 32, new32.hash, "B");
    var vote := Finality(F.Attest("B", 1, old32.hash));
    ReachEvent(r, cfg, alloc, g, steps', z, vote);
    var voted := Next(r, cfg, alloc, z, vote);
    Voted(r, cfg, alloc, z, "B", 1, old32.hash);
    steps', y := ReachAdd(r, cfg, alloc, g, steps' + [vote], voted, "B");
    RowHash(r, alloc, y, 33);
    assert y.ledger.rows[32] == y.ledger.rows[..33][32] == new32;
    DifferentMiners(r, old32, y.ledger.rows[33]);
    LateVoteFinalizes(z.finality, old32.hash, 33, y.ledger.rows[33].hash, "B");
    FloorIsMax(y.finality, y.round);
    assert FinalAt(y.finality, 1, 32);
  }

  lemma Voted(r: L.Rules, cfg: L.Config, alloc: L.Accounts, z: Node, v: string, e: int, hash: string)
    ensures var y := Next(r, cfg, alloc, z, Finality(F.Attest(v, e, hash)));
            y.ledger == z.ledger && y.finality == F.Attested(z.finality, v, e, hash)
  {
  }
}
