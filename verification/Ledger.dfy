/** The chain and its live accounts, kept in step (core/blockchain.py). */
module Ledger {
  import opened Collections

  datatype Account = Account(balance: nat, nonce: nat)
  type Accounts = map<string, Account>

  datatype Tx = Tx(hash: string, sender: string, recipient: string, amount: int, fee: int, nonce: int, timestamp: int)

  /** What the block hash covers; transactions are sorted by hash first, so their order is not covered. */
  datatype Header = Header(
    height: int, parentHash: string, miner: string, timestamp: int, extra: string, stateRoot: string, txs: multiset<Tx>)

  datatype Block = Block(
    height: int, parentHash: string, miner: string, timestamp: int, extra: string,
    txs: seq<Tx>, stateRoot: string, hash: string)

  function HeaderOf(b: Block): Header {
    Header(b.height, b.parentHash, b.miner, b.timestamp, b.extra, b.stateRoot, multiset(b.txs))
  }

  /** Transaction execution, block reward, state root and block hash, whose code is not modelled. */
  datatype Rules = Rules(
    applyTx: (Accounts, Tx, int, string) -> Option<Accounts>,
    reward: (Accounts, string) -> Accounts,
    root: Accounts -> string,
    digest: Header -> string)

  /** State roots and block hashes are collision-free and never empty. */
  ghost predicate CollisionFree(r: Rules) {
    && (forall a, b | r.root(a) == r.root(b) :: a == b)
    && (forall g, h | r.digest(g) == r.digest(h) :: g == h)
    && (forall a :: r.root(a) != "")
    && (forall h :: r.digest(h) != "")
  }

  datatype Config = Config(
    verifyPeerRoot: bool, strictP2p: bool, baseline: int, isProduction: bool, allowRootRewrite: bool)

  const GENESIS_HASH: string := seq(64, i => '0')
  const GENESIS_MINER := "genesis"
  const ROOT_LENGTH := 64

  // ---------------------------------------------------------------- executing blocks

  function ApplyTxs(r: Rules, a: Accounts, txs: seq<Tx>, height: int, miner: string): Option<Accounts> {
    if txs == [] then Some(a)
    else
      match ApplyTxs(r, a, txs[..|txs| - 1], height, miner)
      case None => None
      case Some(b) => r.applyTx(b, txs[|txs| - 1], height, miner)
  }

  function ApplyBlock(r: Rules, a: Accounts, b: Block): Option<Accounts> {
    match ApplyTxs(r, a, b.txs, b.height, b.miner)
    case None => None
    case Some(c) => Some(r.reward(c, b.miner))
  }

  /** The state after blocks 1..n on top of the genesis allocation. */
  function Replayed(r: Rules, alloc: Accounts, rows: seq<Block>, n: nat): Option<Accounts>
    requires n == 0 || n < |rows|
  {
    if n == 0 then Some(alloc)
    else
      match Replayed(r, alloc, rows, n - 1)
      case None => None
      case Some(a) => ApplyBlock(r, a, rows[n])
  }

  // ---------------------------------------------------------------- the block table

  /** `get_block`: the row stored at a height. */
  function GetBlock(rows: seq<Block>, h: int): Option<Block> {
    if rows == [] then None
    else if rows[|rows| - 1].height == h then Some(rows[|rows| - 1])
    else GetBlock(rows[..|rows| - 1], h)
  }

  /** `get_chain_tip`: 0 when the table is empty. */
  function Tip(rows: seq<Block>): int { if rows == [] then 0 else rows[|rows| - 1].height }

  /** `reorg_truncate_above`: delete every row above `cut`. */
  function TruncateAbove(rows: seq<Block>, cut: int): seq<Block> {
    if rows == [] then []
    else
      var kept := TruncateAbove(rows[..|rows| - 1], cut);
      if rows[|rows| - 1].height <= cut then kept + [rows[|rows| - 1]] else kept
  }

  ghost predicate Contiguous(rows: seq<Block>) {
    forall i | 0 <= i < |rows| :: rows[i].height == i
  }

  lemma {:induction false} GetBlockContiguous(rows: seq<Block>, h: int)
    requires Contiguous(rows)
    ensures GetBlock(rows, h) == if 0 <= h < |rows| then Some(rows[h]) else None
  {
    if rows != [] && rows[|rows| - 1].height != h {
      GetBlockContiguous(rows[..|rows| - 1], h);
    }
  }

  lemma {:induction false} TruncateContiguous(rows: seq<Block>, cut: int)
    requires Contiguous(rows)
    ensures TruncateAbove(rows, cut) == if cut < 0 then [] else if cut < |rows| then rows[..cut + 1] else rows
  {
    if rows != [] {
      TruncateContiguous(rows[..|rows| - 1], cut);
      assert rows == rows[..|rows| - 1] + [rows[|rows| - 1]];
    }
  }

  // ---------------------------------------------------------------- add, import, reorg, repair as functions

  /** Answers of the parts left out: proposer and signature checks, proposal slashing, the storage commit. */
  datatype Verdicts = Verdicts(proposer: bool, signatures: bool, proposal: bool, persisted: bool)

  datatype Mode = Strict | LegacyWarn | Skip

  function RootCheckMode(cfg: Config, height: int, peerRoot: string, preserve: bool): Mode {
    if !cfg.verifyPeerRoot then Skip
    else if peerRoot == "" then Skip
    else if |peerRoot| < ROOT_LENGTH then LegacyWarn
    else if preserve then
      if cfg.strictP2p then (if height <= cfg.baseline then LegacyWarn else Strict) else LegacyWarn
    else if height <= cfg.baseline then LegacyWarn
    else Strict
  }

  predicate StructureOk(rows: seq<Block>, b: Block) {
    if rows == [] then b.height == 0 || b.height == 1
    else
      var last := rows[|rows| - 1];
      b.height == last.height + 1 && b.parentHash == last.hash
  }

  /** The imported genesis carries no mutations: its balances are seeded beforehand. */
  predicate SkipsMutations(b: Block, preserve: bool) {
    preserve && b.height == 0 && b.txs == [] && b.miner == GENESIS_MINER
  }

  /** `add_block`: the stored row and new accounts, or nothing when the block is refused. */
  function Added(r: Rules, cfg: Config, rows: seq<Block>, a: Accounts, b: Block, preserve: bool, v: Verdicts)
    : Option<(Block, Accounts)>
  {
    var skip := SkipsMutations(b, preserve);
    if GetBlock(rows, b.height).Some? || !StructureOk(rows, b) || !v.proposer || !v.signatures then None
    else
      match if skip then Some(a) else ApplyBlock(r, a, b)
      case None => None
      case Some(c) =>
        var computed := r.root(c);
        var peer := if preserve then b.stateRoot else "";
        var mode := RootCheckMode(cfg, b.height, peer, preserve);
        if peer != "" && mode != Skip && peer != computed && (mode == Strict || skip) then None
        else
          var sealed := b.(stateRoot := if skip && peer != "" then peer else computed);
          var canonical := r.digest(HeaderOf(sealed));
          if preserve && b.hash != "" && b.hash != canonical then None
          else if !v.proposal || !v.persisted then None
          else Some((sealed.(hash := canonical), c))
  }

  /** `import_block` after the genesis branch: shape and chain gate, then `add_block`. */
  predicate ImportGate(r: Rules, rows: seq<Block>, b: Block) {
    var (parent, height) := if rows == [] then (GENESIS_HASH, -1) else (rows[|rows| - 1].hash, rows[|rows| - 1].height);
    b.hash != "" && b.height == height + 1 && b.parentHash == parent && r.digest(HeaderOf(b)) == b.hash
  }

  /** Rewrite a stale header to the live root; refused above genesis in production. */
  function Aligned(r: Rules, cfg: Config, rows: seq<Block>, h: int, live: string): seq<Block> {
    if cfg.isProduction && h > 0 && !cfg.allowRootRewrite then rows
    else if live == "" then rows
    else seq(|rows|, i requires 0 <= i < |rows| =>
               if rows[i].height == h && rows[i].stateRoot != live then
                 var fixed := rows[i].(stateRoot := live);
                 fixed.(hash := r.digest(HeaderOf(fixed)))
               else rows[i])
  }

  /** Replay of the rows at heights 1..n as the reorg loop does it, failing on a missing row. */
  function ReplayRows(r: Rules, alloc: Accounts, rows: seq<Block>, n: int): Option<Accounts>
    decreases n
  {
    if n < 1 then Some(alloc)
    else
      match ReplayRows(r, alloc, rows, n - 1)
      case None => None
      case Some(a) =>
        match GetBlock(rows, n)
        case None => None
        case Some(b) => ApplyBlock(r, a, b)
  }

  /** `reorg_to_ancestor`: new rows, new accounts, and the answer. */
  function Reorged(r: Rules, cfg: Config, alloc: Accounts, rows: seq<Block>, a: Accounts, h: int, floor: nat)
    : (seq<Block>, Accounts, bool)
  {
    if floor > 0 && h < floor then (rows, a, false)
    else if h > Tip(rows) then (rows, a, true)
    else
      var replayOnly := h >= Tip(rows);
      var cut := if replayOnly then rows else TruncateAbove(rows, h);
      match ReplayRows(r, alloc, cut, h)
      case None => (rows, a, false)
      case Some(b) =>
        var stale := match GetBlock(cut, h) case None => false case Some(x) => x.stateRoot != "" && x.stateRoot != r.root(b);
        if !stale then (cut, b, true)
        else if replayOnly then (Aligned(r, cfg, cut, h, r.root(b)), b, true)
        else (rows, a, false)
  }

  /** `ensure_state_at_tip`. */
  function Ensured(r: Rules, cfg: Config, alloc: Accounts, rows: seq<Block>, a: Accounts, floor: nat)
    : (seq<Block>, Accounts, bool)
  {
    var h := Tip(rows);
    match GetBlock(rows, h)
    case None => (rows, a, true)
    case Some(tip) =>
      if tip.stateRoot == "" || tip.stateRoot == r.root(a) then (rows, a, true)
      else if h == 0 then
        var aligned := Aligned(r, cfg, rows, 0, r.root(a));
        (aligned, a, match GetBlock(aligned, 0) case None => false case Some(g) => g.stateRoot == r.root(a))
      else Reorged(r, cfg, alloc, rows, a, h, floor)
  }

  /** `_seed_follower_genesis_balances`: overwrite balances from the allocation, keep nonces. */
  function Seeded(a: Accounts, alloc: Accounts): Accounts {
    a + map x | x in alloc :: Account(alloc[x].balance, if x in a then a[x].nonce else 0)
  }

  /** Seeding gives every allocated account its allocated balance, keeps every nonce, and touches nobody else. */
  lemma SeedingMeans(a: Accounts, alloc: Accounts, x: string)
    ensures x in alloc ==> x in Seeded(a, alloc) && Seeded(a, alloc)[x].balance == alloc[x].balance
    ensures x in a ==> x in Seeded(a, alloc) && Seeded(a, alloc)[x].nonce == a[x].nonce
    ensures x !in alloc ==> (x in Seeded(a, alloc) <==> x in a) && (x in a ==> Seeded(a, alloc)[x] == a[x])
    ensures x in alloc && x !in a ==> Seeded(a, alloc)[x].nonce == 0
  {
  }

  /** A peer block at height 0 with another hash drops the whole chain before it is checked. */
  predicate ReplacesGenesis(rows: seq<Block>, b: Block) {
    b.height == 0 && GetBlock(rows, 0).Some? && GetBlock(rows, 0).value.hash != b.hash
  }

  /** `import_block`: new rows, new accounts, and the answer. `shape` is the block validator's verdict. */
  function Imported(r: Rules, cfg: Config, alloc: Accounts, rows: seq<Block>, a: Accounts, b: Block, shape: bool, v: Verdicts)
    : (seq<Block>, Accounts, bool)
  {
    var dropsAll := ReplacesGenesis(rows, b);
    if !dropsAll && GetBlock(rows, b.height).Some? then (rows, a, false)
    else
      var base := if dropsAll then [] else rows;
      if !shape || !ImportGate(r, base, b) then (base, a, false)
      else
        var start := if b.height == 0 && base == [] then Seeded(a, alloc) else a;
        match Added(r, cfg, base, start, b, true, v)
        case None => (base, start, false)
        case Some((row, c)) => (base + [row], c, true)
  }

  // ---------------------------------------------------------------- the ledger invariant

  /** Heights count up from 0, blocks are hash-linked and carry their own hash. */
  ghost predicate Linked(r: Rules, rows: seq<Block>) {
    && Contiguous(rows)
    && (forall i | 0 <= i < |rows| :: rows[i].hash == r.digest(HeaderOf(rows[i])))
    && (forall i | 0 < i < |rows| :: LinkedAt(rows, i))
  }

  ghost predicate LinkedAt(rows: seq<Block>, i: int) {
    0 < i < |rows| && rows[i].parentHash == rows[i - 1].hash
  }

  /** Every stored state root is the root of its own prefix of blocks. */
  ghost predicate Rooted(r: Rules, alloc: Accounts, rows: seq<Block>) {
    forall i | 0 <= i < |rows| ::
      Replayed(r, alloc, rows, i).Some? && rows[i].stateRoot == r.root(Replayed(r, alloc, rows, i).value)
  }

  ghost predicate ChainOk(r: Rules, alloc: Accounts, rows: seq<Block>) {
    rows != [] && Linked(r, rows) && Rooted(r, alloc, rows)
  }

  /** The live accounts are the fold of the blocks over the genesis allocation. */
  ghost predicate Canonical(r: Rules, alloc: Accounts, rows: seq<Block>, a: Accounts) {
    ChainOk(r, alloc, rows) && Replayed(r, alloc, rows, |rows| - 1) == Some(a)
  }

  /** Replay looks only at the prefix it replays. */
  lemma {:induction false} ReplayedPrefix(r: Rules, alloc: Accounts, rows: seq<Block>, more: seq<Block>, n: nat)
    requires n < |rows| && rows <= more
    ensures Replayed(r, alloc, more, n) == Replayed(r, alloc, rows, n)
  {
    if n > 0 { ReplayedPrefix(r, alloc, rows, more, n - 1); }
  }

  lemma ChainPrefix(r: Rules, alloc: Accounts, rows: seq<Block>, n: nat)
    requires ChainOk(r, alloc, rows) && 0 < n <= |rows|
    ensures ChainOk(r, alloc, rows[..n])
  {
    var cut := rows[..n];
    forall i | 0 < i < |cut| ensures LinkedAt(cut, i) {
      assert LinkedAt(rows, i);
    }
    forall i | 0 <= i < |cut|
      ensures Replayed(r, alloc, cut, i).Some? && cut[i].stateRoot == r.root(Replayed(r, alloc, cut, i).value)
    {
      ReplayedPrefix(r, alloc, cut, rows, i);
      assert cut[i] == rows[i];
    }
  }

  /** The reorg loop recomputes the fold, from whichever rows survive. */
  lemma {:induction false} ReplayRowsIsReplay(r: Rules, alloc: Accounts, rows: seq<Block>, n: nat)
    requires Contiguous(rows) && n < |rows|
    ensures ReplayRows(r, alloc, rows, n) == Replayed(r, alloc, rows, n)
  {
    if n > 0 {
      ReplayRowsIsReplay(r, alloc, rows, n - 1);
      GetBlockContiguous(rows, n);
    }
  }

  /** What an accepted block looks like once sealed. */
  lemma AddedRow(r: Rules, cfg: Config, rows: seq<Block>, a: Accounts, b: Block, preserve: bool, v: Verdicts)
    requires rows != [] && Contiguous(rows) && Added(r, cfg, rows, a, b, preserve, v).Some?
    ensures var (row, c) := Added(r, cfg, rows, a, b, preserve, v).value;
            && row.height == |rows| && row.parentHash == rows[|rows| - 1].hash && row.hash == r.digest(HeaderOf(row))
            && ApplyBlock(r, a, row) == Some(c) && row.stateRoot == r.root(c)
            && row.txs == b.txs && row.miner == b.miner
  {
  }

  lemma ExtendCanonical(r: Rules, alloc: Accounts, rows: seq<Block>, a: Accounts, row: Block, c: Accounts)
    requires Canonical(r, alloc, rows, a)
    requires row.height == |rows| && row.parentHash == rows[|rows| - 1].hash && row.hash == r.digest(HeaderOf(row))
    requires ApplyBlock(r, a, row) == Some(c) && row.stateRoot == r.root(c)
    ensures Canonical(r, alloc, rows + [row], c)
  {
    hide ApplyBlock, HeaderOf;
    var more := rows + [row];
    forall i | 0 < i < |more| ensures LinkedAt(more, i) {
      if i < |rows| { assert LinkedAt(rows, i); }
    }
    ReplayedPrefix(r, alloc, rows, more, |rows| - 1);
    assert Replayed(r, alloc, more, |rows|) == Some(c) by { assert more[|rows|] == row; }
    forall i | 0 <= i < |more|
      ensures Replayed(r, alloc, more, i).Some? && more[i].stateRoot == r.root(Replayed(r, alloc, more, i).value)
    {
      if i < |rows| {
        ReplayedPrefix(r, alloc, rows, more, i);
        assert more[i] == rows[i];
      }
    }
  }

  lemma AddKeepsCanonical(r: Rules, cfg: Config, alloc: Accounts, rows: seq<Block>, a: Accounts, b: Block, preserve: bool, v: Verdicts)
    requires Canonical(r, alloc, rows, a) && Added(r, cfg, rows, a, b, preserve, v).Some?
    ensures var (row, c) := Added(r, cfg, rows, a, b, preserve, v).value;
            Canonical(r, alloc, rows + [row], c) && row.txs == b.txs && row.miner == b.miner && row.height == |rows|
  {
    var (row, c) := Added(r, cfg, rows, a, b, preserve, v).value;
    AddedRow(r, cfg, rows, a, b, preserve, v);
    ExtendCanonical(r, alloc, rows, a, row, c);
  }

  /** Replaying a kept prefix always succeeds and meets the root stored at its end. */
  lemma PrefixReplays(r: Rules, alloc: Accounts, rows: seq<Block>, h: nat)
    requires ChainOk(r, alloc, rows) && h < |rows|
    ensures var cut := rows[..h + 1];
            && GetBlock(cut, h) == Some(rows[h])
            && ReplayRows(r, alloc, cut, h).Some?
            && rows[h].stateRoot == r.root(ReplayRows(r, alloc, cut, h).value)
            && Canonical(r, alloc, cut, ReplayRows(r, alloc, cut, h).value)
  {
    var cut := rows[..h + 1];
    ChainPrefix(r, alloc, rows, h + 1);
    ReplayRowsIsReplay(r, alloc, cut, h);
    GetBlockContiguous(cut, h);
    assert cut[h] == rows[h] && cut[h].stateRoot == r.root(Replayed(r, alloc, cut, h).value);
  }

  lemma ReorgComputes(r: Rules, cfg: Config, alloc: Accounts, rows: seq<Block>, a: Accounts, h: int, floor: nat,
                      cut: seq<Block>, b: Accounts, x: Block)
    requires !(floor > 0 && h < floor) && h <= Tip(rows)
    requires cut == if h >= Tip(rows) then rows else TruncateAbove(rows, h)
    requires ReplayRows(r, alloc, cut, h) == Some(b) && GetBlock(cut, h) == Some(x) && x.stateRoot == r.root(b)
    ensures Reorged(r, cfg, alloc, rows, a, h, floor) == (cut, b, true)
  {
  }

  lemma ReorgKeepsPrefix(r: Rules, cfg: Config, alloc: Accounts, rows: seq<Block>, a: Accounts, h: nat, floor: nat)
    returns (b: Accounts)
    requires ChainOk(r, alloc, rows) && h < |rows| && !(floor > 0 && h < floor)
    ensures Reorged(r, cfg, alloc, rows, a, h, floor) == (rows[..h + 1], b, true)
    ensures Canonical(r, alloc, rows[..h + 1], b)
  {
    PrefixReplays(r, alloc, rows, h);
    TruncateContiguous(rows, h);
    TipContiguous(rows);
    var cut := rows[..h + 1];
    assert h == |rows| - 1 ==> cut == rows;
    b := ReplayRows(r, alloc, cut, h).value;
    ReorgComputes(r, cfg, alloc, rows, a, h, floor, cut, b, rows[h]);
  }

  lemma TipContiguous(rows: seq<Block>)
    requires Contiguous(rows) && rows != []
    ensures Tip(rows) == |rows| - 1
  {
  }

  /** On a canonical chain a reorg is refused exactly by the floor; otherwise it keeps the prefix and restores its state. */
  lemma ReorgOutcome(r: Rules, cfg: Config, alloc: Accounts, rows: seq<Block>, a: Accounts, h: int, floor: nat)
    requires ChainOk(r, alloc, rows) && h >= 0
    ensures var (rows', a', ok) := Reorged(r, cfg, alloc, rows, a, h, floor);
            && (ok <==> !(floor > 0 && h < floor))
            && (!ok || h >= |rows| ==> rows' == rows && a' == a)
            && (ok && h < |rows| ==> rows' == rows[..h + 1] && Canonical(r, alloc, rows', a'))
  {
    TipContiguous(rows);
    if !(floor > 0 && h < floor) && h < |rows| {
      var b := ReorgKeepsPrefix(r, cfg, alloc, rows, a, h, floor);
    }
  }

  /** A negative target is no ancestor: with no finalised floor it erases the chain, genesis included. */
  lemma NegativeReorgErasesGenesis(r: Rules, cfg: Config, alloc: Accounts, rows: seq<Block>, a: Accounts, h: int, floor: nat)
    requires ChainOk(r, alloc, rows) && h < 0
    ensures var (rows', a', ok) := Reorged(r, cfg, alloc, rows, a, h, floor);
            if floor > 0 then rows' == rows && a' == a && !ok else rows' == [] && a' == alloc && ok
  {
    TruncateContiguous(rows, h);
  }

  /** The genesis row survives a reorg exactly when the target is a height or a floor is in force. */
  lemma GenesisSurvivesIff(r: Rules, cfg: Config, alloc: Accounts, rows: seq<Block>, a: Accounts, h: int, floor: nat)
    requires ChainOk(r, alloc, rows)
    ensures var rows' := Reorged(r, cfg, alloc, rows, a, h, floor).0;
            (rows' != [] && rows'[0] == rows[0]) <==> (h >= 0 || floor > 0)
  {
    if h >= 0 {
      ReorgOutcome(r, cfg, alloc, rows, a, h, floor);
    } else {
      NegativeReorgErasesGenesis(r, cfg, alloc, rows, a, h, floor);
    }
  }

  /**
   * Repair. From arbitrary drifted accounts, `ensure_state_at_tip` answers true with the chain
   * unchanged and the canonical accounts back in place, exactly when there was no drift, or the tip
   * is above genesis and not below the finalised floor.
   */
  lemma RepairIff(r: Rules, cfg: Config, alloc: Accounts, rows: seq<Block>, a: Accounts, floor: nat)
    requires CollisionFree(r) && ChainOk(r, alloc, rows)
    ensures var (rows', a', ok) := Ensured(r, cfg, alloc, rows, a, floor);
            (ok && rows' == rows && Canonical(r, alloc, rows, a'))
            <==> Canonical(r, alloc, rows, a) || (|rows| > 1 && !(floor > 0 && |rows| - 1 < floor))
  {
    var h := |rows| - 1;
    GetBlockContiguous(rows, h);
    assert rows[h].stateRoot == r.root(Replayed(r, alloc, rows, h).value);
    if h > 0 && rows[h].stateRoot != r.root(a) {
      ReorgOutcome(r, cfg, alloc, rows, a, h, floor);
      assert rows[..h + 1] == rows;
    }
  }

  /** At height 0 drift is not repaired: the genesis header is rewritten to the drifted accounts, and the answer is true. */
  lemma GenesisDriftIsAdopted(r: Rules, cfg: Config, alloc: Accounts, rows: seq<Block>, a: Accounts, floor: nat)
    requires CollisionFree(r) && ChainOk(r, alloc, rows) && |rows| == 1 && a != alloc
    ensures var (rows', a', ok) := Ensured(r, cfg, alloc, rows, a, floor);
            ok && a' == a && rows'[0].stateRoot == r.root(a) && rows'[0].stateRoot != r.root(alloc)
  {
  }

  // ---------------------------------------------------------------- exactly which blocks are accepted

  /** The block sits on the tip. */
  ghost predicate OnTip(rows: seq<Block>, b: Block)
    requires rows != []
  {
    b.height == |rows| && b.parentHash == rows[|rows| - 1].hash
  }

  ghost predicate AllHold(v: Verdicts) { v.proposer && v.signatures && v.proposal && v.persisted }

  /** A peer's root is binding above the baseline, and for a relayed block only in strict mode. */
  ghost predicate BindingRoot(cfg: Config, b: Block, preserve: bool) {
    cfg.verifyPeerRoot && |b.stateRoot| >= ROOT_LENGTH && b.height > cfg.baseline && (preserve ==> cfg.strictP2p)
  }

  lemma StrictIff(cfg: Config, height: int, peerRoot: string, preserve: bool)
    ensures RootCheckMode(cfg, height, peerRoot, preserve) == Strict <==>
              cfg.verifyPeerRoot && |peerRoot| >= ROOT_LENGTH && height > cfg.baseline && (preserve ==> cfg.strictP2p)
    ensures RootCheckMode(cfg, height, peerRoot, preserve) == Skip <==> !cfg.verifyPeerRoot || peerRoot == ""
  {
  }

  /** The row that stores a block whose execution leaves accounts `c`. */
  function SealedRow(r: Rules, b: Block, c: Accounts): Block {
    var rooted := b.(stateRoot := r.root(c));
    rooted.(hash := r.digest(HeaderOf(rooted)))
  }

  /**
   * On a canonical ledger a local block is accepted exactly when it sits on the tip, every check holds and
   * its transactions apply; a block that keeps its peer's header also needs that header to be right where
   * it binds: a binding root must be the computed one, and a given hash must be that of the sealed block.
   */
  lemma AddAcceptsIff(r: Rules, cfg: Config, alloc: Accounts, rows: seq<Block>, a: Accounts, b: Block, preserve: bool, v: Verdicts)
    requires Canonical(r, alloc, rows, a) && b.height != 0
    ensures Added(r, cfg, rows, a, b, preserve, v).Some? <==>
            && OnTip(rows, b) && AllHold(v) && ApplyBlock(r, a, b).Some?
            && (preserve && b.stateRoot != r.root(ApplyBlock(r, a, b).value) ==> !BindingRoot(cfg, b, preserve))
            && (preserve && b.hash != "" ==> b.hash == SealedRow(r, b, ApplyBlock(r, a, b).value).hash)
    ensures Added(r, cfg, rows, a, b, preserve, v).Some? ==>
              Added(r, cfg, rows, a, b, preserve, v).value
              == (SealedRow(r, b, ApplyBlock(r, a, b).value), ApplyBlock(r, a, b).value)
  {
    hide ApplyBlock, HeaderOf;
    GetBlockContiguous(rows, b.height);
  }

  /**
   * On a canonical ledger a peer's block above genesis is imported exactly when it is well-shaped, sits on
   * the tip, every check holds, its transactions apply, and it carries its own hash and the root of its own
   * execution.
   */
  lemma ImportAcceptsIff(r: Rules, cfg: Config, alloc: Accounts, rows: seq<Block>, a: Accounts, b: Block, shape: bool, v: Verdicts)
    requires CollisionFree(r) && Canonical(r, alloc, rows, a) && b.height != 0
    ensures Imported(r, cfg, alloc, rows, a, b, shape, v).2 <==>
            && shape && OnTip(rows, b) && AllHold(v) && b.hash == r.digest(HeaderOf(b))
            && ApplyBlock(r, a, b).Some? && b.stateRoot == r.root(ApplyBlock(r, a, b).value)
  {
    hide ApplyBlock, Added;
    GetBlockContiguous(rows, b.height);
    AddAcceptsIff(r, cfg, alloc, rows, a, b, true, v);
    if ApplyBlock(r, a, b).Some? {
      var root := r.root(ApplyBlock(r, a, b).value);
      assert HeaderOf(b.(stateRoot := root)).stateRoot == root;
      assert b.stateRoot == root ==> HeaderOf(b.(stateRoot := root)) == HeaderOf(b);
    }
  }

  /** The node holds no block and is offered a genesis block of its own kind. */
  ghost predicate IsGenesisOffer(b: Block) { b.height == 0 && b.txs == [] && b.miner == GENESIS_MINER }

  /**
   * A follower with no blocks imports a genesis exactly when it is well-shaped, names no parent, every check
   * holds, it carries its own hash and a root, and, unless root checks are off, that root is the root of its
   * own seeded balances. With checks off it trusts the root it is given.
   */
  lemma GenesisImportIff(r: Rules, cfg: Config, alloc: Accounts, a: Accounts, b: Block, shape: bool, v: Verdicts)
    requires CollisionFree(r) && IsGenesisOffer(b)
    ensures Imported(r, cfg, alloc, [], a, b, shape, v).2 <==>
            && shape && b.parentHash == GENESIS_HASH && AllHold(v) && b.hash == r.digest(HeaderOf(b)) && b.stateRoot != ""
            && (cfg.verifyPeerRoot ==> b.stateRoot == r.root(Seeded(a, alloc)))
    ensures Imported(r, cfg, alloc, [], a, b, shape, v).2 ==>
              Imported(r, cfg, alloc, [], a, b, shape, v) == ([b], Seeded(a, alloc), true)
  {
    hide Seeded;
    var root := if b.stateRoot != "" then b.stateRoot else r.root(Seeded(a, alloc));
    assert HeaderOf(b.(stateRoot := root)).stateRoot == root;
    assert b.stateRoot == root ==> HeaderOf(b.(stateRoot := root)) == HeaderOf(b);
    assert [] + [b] == [b];
  }

  /** A height-0 block of another kind is executed on the seeded balances, and needs the root of that. */
  lemma ForeignGenesisIff(r: Rules, cfg: Config, alloc: Accounts, a: Accounts, b: Block, shape: bool, v: Verdicts)
    requires CollisionFree(r) && b.height == 0 && !IsGenesisOffer(b)
    ensures Imported(r, cfg, alloc, [], a, b, shape, v).2 <==>
            && shape && b.parentHash == GENESIS_HASH && AllHold(v) && b.hash == r.digest(HeaderOf(b))
            && ApplyBlock(r, Seeded(a, alloc), b).Some? && b.stateRoot == r.root(ApplyBlock(r, Seeded(a, alloc), b).value)
  {
    hide Seeded, ApplyBlock;
    if ApplyBlock(r, Seeded(a, alloc), b).Some? {
      var root := r.root(ApplyBlock(r, Seeded(a, alloc), b).value);
      assert HeaderOf(b.(stateRoot := root)).stateRoot == root;
      assert b.stateRoot == root ==> HeaderOf(b.(stateRoot := root)) == HeaderOf(b);
    }
  }

  /** With no blocks stored, only a genesis is imported; a local block may have height 0 or 1, whatever parent it names. */
  lemma EmptyNode(r: Rules, cfg: Config, alloc: Accounts, a: Accounts, b: Block, shape: bool, v: Verdicts)
    ensures b.height != 0 ==> Imported(r, cfg, alloc, [], a, b, shape, v) == ([], a, false)
    ensures Added(r, cfg, [], a, b, false, v).Some? <==>
              (b.height == 0 || b.height == 1) && AllHold(v) && ApplyBlock(r, a, b).Some?
  {
    hide ApplyBlock, HeaderOf;
  }

  /** With no blocks stored, a reorg to any height above 0 does nothing and answers true. */
  lemma EmptyReorg(r: Rules, cfg: Config, alloc: Accounts, a: Accounts, h: int, floor: nat)
    requires h > 0 && !(floor > 0 && h < floor)
    ensures Reorged(r, cfg, alloc, [], a, h, floor) == ([], a, true)
  {
  }

  /** A header that already carries the root is left alone, and so is every other row. */
  lemma AlignedTouchesStale(r: Rules, cfg: Config, rows: seq<Block>, h: int, live: string, i: nat)
    requires i < |rows| && (rows[i].height != h || rows[i].stateRoot == live)
    ensures |Aligned(r, cfg, rows, h, live)| == |rows| && Aligned(r, cfg, rows, h, live)[i] == rows[i]
  {
  }

  /** A replacement of the genesis is an import into an empty node, and any other block at a stored height is refused. */
  lemma OtherImports(r: Rules, cfg: Config, alloc: Accounts, rows: seq<Block>, a: Accounts, b: Block, shape: bool, v: Verdicts)
    ensures ReplacesGenesis(rows, b) ==>
              Imported(r, cfg, alloc, rows, a, b, shape, v) == Imported(r, cfg, alloc, [], a, b, shape, v)
    ensures GetBlock(rows, b.height).Some? && !ReplacesGenesis(rows, b) ==>
              Imported(r, cfg, alloc, rows, a, b, shape, v) == (rows, a, false)
  {
    hide Added;
  }

  /**
   * A stale root in the header of the tip: replay restores the accounts and answers true, and the header is
   * rewritten to their root exactly where a rewrite is allowed.
   */
  lemma StaleTipIff(r: Rules, cfg: Config, alloc: Accounts, rows: seq<Block>, a: Accounts, floor: nat)
    requires CollisionFree(r) && Contiguous(rows) && |rows| > 1 && floor < |rows|
    requires Replayed(r, alloc, rows, |rows| - 1).Some?
    requires rows[|rows| - 1].stateRoot != "" && rows[|rows| - 1].stateRoot != r.root(Replayed(r, alloc, rows, |rows| - 1).value)
    ensures var (h, b) := (|rows| - 1, Replayed(r, alloc, rows, |rows| - 1).value);
            var (rows', a', ok) := Reorged(r, cfg, alloc, rows, a, h, floor);
            && ok && a' == b
            && (!cfg.isProduction || cfg.allowRootRewrite ==> rows' == rows[..h] + [SealedRow(r, rows[h], b)])
            && (cfg.isProduction && !cfg.allowRootRewrite ==> rows' == rows)
  {
    hide Replayed, ReplayRows, HeaderOf;
    var h := |rows| - 1;
    ReplayRowsIsReplay(r, alloc, rows, h);
    GetBlockContiguous(rows, h);
    TipContiguous(rows);
    var b := Replayed(r, alloc, rows, h).value;
    assert r.root(b) != "" && rows[..h] + [rows[h]] == rows;
    var fixed := Aligned(r, cfg, rows, h, r.root(b));
    assert Reorged(r, cfg, alloc, rows, a, h, floor) == (fixed, b, true);
    if !cfg.isProduction || cfg.allowRootRewrite {
      assert forall i | 0 <= i < h :: fixed[i] == rows[i];
      assert fixed == rows[..h] + [SealedRow(r, rows[h], b)];
    }
  }

  /** Whatever the configured check mode, an imported block carries the true root of its own execution. */
  lemma ImportedRootIsTrue(r: Rules, cfg: Config, alloc: Accounts, rows: seq<Block>, a: Accounts, b: Block, shape: bool, v: Verdicts)
    requires CollisionFree(r) && Canonical(r, alloc, rows, a) && !ReplacesGenesis(rows, b)
    requires Imported(r, cfg, alloc, rows, a, b, shape, v).2
    ensures ApplyBlock(r, a, b).Some? && b.stateRoot == r.root(ApplyBlock(r, a, b).value)
    ensures Imported(r, cfg, alloc, rows, a, b, shape, v) == (rows + [b], ApplyBlock(r, a, b).value, true)
  {
  }

  /** A refused import leaves a non-empty chain and its accounts untouched, except when it replaces the genesis. */
  lemma RefusedImportUnchangedIff(r: Rules, cfg: Config, alloc: Accounts, rows: seq<Block>, a: Accounts, b: Block, shape: bool, v: Verdicts)
    requires Canonical(r, alloc, rows, a) && !Imported(r, cfg, alloc, rows, a, b, shape, v).2
    ensures var (rows', a', ok) := Imported(r, cfg, alloc, rows, a, b, shape, v);
            (rows' == rows && a' == a) <==> !ReplacesGenesis(rows, b)
  {
  }

  /** Rolling back one block undoes it completely. */
  lemma AddThenReorgRestores(r: Rules, cfg: Config, alloc: Accounts, rows: seq<Block>, a: Accounts, b: Block,
                             preserve: bool, v: Verdicts, floor: nat)
    requires Canonical(r, alloc, rows, a) && Added(r, cfg, rows, a, b, preserve, v).Some? && floor < |rows|
    ensures var (row, c) := Added(r, cfg, rows, a, b, preserve, v).value;
            Reorged(r, cfg, alloc, rows + [row], c, |rows| - 1, floor) == (rows, a, true)
  {
    hide Added, Reorged, ApplyBlock, Linked, Rooted;
    var (row, c) := Added(r, cfg, rows, a, b, preserve, v).value;
    AddKeepsCanonical(r, cfg, alloc, rows, a, b, preserve, v);
    ReorgOutcome(r, cfg, alloc, rows + [row], c, |rows| - 1, floor);
    assert (rows + [row])[..|rows|] == rows;
  }

  // ---------------------------------------------------------------- whole runs

  datatype Step =
    | Add(block: Block, verdicts: Verdicts)
    | Import(block: Block, shape: bool, verdicts: Verdicts)
    | Reorg(height: int, floor: nat)
    | Repair(floor: nat)

  datatype Node = Node(rows: seq<Block>, accounts: Accounts)

  function Next(r: Rules, cfg: Config, alloc: Accounts, s: Node, step: Step): Node {
    match step
    case Add(b, v) =>
      (match Added(r, cfg, s.rows, s.accounts, b, false, v)
       case None => s
       case Some((row, c)) => Node(s.rows + [row], c))
    case Import(b, shape, v) =>
      var (rows, a, ok) := Imported(r, cfg, alloc, s.rows, s.accounts, b, shape, v);
      Node(rows, a)
    case Reorg(h, floor) =>
      var (rows, a, ok) := Reorged(r, cfg, alloc, s.rows, s.accounts, h, floor);
      Node(rows, a)
    case Repair(floor) =>
      var (rows, a, ok) := Ensured(r, cfg, alloc, s.rows, s.accounts, floor);
      Node(rows, a)
  }

  /** The step does not ask to replace or drop the genesis block. */
  ghost predicate KeepsGenesis(genesis: Block, step: Step) {
    && (step.Import? && step.block.height == 0 ==> step.block.hash == genesis.hash)
    && (step.Reorg? ==> step.height >= 0 || step.floor > 0)
  }

  function RunFrom(r: Rules, cfg: Config, alloc: Accounts, s: Node, steps: seq<Step>): Node {
    if steps == [] then s
    else Next(r, cfg, alloc, RunFrom(r, cfg, alloc, s, steps[..|steps| - 1]), steps[|steps| - 1])
  }

  /** `_ensure_genesis`: block 0 carries the root of the minted allocation. */
  ghost predicate IsGenesis(r: Rules, alloc: Accounts, g: Block) {
    g.height == 0 && g.stateRoot == r.root(alloc) && g.hash == r.digest(HeaderOf(g))
  }

  lemma NextKeepsCanonical(r: Rules, cfg: Config, alloc: Accounts, s: Node, step: Step)
    requires CollisionFree(r) && Canonical(r, alloc, s.rows, s.accounts) && KeepsGenesis(s.rows[0], step)
    ensures var s' := Next(r, cfg, alloc, s, step);
            Canonical(r, alloc, s'.rows, s'.accounts) && s'.rows[0] == s.rows[0]
  {
    match step {
      case Add(b, v) =>
        if Added(r, cfg, s.rows, s.accounts, b, false, v).Some? {
          AddKeepsCanonical(r, cfg, alloc, s.rows, s.accounts, b, false, v);
        }
      case Import(b, shape, v) =>
        GetBlockContiguous(s.rows, 0);
        if Imported(r, cfg, alloc, s.rows, s.accounts, b, shape, v).2 {
          AddKeepsCanonical(r, cfg, alloc, s.rows, s.accounts, b, true, v);
        }
      case Reorg(h, floor) =>
        if h >= 0 { ReorgOutcome(r, cfg, alloc, s.rows, s.accounts, h, floor); }
        else { NegativeReorgErasesGenesis(r, cfg, alloc, s.rows, s.accounts, h, floor); }
      case Repair(floor) =>
        GetBlockContiguous(s.rows, |s.rows| - 1);
    }
  }

  /**
   * History independence. In every run of add, import, reorg and repair steps that keeps the genesis,
   * heights are contiguous, blocks are hash-linked, every stored root is the root of its own prefix,
   * and the live accounts are the fold of the surviving blocks, whatever path led there.
   */
  lemma {:induction false} HistoryIndependence(r: Rules, cfg: Config, alloc: Accounts, g: Block, steps: seq<Step>)
    requires CollisionFree(r) && IsGenesis(r, alloc, g)
    requires forall step | step in steps :: KeepsGenesis(g, step)
    ensures var s := RunFrom(r, cfg, alloc, Node([g], alloc), steps);
            Canonical(r, alloc, s.rows, s.accounts) && s.rows[0] == g
  {
    if steps != [] {
      HistoryIndependence(r, cfg, alloc, g, steps[..|steps| - 1]);
      NextKeepsCanonical(r, cfg, alloc, RunFrom(r, cfg, alloc, Node([g], alloc), steps[..|steps| - 1]), steps[|steps| - 1]);
    }
  }

  // ---------------------------------------------------------------- the tip hash determines everything below it

  lemma {:induction false} SameHashesBelow(r: Rules, p: seq<Block>, q: seq<Block>, n: nat, k: nat)
    requires CollisionFree(r) && Linked(r, p) && Linked(r, q) && k <= n < |p| && n < |q| && p[n].hash == q[n].hash
    ensures p[n - k].hash == q[n - k].hash
  {
    if k > 0 {
      SameHashesBelow(r, p, q, n, k - 1);
      var i := n - k + 1;
      assert HeaderOf(p[i]) == HeaderOf(q[i]);
      assert LinkedAt(p, i) && LinkedAt(q, i);
    }
  }

  /**
   * Two ledgers with the same tip hash, on whatever allocation and by whatever history, have the
   * same length, the same hash, header and state root at every height, and the same live accounts,
   * although the order of transactions inside a block is not covered by its hash.
   */
  lemma TipHashDetermines(r: Rules, alloc1: Accounts, p: seq<Block>, a: Accounts, alloc2: Accounts, q: seq<Block>, b: Accounts)
    requires CollisionFree(r) && Canonical(r, alloc1, p, a) && Canonical(r, alloc2, q, b)
    requires p[|p| - 1].hash == q[|q| - 1].hash
    ensures |p| == |q| && a == b && alloc1 == alloc2
    ensures forall i | 0 <= i < |p| :: HeaderOf(p[i]) == HeaderOf(q[i]) && p[i].hash == q[i].hash
  {
    var n := |p| - 1;
    assert HeaderOf(p[n]) == HeaderOf(q[|q| - 1]);
    assert HeaderOf(p[n]).height == n && HeaderOf(q[|q| - 1]).height == |q| - 1;
    forall i | 0 <= i < |p| ensures HeaderOf(p[i]) == HeaderOf(q[i]) && p[i].hash == q[i].hash {
      SameHashesBelow(r, p, q, n, n - i);
      SameHeader(r, p, q, i);
    }
    RootAt(r, alloc1, p, 0);
    RootAt(r, alloc2, q, 0);
    RootAt(r, alloc1, p, n);
    RootAt(r, alloc2, q, n);
    assert HeaderOf(p[0]).stateRoot == HeaderOf(q[0]).stateRoot;
    assert HeaderOf(p[n]).stateRoot == HeaderOf(q[n]).stateRoot;
  }

  lemma SameHeader(r: Rules, p: seq<Block>, q: seq<Block>, i: nat)
    requires CollisionFree(r) && Linked(r, p) && Linked(r, q) && i < |p| && i < |q| && p[i].hash == q[i].hash
    ensures HeaderOf(p[i]) == HeaderOf(q[i])
  {
  }

  lemma RootAt(r: Rules, alloc: Accounts, rows: seq<Block>, i: nat)
    requires ChainOk(r, alloc, rows) && i < |rows|
    ensures Replayed(r, alloc, rows, i).Some? && HeaderOf(rows[i]).stateRoot == r.root(Replayed(r, alloc, rows, i).value)
  {
  }
}
