/** The chain as an object: table rows and live balances written step by step, rolled back on failure. */
module Blockchain {
  import opened Collections
  import opened Ledger

  class Blockchain {
    const rules: Rules
    const config: Config
    const alloc: Accounts
    var rows: seq<Block>
    var accounts: Accounts

    /** `_ensure_genesis`: mint the allocation and store block 0 without executing it. */
    constructor (rules: Rules, config: Config, alloc: Accounts, timestamp: int, extra: string)
      ensures this.rules == rules && this.config == config && this.alloc == alloc
      ensures |rows| == 1 && IsGenesis(rules, alloc, rows[0]) && accounts == alloc
      ensures rows[0].miner == GENESIS_MINER && rows[0].txs == [] && rows[0].parentHash == GENESIS_HASH
    {
      this.rules, this.config, this.alloc := rules, config, alloc;
      var g := Block(0, GENESIS_HASH, GENESIS_MINER, timestamp, extra, [], rules.root(alloc), "");
      rows := [g.(hash := rules.digest(HeaderOf(g)))];
      accounts := alloc;
    }

    /** `add_block`. Everything from execution to commit is one atomic section. */
    method AddBlock(b: Block, preserve: bool, v: Verdicts) returns (ok: bool)
      modifies this`rows, this`accounts
      ensures match Added(rules, config, old(rows), old(accounts), b, preserve, v)
              case None => !ok && rows == old(rows) && accounts == old(accounts)
              case Some((row, c)) => ok && rows == old(rows) + [row] && accounts == c
      ensures old(Canonical(rules, alloc, rows, accounts)) && b.height != 0 && !preserve ==>
                (ok <==> OnTip(old(rows), b) && AllHold(v) && ApplyBlock(rules, old(accounts), b).Some?)
      ensures old(Canonical(rules, alloc, rows, accounts)) && b.height != 0 && ok ==>
                && ApplyBlock(rules, old(accounts), b) == Some(accounts)
                && rows == old(rows) + [SealedRow(rules, b, accounts)]
    {
      hide Canonical, OnTip;
      if Canonical(rules, alloc, rows, accounts) && b.height != 0 {
        AddAcceptsIff(rules, config, alloc, rows, accounts, b, preserve, v);
      }
      if GetBlock(rows, b.height).Some? { return false; }
      if !StructureOk(rows, b) { return false; }
      if !v.proposer || !v.signatures { return false; }
      var peerRoot := if preserve then b.stateRoot else "";
      var snapshot := accounts;
      var skip := SkipsMutations(b, preserve);
      if !skip {
        var applied := ExecuteBlock(b);
        if !applied { accounts := snapshot; return false; }
      }
      var computed := rules.root(accounts);
      if peerRoot != "" {
        var mode := RootCheckMode(config, b.height, peerRoot, preserve);
        if mode != Skip && peerRoot != computed && (mode == Strict || skip) {
          accounts := snapshot;
          return false;
        }
      }
      var sealed := b.(stateRoot := if skip && peerRoot != "" then peerRoot else computed);
      var canonical := rules.digest(HeaderOf(sealed));
      if preserve && b.hash != "" && b.hash != canonical {
        accounts := snapshot;
        return false;
      }
      if !v.proposal || !v.persisted {
        accounts := snapshot;
        return false;
      }
      rows := rows + [sealed.(hash := canonical)];
      return true;
    }

    /** Transactions in order, then the reward; a failing transaction stops the loop half way. */
    method ExecuteBlock(b: Block) returns (ok: bool)
      modifies this`accounts
      ensures ok == ApplyBlock(rules, old(accounts), b).Some?
      ensures ok ==> accounts == ApplyBlock(rules, old(accounts), b).value
    {
      var i := 0;
      while i < |b.txs|
        invariant 0 <= i <= |b.txs|
        invariant ApplyTxs(rules, old(accounts), b.txs[..i], b.height, b.miner) == Some(accounts)
      {
        var result := rules.applyTx(accounts, b.txs[i], b.height, b.miner);
        assert b.txs[..i + 1][..i] == b.txs[..i];
        if result.None? {
          FailureSticks(rules, old(accounts), b.txs, i + 1, b.height, b.miner);
          return false;
        }
        accounts := result.value;
        i := i + 1;
      }
      assert b.txs[..i] == b.txs;
      accounts := rules.reward(accounts, b.miner);
      return true;
    }

    /** `import_block`. */
    method ImportBlock(b: Block, shape: bool, v: Verdicts) returns (ok: bool)
      modifies this`rows, this`accounts
      ensures (rows, accounts, ok) == Imported(rules, config, alloc, old(rows), old(accounts), b, shape, v)
      ensures CollisionFree(rules) && old(Canonical(rules, alloc, rows, accounts)) && b.height != 0 ==>
                (ok <==> && shape && OnTip(old(rows), b) && AllHold(v) && b.hash == rules.digest(HeaderOf(b))
                         && ApplyBlock(rules, old(accounts), b).Some?
                         && b.stateRoot == rules.root(ApplyBlock(rules, old(accounts), b).value))
    {
      if CollisionFree(rules) && Canonical(rules, alloc, rows, accounts) && b.height != 0 {
        ImportAcceptsIff(rules, config, alloc, rows, accounts, b, shape, v);
      }
      var existing := GetBlock(rows, b.height);
      if existing.Some? && b.height == 0 && existing.value.hash != b.hash {
        rows := [];
      } else if existing.Some? {
        return false;
      }
      if !shape { return false; }
      if !ImportGate(rules, rows, b) { return false; }
      if b.height == 0 && rows == [] {
        accounts := Seeded(accounts, alloc);
      }
      ok := AddBlock(b, true, v);
    }

    /** `reorg_to_ancestor`: cut, reset to the allocation, replay; every failure rolls all of it back. */
    method ReorgToAncestor(h: int, floor: nat) returns (ok: bool)
      modifies this`rows, this`accounts
      ensures (rows, accounts, ok) == Reorged(rules, config, alloc, old(rows), old(accounts), h, floor)
    {
      if floor > 0 && h < floor { return false; }
      var tip := Tip(rows);
      if h > tip { return true; }
      var snapshotRows, snapshotAccounts := rows, accounts;
      var replayOnly := h >= tip;
      if !replayOnly {
        rows := TruncateAbove(rows, h);
      }
      accounts := alloc;
      var k := 1;
      while k < h + 1
        invariant 1 <= k && (k <= h + 1 || k == 1)
        invariant ReplayRows(rules, alloc, rows, k - 1) == Some(accounts)
        invariant rows == if replayOnly then old(rows) else TruncateAbove(old(rows), h)
      {
        var row := GetBlock(rows, k);
        if row.None? {
          ReplayFailureSticks(rules, alloc, rows, k, h);
          rows, accounts := snapshotRows, snapshotAccounts;
          return false;
        }
        var applied := ExecuteBlock(row.value);
        if !applied {
          ReplayFailureSticks(rules, alloc, rows, k, h);
          rows, accounts := snapshotRows, snapshotAccounts;
          return false;
        }
        k := k + 1;
      }
      assert ReplayRows(rules, alloc, rows, h) == Some(accounts);
      var root := rules.root(accounts);
      var ancestor := GetBlock(rows, h);
      if ancestor.Some? && ancestor.value.stateRoot != "" && ancestor.value.stateRoot != root {
        if !replayOnly {
          rows, accounts := snapshotRows, snapshotAccounts;
          return false;
        }
        rows := Aligned(rules, config, rows, h, root);
      }
      return true;
    }

    /** `ensure_state_at_tip`. */
    method EnsureStateAtTip(floor: nat) returns (ok: bool)
      modifies this`rows, this`accounts
      ensures (rows, accounts, ok) == Ensured(rules, config, alloc, old(rows), old(accounts), floor)
    {
      var h := Tip(rows);
      var tip := GetBlock(rows, h);
      if tip.None? { return true; }
      var expected := tip.value.stateRoot;
      if expected == "" { return true; }
      var current := rules.root(accounts);
      if current == expected { return true; }
      if h == 0 {
        rows := Aligned(rules, config, rows, 0, current);
        var g := GetBlock(rows, 0);
        return g.Some? && g.value.stateRoot == current;
      }
      ok := ReorgToAncestor(h, floor);
    }
  }

  lemma {:induction false} FailureSticks(r: Rules, a: Accounts, txs: seq<Tx>, i: nat, height: int, miner: string)
    requires i <= |txs| && ApplyTxs(r, a, txs[..i], height, miner).None?
    ensures ApplyTxs(r, a, txs, height, miner).None?
    decreases |txs| - i
  {
    if i == |txs| {
      assert txs[..i] == txs;
    } else {
      assert txs[..i + 1][..i] == txs[..i];
      FailureSticks(r, a, txs, i + 1, height, miner);
    }
  }

  lemma {:induction false} ReplayFailureSticks(r: Rules, alloc: Accounts, rows: seq<Block>, k: int, n: int)
    requires 1 <= k <= n && ReplayRows(r, alloc, rows, k).None?
    ensures ReplayRows(r, alloc, rows, n).None?
    decreases n - k
  {
    if k < n { ReplayFailureSticks(r, alloc, rows, k + 1, n); }
  }
}
