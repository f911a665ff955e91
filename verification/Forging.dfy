/** Choosing transactions for a block under a per-sender nonce cursor (Blockchain.create_block). */
module Forging {
  import opened Ledger
  import opened StableSort

  function BySender(a: string): Tx -> bool { (t: Tx) => t.sender == a }

  /** `nonce_cursor.get(sender, account nonce)` after the transactions in `applied` were taken. */
  function Cursor(applied: seq<Tx>, nonceOf: string -> int, a: string): int {
    if applied == [] then nonceOf(a)
    else if applied[|applied| - 1].sender == a then applied[|applied| - 1].nonce + 1
    else Cursor(applied[..|applied| - 1], nonceOf, a)
  }

  /** The transactions taken: nonce on the cursor, and accepted by the remaining checks `valid`. */
  function Selected(txs: seq<Tx>, nonceOf: string -> int, valid: Tx -> bool): seq<Tx> {
    if txs == [] then []
    else
      var applied := Selected(txs[..|txs| - 1], nonceOf, valid);
      var t := txs[|txs| - 1];
      if t.nonce == Cursor(applied, nonceOf, t.sender) && valid(t) then applied + [t] else applied
  }

  /** Every sender's transactions run gap-free upwards from its account nonce. */
  ghost predicate NonceChains(txs: seq<Tx>, nonceOf: string -> int) {
    forall a :: NonceChain(Filter(txs, BySender(a)), nonceOf(a))
  }

  ghost predicate NonceChain(run: seq<Tx>, start: int) {
    forall i | 0 <= i < |run| :: run[i].nonce == start + i
  }

  lemma {:induction false} CursorCounts(txs: seq<Tx>, nonceOf: string -> int, a: string)
    requires NonceChain(Filter(txs, BySender(a)), nonceOf(a))
    ensures Cursor(txs, nonceOf, a) == nonceOf(a) + |Filter(txs, BySender(a))|
  {
    if txs != [] && txs[|txs| - 1].sender != a {
      CursorCounts(txs[..|txs| - 1], nonceOf, a);
    } else if txs != [] {
      var run := Filter(txs, BySender(a));
      assert run[|run| - 1] == txs[|txs| - 1];
    }
  }

  /** Whatever is offered, the block's transactions form nonce chains. */
  lemma {:induction false} SelectedChains(txs: seq<Tx>, nonceOf: string -> int, valid: Tx -> bool)
    ensures NonceChains(Selected(txs, nonceOf, valid), nonceOf)
  {
    hide Cursor;
    if txs != [] {
      var init, t := txs[..|txs| - 1], txs[|txs| - 1];
      SelectedChains(init, nonceOf, valid);
      var applied := Selected(init, nonceOf, valid);
      forall a ensures NonceChain(Filter(Selected(txs, nonceOf, valid), BySender(a)), nonceOf(a)) {
        assert NonceChain(Filter(applied, BySender(a)), nonceOf(a));
        CursorCounts(applied, nonceOf, a);
        FilterSnoc(applied, t, BySender(a));
      }
    }
  }

  /** Offered transactions that pass the other checks are all taken exactly when they already form nonce chains. */
  lemma {:induction false} AllSelectedIff(txs: seq<Tx>, nonceOf: string -> int, valid: Tx -> bool)
    requires forall t | t in txs :: valid(t)
    ensures Selected(txs, nonceOf, valid) == txs <==> NonceChains(txs, nonceOf)
  {
    SelectedChains(txs, nonceOf, valid);
    if NonceChains(txs, nonceOf) { ChainsSelected(txs, nonceOf, valid); }
  }

  lemma {:induction false} ChainsSelected(txs: seq<Tx>, nonceOf: string -> int, valid: Tx -> bool)
    requires NonceChains(txs, nonceOf) && forall t | t in txs :: valid(t)
    ensures Selected(txs, nonceOf, valid) == txs
  {
    if txs != [] {
      var init, t := txs[..|txs| - 1], txs[|txs| - 1];
      assert txs == init + [t];
      forall a ensures NonceChain(Filter(init, BySender(a)), nonceOf(a)) {
        assert NonceChain(Filter(txs, BySender(a)), nonceOf(a));
        FilterSnoc(init, t, BySender(a));
        var (short, long) := (Filter(init, BySender(a)), Filter(txs, BySender(a)));
        assert forall i | 0 <= i < |short| :: short[i] == long[i];
      }
      ChainsSelected(init, nonceOf, valid);
      var run := Filter(txs, BySender(t.sender));
      FilterSnoc(init, t, BySender(t.sender));
      assert NonceChain(run, nonceOf(t.sender)) && run[|run| - 1] == t;
      CursorCounts(init, nonceOf, t.sender);
    }
  }

  // ---------------------------------------------------------------- exactly which transactions are taken

  /** How many of the increasing positions come before `k`. */
  ghost function Earlier(picks: seq<nat>, k: nat): (n: nat)
    ensures n <= |picks|
  {
    if picks == [] then 0
    else if picks[|picks| - 1] < k then |picks|
    else Earlier(picks[..|picks| - 1], k)
  }

  /** `taken` are the offered transactions at the positions `picks`, in the order of the offer. */
  ghost predicate PickedInOrder(txs: seq<Tx>, picks: seq<nat>, taken: seq<Tx>) {
    && |picks| == |taken|
    && (forall i | 0 <= i < |picks| :: picks[i] < |txs| && taken[i] == txs[picks[i]])
    && (forall i, j | 0 <= i < j < |picks| :: picks[i] < picks[j])
  }

  /** Offer `k` is valid and on its sender's cursor after the transactions taken before it. */
  ghost predicate Due(txs: seq<Tx>, picks: seq<nat>, taken: seq<Tx>, nonceOf: string -> int, valid: Tx -> bool, k: nat)
    requires k < |txs| && |picks| == |taken|
  {
    valid(txs[k]) && txs[k].nonce == Cursor(taken[..Earlier(picks, k)], nonceOf, txs[k].sender)
  }

  /** Taken are exactly the offers that are valid and on their cursor when their turn comes. */
  ghost predicate TakesDue(txs: seq<Tx>, picks: seq<nat>, taken: seq<Tx>, nonceOf: string -> int, valid: Tx -> bool) {
    && PickedInOrder(txs, picks, taken)
    && forall k: nat | k < |txs| :: k in picks <==> Due(txs, picks, taken, nonceOf, valid, k)
  }

  lemma EarlierAll(picks: seq<nat>, k: nat)
    requires forall i | 0 <= i < |picks| :: picks[i] < k
    ensures Earlier(picks, k) == |picks|
  {
  }

  lemma EarlierAppend(picks: seq<nat>, last: nat, k: nat)
    requires k <= last
    ensures Earlier(picks + [last], k) == Earlier(picks, k)
  {
    assert (picks + [last])[..|picks|] == picks;
  }

  /** Whether offer `k` was due does not depend on what is taken later. */
  lemma DueBefore(txs: seq<Tx>, picks: seq<nat>, taken: seq<Tx>, more: bool, nonceOf: string -> int, valid: Tx -> bool, k: nat)
    requires k < |txs| && |picks| == |taken|
    ensures var n := |txs| - 1;
            var (picks', taken') := if more then (picks + [n], taken + [txs[n]]) else (picks, taken);
            && (k < n ==> (Due(txs, picks', taken', nonceOf, valid, k) <==> Due(txs[..n], picks, taken, nonceOf, valid, k)))
            && (k == n && (forall i | 0 <= i < |picks| :: picks[i] < n) ==>
                  (Due(txs, picks', taken', nonceOf, valid, n) <==>
                     valid(txs[n]) && txs[n].nonce == Cursor(taken, nonceOf, txs[n].sender)))
  {
    hide Cursor;
    var n := |txs| - 1;
    EarlierAppend(picks, n, k);
    assert (taken + [txs[n]])[..Earlier(picks, k)] == taken[..Earlier(picks, k)];
    if k == n && forall i | 0 <= i < |picks| :: picks[i] < n {
      EarlierAll(picks, n);
      assert taken[..|taken|] == taken;
    }
  }

  /** One more offer, taken exactly when it is due. */
  lemma TakesDueMore(txs: seq<Tx>, picks: seq<nat>, taken: seq<Tx>, nonceOf: string -> int, valid: Tx -> bool, more: bool)
    requires txs != [] && TakesDue(txs[..|txs| - 1], picks, taken, nonceOf, valid)
    requires var t := txs[|txs| - 1]; more <==> t.nonce == Cursor(taken, nonceOf, t.sender) && valid(t)
    ensures var n := |txs| - 1;
            if more then TakesDue(txs, picks + [n], taken + [txs[n]], nonceOf, valid) else TakesDue(txs, picks, taken, nonceOf, valid)
  {
    hide Cursor, Due, Earlier;
    var n := |txs| - 1;
    var (picks', taken') := if more then (picks + [n], taken + [txs[n]]) else (picks, taken);
    forall k: nat | k < |txs| ensures k in picks' <==> Due(txs, picks', taken', nonceOf, valid, k) {
      DueBefore(txs, picks, taken, more, nonceOf, valid, k);
    }
  }

  lemma {:induction false} SelectedTakesDue(txs: seq<Tx>, nonceOf: string -> int, valid: Tx -> bool) returns (picks: seq<nat>)
    ensures TakesDue(txs, picks, Selected(txs, nonceOf, valid), nonceOf, valid)
  {
    hide Due, Cursor;
    if txs == [] {
      picks := [];
    } else {
      var (init, t) := (txs[..|txs| - 1], txs[|txs| - 1]);
      picks := SelectedTakesDue(init, nonceOf, valid);
      var taken := Selected(init, nonceOf, valid);
      var more := t.nonce == Cursor(taken, nonceOf, t.sender) && valid(t);
      hide TakesDue;
      TakesDueMore(txs, picks, taken, nonceOf, valid, more);
      if more { picks := picks + [|txs| - 1]; }
    }
  }

  lemma TakenAreValid(txs: seq<Tx>, picks: seq<nat>, taken: seq<Tx>, nonceOf: string -> int, valid: Tx -> bool)
    requires TakesDue(txs, picks, taken, nonceOf, valid)
    ensures forall t | t in taken :: t in txs && valid(t)
  {
    hide Cursor, Earlier;
    forall t | t in taken ensures t in txs && valid(t) {
      var i :| 0 <= i < |taken| && taken[i] == t;
      assert picks[i] in picks && Due(txs, picks, taken, nonceOf, valid, picks[i]);
    }
  }

  /** On a canonical ledger a block forged on its tip is accepted exactly when every check holds and it applies. */
  lemma ForgedAcceptsIff(r: Rules, cfg: Config, alloc: Accounts, rows: seq<Block>, a: Accounts, b: Block, v: Verdicts)
    requires Canonical(r, alloc, rows, a) && b.height == rows[|rows| - 1].height + 1 && b.parentHash == rows[|rows| - 1].hash
    ensures Added(r, cfg, rows, a, b, false, v).Some? <==> AllHold(v) && ApplyBlock(r, a, b).Some?
  {
    hide Added, ApplyBlock, Rooted;
    TipContiguous(rows);
    AddAcceptsIff(r, cfg, alloc, rows, a, b, false, v);
  }

  /** `create_block`: one pass with a cursor table, then a block on top of the current tip. */
  method CreateBlock(r: Rules, rows: seq<Block>, txs: seq<Tx>, proposer: string, now: int, extra: string,
                     nonceOf: string -> int, valid: Tx -> bool) returns (b: Block)
    ensures exists picks :: TakesDue(txs, picks, b.txs, nonceOf, valid)
    ensures forall t | t in b.txs :: t in txs && valid(t)
    ensures b.txs == Selected(txs, nonceOf, valid) && b.miner == proposer && b.extra == extra
    ensures StructureOk(rows, b)
    ensures if rows == [] then b.height == 1 && b.parentHash == GENESIS_HASH
            else b.height == rows[|rows| - 1].height + 1 && b.parentHash == rows[|rows| - 1].hash
    ensures rows != [] ==> b.timestamp > rows[|rows| - 1].timestamp
    ensures b.timestamp >= now && (b.timestamp == now || b.timestamp == 1 + if rows == [] then 0 else rows[|rows| - 1].timestamp)
    ensures b.stateRoot == "" && b.hash == r.digest(HeaderOf(b))
  {
    hide TakesDue;
    var height := if rows == [] then 1 else rows[|rows| - 1].height + 1;
    var parentHash := if rows == [] then GENESIS_HASH else rows[|rows| - 1].hash;
    var applied: seq<Tx> := [];
    var cursor: map<string, int> := map[];
    for i := 0 to |txs|
      invariant applied == Selected(txs[..i], nonceOf, valid)
      invariant forall a :: (if a in cursor then cursor[a] else nonceOf(a)) == Cursor(applied, nonceOf, a)
    {
      var t := txs[i];
      assert txs[..i + 1][..i] == txs[..i];
      var expected := if t.sender in cursor then cursor[t.sender] else nonceOf(t.sender);
      if t.nonce == expected && valid(t) {
        assert forall a :: Cursor(applied + [t], nonceOf, a) == if a == t.sender then t.nonce + 1 else Cursor(applied, nonceOf, a) by {
          assert (applied + [t])[..|applied|] == applied;
        }
        applied := applied + [t];
        cursor := cursor[t.sender := t.nonce + 1];
      }
    }
    assert txs[..|txs|] == txs;
    ghost var picks := SelectedTakesDue(txs, nonceOf, valid);
    TakenAreValid(txs, picks, applied, nonceOf, valid);
    var parentTs := if rows == [] then 0 else rows[|rows| - 1].timestamp;
    var ts := if now > parentTs + 1 then now else parentTs + 1;
    b := Block(height, parentHash, proposer, ts, extra, applied, "", "");
    b := b.(hash := r.digest(HeaderOf(b)));
  }
}
