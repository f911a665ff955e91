/** Fee-ranked pool and the packing of executable nonce chains (blockchain/mempool.py, Python store). */
module Mempool {
  import opened Collections
  import opened Ledger
  import opened StableSort
  import opened Forging

  function FeeDescending(): Tx -> Key { (t: Tx) => (-t.fee, 0) }
  function FeeAscending(): Tx -> Key { (t: Tx) => (t.fee, 0) }
  function ByNonce(): Tx -> Key { (t: Tx) => (t.nonce, 0) }

  // ---------------------------------------------------------------- candidates

  function AtLeast(minFee: int): Tx -> bool { (t: Tx) => t.fee >= minFee }

  /** `get`: highest fee first, ties in arrival order, cheap ones dropped, cut to `limit`. */
  function Candidates(pending: seq<Tx>, limit: nat, minFee: int): seq<Tx> {
    var ranked := Filter(Sort(pending, FeeDescending()), AtLeast(minFee));
    if |ranked| <= limit then ranked else ranked[..limit]
  }

  // ---------------------------------------------------------------- packing

  /** The distinct senders, in order of first appearance. */
  function Senders(txs: seq<Tx>): seq<string> {
    if txs == [] then []
    else
      var init := Senders(txs[..|txs| - 1]);
      if txs[|txs| - 1].sender in init then init else init + [txs[|txs| - 1].sender]
  }

  /** One sender's candidates by nonce, best fee first within a nonce. */
  function Queue(cands: seq<Tx>, a: string): seq<Tx> { Sort(Filter(cands, BySender(a)), ByNonce()) }

  /** Senders closest to executable first, then the higher fee. */
  function Rank(cands: seq<Tx>, nonceOf: string -> int): string -> Key {
    (a: string) => var q := Queue(cands, a); if q == [] then (1000000000, 0) else (q[0].nonce - nonceOf(a), -q[0].fee)
  }

  /** The gap-free run taken from a nonce-sorted queue: stale nonces skipped, stop at the first gap. */
  function ChainFrom(q: seq<Tx>, want: int): seq<Tx> {
    if q == [] then []
    else if q[0].nonce < want then ChainFrom(q[1..], want)
    else if q[0].nonce > want then []
    else [q[0]] + ChainFrom(q[1..], want + 1)
  }

  function AllRuns(cands: seq<Tx>, nonceOf: string -> int, senders: seq<string>): seq<Tx> {
    if senders == [] then []
    else
      var a := senders[|senders| - 1];
      AllRuns(cands, nonceOf, senders[..|senders| - 1]) + ChainFrom(Queue(cands, a), nonceOf(a))
  }

  function Ranked(cands: seq<Tx>, nonceOf: string -> int): seq<string> {
    Sort(Senders(cands), Rank(cands, nonceOf))
  }

  function Take<T>(s: seq<T>, n: nat): seq<T> { if |s| <= n then s else s[..n] }

  function Fetch(limit: int, multiplier: int): nat {
    var m := (if limit > 0 then limit else 0) * (if multiplier > 1 then multiplier else 1);
    if m > 256 then m else 256
  }

  function Packed(pending: seq<Tx>, limit: int, nonceOf: string -> int, minFee: int, multiplier: int): seq<Tx> {
    if limit <= 0 then []
    else
      var cands := Candidates(pending, Fetch(limit, multiplier), minFee);
      Take(AllRuns(cands, nonceOf, Ranked(cands, nonceOf)), limit)
  }

  // ---------------------------------------------------------------- the bounded store

  ghost predicate UniqueHashes(txs: seq<Tx>) {
    forall i, j | 0 <= i < j < |txs| :: txs[i].hash != txs[j].hash
  }

  function NotIn(victims: seq<Tx>): Tx -> bool { (t: Tx) => t !in victims }

  /** The cheapest tenth, rounded down. */
  function Victims(pending: seq<Tx>): seq<Tx> {
    SortSameMembers(pending, FeeAscending());
    Sort(pending, FeeAscending())[..|pending| / 10]
  }

  function Cleaned(pending: seq<Tx>, maxSize: int): seq<Tx> {
    if 10 * |pending| < 8 * maxSize then pending else Filter(pending, NotIn(Victims(pending)))
  }

  predicate HasHash(pending: seq<Tx>, hash: string) {
    exists i :: 0 <= i < |pending| && pending[i].hash == hash
  }

  function Stored(pending: seq<Tx>, maxSize: int, tx: Tx): (seq<Tx>, bool) {
    if HasHash(pending, tx.hash) then (pending, false)
    else
      var kept := if |pending| >= maxSize then Cleaned(pending, maxSize) else pending;
      if |kept| >= maxSize then (kept, false) else (kept + [tx], true)
  }

  class Pool {
    const maxSize: int
    var pending: seq<Tx>

    /** At most `maxSize` transactions, one per hash. */
    ghost predicate Valid()
      reads this
    {
      && (|pending| == 0 || |pending| <= maxSize)
      && UniqueHashes(pending)
    }

    constructor (maxSize: int)
      ensures Valid() && pending == [] && this.maxSize == maxSize
    {
      this.maxSize := maxSize;
      pending := [];
    }

    /** `_store_put`: evict the cheapest tenth when full, refuse when that frees nothing. */
    method Put(tx: Tx) returns (ok: bool)
      requires Valid()
      modifies this`pending
      ensures Valid()
      ensures pending == Stored(old(pending), maxSize, tx).0 && ok == Stored(old(pending), maxSize, tx).1
      ensures ok ==> pending != [] && pending[|pending| - 1] == tx
      ensures ok && |old(pending)| < maxSize ==> pending == old(pending) + [tx]
      ensures !ok && |old(pending)| < maxSize ==> pending == old(pending)
    {
      if HasHash(pending, tx.hash) { return false; }
      if |pending| >= maxSize { Cleanup(); }
      if |pending| >= maxSize { return false; }
      pending := pending + [tx];
      return true;
    }

    /** `_cleanup_python`: drop the cheapest tenth when at least 80% full. */
    method Cleanup()
      requires Valid()
      modifies this`pending
      ensures Valid() && pending == Cleaned(old(pending), maxSize)
      ensures forall h | HasHash(pending, h) :: HasHash(old(pending), h)
    {
      if 10 * |pending| < 8 * maxSize { return; }
      var victims := Victims(pending);
      FilterUnique(pending, NotIn(victims));
      pending := Filter(pending, NotIn(victims));
    }

    /** `get_for_block`: the outer packing loop over ranked senders. */
    method GetForBlock(limit: int, nonceOf: string -> int, minFee: int, multiplier: int) returns (packed: seq<Tx>)
      ensures packed == Packed(pending, limit, nonceOf, minFee, multiplier)
    {
      hide Candidates, Ranked, Queue, ChainFrom, Fetch, AllRuns;
      if limit <= 0 { return []; }
      var cands := Candidates(pending, Fetch(limit, multiplier), minFee);
      var ranked := Ranked(cands, nonceOf);
      packed := [];
      var i := 0;
      NoRun(cands, nonceOf);
      while i < |ranked| && |packed| < limit
        invariant 0 <= i <= |ranked|
        invariant packed == Take(AllRuns(cands, nonceOf, ranked[..i]), limit)
      {
        assert packed == AllRuns(cands, nonceOf, ranked[..i]);
        packed := PackSender(packed, Queue(cands, ranked[i]), nonceOf(ranked[i]), limit);
        NextRun(cands, nonceOf, ranked, i);
        i := i + 1;
      }
      RunsGrow(cands, nonceOf, ranked, i);
      assert i == |ranked| ==> ranked[..i] == ranked;
      TakePrefix(AllRuns(cands, nonceOf, ranked[..i]), AllRuns(cands, nonceOf, ranked), limit);
    }
  }

  lemma NoRun(cands: seq<Tx>, nonceOf: string -> int)
    ensures AllRuns(cands, nonceOf, []) == []
  {
  }

  lemma NextRun(cands: seq<Tx>, nonceOf: string -> int, senders: seq<string>, i: nat)
    requires i < |senders|
    ensures AllRuns(cands, nonceOf, senders[..i + 1])
         == AllRuns(cands, nonceOf, senders[..i]) + ChainFrom(Queue(cands, senders[i]), nonceOf(senders[i]))
  {
    assert senders[..i + 1][..i] == senders[..i];
  }

  lemma TakePrefix(a: seq<Tx>, b: seq<Tx>, n: nat)
    requires a <= b && (|a| >= n || a == b)
    ensures Take(a, n) == Take(b, n)
  {
  }

  /** The inner loop: skip stale nonces, take matches, stop at a gap or at the limit. */
  method PackSender(start: seq<Tx>, queue: seq<Tx>, nonce: int, limit: nat) returns (packed: seq<Tx>)
    requires |start| < limit
    ensures packed == Take(start + ChainFrom(queue, nonce), limit)
  {
    packed := start;
    var want := nonce;
    assert queue[0..] == queue;
    ghost var taken: seq<Tx> := [];
    var j := 0;
    while j < |queue| && |packed| < limit && queue[j].nonce <= want
      invariant 0 <= j <= |queue|
      invariant packed == start + taken && |packed| <= limit
      invariant ChainFrom(queue, nonce) == taken + ChainFrom(queue[j..], want)
    {
      assert queue[j..][1..] == queue[j + 1..];
      if queue[j].nonce == want {
        packed := packed + [queue[j]];
        taken := taken + [queue[j]];
        want := want + 1;
      }
      j := j + 1;
    }
    assert start + ChainFrom(queue, nonce) == packed + ChainFrom(queue[j..], want);
  }

  lemma {:induction false} RunsGrow(cands: seq<Tx>, nonceOf: string -> int, senders: seq<string>, i: nat)
    requires i <= |senders|
    ensures AllRuns(cands, nonceOf, senders[..i]) <= AllRuns(cands, nonceOf, senders)
    decreases |senders|
  {
    if i < |senders| {
      var init := senders[..|senders| - 1];
      assert init[..i] == senders[..i];
      RunsGrow(cands, nonceOf, init, i);
    } else {
      assert senders[..i] == senders;
    }
  }

  lemma {:induction false} FilterUnique(txs: seq<Tx>, p: Tx -> bool)
    requires UniqueHashes(txs)
    ensures UniqueHashes(Filter(txs, p)) && |Filter(txs, p)| <= |txs|
    ensures forall h | HasHash(Filter(txs, p), h) :: HasHash(txs, h)
  {
    FilterMembers(txs, p);
    forall h | HasHash(Filter(txs, p), h) ensures HasHash(txs, h) {
      var i :| 0 <= i < |Filter(txs, p)| && Filter(txs, p)[i].hash == h;
      assert Filter(txs, p)[i] in Filter(txs, p);
      assert Filter(txs, p)[i] in txs;
    }
    if txs != [] {
      var (init, last) := (txs[..|txs| - 1], txs[|txs| - 1]);
      FilterUnique(init, p);
      assert !HasHash(init, last.hash);
    }
  }

  lemma VictimsCheapest(pending: seq<Tx>, v: Tx, t: Tx)
    requires v in Victims(pending) && t in pending && t !in Victims(pending)
    ensures v in pending && v.fee <= t.fee
  {
    var (victims, sorted) := (Victims(pending), Sort(pending, FeeAscending()));
    SortSameMembers(pending, FeeAscending());
    SortSorted(pending, FeeAscending());
    var i :| 0 <= i < |victims| && victims[i] == v;
    assert sorted[i] == v && v in sorted;
    assert t in sorted;
    var j :| 0 <= j < |sorted| && sorted[j] == t;
    assert forall k | 0 <= k < |victims| :: victims[k] == sorted[k] && victims[k] in victims;
  }

  /** Cleaning a pool that is at least 80% full removes exactly its cheapest tenth. */
  lemma CleanupEvictsCheapest(pending: seq<Tx>, maxSize: int)
    requires UniqueHashes(pending) && 10 * |pending| >= 8 * maxSize
    ensures |Cleaned(pending, maxSize)| == |pending| - |pending| / 10
    ensures forall t :: t in Cleaned(pending, maxSize) <==> t in pending && t !in Victims(pending)
    ensures forall v, t | v in Victims(pending) && t in Cleaned(pending, maxSize) :: v in pending && v.fee <= t.fee
  {
    var victims, kept := Victims(pending), Cleaned(pending, maxSize);
    FilterMembers(pending, NotIn(victims));
    forall v, t | v in victims && t in kept ensures v in pending && v.fee <= t.fee {
      VictimsCheapest(pending, v, t);
    }
    CleanupSize(pending, victims);
  }

  /** Below 80 per cent nothing is evicted. */
  lemma NothingEvictedBelow(pending: seq<Tx>, maxSize: int)
    requires 10 * |pending| < 8 * maxSize
    ensures Cleaned(pending, maxSize) == pending
  {
  }

  lemma CleanupSize(pending: seq<Tx>, victims: seq<Tx>)
    requires UniqueHashes(pending) && victims == Victims(pending)
    ensures |Filter(pending, NotIn(victims))| == |pending| - |pending| / 10
  {
    SortSameMembers(pending, FeeAscending());
    SortNoDup(pending, FeeAscending());
    assert forall t | t in victims :: t in Sort(pending, FeeAscending());
    FilterOutSize(pending, victims, NotIn(victims));
  }

  /** A transaction is accepted exactly when its hash is new and there is room, or a tenth of the pool can be evicted. */
  lemma PutAcceptsIff(pending: seq<Tx>, maxSize: int, tx: Tx)
    requires UniqueHashes(pending) && |pending| <= maxSize
    ensures Stored(pending, maxSize, tx).1 <==> !HasHash(pending, tx.hash) && (|pending| < maxSize || |pending| >= 10)
  {
    if |pending| >= maxSize { CleanupEvictsCheapest(pending, maxSize); }
  }

  // ---------------------------------------------------------------- packing is exact

  lemma {:induction false} ChainFromChain(q: seq<Tx>, want: int)
    ensures NonceChain(ChainFrom(q, want), want)
    ensures forall t | t in ChainFrom(q, want) :: t in q && t.nonce >= want
  {
    if q != [] {
      if q[0].nonce < want { ChainFromChain(q[1..], want); }
      else if q[0].nonce == want { ChainFromChain(q[1..], want + 1); }
    }
  }

  /** Within one nonce, earlier entries pay at least as much. */
  ghost predicate BestFirst(q: seq<Tx>) {
    forall i, j | 0 <= i < j < |q| && q[i].nonce == q[j].nonce :: q[i].fee >= q[j].fee
  }

  lemma HeadIsBest(q: seq<Tx>)
    requires Sorted(q, ByNonce()) && BestFirst(q) && q != []
    ensures Sorted(q[1..], ByNonce()) && BestFirst(q[1..])
    ensures forall z | z in q :: z == q[0] || z in q[1..]
    ensures forall z | z in q[1..] :: q[0].nonce <= z.nonce && (z.nonce == q[0].nonce ==> z.fee <= q[0].fee)
  {
    var rest := q[1..];
    assert q == [q[0]] + rest;
    forall z | z in rest ensures q[0].nonce <= z.nonce && (z.nonce == q[0].nonce ==> z.fee <= q[0].fee) {
      var i :| 0 <= i < |rest| && rest[i] == z;
      assert q[i + 1] == z;
    }
  }

  lemma {:induction false} ChainFromBest(q: seq<Tx>, want: int, x: Tx, y: Tx)
    requires Sorted(q, ByNonce()) && BestFirst(q)
    requires x in q && y in ChainFrom(q, want) && x.nonce == y.nonce
    ensures x.fee <= y.fee
  {
    hide Sorted, BestFirst, NonceChain;
    var rest := q[1..];
    ChainFromChain(rest, want);
    ChainFromChain(rest, want + 1);
    HeadIsBest(q);
    if q[0].nonce < want {
      ChainFromBest(rest, want, x, y);
    } else if y != q[0] {
      ChainFromBest(rest, want + 1, x, y);
    }
  }

  lemma {:induction false} ChainFromMaximal(q: seq<Tx>, want: int, x: Tx)
    requires Sorted(q, ByNonce()) && x in q
    ensures x.nonce != want + |ChainFrom(q, want)|
  {
    var rest := q[1..];
    assert q == [q[0]] + rest;
    if q[0].nonce < want {
      if x in rest { ChainFromMaximal(rest, want, x); }
    } else if q[0].nonce == want {
      if x in rest { ChainFromMaximal(rest, want + 1, x); }
    }
  }

  lemma QueueOrdered(cands: seq<Tx>, a: string)
    requires Sorted(cands, FeeDescending())
    ensures Sorted(Queue(cands, a), ByNonce()) && BestFirst(Queue(cands, a))
    ensures forall t :: t in Queue(cands, a) <==> t in cands && t.sender == a
  {
    var mine, q := Filter(cands, BySender(a)), Queue(cands, a);
    SortSorted(mine, ByNonce());
    SortSameMembers(mine, ByNonce());
    FilterMembers(cands, BySender(a));
    FilterSorted(cands, BySender(a), FeeDescending());
    forall i, j | 0 <= i < j < |q| && q[i].nonce == q[j].nonce ensures q[i].fee >= q[j].fee {
      var n := q[i].nonce;
      var p := (t: Tx) => t.nonce == n;
      SortStable(mine, ByNonce(), (n, 0), p);
      FilterSorted(mine, p, FeeDescending());
      FilterSortedBack(q, p, FeeDescending());
    }
  }

  lemma {:induction false} SendersDistinct(txs: seq<Tx>)
    ensures NoDup(Senders(txs))
    ensures forall a :: a in Senders(txs) <==> exists t :: t in txs && t.sender == a
  {
    if txs != [] {
      var (init, last) := (txs[..|txs| - 1], txs[|txs| - 1]);
      SendersDistinct(init);
      assert forall t :: t in txs <==> t in init || t == last;
      assert last in txs;
    }
  }

  lemma RankedDistinct(cands: seq<Tx>, nonceOf: string -> int)
    ensures NoDup(Ranked(cands, nonceOf))
    ensures forall a :: a in Ranked(cands, nonceOf) <==> exists t :: t in cands && t.sender == a
  {
    SendersDistinct(cands);
    SortSameMembers(Senders(cands), Rank(cands, nonceOf));
    SortNoDup(Senders(cands), Rank(cands, nonceOf));
  }

  /** Each sender's share of the packing is its own run. */
  lemma {:induction false} RunsBySender(cands: seq<Tx>, nonceOf: string -> int, senders: seq<string>, a: string)
    requires Sorted(cands, FeeDescending()) && NoDup(senders)
    ensures Filter(AllRuns(cands, nonceOf, senders), BySender(a))
         == if a in senders then ChainFrom(Queue(cands, a), nonceOf(a)) else []
    ensures forall t | t in AllRuns(cands, nonceOf, senders) :: t in cands
  {
    if senders != [] {
      var (init, b) := (senders[..|senders| - 1], senders[|senders| - 1]);
      RunsBySender(cands, nonceOf, init, a);
      var run := ChainFrom(Queue(cands, b), nonceOf(b));
      QueueOrdered(cands, b);
      ChainFromChain(Queue(cands, b), nonceOf(b));
      FilterConcat(AllRuns(cands, nonceOf, init), run, BySender(a));
      if a == b { FilterAll(run, BySender(a)); } else { FilterNone(run, BySender(a)); }
    }
  }

  lemma CandidatesSorted(pending: seq<Tx>, limit: nat, minFee: int)
    ensures Sorted(Candidates(pending, limit, minFee), FeeDescending())
    ensures forall t | t in Candidates(pending, limit, minFee) :: t in pending && t.fee >= minFee
  {
    var ranked := Filter(Sort(pending, FeeDescending()), AtLeast(minFee));
    SortSorted(pending, FeeDescending());
    SortSameMembers(pending, FeeDescending());
    FilterSorted(Sort(pending, FeeDescending()), AtLeast(minFee), FeeDescending());
    FilterMembers(Sort(pending, FeeDescending()), AtLeast(minFee));
    forall t | t in Candidates(pending, limit, minFee) ensures t in pending && t.fee >= minFee {
      assert t in ranked;
    }
  }

  /** What is not a candidate pays no more than any candidate. */
  lemma CandidatesBest(pending: seq<Tx>, limit: nat, minFee: int, c: Tx, t: Tx)
    requires c in pending && t in Candidates(pending, limit, minFee) && c !in Candidates(pending, limit, minFee)
    ensures c.fee <= t.fee
  {
    var sorted := Sort(pending, FeeDescending());
    var ranked := Filter(sorted, AtLeast(minFee));
    CandidatesSorted(pending, limit, minFee);
    SortSorted(pending, FeeDescending());
    SortSameMembers(pending, FeeDescending());
    FilterSorted(sorted, AtLeast(minFee), FeeDescending());
    FilterMembers(sorted, AtLeast(minFee));
    if c.fee >= minFee {
      assert c in ranked;
      var i :| 0 <= i < |ranked| && ranked[i] == c;
      var j :| 0 <= j < |Candidates(pending, limit, minFee)| && Candidates(pending, limit, minFee)[j] == t;
      assert j < limit <= i && ranked[j] == t;
    }
  }

  lemma {:induction false} ChainsDistinct(txs: seq<Tx>, nonceOf: string -> int)
    requires NonceChains(txs, nonceOf)
    ensures NoDup(txs)
  {
    if txs != [] {
      var (init, t) := (txs[..|txs| - 1], txs[|txs| - 1]);
      assert txs == init + [t];
      forall a ensures NonceChain(Filter(init, BySender(a)), nonceOf(a)) {
        assert NonceChain(Filter(txs, BySender(a)), nonceOf(a));
        FilterPrefix(init, txs, BySender(a));
      }
      ChainsDistinct(init, nonceOf);
      ChainFresh(init, t, nonceOf);
    }
  }

  lemma ChainFresh(init: seq<Tx>, t: Tx, nonceOf: string -> int)
    requires NonceChains(init + [t], nonceOf)
    ensures t !in init
  {
    var p := BySender(t.sender);
    var mine := Filter(init, p);
    FilterSnoc(init, t, p);
    FilterMembers(init, p);
    assert NonceChain(Filter(init + [t], p), nonceOf(t.sender));
    assert (mine + [t])[|mine|] == t;
    forall k | 0 <= k < |mine| ensures mine[k] != t {
      assert (mine + [t])[k] == mine[k];
    }
  }

  /**
   * Packing is exact. At most `limit` transactions, all pending and none twice; every sender's share
   * is a gap-free run from its account nonce that uses, for each nonce, a best-paying pending
   * transaction; and below the limit no sender's run can be extended by a candidate.
   */
  lemma PackingExact(pending: seq<Tx>, limit: int, nonceOf: string -> int, minFee: int, multiplier: int)
    ensures var packed := Packed(pending, limit, nonceOf, minFee, multiplier);
            var cands := Candidates(pending, Fetch(limit, multiplier), minFee);
            && |packed| <= (if limit > 0 then limit else 0)
            && NoDup(packed) && NonceChains(packed, nonceOf)
            && (forall t | t in packed :: t in pending && t.fee >= minFee)
            && (forall t, c | t in packed && c in pending && c.sender == t.sender && c.nonce == t.nonce :: c.fee <= t.fee)
            && (|packed| < limit ==>
                  forall c | c in cands :: c.nonce != nonceOf(c.sender) + |Filter(packed, BySender(c.sender))|)
  {
    var packed := Packed(pending, limit, nonceOf, minFee, multiplier);
    if limit > 0 {
      var cands := Candidates(pending, Fetch(limit, multiplier), minFee);
      var senders := Ranked(cands, nonceOf);
      var all := AllRuns(cands, nonceOf, senders);
      CandidatesSorted(pending, Fetch(limit, multiplier), minFee);
      RankedDistinct(cands, nonceOf);
      forall a ensures NonceChain(Filter(packed, BySender(a)), nonceOf(a)) {
        RunsBySender(cands, nonceOf, senders, a);
        ChainFromChain(Queue(cands, a), nonceOf(a));
        FilterPrefix(packed, all, BySender(a));
      }
      ChainsDistinct(packed, nonceOf);
      forall t | t in packed ensures t in cands && t in ChainFrom(Queue(cands, t.sender), nonceOf(t.sender)) {
        RunsBySender(cands, nonceOf, senders, t.sender);
        assert t in all;
        FilterMembers(all, BySender(t.sender));
        assert t in Filter(all, BySender(t.sender));
      }
      forall t, c | t in packed && c in pending && c.sender == t.sender && c.nonce == t.nonce ensures c.fee <= t.fee {
        PackedBest(pending, Fetch(limit, multiplier), minFee, nonceOf, t, c);
      }
      if |packed| < limit {
        forall c | c in cands ensures c.nonce != nonceOf(c.sender) + |Filter(packed, BySender(c.sender))| {
          RunsBySender(cands, nonceOf, senders, c.sender);
          QueueOrdered(cands, c.sender);
          ChainFromMaximal(Queue(cands, c.sender), nonceOf(c.sender), c);
          assert packed == all && c.sender in senders;
        }
      }
    } else {
      assert forall a :: Filter(packed, BySender(a)) == [];
    }
  }

  lemma PackedBest(pending: seq<Tx>, fetch: nat, minFee: int, nonceOf: string -> int, t: Tx, c: Tx)
    requires var cands := Candidates(pending, fetch, minFee);
             t in cands && t in ChainFrom(Queue(cands, t.sender), nonceOf(t.sender))
    requires c in pending && c.sender == t.sender && c.nonce == t.nonce
    ensures c.fee <= t.fee
  {
    var cands := Candidates(pending, fetch, minFee);
    if c in cands {
      CandidatesSorted(pending, fetch, minFee);
      QueueOrdered(cands, t.sender);
      ChainFromBest(Queue(cands, t.sender), nonceOf(t.sender), c, t);
    } else {
      CandidatesBest(pending, fetch, minFee, c, t);
    }
  }

  /** Every packed transaction passes the nonce cursor of `create_block`: if the other checks accept, the block takes all. */
  lemma PackedPassesCursor(pending: seq<Tx>, limit: int, nonceOf: string -> int, minFee: int, multiplier: int, valid: Tx -> bool)
    requires forall t | t in Packed(pending, limit, nonceOf, minFee, multiplier) :: valid(t)
    ensures var packed := Packed(pending, limit, nonceOf, minFee, multiplier);
            Selected(packed, nonceOf, valid) == packed
  {
    PackingExact(pending, limit, nonceOf, minFee, multiplier);
    AllSelectedIff(Packed(pending, limit, nonceOf, minFee, multiplier), nonceOf, valid);
  }

  // ---------------------------------------------------------------- who is considered, and who goes first

  lemma {:induction false} FilterShorter(txs: seq<Tx>, p: Tx -> bool)
    ensures |Filter(txs, p)| <= |txs|
  {
    if txs != [] { FilterShorter(txs[..|txs| - 1], p); }
  }

  /** Fetching looks at 256 transactions, or at `multiplier` times the limit if that is more. */
  lemma FetchBound(limit: int, multiplier: int)
    ensures Fetch(limit, multiplier) >= 256
    ensures limit > 0 ==> Fetch(limit, multiplier) >= limit && (multiplier > 0 ==> Fetch(limit, multiplier) >= limit * multiplier)
    ensures Fetch(limit, multiplier) > 256 ==> Fetch(limit, multiplier) == limit || (multiplier > 0 && Fetch(limit, multiplier) == limit * multiplier)
  {
    if limit > 0 {
      var m := if multiplier > 1 then multiplier else 1;
      assert limit * m >= limit * 1;
    }
  }

  /** A paying transaction is passed over only by a full house of candidates that pay no less. */
  lemma PassedOverIff(pending: seq<Tx>, limit: nat, minFee: int, c: Tx)
    requires c in pending && c.fee >= minFee && c !in Candidates(pending, limit, minFee)
    ensures |Candidates(pending, limit, minFee)| == limit < |pending|
    ensures forall t | t in Candidates(pending, limit, minFee) :: t.fee >= c.fee
  {
    var sorted := Sort(pending, FeeDescending());
    var ranked := Filter(sorted, AtLeast(minFee));
    SortSameMembers(pending, FeeDescending());
    FilterMembers(sorted, AtLeast(minFee));
    FilterShorter(sorted, AtLeast(minFee));
    assert c in ranked;
    forall t | t in Candidates(pending, limit, minFee) ensures t.fee >= c.fee {
      CandidatesBest(pending, limit, minFee, c, t);
    }
  }

  /**
   * A packing below the limit leaves out a paying pending transaction that would extend its sender's run
   * only when at least 256 others, and `multiplier` times the limit, pay no less: in a smaller pool nothing
   * executable is left out.
   */
  lemma PackingMaximal(pending: seq<Tx>, limit: int, nonceOf: string -> int, minFee: int, multiplier: int, c: Tx)
    requires limit > 0 && c in pending && c.fee >= minFee
    requires var packed := Packed(pending, limit, nonceOf, minFee, multiplier);
             |packed| < limit && c.nonce == nonceOf(c.sender) + |Filter(packed, BySender(c.sender))|
    ensures var cands := Candidates(pending, Fetch(limit, multiplier), minFee);
            && 256 <= |cands| < |pending| && (multiplier > 0 ==> |cands| >= limit * multiplier)
            && forall t | t in cands :: t in pending && t.fee >= c.fee
  {
    hide Packed, Candidates, Fetch;
    PackingExact(pending, limit, nonceOf, minFee, multiplier);
    FetchBound(limit, multiplier);
    CandidatesSorted(pending, Fetch(limit, multiplier), minFee);
    PassedOverIff(pending, Fetch(limit, multiplier), minFee, c);
  }

  /** `p` is the first of its sender's candidates to become executable, and the best paid for its nonce. */
  ghost predicate Front(cands: seq<Tx>, p: Tx) {
    p in cands && forall c | c in cands && c.sender == p.sender :: p.nonce <= c.nonce && (c.nonce == p.nonce ==> c.fee <= p.fee)
  }

  /** Closer to its account nonce, or as close and better paid. */
  ghost predicate GoesFirst(p: Tx, q: Tx, nonceOf: string -> int) {
    var (gp, gq) := (p.nonce - nonceOf(p.sender), q.nonce - nonceOf(q.sender));
    gp < gq || (gp == gq && p.fee > q.fee)
  }

  lemma FrontRank(cands: seq<Tx>, nonceOf: string -> int, p: Tx)
    requires Sorted(cands, FeeDescending()) && Front(cands, p)
    ensures Rank(cands, nonceOf)(p.sender) == (p.nonce - nonceOf(p.sender), -p.fee)
  {
    var q := Queue(cands, p.sender);
    QueueOrdered(cands, p.sender);
    assert p in q;
    var i :| 0 <= i < |q| && q[i] == p;
    assert q[0] in q;
    assert !KeyLess(ByNonce()(q[i]), ByNonce()(q[0])) && q[0].nonce == p.nonce;
    if i > 0 { assert q[0].fee >= q[i].fee; }
  }

  lemma RankedBefore(cands: seq<Tx>, nonceOf: string -> int, p: Tx, q: Tx) returns (i: nat, j: nat)
    requires Sorted(cands, FeeDescending()) && Front(cands, p) && Front(cands, q) && GoesFirst(p, q, nonceOf)
    ensures var senders := Ranked(cands, nonceOf);
            i < j < |senders| && senders[i] == p.sender && senders[j] == q.sender
  {
    hide Rank;
    var senders := Ranked(cands, nonceOf);
    RankedDistinct(cands, nonceOf);
    SortSorted(Senders(cands), Rank(cands, nonceOf));
    FrontRank(cands, nonceOf, p);
    FrontRank(cands, nonceOf, q);
    assert p in cands && p.sender in senders;
    assert q in cands && q.sender in senders;
    i :| 0 <= i < |senders| && senders[i] == p.sender;
    j :| 0 <= j < |senders| && senders[j] == q.sender;
    LessComesFirst(senders, Rank(cands, nonceOf), i, j);
  }

  lemma LessComesFirst(s: seq<string>, key: string -> Key, i: nat, j: nat)
    requires Sorted(s, key) && i < |s| && j < |s| && KeyLess(key(s[i]), key(s[j]))
    ensures i < j
  {
  }

  /** Senders closest to executable go first, then the better paid: a sender gets in only after the runs ahead of it are in whole. */
  lemma SendersInOrder(pending: seq<Tx>, limit: int, nonceOf: string -> int, minFee: int, multiplier: int, p: Tx, q: Tx, t: Tx, c: Tx)
    requires var cands := Candidates(pending, Fetch(limit, multiplier), minFee);
             Front(cands, p) && Front(cands, q) && c in cands && c.sender == p.sender
    requires GoesFirst(p, q, nonceOf) && t in Packed(pending, limit, nonceOf, minFee, multiplier) && t.sender == q.sender
    ensures c.nonce != nonceOf(p.sender) + |Filter(Packed(pending, limit, nonceOf, minFee, multiplier), BySender(p.sender))|
  {
    hide Candidates, Fetch, Ranked, AllRuns, Queue, ChainFrom, Front, Rank;
    var cands := Candidates(pending, Fetch(limit, multiplier), minFee);
    var (senders, packed) := (Ranked(cands, nonceOf), Packed(pending, limit, nonceOf, minFee, multiplier));
    CandidatesSorted(pending, Fetch(limit, multiplier), minFee);
    RankedDistinct(cands, nonceOf);
    var i, j := RankedBefore(cands, nonceOf, p, q);
    var (all, ahead) := (AllRuns(cands, nonceOf, senders), AllRuns(cands, nonceOf, senders[..j]));
    RunsGrow(cands, nonceOf, senders, j);
    RunsBySender(cands, nonceOf, senders, p.sender);
    RunsBySender(cands, nonceOf, senders[..j], p.sender);
    RunsBySender(cands, nonceOf, senders[..j], q.sender);
    assert senders[..j][i] == p.sender;
    FilterMembers(ahead, BySender(q.sender));
    assert t !in ahead;
    assert ahead <= packed <= all;
    FilterPrefix(ahead, packed, BySender(p.sender));
    FilterPrefix(packed, all, BySender(p.sender));
    WholeRun(cands, nonceOf, c);
  }

  lemma WholeRun(cands: seq<Tx>, nonceOf: string -> int, c: Tx)
    requires Sorted(cands, FeeDescending()) && c in cands
    ensures c.nonce != nonceOf(c.sender) + |ChainFrom(Queue(cands, c.sender), nonceOf(c.sender))|
  {
    QueueOrdered(cands, c.sender);
    ChainFromMaximal(Queue(cands, c.sender), nonceOf(c.sender), c);
  }
}
