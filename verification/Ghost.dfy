/** GHOST fork choice over a forest of blocks with parent stubs (consensus/ghost.py). */
module Ghost {
  import opened Collections

  /** A block hash, represented by its rank in the string order the tie-breaks compare by. */
  datatype Hash = Hash(rank: nat)

  predicate Less(a: Hash, b: Hash) { a.rank < b.rank }

  datatype Node = Node(parent: Option<Hash>, children: seq<Hash>, number: int)
  type Tree = map<Hash, Node>
  type Weights = map<Hash, nat>

  function Weight(w: Weights, h: Hash): nat { if h in w then w[h] else 0 }
  function Kids(t: Tree, h: Hash): seq<Hash> { if h in t then t[h].children else [] }
  function Number(t: Tree, h: Hash): int { if h in t then t[h].number else 0 }

  /** `rank` strictly shrinks from every node to its children: a witness that the forest has no cycle. */
  ghost predicate Ranked(t: Tree, rank: Hash -> nat) {
    forall h, c | h in t && c in t[h].children :: rank(c) < rank(h)
  }

  /** Parent pointers and child lists agree, every parent is present, and no child is listed twice. */
  ghost predicate WellFormed(t: Tree) {
    && (forall h | h in t :: NoDup(t[h].children))
    && (forall h, c | h in t && c in t[h].children :: c in t && t[c].parent == Some(h))
    && (forall c | c in t && t[c].parent.Some? ::
          t[c].parent.value in t && c in t[t[c].parent.value].children)
  }

  // ---------------------------------------------------------------- subtree weight, recursively

  /** The weight of `h` and of everything below it. */
  ghost function SubtreeSum(t: Tree, w: Weights, rank: Hash -> nat, h: Hash): nat
    requires Ranked(t, rank)
    decreases rank(h), 1, 0
  {
    Weight(w, h) + ChildSum(t, w, rank, h, Kids(t, h))
  }

  ghost function ChildSum(t: Tree, w: Weights, rank: Hash -> nat, h: Hash, cs: seq<Hash>): nat
    requires Ranked(t, rank)
    requires forall c | c in cs :: rank(c) < rank(h)
    decreases rank(h), 0, |cs|
  {
    if cs == [] then 0
    else ChildSum(t, w, rank, h, cs[..|cs| - 1]) + SubtreeSum(t, w, rank, cs[|cs| - 1])
  }

  // ---------------------------------------------------------------- the iterative post-order

  type Frame = (Hash, bool)

  ghost predicate OnStack(stack: seq<Frame>, from: int, h: Hash) {
    exists j :: 0 <= j < |stack| && from <= j && stack[j].0 == h
  }

  /** Everything an expanded entry waits for is already in `memo` or still above it on the stack. */
  ghost predicate Pending(t: Tree, memo: map<Hash, nat>, stack: seq<Frame>) {
    forall i, c | 0 <= i < |stack| && stack[i].1 && c in Kids(t, stack[i].0) ::
      c in memo || OnStack(stack, i + 1, c)
  }

  ghost predicate MemoCorrect(t: Tree, w: Weights, rank: Hash -> nat, memo: map<Hash, nat>)
    requires Ranked(t, rank)
  {
    forall h | h in memo :: memo[h] == SubtreeSum(t, w, rank, h)
  }

  /** An upper bound on the pops that a fresh stack entry for `h` can still cause. */
  ghost function Cost(t: Tree, rank: Hash -> nat, h: Hash): nat
    requires Ranked(t, rank)
    decreases rank(h), 1, 0
  {
    2 + CostAll(t, rank, h, Kids(t, h))
  }

  ghost function CostAll(t: Tree, rank: Hash -> nat, h: Hash, cs: seq<Hash>): nat
    requires Ranked(t, rank)
    requires forall c | c in cs :: rank(c) < rank(h)
    decreases rank(h), 0, |cs|
  {
    if cs == [] then 0 else CostAll(t, rank, h, cs[1..]) + Cost(t, rank, cs[0])
  }

  ghost function StackCost(t: Tree, rank: Hash -> nat, stack: seq<Frame>): nat
    requires Ranked(t, rank)
  {
    if stack == [] then 0
    else
      var (h, expanded) := stack[|stack| - 1];
      StackCost(t, rank, stack[..|stack| - 1]) + if expanded then 1 else Cost(t, rank, h)
  }

  /** What popping an entry leaves to do. */
  lemma PopCost(t: Tree, rank: Hash -> nat, stack: seq<Frame>)
    requires Ranked(t, rank) && stack != []
    ensures var (h, expanded) := stack[|stack| - 1];
            StackCost(t, rank, stack) == StackCost(t, rank, stack[..|stack| - 1])
                                         + if expanded then 1 else 2 + CostAll(t, rank, h, Kids(t, h))
  {
  }

  lemma PushCost(t: Tree, rank: Hash -> nat, stack: seq<Frame>, f: Frame)
    requires Ranked(t, rank)
    ensures StackCost(t, rank, stack + [f]) == StackCost(t, rank, stack) + if f.1 then 1 else Cost(t, rank, f.0)
  {
    assert (stack + [f])[..|stack|] == stack;
  }

  /** `_cumulative_weight_py`: an explicit stack and memo table in place of recursion. */
  method CumulativeWeight(block: Hash, t: Tree, w: Weights, ghost rank: Hash -> nat) returns (res: nat)
    requires Ranked(t, rank)
    ensures res == SubtreeSum(t, w, rank, block)
  {
    hide StackCost, Cost, CostAll, SubtreeSum;
    var memo: map<Hash, nat> := map[];
    var stack: seq<Frame> := [(block, false)];
    assert stack[0].0 == block;
    while stack != []
      invariant MemoCorrect(t, w, rank, memo)
      invariant Pending(t, memo, stack)
      invariant block in memo || OnStack(stack, 0, block)
      decreases StackCost(t, rank, stack)
    {
      ghost var before := stack;
      var (node, expanded) := stack[|stack| - 1];
      stack := stack[..|stack| - 1];
      PopCost(t, rank, before);
      assert forall h, k | OnStack(before, k, h) :: h == node || OnStack(stack, k, h);
      if expanded {
        var total := FoldMemo(node, t, w, memo, rank, |stack|, before);
        memo := memo[node := total];
      } else {
        PushCost(t, rank, stack, (node, true));
        stack := PushChildren(node, stack + [(node, true)], memo, t, rank);
        assert forall h, k | OnStack(before, k, h) :: OnStack(stack, k, h) by {
          assert stack[|before| - 1].0 == node;
          assert forall j | 0 <= j < |before| :: stack[j].0 == before[j].0;
        }
        forall i, c | 0 <= i < |stack| && stack[i].1 && c in Kids(t, stack[i].0)
          ensures c in memo || OnStack(stack, i + 1, c)
        {
          assert i < |before|;
          if i < |before| - 1 { assert before[i] == stack[i]; }
        }
        assert stack[..|before| - 1] == before[..|before| - 1];
      }
    }
    res := memo[block];  // the source's `.get` default is never taken
  }

  /** The inner accumulation loop of `_cumulative_weight_py`, run when a node is popped expanded. */
  method FoldMemo(node: Hash, t: Tree, w: Weights, memo: map<Hash, nat>, ghost rank: Hash -> nat,
                  ghost top: nat, ghost stack: seq<Frame>) returns (total: nat)
    requires Ranked(t, rank) && MemoCorrect(t, w, rank, memo)
    requires |stack| == top + 1 && stack[top] == (node, true) && Pending(t, memo, stack)
    ensures total == SubtreeSum(t, w, rank, node)
  {
    total := Weight(w, node);
    var kids := Kids(t, node);
    for i := 0 to |kids|
      invariant total == Weight(w, node) + ChildSum(t, w, rank, node, kids[..i])
    {
      assert kids[i] in memo by { assert !OnStack(stack, top + 1, kids[i]); }
      total := total + if kids[i] in memo then memo[kids[i]] else 0;
      assert kids[..i + 1][..i] == kids[..i];
    }
    assert kids[..|kids|] == kids;
  }

  /** Push the children not yet summed, last child first, so the first child is popped first. */
  method PushChildren(node: Hash, start: seq<Frame>, memo: map<Hash, nat>, t: Tree, ghost rank: Hash -> nat)
    returns (stack: seq<Frame>)
    requires Ranked(t, rank)
    ensures start <= stack
    ensures forall j | |start| <= j < |stack| :: !stack[j].1
    ensures forall c | c in Kids(t, node) :: c in memo || OnStack(stack, |start|, c)
    ensures StackCost(t, rank, stack) <= StackCost(t, rank, start) + CostAll(t, rank, node, Kids(t, node))
  {
    hide StackCost, Cost;
    stack := start;
    var kids := Kids(t, node);
    var i := |kids|;
    assert kids[i..] == [];
    while i > 0
      invariant 0 <= i <= |kids|
      invariant start <= stack
      invariant forall j | |start| <= j < |stack| :: !stack[j].1
      invariant forall k | i <= k < |kids| :: kids[k] in memo || OnStack(stack, |start|, kids[k])
      invariant StackCost(t, rank, stack) <= StackCost(t, rank, start) + CostAll(t, rank, node, kids[i..])
    {
      i := i - 1;
      assert kids[i..][1..] == kids[i + 1..];
      if kids[i] !in memo {
        ghost var prev := stack;
        stack := stack + [(kids[i], false)];
        PushCost(t, rank, prev, (kids[i], false));
        assert forall h, k | OnStack(prev, k, h) :: OnStack(stack, k, h) by {
          assert forall j | 0 <= j < |prev| :: stack[j] == prev[j];
        }
        assert stack[|stack| - 1].0 == kids[i];
      }
    }
    assert kids[0..] == kids;
  }

  // ---------------------------------------------------------------- what the subtree weight means

  /** `x` is `h` itself or a descendant of `h`. */
  ghost predicate Below(t: Tree, rank: Hash -> nat, h: Hash, x: Hash)
    requires Ranked(t, rank)
    decreases rank(h)
  {
    x == h || (h in t && exists c :: c in t[h].children && Below(t, rank, c, x))
  }

  lemma {:induction false} BelowRank(t: Tree, rank: Hash -> nat, h: Hash, x: Hash)
    requires Ranked(t, rank) && Below(t, rank, h, x)
    ensures x == h || rank(x) < rank(h)
    decreases rank(h)
  {
    if x != h {
      var c :| c in t[h].children && Below(t, rank, c, x);
      BelowRank(t, rank, c, x);
    }
  }

  lemma {:induction false} BelowInTree(t: Tree, rank: Hash -> nat, h: Hash, x: Hash)
    requires Ranked(t, rank) && WellFormed(t) && h in t && Below(t, rank, h, x)
    ensures x in t
    decreases rank(h)
  {
    if x != h {
      var c :| c in t[h].children && Below(t, rank, c, x);
      BelowInTree(t, rank, c, x);
    }
  }

  /** A proper descendant hangs below through its parent. */
  lemma {:induction false} BelowParent(t: Tree, rank: Hash -> nat, h: Hash, x: Hash)
    requires Ranked(t, rank) && WellFormed(t) && h in t && Below(t, rank, h, x) && x != h
    ensures x in t && t[x].parent.Some? && Below(t, rank, h, t[x].parent.value)
    decreases rank(h)
  {
    var c :| c in t[h].children && Below(t, rank, c, x);
    if x == c {
      assert Below(t, rank, h, h);
    } else {
      BelowParent(t, rank, c, x);
    }
  }

  lemma {:induction false} BelowTransitive(t: Tree, rank: Hash -> nat, a: Hash, b: Hash, c: Hash)
    requires Ranked(t, rank) && Below(t, rank, a, b) && Below(t, rank, b, c)
    ensures Below(t, rank, a, c)
    decreases rank(a)
  {
    if a != b {
      var k :| k in t[a].children && Below(t, rank, k, b);
      BelowTransitive(t, rank, k, b, c);
    }
  }

  /** Ancestors of one block lie on one line: the forest has unique parents. */
  lemma {:induction false} AncestorsComparable(t: Tree, rank: Hash -> nat, a: Hash, b: Hash, x: Hash)
    requires Ranked(t, rank) && WellFormed(t) && a in t && b in t
    requires Below(t, rank, a, x) && Below(t, rank, b, x)
    ensures Below(t, rank, a, b) || Below(t, rank, b, a)
    decreases rank(a) - rank(x)
  {
    hide SubtreeSum, Below;
    if x != a && x != b {
      BelowParent(t, rank, a, x);
      BelowParent(t, rank, b, x);
      var p := t[x].parent.value;
      BelowRank(t, rank, a, p);
      AncestorsComparable(t, rank, a, b, p);
    }
  }

  /** The subtrees of two different children of one block share nothing. */
  lemma SiblingsDisjoint(t: Tree, rank: Hash -> nat, h: Hash, c: Hash, d: Hash, x: Hash)
    requires Ranked(t, rank) && WellFormed(t) && h in t
    requires c in t[h].children && d in t[h].children && c != d && Below(t, rank, c, x)
    ensures !Below(t, rank, d, x)
  {
    hide Below;
    if Below(t, rank, d, x) {
      AncestorsComparable(t, rank, c, d, x);
      var (u, v) := if Below(t, rank, c, d) then (c, d) else (d, c);
      BelowParent(t, rank, u, v);
      BelowRank(t, rank, u, h);
      assert false;
    }
  }

  /** Two different roots share no descendant. */
  lemma RootsDisjoint(t: Tree, rank: Hash -> nat, a: Hash, b: Hash, x: Hash)
    requires Ranked(t, rank) && WellFormed(t) && IsRoot(t, a) && IsRoot(t, b) && a != b && Below(t, rank, a, x)
    ensures !Below(t, rank, b, x)
  {
    hide SubtreeSum, Below;
    if Below(t, rank, b, x) {
      AncestorsComparable(t, rank, a, b, x);
      var (u, v) := if Below(t, rank, a, b) then (a, b) else (b, a);
      BelowParent(t, rank, u, v);
      assert false;
    }
  }

  ghost function Subtree(t: Tree, rank: Hash -> nat, h: Hash): set<Hash>
    requires Ranked(t, rank)
  {
    set x | x in t && Below(t, rank, h, x)
  }

  ghost function Under(t: Tree, rank: Hash -> nat, cs: seq<Hash>): set<Hash>
    requires Ranked(t, rank)
  {
    set x | x in t && (exists c :: c in cs && Below(t, rank, c, x))
  }

  ghost function WeightFn(w: Weights): Hash -> nat { (h: Hash) => Weight(w, h) }

  ghost function TotalWeight(w: Weights, s: set<Hash>): nat { Sum(s, WeightFn(w)) }

  /** The recursive subtree sum counts every block of the subtree exactly once. */
  lemma {:induction false} SubtreeSumIsTotal(t: Tree, w: Weights, rank: Hash -> nat, h: Hash)
    requires Ranked(t, rank) && WellFormed(t) && h in t
    ensures SubtreeSum(t, w, rank, h) == TotalWeight(w, Subtree(t, rank, h))
    decreases rank(h), 1, 0
  {
    var f := WeightFn(w);
    var kids := t[h].children;
    ChildSumIsTotal(t, w, rank, h, kids);
    var below := Under(t, rank, kids);
    assert h !in below by {
      if h in below {
        var c :| c in kids && Below(t, rank, c, h);
        BelowRank(t, rank, c, h);
        assert false;
      }
    }
    assert Subtree(t, rank, h) == {h} + below;
    SumDisjoint({h}, below, f);
    SumRemove({h}, f, h);
    assert {h} - {h} == {};
  }

  /** The last child's subtree comes on top of the earlier ones and shares nothing with them. */
  lemma UnderLast(t: Tree, rank: Hash -> nat, h: Hash, cs: seq<Hash>)
    requires Ranked(t, rank) && WellFormed(t) && h in t && cs <= t[h].children && cs != []
    ensures var (init, last) := (cs[..|cs| - 1], cs[|cs| - 1]);
            && Under(t, rank, cs) == Under(t, rank, init) + Subtree(t, rank, last)
            && Under(t, rank, init) !! Subtree(t, rank, last)
  {
    hide Below;
    var (init, last) := (cs[..|cs| - 1], cs[|cs| - 1]);
    assert forall c :: c in cs <==> c in init || c == last;
    forall x | x in Under(t, rank, init) ensures x !in Subtree(t, rank, last) {
      var c :| c in init && Below(t, rank, c, x);
      SiblingsDisjoint(t, rank, h, c, last, x);
    }
  }

  lemma {:induction false} ChildSumIsTotal(t: Tree, w: Weights, rank: Hash -> nat, h: Hash, cs: seq<Hash>)
    requires Ranked(t, rank) && WellFormed(t) && h in t && cs <= t[h].children
    ensures forall c | c in cs :: rank(c) < rank(h)
    ensures ChildSum(t, w, rank, h, cs) == TotalWeight(w, Under(t, rank, cs))
    decreases rank(h), 0, |cs|
  {
    hide SubtreeSum, Below;
    var f, all := WeightFn(w), Under(t, rank, cs);
    if cs == [] {
      assert all == {};
    } else {
      var init, last := cs[..|cs| - 1], cs[|cs| - 1];
      ChildSumIsTotal(t, w, rank, h, init);
      SubtreeSumIsTotal(t, w, rank, last);
      var a := Under(t, rank, init);
      var b := Subtree(t, rank, last);
      UnderLast(t, rank, h, cs);
      SumDisjoint(a, b, f);
    }
  }

  // ---------------------------------------------------------------- choosing roots, children, head

  ghost predicate IsRoot(t: Tree, h: Hash) { h in t && t[h].parent.None? }

  /** Roots are ordered by weight, then by smaller hash. */
  ghost predicate RootBeats(t: Tree, w: Weights, rank: Hash -> nat, a: Hash, b: Hash)
    requires Ranked(t, rank)
  {
    var (wa, wb) := (SubtreeSum(t, w, rank, a), SubtreeSum(t, w, rank, b));
    wa > wb || (wa == wb && Less(a, b))
  }

  /** Children are ordered by weight, then by higher block number, then by smaller hash. */
  ghost predicate ChildBeats(t: Tree, w: Weights, rank: Hash -> nat, a: Hash, b: Hash)
    requires Ranked(t, rank)
  {
    var (wa, wb) := (SubtreeSum(t, w, rank, a), SubtreeSum(t, w, rank, b));
    wa > wb || (wa == wb && (Number(t, a) > Number(t, b) || (Number(t, a) == Number(t, b) && Less(a, b))))
  }

  ghost predicate IsBestRoot(t: Tree, w: Weights, rank: Hash -> nat, h: Hash)
    requires Ranked(t, rank)
  {
    IsRoot(t, h) && forall o | IsRoot(t, o) && o != h :: RootBeats(t, w, rank, h, o)
  }

  ghost predicate IsBestChild(t: Tree, w: Weights, rank: Hash -> nat, h: Hash, c: Hash)
    requires Ranked(t, rank)
  {
    c in Kids(t, h) && forall o | o in Kids(t, h) && o != c :: ChildBeats(t, w, rank, c, o)
  }

  ghost predicate GreedyStep(t: Tree, w: Weights, rank: Hash -> nat, path: seq<Hash>, i: int)
    requires Ranked(t, rank)
  {
    0 < i < |path| && IsBestChild(t, w, rank, path[i - 1], path[i])
  }

  /** The walk of GHOST: from the best root, always to the best child, down to a leaf. */
  ghost predicate GreedyPath(t: Tree, w: Weights, rank: Hash -> nat, path: seq<Hash>)
    requires Ranked(t, rank)
  {
    && path != []
    && IsBestRoot(t, w, rank, path[0])
    && (forall i | 0 < i < |path| :: GreedyStep(t, w, rank, path, i))
    && Kids(t, path[|path| - 1]) == []
  }

  ghost predicate IsHead(t: Tree, w: Weights, rank: Hash -> nat, head: Option<Hash>)
    requires Ranked(t, rank)
  {
    match head
    case None => forall h :: !IsRoot(t, h)
    case Some(h) => exists path :: GreedyPath(t, w, rank, path) && path[|path| - 1] == h
  }

  /** `_pick_genesis`, visiting the roots in whatever order the dictionary lists them. */
  method PickGenesis(t: Tree, w: Weights, ghost rank: Hash -> nat) returns (best: Option<Hash>)
    requires Ranked(t, rank)
    ensures best.None? ==> forall h :: !IsRoot(t, h)
    ensures best.Some? ==> IsBestRoot(t, w, rank, best.value)
  {
    var roots := set h | h in t && t[h].parent.None?;
    assert forall h: Hash :: h in roots <==> IsRoot(t, h);
    if roots == {} { return None; }
    if |roots| == 1 {
      var only :| only in roots;
      assert |roots - {only}| == 0;
      return Some(only);
    }
    var todo := roots;
    best := None;
    var bestWeight: int := -1;
    while todo != {}
      invariant todo <= roots
      invariant best.None? ==> bestWeight == -1 && todo == roots
      invariant best.Some? ==> best.value in roots - todo && bestWeight == SubtreeSum(t, w, rank, best.value)
      invariant best.Some? ==> forall o | o in roots - todo && o != best.value :: RootBeats(t, w, rank, best.value, o)
    {
      var root :| root in todo;
      assert roots - (todo - {root}) == (roots - todo) + {root};
      todo := todo - {root};
      var cum := CumulativeWeight(root, t, w, rank);
      if cum > bestWeight || (cum == bestWeight && (best.None? || Less(root, best.value))) {
        bestWeight := cum;
        best := Some(root);
      }
    }
  }

  /** The loop of `_select_head_python` over the children of `current`. */
  method BestChild(current: Hash, t: Tree, w: Weights, ghost rank: Hash -> nat) returns (best: Option<Hash>)
    requires Ranked(t, rank)
    ensures best.None? <==> Kids(t, current) == []
    ensures best.Some? ==> IsBestChild(t, w, rank, current, best.value)
  {
    var kids := Kids(t, current);
    best := None;
    var bestWeight: int := -1;
    for i := 0 to |kids|
      invariant best.None? <==> i == 0
      invariant best.None? ==> bestWeight == -1
      invariant best.Some? ==> best.value in kids[..i] && bestWeight == SubtreeSum(t, w, rank, best.value)
      invariant best.Some? ==> forall k | 0 <= k < i && kids[k] != best.value :: ChildBeats(t, w, rank, best.value, kids[k])
    {
      var child := kids[i];
      var cum := CumulativeWeight(child, t, w, rank);
      if cum > bestWeight {
        bestWeight := cum;
        best := Some(child);
      } else if cum == bestWeight && best.Some? {
        var childNum, bestNum := Number(t, child), Number(t, best.value);
        if childNum > bestNum {
          best := Some(child);
        } else if childNum == bestNum && Less(child, best.value) {
          best := Some(child);
        }
      }
    }
  }

  /** `_select_head_python`. The `visited` guard of the source never fires on an acyclic forest. */
  method SelectHead(t: Tree, w: Weights, ghost rank: Hash -> nat) returns (head: Option<Hash>)
    requires Ranked(t, rank)
    ensures IsHead(t, w, rank, head)
  {
    if t == map[] { return None; }
    var genesis := PickGenesis(t, w, rank);
    if genesis.None? { return None; }
    var current := genesis.value;
    ghost var path := [current];
    var visited: set<Hash> := {};
    while current !in visited
      invariant path != [] && path[|path| - 1] == current
      invariant IsBestRoot(t, w, rank, path[0])
      invariant forall i | 0 < i < |path| :: GreedyStep(t, w, rank, path, i)
      invariant forall h | h in visited :: rank(h) > rank(current)
      decreases rank(current)
    {
      visited := visited + {current};
      var best := BestChild(current, t, w, rank);
      if best.None? { return Some(current); }
      assert current in t;
      current := best.value;
      ghost var before := path;
      path := path + [current];
      forall i | 0 < i < |path| ensures GreedyStep(t, w, rank, path, i) {
        if i < |before| { assert GreedyStep(t, w, rank, before, i); }
      }
    }
    head := Some(current);
  }

  ghost function Prev(path: seq<Hash>, i: int): Option<Hash> {
    if 0 < i <= |path| then Some(path[i - 1]) else None
  }

  /** Each block of `path` names its predecessor as parent, and the first names none. */
  ghost predicate ParentLinked(t: Tree, path: seq<Hash>) {
    forall i | 0 <= i < |path| :: path[i] in t && t[path[i]].parent == Prev(path, i)
  }

  lemma GreedyPathLinked(t: Tree, w: Weights, rank: Hash -> nat, path: seq<Hash>)
    requires Ranked(t, rank) && WellFormed(t) && GreedyPath(t, w, rank, path)
    ensures ParentLinked(t, path)
  {
    hide SubtreeSum, ChildBeats, RootBeats;
    forall i | 0 <= i < |path|
      ensures path[i] in t && t[path[i]].parent == Prev(path, i)
    {
      if i > 0 { assert GreedyStep(t, w, rank, path, i); }
    }
  }

  lemma ParentAt(t: Tree, path: seq<Hash>, i: nat)
    requires ParentLinked(t, path) && i < |path|
    ensures path[i] in t && t[path[i]].parent == Prev(path, i)
  {
  }

  /** The climbing loop of `get_chain_from_head`, with its final reversal. */
  method Climb(t: Tree, head: Hash, ghost path: seq<Hash>) returns (chain: seq<Hash>)
    requires path != [] && path[|path| - 1] == head && ParentLinked(t, path)
    ensures chain == path
  {
    hide ParentLinked;
    var current := Some(head);
    chain := [];
    ghost var left: int := |path|;
    while current.Some?
      invariant 0 <= left <= |path|
      invariant current == Prev(path, left)
      invariant |chain| == |path| - left && forall i | 0 <= i < |chain| :: chain[i] == path[|path| - 1 - i]
      decreases left
    {
      ParentAt(t, path, left - 1);
      chain := chain + [current.value];
      current := if current.value in t then t[current.value].parent else None;
      left := left - 1;
    }
    chain := seq(|chain|, i requires 0 <= i < |chain| => chain[|chain| - 1 - i]);
  }

  /** `get_chain_from_head`: the whole greedy walk, recovered from the parent pointers of its end. */
  method ChainFromHead(t: Tree, w: Weights, ghost rank: Hash -> nat) returns (chain: seq<Hash>)
    requires Ranked(t, rank) && WellFormed(t)
    ensures if chain == [] then forall h :: !IsRoot(t, h) else GreedyPath(t, w, rank, chain)
  {
    var head := SelectHead(t, w, rank);
    if head.None? { return []; }
    ghost var path :| GreedyPath(t, w, rank, path) && path[|path| - 1] == head.value;
    GreedyPathLinked(t, w, rank, path);
    chain := Climb(t, head.value, path);
  }

  // ---------------------------------------------------------------- theorems about the head

  lemma {:induction false} PathDescends(t: Tree, w: Weights, rank: Hash -> nat, path: seq<Hash>, i: nat, j: nat)
    requires Ranked(t, rank) && GreedyPath(t, w, rank, path) && i <= j < |path|
    ensures Below(t, rank, path[i], path[j])
    decreases j - i
  {
    if i < j {
      PathDescends(t, w, rank, path, i + 1, j);
      assert GreedyStep(t, w, rank, path, i + 1);
    }
  }

  /** There is only one greedy walk: the tie-breaks are total orders. */
  lemma {:induction false} GreedyPathUnique(t: Tree, w: Weights, rank: Hash -> nat, p: seq<Hash>, q: seq<Hash>, n: nat)
    requires Ranked(t, rank) && GreedyPath(t, w, rank, p) && GreedyPath(t, w, rank, q)
    requires 0 < n <= |p| && n <= |q|
    ensures p[..n] == q[..n]
  {
    if n == 1 {
      assert p[0] == q[0];
    } else {
      GreedyPathUnique(t, w, rank, p, q, n - 1);
      assert p[n - 2] == p[..n - 1][n - 2] == q[..n - 1][n - 2] == q[n - 2];
      assert GreedyStep(t, w, rank, p, n - 1) && GreedyStep(t, w, rank, q, n - 1);
      assert p[..n] == p[..n - 1] + [p[n - 1]] && q[..n] == q[..n - 1] + [q[n - 1]];
    }
  }

  lemma InnerHasKids(t: Tree, w: Weights, rank: Hash -> nat, p: seq<Hash>, i: nat)
    requires Ranked(t, rank) && GreedyPath(t, w, rank, p) && i + 1 < |p|
    ensures Kids(t, p[i]) != []
  {
    assert GreedyStep(t, w, rank, p, i + 1);
  }

  /** One greedy walk cannot stop where another goes on. */
  lemma GreedyPathMaximal(t: Tree, w: Weights, rank: Hash -> nat, p: seq<Hash>, q: seq<Hash>)
    requires Ranked(t, rank) && GreedyPath(t, w, rank, p) && GreedyPath(t, w, rank, q)
    ensures p == q
  {
    var n := if |p| <= |q| then |p| else |q|;
    GreedyPathUnique(t, w, rank, p, q, n);
    assert p[n - 1] == p[..n][n - 1] == q[..n][n - 1] == q[n - 1];
    if n < |q| { InnerHasKids(t, w, rank, q, n - 1); }
    if n < |p| { InnerHasKids(t, w, rank, p, n - 1); }
    assert p == p[..n] && q == q[..n];
  }

  lemma HeadUnique(t: Tree, w: Weights, rank: Hash -> nat, h1: Option<Hash>, h2: Option<Hash>)
    requires Ranked(t, rank) && IsHead(t, w, rank, h1) && IsHead(t, w, rank, h2)
    ensures h1 == h2
  {
    hide SubtreeSum;
    if h1.Some? && h2.Some? {
      var p :| GreedyPath(t, w, rank, p) && p[|p| - 1] == h1.value;
      var q :| GreedyPath(t, w, rank, q) && q[|q| - 1] == h2.value;
      GreedyPathMaximal(t, w, rank, p, q);
    }
  }

  /** Two forests that differ only in the order in which children arrived. */
  ghost predicate Agree(t: Tree, u: Tree) {
    && t.Keys == u.Keys
    && forall h | h in t ::
         && t[h].parent == u[h].parent
         && t[h].number == u[h].number
         && forall c :: c in t[h].children <==> c in u[h].children
  }

  lemma {:induction false} BelowAgree(t: Tree, u: Tree, rank: Hash -> nat, h: Hash, x: Hash)
    requires Agree(t, u) && Ranked(t, rank) && Ranked(u, rank)
    ensures Below(t, rank, h, x) <==> Below(u, rank, h, x)
    decreases rank(h)
  {
    if h in t {
      forall c | c in t[h].children ensures Below(t, rank, c, x) <==> Below(u, rank, c, x) {
        BelowAgree(t, u, rank, c, x);
      }
    }
  }

  lemma SubtreeSumAgree(t: Tree, u: Tree, w: Weights, rank: Hash -> nat, h: Hash)
    requires Agree(t, u) && Ranked(t, rank) && Ranked(u, rank) && WellFormed(t) && WellFormed(u) && h in t
    ensures SubtreeSum(t, w, rank, h) == SubtreeSum(u, w, rank, h)
  {
    SubtreeSumIsTotal(t, w, rank, h);
    SubtreeSumIsTotal(u, w, rank, h);
    forall x ensures Below(t, rank, h, x) <==> Below(u, rank, h, x) {
      BelowAgree(t, u, rank, h, x);
    }
    assert Subtree(t, rank, h) == Subtree(u, rank, h);
  }

  /** The head does not depend on the order in which children were listed. */
  lemma HeadAgree(t: Tree, u: Tree, w: Weights, rank: Hash -> nat, head: Option<Hash>)
    requires Agree(t, u) && Ranked(t, rank) && Ranked(u, rank) && WellFormed(t) && WellFormed(u)
    requires IsHead(t, w, rank, head)
    ensures IsHead(u, w, rank, head)
  {
    hide SubtreeSum;
    forall h | h in t ensures SubtreeSum(t, w, rank, h) == SubtreeSum(u, w, rank, h) {
      SubtreeSumAgree(t, u, w, rank, h);
    }
    if head.None? {
      forall h ensures !IsRoot(u, h) {
        assert !IsRoot(t, h);
      }
    } else {
      var p :| GreedyPath(t, w, rank, p) && p[|p| - 1] == head.value;
      GreedyPathAgree(t, u, w, rank, p);
    }
  }

  lemma GreedyPathAgree(t: Tree, u: Tree, w: Weights, rank: Hash -> nat, p: seq<Hash>)
    requires Agree(t, u) && Ranked(t, rank) && Ranked(u, rank) && WellFormed(t)
    requires forall h | h in t :: SubtreeSum(t, w, rank, h) == SubtreeSum(u, w, rank, h)
    requires GreedyPath(t, w, rank, p)
    ensures GreedyPath(u, w, rank, p)
  {
    forall o | IsRoot(u, o) && o != p[0] ensures RootBeats(u, w, rank, p[0], o) {
      assert IsRoot(t, o);
    }
    forall i | 0 < i < |p| ensures GreedyStep(u, w, rank, p, i) {
      assert GreedyStep(t, w, rank, p, i);
      BestChildAgree(t, u, w, rank, p[i - 1], p[i]);
    }
    KidsAgree(t, u, p[|p| - 1]);
  }

  lemma KidsAgree(t: Tree, u: Tree, h: Hash)
    requires Agree(t, u)
    ensures Kids(t, h) == [] <==> Kids(u, h) == []
  {
    if Kids(t, h) != [] { assert Kids(t, h)[0] in t[h].children; }
    if Kids(u, h) != [] { assert Kids(u, h)[0] in u[h].children; }
  }

  lemma BestChildAgree(t: Tree, u: Tree, w: Weights, rank: Hash -> nat, h: Hash, c: Hash)
    requires Agree(t, u) && Ranked(t, rank) && Ranked(u, rank) && WellFormed(t)
    requires forall h | h in t :: SubtreeSum(t, w, rank, h) == SubtreeSum(u, w, rank, h)
    requires IsBestChild(t, w, rank, h, c)
    ensures IsBestChild(u, w, rank, h, c)
  {
    hide SubtreeSum;
    forall o | o in Kids(u, h) && o != c ensures ChildBeats(u, w, rank, c, o) {
      assert o in t[h].children && c in t[h].children;
      assert ChildBeats(t, w, rank, c, o);
    }
  }

  /** Every block hangs below some root. */
  lemma {:induction false} HasRoot(t: Tree, rank: Hash -> nat, b: Hash) returns (root: Hash)
    requires Ranked(t, rank) && WellFormed(t) && b in t
    ensures IsRoot(t, root) && Below(t, rank, root, b)
    decreases |set x | x in t && rank(x) > rank(b)|
  {
    if t[b].parent.None? {
      root := b;
    } else {
      var p := t[b].parent.value;
      var (above, higher) := (set x | x in t && rank(x) > rank(b), set x | x in t && rank(x) > rank(p));
      assert p in above && p !in higher && higher <= above;
      SmallerSet(higher, above, p);
      root := HasRoot(t, rank, p);
      assert Below(t, rank, b, b) && Below(t, rank, p, b);
      BelowTransitive(t, rank, root, p, b);
    }
  }

  lemma SmallerSet(a: set<Hash>, b: set<Hash>, x: Hash)
    requires a <= b && x in b && x !in a
    ensures |a| < |b|
  {
    assert |b| == |a| + |b - a| by { assert b == a + (b - a); }
    assert b - a != {} by { assert x in b - a; }
  }

  /** Two disjoint subtrees cannot both hold more than half of the forest's weight. */
  lemma DisjointWeights(t: Tree, w: Weights, rank: Hash -> nat, a: Hash, b: Hash)
    requires Ranked(t, rank) && WellFormed(t) && a in t && b in t
    requires forall x | Below(t, rank, a, x) :: !Below(t, rank, b, x)
    ensures SubtreeSum(t, w, rank, a) + SubtreeSum(t, w, rank, b) <= TotalWeight(w, t.Keys)
  {
    var f := WeightFn(w);
    var (sa, sb) := (Subtree(t, rank, a), Subtree(t, rank, b));
    SubtreeSumIsTotal(t, w, rank, a);
    SubtreeSumIsTotal(t, w, rank, b);
    SumDisjoint(sa, sb, f);
    SumMonotone(sa + sb, t.Keys, f);
  }

  lemma SubtreeSumMonotone(t: Tree, w: Weights, rank: Hash -> nat, a: Hash, b: Hash)
    requires Ranked(t, rank) && WellFormed(t) && a in t && b in t && Below(t, rank, a, b)
    ensures SubtreeSum(t, w, rank, b) <= SubtreeSum(t, w, rank, a)
  {
    hide SubtreeSum;
    var f := WeightFn(w);
    SubtreeSumIsTotal(t, w, rank, a);
    SubtreeSumIsTotal(t, w, rank, b);
    forall x | x in Subtree(t, rank, b) ensures x in Subtree(t, rank, a) {
      BelowTransitive(t, rank, a, b, x);
    }
    SumMonotone(Subtree(t, rank, b), Subtree(t, rank, a), f);
  }

  /**
   * A block whose subtree holds strictly more than half of the weight in the forest is at or above
   * the head, however many roots the forest has.
   */
  lemma MajorityIsOnTheChain(t: Tree, w: Weights, rank: Hash -> nat, head: Hash, b: Hash)
    requires Ranked(t, rank) && WellFormed(t) && b in t && IsHead(t, w, rank, Some(head))
    requires 2 * SubtreeSum(t, w, rank, b) > TotalWeight(w, t.Keys)
    ensures Below(t, rank, b, head)
  {
    hide SubtreeSum, Below, WellFormed;
    var path :| GreedyPath(t, w, rank, path) && path[|path| - 1] == head;
    var root := HasRoot(t, rank, b);
    if root != path[0] {
      forall x | Below(t, rank, root, x) ensures !Below(t, rank, path[0], x) {
        RootsDisjoint(t, rank, root, path[0], x);
      }
      DisjointWeights(t, w, rank, root, path[0]);
      SubtreeSumMonotone(t, w, rank, root, b);
      assert false;
    }
    var i := MajorityOnPath(t, w, rank, path, b, 0);
    PathDescends(t, w, rank, path, i, |path| - 1);
  }

  lemma MajorityChild(t: Tree, w: Weights, rank: Hash -> nat, h: Hash, c: Hash, d: Hash, b: Hash)
    requires Ranked(t, rank) && WellFormed(t) && b in t && h in t
    requires 2 * SubtreeSum(t, w, rank, b) > TotalWeight(w, t.Keys)
    requires c in t[h].children && Below(t, rank, c, b) && IsBestChild(t, w, rank, h, d)
    ensures c == d
  {
    hide SubtreeSum, Below;
    if c != d {
      forall x | Below(t, rank, c, x) ensures !Below(t, rank, d, x) {
        SiblingsDisjoint(t, rank, h, c, d, x);
      }
      DisjointWeights(t, w, rank, c, d);
      SubtreeSumMonotone(t, w, rank, c, b);
    }
  }

  lemma BestIsChild(t: Tree, w: Weights, rank: Hash -> nat, h: Hash, c: Hash)
    requires Ranked(t, rank) && WellFormed(t) && h in t && IsBestChild(t, w, rank, h, c)
    ensures c in t
  {
    hide SubtreeSum, ChildBeats;
  }

  lemma MajorityNext(t: Tree, w: Weights, rank: Hash -> nat, path: seq<Hash>, b: Hash, i: nat)
    requires Ranked(t, rank) && WellFormed(t) && b in t && GreedyPath(t, w, rank, path)
    requires 2 * SubtreeSum(t, w, rank, b) > TotalWeight(w, t.Keys)
    requires i < |path| && path[i] in t && Below(t, rank, path[i], b) && path[i] != b
    ensures i + 1 < |path| && path[i + 1] in t && Below(t, rank, path[i + 1], b)
  {
    hide SubtreeSum, IsBestRoot, IsBestChild, WellFormed;
    var c :| c in t[path[i]].children && Below(t, rank, c, b);
    hide Below;
    assert GreedyStep(t, w, rank, path, i + 1);
    BestIsChild(t, w, rank, path[i], path[i + 1]);
    MajorityChild(t, w, rank, path[i], c, path[i + 1], b);
  }

  lemma {:induction false} MajorityOnPath(t: Tree, w: Weights, rank: Hash -> nat, path: seq<Hash>, b: Hash, i: nat)
    returns (k: nat)
    requires Ranked(t, rank) && WellFormed(t) && b in t && GreedyPath(t, w, rank, path)
    requires 2 * SubtreeSum(t, w, rank, b) > TotalWeight(w, t.Keys)
    requires i < |path| && path[i] in t && Below(t, rank, path[i], b)
    ensures k < |path| && path[k] == b
    decreases |path| - i
  {
    hide SubtreeSum;
    if path[i] == b {
      k := i;
    } else {
      MajorityNext(t, w, rank, path, b, i);
      k := MajorityOnPath(t, w, rank, path, b, i + 1);
    }
  }

  /**
   * Shifting weight towards the head keeps the head: if the subtrees that hold it lose nothing and
   * the others gain nothing, every choice along the walk comes out the same.
   */
  lemma HeadKept(t: Tree, w: Weights, w': Weights, rank: Hash -> nat, head: Hash)
    requires Ranked(t, rank) && WellFormed(t) && IsHead(t, w, rank, Some(head))
    requires forall b | b in t && Below(t, rank, b, head) :: SubtreeSum(t, w', rank, b) >= SubtreeSum(t, w, rank, b)
    requires forall b | b in t && !Below(t, rank, b, head) :: SubtreeSum(t, w', rank, b) <= SubtreeSum(t, w, rank, b)
    ensures IsHead(t, w', rank, Some(head))
  {
    hide SubtreeSum, Below, WellFormed;
    var path :| GreedyPath(t, w, rank, path) && path[|path| - 1] == head;
    PathDescends(t, w, rank, path, 0, |path| - 1);
    forall o | IsRoot(t, o) && o != path[0] ensures RootBeats(t, w', rank, path[0], o) {
      RootsDisjoint(t, rank, path[0], o, head);
      assert RootBeats(t, w, rank, path[0], o);
    }
    forall i | 0 < i < |path| ensures GreedyStep(t, w', rank, path, i) {
      assert GreedyStep(t, w, rank, path, i);
      PathDescends(t, w, rank, path, i, |path| - 1);
      BestChildKept(t, w, w', rank, path[i - 1], path[i], head);
    }
    assert GreedyPath(t, w', rank, path);
  }

  lemma BestChildKept(t: Tree, w: Weights, w': Weights, rank: Hash -> nat, h: Hash, c: Hash, head: Hash)
    requires Ranked(t, rank) && WellFormed(t) && IsBestChild(t, w, rank, h, c) && Below(t, rank, c, head)
    requires forall b | b in t && Below(t, rank, b, head) :: SubtreeSum(t, w', rank, b) >= SubtreeSum(t, w, rank, b)
    requires forall b | b in t && !Below(t, rank, b, head) :: SubtreeSum(t, w', rank, b) <= SubtreeSum(t, w, rank, b)
    ensures IsBestChild(t, w', rank, h, c)
  {
    hide SubtreeSum, Below;
    forall o | o in Kids(t, h) && o != c ensures ChildBeats(t, w', rank, c, o) {
      SiblingsDisjoint(t, rank, h, c, o, head);
      assert ChildBeats(t, w, rank, c, o);
    }
  }
}
