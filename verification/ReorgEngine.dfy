/** A reorg engine over a parent map that never leaves a finalised block (consensus/reorg_engine.py). */
module ReorgEngine {
  import opened Collections

  type Id = string
  datatype Entry = Entry(parent: Option<Id>, number: int)
  type Blocks = map<Id, Entry>

  /** A missing or empty hash ends a walk. */
  predicate Names(h: Option<Id>) { h.Some? && h.value != "" }

  function ParentOf(blocks: Blocks, h: Id): Option<Id> { if h in blocks then blocks[h].parent else None }

  /** The hashes met going down from `h`, stopping at one already visited. */
  function Walk(blocks: Blocks, h: Option<Id>, visited: set<Id>): seq<Id>
    decreases |blocks.Keys - visited|, if h.Some? then 1 else 0
  {
    if !Names(h) || h.value in visited then []
    else
      StillLess(blocks, h.value, visited);
      [h.value] + Walk(blocks, ParentOf(blocks, h.value), visited + {h.value})
  }

  lemma StillLess(blocks: Blocks, h: Id, visited: set<Id>)
    requires h !in visited
    ensures |blocks.Keys - (visited + {h})| == |blocks.Keys - visited| - if h in blocks then 1 else 0
  {
    assert blocks.Keys - (visited + {h}) == (blocks.Keys - visited) - {h};
  }

  /** A parent path: each hash is the parent of the one before. */
  ghost predicate IsPath(blocks: Blocks, path: seq<Id>) {
    && path != [] && path[0] != ""
    && forall k | 0 < k < |path| :: ParentStep(blocks, path, k)
  }

  ghost predicate ParentStep(blocks: Blocks, path: seq<Id>, k: int) {
    0 < k < |path| && path[k] != "" && ParentOf(blocks, path[k - 1]) == Some(path[k])
  }

  /** `target` is `tip` or an ancestor of it. */
  ghost predicate Below(blocks: Blocks, tip: Id, target: Id) {
    exists path :: IsPath(blocks, path) && path[0] == tip && path[|path| - 1] == target
  }

  /** What a walk met and what it had visited before are together closed under parents. */
  lemma {:induction false} WalkClosed(blocks: Blocks, h: Option<Id>, visited: set<Id>, x: Id)
    requires x in Walk(blocks, h, visited) && Names(ParentOf(blocks, x))
    ensures ParentOf(blocks, x).value in Walk(blocks, h, visited) || ParentOf(blocks, x).value in visited
    decreases |blocks.Keys - visited|, if h.Some? then 1 else 0
  {
    StillLess(blocks, h.value, visited);
    var rest := Walk(blocks, ParentOf(blocks, h.value), visited + {h.value});
    assert forall y | y in rest :: y in Walk(blocks, h, visited);
    if x in rest {
      WalkClosed(blocks, ParentOf(blocks, h.value), visited + {h.value}, x);
    }
  }

  /** A walk is a path. */
  lemma {:induction false} WalkIsPath(blocks: Blocks, h: Option<Id>, visited: set<Id>, k: nat)
    requires k < |Walk(blocks, h, visited)|
    ensures var w := Walk(blocks, h, visited);
            Names(h) && w[0] == h.value && w[k] != "" && (k > 0 ==> ParentOf(blocks, w[k - 1]) == Some(w[k]))
    decreases |blocks.Keys - visited|, if h.Some? then 1 else 0
  {
    StillLess(blocks, h.value, visited);
    if k > 0 {
      WalkIsPath(blocks, ParentOf(blocks, h.value), visited + {h.value}, k - 1);
      if k > 1 { assert Walk(blocks, h, visited)[k - 1] == Walk(blocks, ParentOf(blocks, h.value), visited + {h.value})[k - 2]; }
    }
  }

  lemma {:induction false} PathStaysInWalk(blocks: Blocks, path: seq<Id>, k: nat)
    requires IsPath(blocks, path) && k < |path|
    ensures path[k] in Walk(blocks, Some(path[0]), {})
  {
    if k > 0 {
      PathStaysInWalk(blocks, path, k - 1);
      assert ParentStep(blocks, path, k);
      WalkClosed(blocks, Some(path[0]), {}, path[k - 1]);
    }
  }

  /** The walk from a tip meets exactly the tip and its ancestors, cycles in the map or not. */
  lemma WalkIsAncestry(blocks: Blocks, tip: Id, target: Id)
    ensures target in Walk(blocks, Some(tip), {}) <==> Below(blocks, tip, target)
  {
    var w := Walk(blocks, Some(tip), {});
    if target in w {
      var n :| 0 <= n < |w| && w[n] == target;
      var path := w[..n + 1];
      WalkIsPath(blocks, Some(tip), {}, 0);
      forall k | 0 < k < |path| ensures ParentStep(blocks, path, k) {
        WalkIsPath(blocks, Some(tip), {}, k);
      }
      assert IsPath(blocks, path) && path[|path| - 1] == target;
    }
    if Below(blocks, tip, target) {
      var path :| IsPath(blocks, path) && path[0] == tip && path[|path| - 1] == target;
      PathStaysInWalk(blocks, path, |path| - 1);
    }
  }

  /** Adding a block that is new to the map keeps every ancestry. */
  lemma NewBlockKeepsAncestry(blocks: Blocks, h: Id, e: Entry, tip: Id, target: Id)
    requires h !in blocks && Below(blocks, tip, target)
    ensures Below(blocks[h := e], tip, target)
  {
    var path :| IsPath(blocks, path) && path[0] == tip && path[|path| - 1] == target;
    var more := blocks[h := e];
    forall k | 0 < k < |path| ensures ParentStep(more, path, k) {
      assert ParentStep(blocks, path, k);
    }
    assert IsPath(more, path);
  }

  class ReorgEngine {
    var blocks: Blocks
    var head: Option<Id>
    var finalized: set<Id>

    constructor ()
      ensures blocks == map[] && head == None && finalized == {}
    {
      blocks, head, finalized := map[], None, {};
    }

    /** Every finalised block is the head or an ancestor of it. */
    ghost predicate Safe()
      reads this
    {
      head.Some? && forall f | f in finalized :: Below(blocks, head.value, f)
    }

    method AddBlock(h: Id, parent: Option<Id>, number: int)
      modifies this`blocks
      ensures blocks == old(blocks)[h := Entry(parent, number)]
      ensures old(Safe()) && h !in old(blocks) ==> Safe()
    {
      ghost var before := blocks;
      blocks := blocks[h := Entry(parent, number)];
      if old(Safe()) && h !in before {
        forall f | f in finalized ensures Below(blocks, head.value, f) {
          NewBlockKeepsAncestry(before, h, Entry(parent, number), head.value, f);
        }
      }
    }

    method SetHead(h: Id)
      modifies this`head
      ensures head == Some(h)
    {
      head := Some(h);
    }

    method SetFinalized(h: Id)
      modifies this`finalized
      ensures finalized == old(finalized) + {h}
      ensures old(Safe()) && Below(blocks, head.value, h) ==> Safe()
    {
      finalized := finalized + {h};
    }

    method ChainContains(tip: Id, target: Id) returns (found: bool)
      ensures found <==> Below(blocks, tip, target)
    {
      var current: Option<Id> := Some(tip);
      var visited: set<Id> := {};
      while Names(current) && current.value !in visited
        invariant target in Walk(blocks, Some(tip), {}) <==> target in Walk(blocks, current, visited)
        decreases |blocks.Keys - visited|, if current.Some? then 1 else 0
      {
        if current.value == target {
          WalkIsAncestry(blocks, tip, target);
          return true;
        }
        StillLess(blocks, current.value, visited);
        visited := visited + {current.value};
        current := ParentOf(blocks, current.value);
      }
      WalkIsAncestry(blocks, tip, target);
      return false;
    }

    /** Accepted exactly for a known block all finalised blocks lie below; then the engine is safe. */
    method TryReorg(newHead: Id) returns (ok: bool)
      modifies this`head
      ensures ok <==> newHead in blocks && forall f | f in finalized :: Below(blocks, newHead, f)
      ensures head == if ok then Some(newHead) else old(head)
      ensures ok || old(Safe()) ==> Safe()
    {
      if newHead !in blocks { return false; }
      var todo := finalized;
      while todo != {}
        invariant todo <= finalized && forall f | f in finalized && f !in todo :: Below(blocks, newHead, f)
        invariant head == old(head)
        decreases |todo|
      {
        var f :| f in todo;
        var on := ChainContains(newHead, f);
        if !on { return false; }
        todo := todo - {f};
      }
      head := Some(newHead);
      return true;
    }

    /** The chain ends at the head, each block follows its parent, and it holds exactly the head's ancestry. */
    method GetChainFromHead() returns (chain: seq<Id>)
      ensures Names(head) ==> forall x :: x in chain <==> Below(blocks, head.value, x)
      ensures Names(head) ==> chain != [] && chain[|chain| - 1] == head.value
      ensures !Names(head) ==> chain == []
      ensures forall k | 0 <= k < |chain| - 1 :: ParentStep(blocks, [chain[k + 1], chain[k]], 1)
    {
      var down: seq<Id> := [];
      var current := head;
      var visited: set<Id> := {};
      while Names(current) && current.value !in visited
        invariant down + Walk(blocks, current, visited) == Walk(blocks, head, {})
        decreases |blocks.Keys - visited|, if current.Some? then 1 else 0
      {
        StillLess(blocks, current.value, visited);
        down := down + [current.value];
        visited := visited + {current.value};
        current := ParentOf(blocks, current.value);
      }
      assert down == Walk(blocks, head, {});
      chain := Reversed(down);
      WalkReversed(blocks, head);
    }
  }

  lemma WalkReversed(blocks: Blocks, head: Option<Id>)
    ensures var chain := Reversed(Walk(blocks, head, {}));
            && (Names(head) ==> chain != [] && chain[|chain| - 1] == head.value)
            && (Names(head) ==> forall x :: x in chain <==> Below(blocks, head.value, x))
            && forall k | 0 <= k < |chain| - 1 :: ParentStep(blocks, [chain[k + 1], chain[k]], 1)
  {
    hide Walk, Below;
    var down := Walk(blocks, head, {});
    WalkStarts(blocks, head);
    forall k | 0 <= k < |down| - 1 ensures ParentStep(blocks, [down[k], down[k + 1]], 1) {
      WalkIsPath(blocks, head, {}, k + 1);
    }
    ReversedSame(down);
    if Names(head) {
      forall x ensures x in down <==> Below(blocks, head.value, x) {
        WalkIsAncestry(blocks, head.value, x);
      }
    }
  }

  lemma WalkStarts(blocks: Blocks, head: Option<Id>)
    ensures Names(head) ==> Walk(blocks, head, {}) != [] && Walk(blocks, head, {})[0] == head.value
  {
  }

  function Reversed(s: seq<Id>): seq<Id> { seq(|s|, k requires 0 <= k < |s| => s[|s| - 1 - k]) }

  lemma ReversedSame(s: seq<Id>)
    ensures forall x :: x in Reversed(s) <==> x in s
  {
    forall x | x in s ensures x in Reversed(s) {
      var k :| 0 <= k < |s| && s[k] == x;
      assert Reversed(s)[|s| - 1 - k] == x;
    }
  }
}
