/** Two-thirds finality by deduplicated attestations (finality_engine.py). */
module FinalityEngine {
  import opened Collections

  type Id = string
  type BlockHash = string

  const EPOCH_LENGTH := 32

  datatype Checkpoint = Checkpoint(epoch: int, hash: BlockHash, number: int, votes: nat, justified: bool, finalized: bool)

  /** The engine's fields: `voters` lists per epoch, and the two history lists in order of entry. */
  datatype State = State(
    checkpoints: map<int, Checkpoint>,
    voters: map<int, seq<Id>>,
    justified: seq<int>,
    finalized: seq<int>,
    currentEpoch: int,
    activeCount: nat)

  const INITIAL := State(map[], map[], [], [], 0, 1)

  /** Python's floor division by the positive epoch length. */
  function Epoch(number: int): int { number / EPOCH_LENGTH }

  function Voters(s: State, e: int): seq<Id> { if e in s.voters then s.voters[e] else [] }

  function Quorum(votes: nat, n: nat): bool { n > 0 && votes * 3 >= n * 2 }

  // ---------------------------------------------------------------- the transitions as functions

  /** Write-once: the first block of an epoch fixes its checkpoint. */
  function Created(s: State, number: int, hash: BlockHash): State {
    var e := Epoch(number);
    if e in s.checkpoints then s
    else s.(checkpoints := s.checkpoints[e := Checkpoint(e, hash, number, 0, false, false)])
  }

  function Attested(s: State, v: Id, e: int, hash: BlockHash): State {
    if e !in s.checkpoints || s.checkpoints[e].hash != hash then s
    else
      var c := s.checkpoints[e];
      var repeat := v in Voters(s, e);
      var votes := if repeat then c.votes else c.votes + 1;
      var justify := Quorum(votes, s.activeCount) && !c.justified;
      s.(checkpoints := s.checkpoints[e := c.(votes := votes, justified := c.justified || justify)],
         voters := s.voters[e := if repeat then Voters(s, e) else Voters(s, e) + [v]],
         justified := if justify then s.justified + [e] else s.justified)
  }

  function CanFinalize(s: State, e: int): bool { e in s.justified && (e - 1) in s.justified }

  function Finalized(s: State, e: int): State {
    if CanFinalize(s, e) && e in s.checkpoints && !s.checkpoints[e].finalized then
      s.(checkpoints := s.checkpoints[e := s.checkpoints[e].(finalized := true)], finalized := s.finalized + [e])
    else s
  }

  /** Finalisation attempts for the epochs `lo`, `lo + 1`, ... below `hi`. */
  function FinalizedRange(s: State, lo: int, hi: int): State
    decreases hi - lo
  {
    if lo >= hi then s else Finalized(FinalizedRange(s, lo, hi - 1), hi - 1)
  }

  function Processed(s: State, number: int, hash: BlockHash, v: Id): State {
    var e := Epoch(number);
    FinalizedRange(Attested(Created(s, number, hash), v, e, hash), s.currentEpoch, e + 1).(currentEpoch := e)
  }

  datatype Event =
    | Create(number: int, hash: BlockHash)
    | Attest(validator: Id, epoch: int, hash: BlockHash)
    | Finalize(epoch: int)
    | Process(number: int, hash: BlockHash, validator: Id)

  function Step(s: State, ev: Event): State {
    match ev
    case Create(number, hash) => Created(s, number, hash)
    case Attest(v, e, hash) => Attested(s, v, e, hash)
    case Finalize(e) => Finalized(s, e)
    case Process(number, hash, v) => Processed(s, number, hash, v)
  }

  function Execute(n: nat, es: seq<Event>): State {
    if es == [] then INITIAL.(activeCount := n) else Step(Execute(n, es[..|es| - 1]), es[|es| - 1])
  }

  // ---------------------------------------------------------------- the engine

  class Engine {
    var checkpoints: map<int, Checkpoint>
    var votes: map<int, seq<Id>>
    var justifiedCheckpoints: seq<int>
    var finalizedCheckpoints: seq<int>
    var currentEpoch: int
    var activeValidatorCount: nat

    ghost function View(): State
      reads this
    {
      State(checkpoints, votes, justifiedCheckpoints, finalizedCheckpoints, currentEpoch, activeValidatorCount)
    }

    constructor ()
      ensures View() == INITIAL
    {
      checkpoints, votes, justifiedCheckpoints, finalizedCheckpoints := map[], map[], [], [];
      currentEpoch, activeValidatorCount := 0, 1;
    }

    method SetActiveValidatorCount(count: int)
      modifies this`activeValidatorCount
      ensures activeValidatorCount == if count > 0 then count else 0
    {
      activeValidatorCount := if count > 0 then count else 0;
    }

    method CreateCheckpoint(number: int, hash: BlockHash)
      modifies this`checkpoints
      ensures View() == Created(old(View()), number, hash)
    {
      var e := Epoch(number);
      if e !in checkpoints {
        checkpoints := checkpoints[e := Checkpoint(e, hash, number, 0, false, false)];
      }
    }

    method AddAttestation(v: Id, e: int, hash: BlockHash) returns (matched: bool)
      modifies this`checkpoints, this`votes, this`justifiedCheckpoints
      ensures View() == Attested(old(View()), v, e, hash)
      ensures matched == (e in old(checkpoints) && old(checkpoints)[e].hash == hash)
      ensures matched ==> e in checkpoints && e in votes && v in votes[e]
      ensures matched && Quorum(checkpoints[e].votes, activeValidatorCount) ==> checkpoints[e].justified
    {
      if e !in checkpoints { return false; }
      if checkpoints[e].hash != hash { return false; }
      if e !in votes { votes := votes[e := []]; }
      ghost var before := checkpoints;
      if v !in votes[e] {
        votes := votes[e := votes[e] + [v]];
        checkpoints := checkpoints[e := checkpoints[e].(votes := checkpoints[e].votes + 1)];
      }
      if activeValidatorCount > 0 && checkpoints[e].votes * 3 >= activeValidatorCount * 2 {
        if !checkpoints[e].justified {
          checkpoints := checkpoints[e := checkpoints[e].(justified := true)];
          justifiedCheckpoints := justifiedCheckpoints + [e];
        }
      }
      assert votes == old(votes)[e := votes[e]];
      assert checkpoints == before[e := checkpoints[e]];
      return true;
    }

    method FinalizeCheckpoint(e: int) returns (changed: bool)
      modifies this`checkpoints, this`finalizedCheckpoints
      ensures View() == Finalized(old(View()), e)
      ensures changed <==> e in finalizedCheckpoints && finalizedCheckpoints != old(finalizedCheckpoints)
    {
      if !(e in justifiedCheckpoints && (e - 1) in justifiedCheckpoints) { return false; }
      if e !in checkpoints { return false; }
      if !checkpoints[e].finalized {
        checkpoints := checkpoints[e := checkpoints[e].(finalized := true)];
        finalizedCheckpoints := finalizedCheckpoints + [e];
        return true;
      }
      return false;
    }

    method ProcessBlock(number: int, hash: BlockHash, v: Id) returns (isFinalized: bool)
      modifies this
      ensures View() == Processed(old(View()), number, hash, v)
      ensures isFinalized == (Epoch(number) in finalizedCheckpoints)
      ensures AllTried(View(), old(currentEpoch), Epoch(number))
    {
      var e := Epoch(number);
      CreateCheckpoint(number, hash);
      var matched := AddAttestation(v, e, hash);
      ghost var start := View();
      var k := currentEpoch;
      while k < e + 1
        invariant currentEpoch <= k
        invariant k <= e + 1 || k == currentEpoch
        invariant View() == FinalizedRange(start, currentEpoch, k)
        invariant currentEpoch == old(currentEpoch) && activeValidatorCount == old(activeValidatorCount)
      {
        var changed := FinalizeCheckpoint(k);
        k := k + 1;
      }
      assert k > e + 1 ==> FinalizedRange(start, old(currentEpoch), k) == start;
      RangeTriesAll(start, old(currentEpoch), e + 1);
      currentEpoch := e;
      isFinalized := e in finalizedCheckpoints;
    }
  }

  /** Every epoch from `lo` to `last` that can be finalised is. */
  ghost predicate AllTried(s: State, lo: int, last: int) {
    forall e | lo <= e <= last && e in s.checkpoints && CanFinalize(s, e) :: s.checkpoints[e].finalized
  }

  lemma {:induction false} RangeTriesAll(s: State, lo: int, hi: int)
    ensures AllTried(FinalizedRange(s, lo, hi), lo, hi - 1)
    decreases hi - lo
  {
    if lo < hi { RangeTriesAll(s, lo, hi - 1); }
  }

  // ---------------------------------------------------------------- run invariants

  /** `v` sent an attestation for `hash` in epoch `e`, directly or as proposer of a processed block. */
  ghost predicate Claimed(es: seq<Event>, v: Id, e: int, hash: BlockHash) {
    Attest(v, e, hash) in es || exists number :: Process(number, hash, v) in es && Epoch(number) == e
  }

  /** One checkpoint's books: its tally counts distinct attesters of its hash, its marks are earned and listed. */
  ghost predicate Sound(s: State, es: seq<Event>, e: int)
    requires e in s.checkpoints
  {
    var c := s.checkpoints[e];
    && c.epoch == e && Epoch(c.number) == e
    && c.votes == |Voters(s, e)| && NoDup(Voters(s, e))
    && (forall v | v in Voters(s, e) :: Claimed(es, v, e, c.hash))
    && (c.justified <==> e in s.justified)
    && (c.justified <==> Quorum(c.votes, s.activeCount))
    && (c.finalized <==> e in s.finalized)
  }

  ghost predicate Invariant(s: State, es: seq<Event>) {
    && (forall e | e in s.checkpoints :: Sound(s, es, e))
    && (forall e | e !in s.checkpoints :: Voters(s, e) == [])
    && (forall e | e in s.justified || e in s.finalized :: e in s.checkpoints)
    && (forall e | e in s.finalized :: e in s.justified && (e - 1) in s.justified)
    && NoDup(s.justified) && NoDup(s.finalized)
  }

  /** Later states extend earlier ones: checkpoints are write-once and the histories only grow. */
  ghost predicate Extends(s: State, s': State) {
    && s.justified <= s'.justified && s.finalized <= s'.finalized && s.activeCount == s'.activeCount
    && forall e | e in s.checkpoints ::
         e in s'.checkpoints && s'.checkpoints[e].hash == s.checkpoints[e].hash && s'.checkpoints[e].number == s.checkpoints[e].number
  }

  lemma CreatedKeeps(s: State, es: seq<Event>, number: int, hash: BlockHash)
    requires Invariant(s, es)
    ensures Invariant(Created(s, number, hash), es) && Extends(s, Created(s, number, hash))
  {
  }

  lemma AttestedKeeps(s: State, es: seq<Event>, v: Id, e: int, hash: BlockHash)
    requires Invariant(s, es) && Claimed(es, v, e, hash)
    ensures Invariant(Attested(s, v, e, hash), es) && Extends(s, Attested(s, v, e, hash))
  {
    var s' := Attested(s, v, e, hash);
    forall k | k in s'.checkpoints ensures Sound(s', es, k) {
      assert Sound(s, es, k);
      assert Voters(s', k) == Voters(s, k) || k == e;
    }
  }

  lemma FinalizedKeeps(s: State, es: seq<Event>, e: int)
    requires Invariant(s, es)
    ensures Invariant(Finalized(s, e), es) && Extends(s, Finalized(s, e))
  {
    var s' := Finalized(s, e);
    forall k | k in s'.checkpoints ensures Sound(s', es, k) {
      assert Sound(s, es, k) && Voters(s', k) == Voters(s, k);
    }
  }

  lemma {:induction false} FinalizedRangeKeeps(s: State, es: seq<Event>, lo: int, hi: int)
    requires Invariant(s, es)
    ensures Invariant(FinalizedRange(s, lo, hi), es) && Extends(s, FinalizedRange(s, lo, hi))
    decreases hi - lo
  {
    if lo < hi {
      FinalizedRangeKeeps(s, es, lo, hi - 1);
      FinalizedKeeps(FinalizedRange(s, lo, hi - 1), es, hi - 1);
    }
  }

  lemma InvariantMore(s: State, es: seq<Event>, ev: Event)
    requires Invariant(s, es)
    ensures Invariant(s, es + [ev])
  {
  }

  lemma StepKeeps(s: State, es: seq<Event>, ev: Event)
    requires Invariant(s, es)
    ensures Invariant(Step(s, ev), es + [ev]) && Extends(s, Step(s, ev))
  {
    InvariantMore(s, es, ev);
    var es' := es + [ev];
    assert ev in es';
    match ev {
      case Create(number, hash) => CreatedKeeps(s, es', number, hash);
      case Attest(v, e, hash) =>
        if Attested(s, v, e, hash) != s { AttestedKeeps(s, es', v, e, hash); }
      case Finalize(e) => FinalizedKeeps(s, es', e);
      case Process(number, hash, v) =>
        CreatedKeeps(s, es', number, hash);
        var s1 := Created(s, number, hash);
        AttestedKeeps(s1, es', v, Epoch(number), hash);
        var s2 := Attested(s1, v, Epoch(number), hash);
        FinalizedRangeKeeps(s2, es', s.currentEpoch, Epoch(number) + 1);
        EpochFieldFree(FinalizedRange(s2, s.currentEpoch, Epoch(number) + 1), es', Epoch(number));
    }
  }

  lemma EpochFieldFree(s: State, es: seq<Event>, e: int)
    requires Invariant(s, es)
    ensures Invariant(s.(currentEpoch := e), es)
  {
  }

  lemma {:induction false} ExecuteKeeps(n: nat, es: seq<Event>)
    ensures Invariant(Execute(n, es), es) && Execute(n, es).activeCount == n
  {
    if es != [] {
      var (init, ev) := (es[..|es| - 1], es[|es| - 1]);
      ExecuteKeeps(n, init);
      StepKeeps(Execute(n, init), init, ev);
      assert es == init + [ev];
    }
  }

  // ---------------------------------------------------------------- exactly what is justified and finalised

  /** The block that opens epoch `e`, by hash and number: the first created or processed in it. */
  ghost function Opener(es: seq<Event>, e: int): Option<(BlockHash, int)> {
    if es == [] then None
    else
      var (before, ev) := (Opener(es[..|es| - 1], e), es[|es| - 1]);
      if before.Some? then before
      else if (ev.Create? || ev.Process?) && Epoch(ev.number) == e then Some((ev.hash, ev.number))
      else None
  }

  /** Event `ev` is a vote of `v` for `hash` in epoch `e`. */
  ghost predicate VoteIn(ev: Event, v: Id, e: int, hash: BlockHash) {
    (ev.Attest? || ev.Process?) && ev.validator == v && ev.hash == hash && e == if ev.Attest? then ev.epoch else Epoch(ev.number)
  }

  /** The distinct validators whose votes in epoch `e`, cast once it was open, were for its opener. */
  ghost function Backers(es: seq<Event>, e: int): set<Id> {
    if es == [] then {}
    else
      var (before, ev) := (Backers(es[..|es| - 1], e), es[|es| - 1]);
      if (ev.Attest? || ev.Process?) && Opener(es, e).Some? && VoteIn(ev, ev.validator, e, Opener(es, e).value.0)
      then before + {ev.validator} else before
  }

  /** The epoch of the last block processed. */
  ghost function LastEpoch(es: seq<Event>): int {
    if es == [] then 0
    else if es[|es| - 1].Process? then Epoch(es[|es| - 1].number)
    else LastEpoch(es[..|es| - 1])
  }

  /** Event `k` tries to finalise epoch `e`: by name, or as one of the epochs from the last block's to this one's. */
  ghost predicate Tries(es: seq<Event>, k: int, e: int) {
    && 0 <= k < |es|
    && match es[k]
       case Finalize(x) => x == e
       case Process(number, _, _) => LastEpoch(es[..k]) <= e <= Epoch(number)
       case _ => false
  }

  /** At least two thirds of the `n` validators, when there are any, back the opener of epoch `e`. */
  ghost predicate Backed(n: nat, es: seq<Event>, e: int) { n > 0 && 3 * |Backers(es, e)| >= 2 * n }

  /** Attempts to finalise touch only finality marks. */
  lemma {:induction false} RangeLeaves(s: State, lo: int, hi: int)
    ensures var t := FinalizedRange(s, lo, hi);
            && t.voters == s.voters && t.justified == s.justified && t.currentEpoch == s.currentEpoch && t.activeCount == s.activeCount
            && (forall e :: e in t.checkpoints <==> e in s.checkpoints)
            && (forall e | e in s.checkpoints :: t.checkpoints[e].hash == s.checkpoints[e].hash && t.checkpoints[e].number == s.checkpoints[e].number)
    decreases hi - lo
  {
    if lo < hi { RangeLeaves(s, lo, hi - 1); }
  }

  /** What the engine keeps of an epoch is what the events say of it. */
  ghost predicate Records(s: State, es: seq<Event>, e: int) {
    && (e in s.checkpoints <==> Opener(es, e).Some?)
    && (e in s.checkpoints ==> (s.checkpoints[e].hash, s.checkpoints[e].number) == Opener(es, e).value)
    && (forall v :: v in Voters(s, e) <==> v in Backers(es, e))
    && s.currentEpoch == LastEpoch(es)
  }

  lemma StepRecords(s: State, es: seq<Event>, e: int)
    requires es != [] && Records(s, es[..|es| - 1], e)
    ensures Records(Step(s, es[|es| - 1]), es, e)
  {
    var (init, ev) := (es[..|es| - 1], es[|es| - 1]);
    match ev {
      case Create(number, hash) => CreateRecords(s, es, number, hash, e);
      case Attest(v, x, hash) => AttestRecords(s, es, v, x, hash, e);
      case Finalize(x) =>
        assert Voters(Finalized(s, x), e) == Voters(s, e) && Backers(es, e) == Backers(init, e);
      case Process(number, hash, v) => ProcessRecords(s, es, number, hash, v, e);
    }
  }

  lemma CreateRecords(s: State, es: seq<Event>, number: int, hash: BlockHash, e: int)
    requires es != [] && es[|es| - 1] == Create(number, hash) && Records(s, es[..|es| - 1], e)
    ensures Records(Created(s, number, hash), es, e)
  {
    assert Voters(Created(s, number, hash), e) == Voters(s, e);
    assert Backers(es, e) == Backers(es[..|es| - 1], e);
  }

  lemma AttestRecords(s: State, es: seq<Event>, v: Id, x: int, hash: BlockHash, e: int)
    requires es != [] && es[|es| - 1] == Attest(v, x, hash) && Records(s, es[..|es| - 1], e)
    ensures Records(Attested(s, v, x, hash), es, e)
  {
    assert Opener(es, e) == Opener(es[..|es| - 1], e);
    if e != x { assert Voters(Attested(s, v, x, hash), e) == Voters(s, e); }
  }

  lemma ProcessRecords(s: State, es: seq<Event>, number: int, hash: BlockHash, v: Id, e: int)
    requires es != [] && es[|es| - 1] == Process(number, hash, v) && Records(s, es[..|es| - 1], e)
    ensures Records(Step(s, es[|es| - 1]), es, e)
  {
    var s1 := Created(s, number, hash);
    var s2 := Attested(s1, v, Epoch(number), hash);
    var s3 := FinalizedRange(s2, s.currentEpoch, Epoch(number) + 1);
    RangeLeaves(s2, s.currentEpoch, Epoch(number) + 1);
    hide FinalizedRange;
    assert Step(s, es[|es| - 1]) == s3.(currentEpoch := Epoch(number));
    assert Voters(s3, e) == Voters(s2, e);
    assert forall u :: u in Voters(s2, e) <==> u in Backers(es, e);
  }

  lemma {:induction false} ExecuteRecords(n: nat, es: seq<Event>, e: int)
    ensures Records(Execute(n, es), es, e)
  {
    hide Step;
    if es != [] {
      ExecuteRecords(n, es[..|es| - 1], e);
      StepRecords(Execute(n, es[..|es| - 1]), es, e);
    }
  }

  /** In every run an epoch is justified exactly when two thirds of the validators back its opener. */
  lemma JustifiedExactly(n: nat, es: seq<Event>, e: int)
    ensures e in Execute(n, es).justified <==> Backed(n, es, e)
  {
    var s := Execute(n, es);
    ExecuteKeeps(n, es);
    ExecuteRecords(n, es, e);
    NoDupSize(Voters(s, e));
    assert Backers(es, e) == set v | v in Voters(s, e);
    if e in s.checkpoints { assert Sound(s, es, e); }
  }

  /** What the last event adds to the finalised epochs. */
  lemma FinalizesExactly(s: State, es: seq<Event>, ev: Event, e: int)
    requires Invariant(s, es)
    ensures var t := Step(s, ev);
            e in t.finalized <==>
            || e in s.finalized
            || (CanFinalize(t, e) && (ev == Finalize(e) || (ev.Process? && s.currentEpoch <= e <= Epoch(ev.number))))
  {
    var es' := es + [ev];
    InvariantMore(s, es, ev);
    assert ev in es';
    if ev.Process? {
      var s1 := Created(s, ev.number, ev.hash);
      var s2 := Attested(s1, ev.validator, Epoch(ev.number), ev.hash);
      CreatedKeeps(s, es', ev.number, ev.hash);
      AttestedKeeps(s1, es', ev.validator, Epoch(ev.number), ev.hash);
      RangeFinalizes(s2, es', s.currentEpoch, Epoch(ev.number) + 1, e);
      RangeLeaves(s2, s.currentEpoch, Epoch(ev.number) + 1);
    } else if ev.Finalize? {
      FinalizeExactly(s, es', ev.epoch, e);
    }
  }

  lemma FinalizeExactly(s: State, es: seq<Event>, x: int, e: int)
    requires Invariant(s, es)
    ensures e in Finalized(s, x).finalized <==> e in s.finalized || (e == x && CanFinalize(s, e))
  {
    if x in s.checkpoints { assert Sound(s, es, x); }
  }

  lemma {:induction false} RangeFinalizes(s: State, es: seq<Event>, lo: int, hi: int, e: int)
    requires Invariant(s, es)
    ensures e in FinalizedRange(s, lo, hi).finalized <==> e in s.finalized || (lo <= e < hi && CanFinalize(s, e))
    decreases hi - lo
  {
    if lo < hi {
      RangeFinalizes(s, es, lo, hi - 1, e);
      FinalizedRangeKeeps(s, es, lo, hi - 1);
      RangeLeaves(s, lo, hi - 1);
      FinalizeExactly(FinalizedRange(s, lo, hi - 1), es, hi - 1, e);
    }
  }

  /** At event `k` epoch `e` is tried with itself and its predecessor backed. */
  ghost predicate SealedAt(n: nat, es: seq<Event>, k: int, e: int) {
    Tries(es, k, e) && Backed(n, es[..k + 1], e) && Backed(n, es[..k + 1], e - 1)
  }

  /**
   * In every run an epoch is finalised exactly when some event tries it at a moment at which two thirds of
   * the validators back its opener and two thirds back its predecessor's.
   */
  lemma {:induction false} FinalizedExactly(n: nat, es: seq<Event>, e: int)
    ensures e in Execute(n, es).finalized <==> exists k :: SealedAt(n, es, k, e)
  {
    hide Step, Backed, Invariant;
    if es != [] {
      var (init, ev, k) := (es[..|es| - 1], es[|es| - 1], |es| - 1);
      var (s, t) := (Execute(n, init), Execute(n, es));
      FinalizedExactly(n, init, e);
      ExecuteKeeps(n, init);
      FinalizesExactly(s, init, ev, e);
      assert t == Step(s, ev);
      JustifiedExactly(n, es, e);
      JustifiedExactly(n, es, e - 1);
      ExecuteRecords(n, init, e);
      assert es[..k + 1] == es && es[..k] == init;
      forall j | 0 <= j < k ensures SealedAt(n, es, j, e) <==> SealedAt(n, init, j, e) {
        assert es[..j + 1] == init[..j + 1] && es[..j] == init[..j];
      }
      if j :| SealedAt(n, init, j, e) { assert SealedAt(n, es, j, e); }
      if j :| SealedAt(n, es, j, e) {
        if j < k { assert SealedAt(n, init, j, e); }
      }
      assert SealedAt(n, es, k, e) <==> Tries(es, k, e) && Backed(n, es, e) && Backed(n, es, e - 1);
      assert CanFinalize(t, e) <==> Backed(n, es, e) && Backed(n, es, e - 1);
      assert Tries(es, k, e) <==> ev == Finalize(e) || (ev.Process? && s.currentEpoch <= e <= Epoch(ev.number));
    }
  }

  // ---------------------------------------------------------------- accountable safety

  lemma IntersectionSize<T>(a: set<T>, b: set<T>, all: set<T>)
    requires a <= all && b <= all
    ensures |a * b| + |all| >= |a| + |b|
  {
    assert |a + b| + |a * b| == |a| + |b|;
    assert a + b <= all;
    assert all == (a + b) + (all - (a + b));
    assert |all| == |a + b| + |all - (a + b)|;
  }

  ghost predicate SentBy(es: seq<Event>, validators: set<Id>) {
    forall v, e, hash | Claimed(es, v, e, hash) :: v in validators
  }

  /** The validators that attested both hashes for one epoch, each to one of the two replicas. */
  ghost function Equivocators(validators: set<Id>, es: seq<Event>, fs: seq<Event>, e: int, a: BlockHash, b: BlockHash): set<Id> {
    set v | v in validators && Claimed(es, v, e, a) && Claimed(fs, v, e, b)
  }

  /**
   * Accountable safety. If two replicas fed by the same n validators justify different hashes for
   * one epoch, at least a third of the validators attested both.
   */
  lemma AccountableSafety(validators: set<Id>, es: seq<Event>, fs: seq<Event>, e: int)
    requires SentBy(es, validators) && SentBy(fs, validators)
    requires var (s, u) := (Execute(|validators|, es), Execute(|validators|, fs));
             e in s.justified && e in u.justified && e in s.checkpoints && e in u.checkpoints
             && s.checkpoints[e].hash != u.checkpoints[e].hash
    ensures var (s, u) := (Execute(|validators|, es), Execute(|validators|, fs));
            3 * |Equivocators(validators, es, fs, e, s.checkpoints[e].hash, u.checkpoints[e].hash)| >= |validators|
  {
    var n := |validators|;
    var (s, u) := (Execute(n, es), Execute(n, fs));
    var (a, b) := (s.checkpoints[e].hash, u.checkpoints[e].hash);
    var va := AttesterSet(n, es, e);
    var vb := AttesterSet(n, fs, e);
    assert forall v | v in va :: Claimed(es, v, e, a) && v in validators;
    assert forall v | v in vb :: Claimed(fs, v, e, b) && v in validators;
    IntersectionSize(va, vb, validators);
    var both := Equivocators(validators, es, fs, e, a, b);
    assert va * vb <= both;
    SubsetSize(va * vb, both);
  }

  lemma SubsetSize<T>(a: set<T>, b: set<T>)
    requires a <= b
    ensures |a| <= |b|
  {
    assert b == a + (b - a);
  }

  /** The quorum behind a justified checkpoint, as a set. */
  lemma AttesterSet(n: nat, es: seq<Event>, e: int) returns (vs: set<Id>)
    requires e in Execute(n, es).justified
    ensures e in Execute(n, es).checkpoints
    ensures forall v | v in vs :: Claimed(es, v, e, Execute(n, es).checkpoints[e].hash)
    ensures n > 0 && |vs| * 3 >= n * 2
  {
    ExecuteKeeps(n, es);
    var s := Execute(n, es);
    assert Sound(s, es, e);
    vs := set v | v in Voters(s, e);
    NoDupSize(Voters(s, e));
  }

  /** Finalised hashes are justified hashes, so the same bound holds for conflicting finality. */
  lemma AccountableFinality(validators: set<Id>, es: seq<Event>, fs: seq<Event>, e: int)
    requires SentBy(es, validators) && SentBy(fs, validators)
    requires var (s, u) := (Execute(|validators|, es), Execute(|validators|, fs));
             e in s.finalized && e in u.finalized && e in s.checkpoints && e in u.checkpoints
             && s.checkpoints[e].hash != u.checkpoints[e].hash
    ensures var (s, u) := (Execute(|validators|, es), Execute(|validators|, fs));
            && (e - 1) in s.justified && (e - 1) in u.justified
            && 3 * |Equivocators(validators, es, fs, e, s.checkpoints[e].hash, u.checkpoints[e].hash)| >= |validators|
  {
    ExecuteKeeps(|validators|, es);
    ExecuteKeeps(|validators|, fs);
    AccountableSafety(validators, es, fs, e);
  }
}
