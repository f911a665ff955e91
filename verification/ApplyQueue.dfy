/** The serial apply scheduler: priority lanes, deadlines, one worker (core/chain_apply_queue.py). */
module ApplyQueue {
  import opened Collections

  datatype Kind = ImportBlock | AddBlock | ForgeAndApply | ReorgAndImport | Reorg

  /** Lower is served first. */
  function Lane(k: Kind): nat {
    match k
    case Reorg => 1
    case ReorgAndImport => 1
    case ForgeAndApply => 2
    case AddBlock => 3
    case ImportBlock => 4
  }

  /** A job; `ticket` is its sequence number and names its future. */
  datatype Job = Job(ticket: nat, kind: Kind, deadline: int)

  /** Lane first, then ticket order. */
  predicate Precedes(a: Job, b: Job) {
    Lane(a.kind) < Lane(b.kind) || (Lane(a.kind) == Lane(b.kind) && a.ticket < b.ticket)
  }

  datatype Outcome = Rejected | Expired | Done | Failed | Cancelled

  datatype State = State(
    issued: nat,                  // tickets handed out
    arriving: set<Job>,           // holding a ticket, not yet in the queue
    queue: set<Job>,
    running: Option<Job>,
    rejected: nat, completed: nat, errors: nat, expired: nat,
    futures: map<nat, Outcome>,   // the futures already resolved, by ticket
    clock: int)

  const INITIAL := State(0, {}, {}, None, 0, 0, 0, 0, map[], 0)

  /** `set_result` guarded by `done()`: a resolved future is never resolved again. */
  function Resolved(futures: map<nat, Outcome>, n: nat, o: Outcome): map<nat, Outcome> {
    if n in futures then futures else futures[n := o]
  }

  /** Every interleaving of submitters, worker, waiters and the clock. */
  datatype Action =
    | Ticket(kind: Kind)       // a submitter takes the next sequence number
    | Put(job: Job)            // and then offers its job to the bounded queue
    | TakeJob(job: Job)        // the worker removes the least queued job: expire it or start it
    | Finish(ok: bool)         // the dispatched job returns or raises
    | Cancel(job: Job)         // an asynchronous waiter times out or is itself cancelled
    | Tick(now: int)

  ghost predicate Least(job: Job, queue: set<Job>) {
    job in queue && forall o | o in queue && o != job :: Precedes(job, o)
  }

  ghost predicate Enabled(s: State, a: Action) {
    match a
    case Ticket(_) => true
    case Put(job) => job in s.arriving
    case TakeJob(job) => s.running.None? && Least(job, s.queue)
    case Finish(_) => s.running.Some?
    case Cancel(job) => (job in s.queue || s.running == Some(job)) && job.ticket !in s.futures
    case Tick(now) => now >= s.clock
  }

  predicate PastDeadline(job: Job, now: int) { job.deadline != 0 && now > job.deadline }

  function Next(s: State, a: Action, timeout: int, maxSize: nat): State {
    match a
    case Ticket(kind) =>
      var job := Job(s.issued + 1, kind, s.clock + timeout);
      s.(issued := s.issued + 1, arriving := s.arriving + {job})
    case Put(job) =>
      var t := s.(arriving := s.arriving - {job});
      if |s.queue| >= maxSize then t.(rejected := s.rejected + 1, futures := Resolved(s.futures, job.ticket, Rejected))
      else t.(queue := s.queue + {job})
    case TakeJob(job) =>
      var t := s.(queue := s.queue - {job});
      if PastDeadline(job, s.clock) then t.(expired := s.expired + 1, futures := Resolved(s.futures, job.ticket, Expired))
      else t.(running := Some(job))
    case Finish(ok) =>
      if s.running.None? then s
      else if ok then
        s.(running := None, completed := s.completed + 1, futures := Resolved(s.futures, s.running.value.ticket, Done))
      else
        s.(running := None, errors := s.errors + 1, futures := Resolved(s.futures, s.running.value.ticket, Failed))
    case Cancel(job) => s.(futures := Resolved(s.futures, job.ticket, Cancelled))
    case Tick(now) => s.(clock := now)
  }

  ghost predicate StepAt(states: seq<State>, actions: seq<Action>, timeout: int, maxSize: nat, i: int) {
    && 0 <= i < |actions| && i + 1 < |states|
    && Enabled(states[i], actions[i]) && states[i + 1] == Next(states[i], actions[i], timeout, maxSize)
  }

  /** `states` is the history of one run of `actions` from the empty scheduler. */
  ghost predicate Run(states: seq<State>, actions: seq<Action>, timeout: int, maxSize: nat) {
    && |states| == |actions| + 1 && states[0] == INITIAL
    && forall i | 0 <= i < |actions| :: StepAt(states, actions, timeout, maxSize, i)
  }

  // ---------------------------------------------------------------- the scheduler as an object

  class ChainApplyQueue {
    const maxSize: nat
    const timeout: int
    var issued: nat
    var arriving: set<Job>
    var queue: set<Job>
    var running: Option<Job>
    var rejectTotal: nat
    var completedTotal: nat
    var errorTotal: nat
    var expiredTotal: nat
    var futures: map<nat, Outcome>
    var clock: int

    ghost function View(): State
      reads this
    {
      State(issued, arriving, queue, running, rejectTotal, completedTotal, errorTotal, expiredTotal, futures, clock)
    }

    constructor (maxSize: int, timeout: int)
      ensures View() == INITIAL && this.timeout == timeout && this.maxSize == if maxSize > 1 then maxSize else 1
    {
      this.maxSize := if maxSize > 1 then maxSize else 1;
      this.timeout := timeout;
      issued, arriving, queue, running := 0, {}, {}, None;
      rejectTotal, completedTotal, errorTotal, expiredTotal, futures, clock := 0, 0, 0, 0, map[], 0;
    }

    /** First half of `_enqueue`: stamp the deadline, take a ticket under the sequence lock. */
    method TakeTicket(kind: Kind) returns (job: Job)
      modifies this
      ensures View() == Next(old(View()), Ticket(kind), timeout, maxSize)
      ensures job == Job(issued, kind, clock + timeout)
    {
      issued := issued + 1;
      job := Job(issued, kind, clock + timeout);
      arriving := arriving + {job};
    }

    /** Second half of `_enqueue`: `put_nowait`, or reject at once. */
    method PutNowait(job: Job) returns (accepted: bool)
      modifies this
      ensures View() == Next(old(View()), Put(job), timeout, maxSize)
      ensures accepted == (|old(queue)| < maxSize)
    {
      arriving := arriving - {job};
      if |queue| >= maxSize {
        rejectTotal := rejectTotal + 1;
        futures := Resolved(futures, job.ticket, Rejected);
        return false;
      }
      queue := queue + {job};
      return true;
    }

    /** The worker's `get`: remove the least job, then drop it if it is past its deadline. */
    method WorkerTake() returns (job: Job)
      requires running.None? && queue != {}
      requires forall a, b | a in queue && b in queue && a.ticket == b.ticket :: a == b
      modifies this
      ensures Enabled(old(View()), TakeJob(job)) && View() == Next(old(View()), TakeJob(job), timeout, maxSize)
    {
      job :| job in queue;
      var todo := queue - {job};
      while todo != {}
        invariant todo <= queue && job in queue - todo
        invariant forall o | o in queue - todo && o != job :: Precedes(job, o)
      {
        var other :| other in todo;
        assert queue - (todo - {other}) == (queue - todo) + {other};
        todo := todo - {other};
        if Precedes(other, job) { job := other; }
      }
      queue := queue - {job};
      if PastDeadline(job, clock) {
        expiredTotal := expiredTotal + 1;
        futures := Resolved(futures, job.ticket, Expired);
      } else {
        running := Some(job);
      }
    }

    /** The end of `_dispatch`, by result or by exception. */
    method WorkerFinish(ok: bool)
      requires running.Some?
      modifies this
      ensures View() == Next(old(View()), Finish(ok), timeout, maxSize)
    {
      if ok {
        futures := Resolved(futures, running.value.ticket, Done);
        completedTotal := completedTotal + 1;
      } else {
        errorTotal := errorTotal + 1;
        futures := Resolved(futures, running.value.ticket, Failed);
      }
      running := None;
    }

    /** The end of an asynchronous wait, by timeout or by cancellation: it cancels the future, not the job. */
    method CancelWaiter(job: Job)
      modifies this`futures
      ensures View() == Next(old(View()), Cancel(job), timeout, maxSize)
    {
      futures := Resolved(futures, job.ticket, Cancelled);
    }
  }

  // ---------------------------------------------------------------- invariants of every interleaving

  /** The job is arriving, waiting or running. */
  ghost predicate InSystem(s: State, job: Job) {
    job in s.arriving || job in s.queue || s.running == Some(job)
  }

  ghost predicate TicketInSystem(s: State, n: nat) { exists job :: InSystem(s, job) && job.ticket == n }

  /** Each ticket is held by at most one job, and each job is in one place. */
  ghost predicate Placed(s: State) {
    && (forall a, b | InSystem(s, a) && InSystem(s, b) && a.ticket == b.ticket :: a == b)
    && (forall job | InSystem(s, job) :: 1 <= job.ticket <= s.issued)
    && s.arriving !! s.queue
    && (s.running.Some? ==> s.running.value !in s.arriving && s.running.value !in s.queue)
  }

  /** Everything enqueued is accounted for, and the queue keeps its bound. */
  ghost predicate Accounted(s: State, maxSize: nat) {
    && |s.queue| <= maxSize
    && s.issued == |s.arriving| + |s.queue| + (if s.running.Some? then 1 else 0)
                   + s.rejected + s.completed + s.errors + s.expired
  }

  /** Futures of jobs that left are resolved; a job still in the system has an open future unless its waiter gave up. */
  ghost predicate FuturesTold(s: State) {
    && (forall n | n in s.futures :: 1 <= n <= s.issued)
    && (forall n: nat | 1 <= n <= s.issued && n !in s.futures :: TicketInSystem(s, n))
    && (forall job | InSystem(s, job) && job.ticket in s.futures :: s.futures[job.ticket] == Cancelled)
  }

  ghost predicate Invariant(s: State, maxSize: nat) {
    Placed(s) && Accounted(s, maxSize) && FuturesTold(s)
  }

  /** Which jobs are in the system after a step. */
  lemma InSystemAfter(s: State, a: Action, timeout: int, maxSize: nat, job: Job)
    requires Enabled(s, a) && Placed(s)
    ensures InSystem(Next(s, a, timeout, maxSize), job) <==>
            match a
            case Ticket(kind) => InSystem(s, job) || job == Job(s.issued + 1, kind, s.clock + timeout)
            case Put(j) => InSystem(s, job) && (job != j || |s.queue| < maxSize)
            case TakeJob(j) => InSystem(s, job) && (job != j || !PastDeadline(j, s.clock))
            case Finish(_) => InSystem(s, job) && job != s.running.value
            case Cancel(_) => InSystem(s, job)
            case Tick(_) => InSystem(s, job)
  {
  }

  lemma PlacedKept(s: State, a: Action, timeout: int, maxSize: nat)
    requires Placed(s) && Enabled(s, a)
    ensures Placed(Next(s, a, timeout, maxSize))
  {
  }

  lemma TicketAccounted(s: State, kind: Kind, timeout: int, maxSize: nat)
    requires Placed(s) && Accounted(s, maxSize)
    ensures Accounted(Next(s, Ticket(kind), timeout, maxSize), maxSize)
  {
    var job := Job(s.issued + 1, kind, s.clock + timeout);
    assert !InSystem(s, job);
    assert |s.arriving + {job}| == |s.arriving| + 1;
  }

  lemma PutAccounted(s: State, job: Job, timeout: int, maxSize: nat)
    requires Accounted(s, maxSize) && job in s.arriving && job !in s.queue
    ensures Accounted(Next(s, Put(job), timeout, maxSize), maxSize)
  {
    assert |s.arriving - {job}| == |s.arriving| - 1;
    assert |s.queue + {job}| == |s.queue| + 1;
  }

  lemma TakeAccounted(s: State, job: Job, timeout: int, maxSize: nat)
    requires Accounted(s, maxSize) && job in s.queue && s.running.None?
    ensures Accounted(Next(s, TakeJob(job), timeout, maxSize), maxSize)
  {
    assert |s.queue - {job}| == |s.queue| - 1;
  }

  lemma AccountedKept(s: State, a: Action, timeout: int, maxSize: nat)
    requires Placed(s) && Accounted(s, maxSize) && Enabled(s, a)
    ensures Accounted(Next(s, a, timeout, maxSize), maxSize)
  {
    match a {
      case Ticket(kind) => TicketAccounted(s, kind, timeout, maxSize);
      case Put(job) => PutAccounted(s, job, timeout, maxSize);
      case TakeJob(job) => TakeAccounted(s, job, timeout, maxSize);
      case Finish(_) =>
      case Cancel(_) =>
      case Tick(_) =>
    }
  }

  lemma FuturesKept(s: State, a: Action, timeout: int, maxSize: nat)
    requires Placed(s) && FuturesTold(s) && Enabled(s, a)
    ensures FuturesTold(Next(s, a, timeout, maxSize))
  {
    var s' := Next(s, a, timeout, maxSize);
    forall n: nat | 1 <= n <= s'.issued && n !in s'.futures ensures TicketInSystem(s', n) {
      if n <= s.issued {
        var job :| InSystem(s, job) && job.ticket == n;
        InSystemAfter(s, a, timeout, maxSize, job);
        assert InSystem(s', job);
      } else {
        assert InSystem(s', Job(n, a.kind, s.clock + timeout));
      }
    }
    forall job | InSystem(s', job) && job.ticket in s'.futures
      ensures s'.futures[job.ticket] == Cancelled
    {
      InSystemAfter(s, a, timeout, maxSize, job);
    }
  }

  lemma {:induction false} RunInvariant(states: seq<State>, actions: seq<Action>, timeout: int, maxSize: nat, i: nat)
    requires Run(states, actions, timeout, maxSize) && i < |states|
    ensures Invariant(states[i], maxSize)
  {
    if i > 0 {
      RunInvariant(states, actions, timeout, maxSize, i - 1);
      assert StepAt(states, actions, timeout, maxSize, i - 1);
      PlacedKept(states[i - 1], actions[i - 1], timeout, maxSize);
      AccountedKept(states[i - 1], actions[i - 1], timeout, maxSize);
      FuturesKept(states[i - 1], actions[i - 1], timeout, maxSize);
    }
  }

  /**
   * In every interleaving, at every moment: what was enqueued is rejected, completed, failed,
   * expired, queued, in flight or still arriving, and the queue never exceeds its bound.
   */
  lemma JobsConserved(states: seq<State>, actions: seq<Action>, timeout: int, maxSize: nat, i: nat)
    requires Run(states, actions, timeout, maxSize) && i < |states|
    ensures var s := states[i];
            && |s.queue| <= maxSize
            && s.issued - |s.arriving| == s.rejected + s.completed + s.errors + s.expired + |s.queue|
                                          + (if s.running.Some? then 1 else 0)
  {
    RunInvariant(states, actions, timeout, maxSize, i);
  }

  /** A future is resolved at most once: what it was resolved with never changes. */
  lemma {:induction false} ResolvedOnce(states: seq<State>, actions: seq<Action>, timeout: int, maxSize: nat, i: nat, k: nat, n: nat)
    requires Run(states, actions, timeout, maxSize) && i <= k < |states| && n in states[i].futures
    ensures n in states[k].futures && states[k].futures[n] == states[i].futures[n]
    decreases k - i
  {
    if i < k {
      ResolvedOnce(states, actions, timeout, maxSize, i, k - 1, n);
      assert StepAt(states, actions, timeout, maxSize, k - 1);
    }
  }

  ghost predicate CancelsAt(actions: seq<Action>, i: int, n: nat) {
    0 <= i < |actions| && actions[i].Cancel? && actions[i].job.ticket == n
  }

  /** Whichever moment of the run one looks at, the future of ticket `n` is resolved exactly when its job has left. */
  ghost predicate AlwaysResolvedIffLeft(states: seq<State>, n: nat) {
    forall i | 0 <= i < |states| && 1 <= n <= states[i].issued :: ResolvedIffLeftAt(states[i], n)
  }

  ghost predicate ResolvedIffLeftAt(s: State, n: nat) { n in s.futures <==> !TicketInSystem(s, n) }

  /** Without a cancelled wait for ticket `n`, its future is open while its job is in the system. */
  lemma {:induction false} OpenUnlessCancelled(states: seq<State>, actions: seq<Action>, timeout: int, maxSize: nat, i: nat, n: nat)
    requires Run(states, actions, timeout, maxSize) && i < |states| && forall k | k < i :: !CancelsAt(actions, k, n)
    ensures n in states[i].futures ==> !TicketInSystem(states[i], n)
  {
    hide Next, Accounted, Enabled;
    if i > 0 {
      OpenUnlessCancelled(states, actions, timeout, maxSize, i - 1, n);
      RunInvariant(states, actions, timeout, maxSize, i - 1);
      RunInvariant(states, actions, timeout, maxSize, i);
      var (s, a) := (states[i - 1], actions[i - 1]);
      assert StepAt(states, actions, timeout, maxSize, i - 1) && !CancelsAt(actions, i - 1, n);
      OpenKept(s, a, timeout, maxSize, n);
    }
  }

  lemma OpenKept(s: State, a: Action, timeout: int, maxSize: nat, n: nat)
    requires Enabled(s, a) && Placed(s) && FuturesTold(s) && !(a.Cancel? && a.job.ticket == n)
    requires n in s.futures ==> !TicketInSystem(s, n)
    ensures var t := Next(s, a, timeout, maxSize); n in t.futures ==> !TicketInSystem(t, n)
  {
    var t := Next(s, a, timeout, maxSize);
    forall job | InSystem(t, job) && job.ticket == n ensures n !in t.futures {
      InSystemAfter(s, a, timeout, maxSize, job);
    }
  }

  /**
   * A future is resolved exactly when its job has left the system, at every moment of a run, iff no
   * asynchronous wait for it is cut short in that run.
   */
  lemma ResolvedIffLeft(states: seq<State>, actions: seq<Action>, timeout: int, maxSize: nat, n: nat)
    requires Run(states, actions, timeout, maxSize) && n >= 1
    ensures AlwaysResolvedIffLeft(states, n) <==> forall i :: !CancelsAt(actions, i, n)
  {
    if forall i :: !CancelsAt(actions, i, n) {
      forall i | 0 <= i < |states| && 1 <= n <= states[i].issued ensures ResolvedIffLeftAt(states[i], n) {
        RunInvariant(states, actions, timeout, maxSize, i);
        OpenUnlessCancelled(states, actions, timeout, maxSize, i, n);
      }
    } else {
      var i :| CancelsAt(actions, i, n);
      RunInvariant(states, actions, timeout, maxSize, i);
      assert StepAt(states, actions, timeout, maxSize, i);
      assert InSystem(states[i + 1], actions[i].job);
      assert TicketInSystem(states[i + 1], n) && n in states[i + 1].futures;
      assert !ResolvedIffLeftAt(states[i + 1], n);
    }
  }

  /** A wait for a job still in the system is cut short before the deadline only by something other than its timeout. */
  lemma {:induction false} CancelledPastDeadline(states: seq<State>, actions: seq<Action>, timeout: int, maxSize: nat, i: nat, job: Job)
    requires Run(states, actions, timeout, maxSize) && i < |states| && InSystem(states[i], job) && job.ticket in states[i].futures
    requires forall k | CancelsAt(actions, k, job.ticket) && k < i :: states[k].clock >= job.deadline
    ensures states[i].futures[job.ticket] == Cancelled && states[i].clock >= job.deadline
  {
    hide Next, Accounted, Enabled;
    RunInvariant(states, actions, timeout, maxSize, i);
    if i > 0 {
      var (s, a) := (states[i - 1], actions[i - 1]);
      RunInvariant(states, actions, timeout, maxSize, i - 1);
      assert StepAt(states, actions, timeout, maxSize, i - 1);
      StayedCancelled(s, a, timeout, maxSize, job);
      if !CancelsAt(actions, i - 1, job.ticket) {
        CancelledPastDeadline(states, actions, timeout, maxSize, i - 1, job);
      }
    }
  }

  lemma StayedCancelled(s: State, a: Action, timeout: int, maxSize: nat, job: Job)
    requires Enabled(s, a) && Placed(s) && FuturesTold(s)
    requires InSystem(Next(s, a, timeout, maxSize), job) && job.ticket in Next(s, a, timeout, maxSize).futures
    ensures InSystem(s, job) && Next(s, a, timeout, maxSize).clock >= s.clock
    ensures (a.Cancel? && a.job.ticket == job.ticket) || job.ticket in s.futures
  {
    InSystemAfter(s, a, timeout, maxSize, job);
  }

  // ---------------------------------------------------------------- what each future and counter says

  /** The action ends ticket `n` in this way: refused by a full queue, dropped past its deadline, returned, raised, or given up. */
  ghost predicate EndsTicket(s: State, a: Action, maxSize: nat, n: nat, o: Outcome) {
    match o
    case Rejected => a.Put? && a.job.ticket == n && |s.queue| >= maxSize
    case Expired => a.TakeJob? && a.job.ticket == n && a.job.deadline != 0 && s.clock > a.job.deadline
    case Done => a == Finish(true) && s.running.Some? && s.running.value.ticket == n
    case Failed => a == Finish(false) && s.running.Some? && s.running.value.ticket == n
    case Cancelled => a.Cancel? && a.job.ticket == n
  }

  /** Action `k` is the one that resolved ticket `n` with `o`. */
  ghost predicate ResolvesAt(states: seq<State>, actions: seq<Action>, maxSize: nat, k: int, n: nat, o: Outcome) {
    0 <= k < |actions| && k < |states| && n !in states[k].futures && EndsTicket(states[k], actions[k], maxSize, n, o)
  }

  lemma StepResolves(s: State, a: Action, timeout: int, maxSize: nat, n: nat, o: Outcome)
    requires Enabled(s, a)
    ensures var t := Next(s, a, timeout, maxSize);
            n in t.futures && t.futures[n] == o <==>
            (n in s.futures && s.futures[n] == o) || (n !in s.futures && EndsTicket(s, a, maxSize, n, o))
  {
  }

  /**
   * A future says how its job ended: it holds an outcome exactly when, at the first action that ended the
   * ticket in any way, the job was refused, dropped late, returned, raised or given up accordingly.
   */
  lemma {:induction false} OutcomeExactly(states: seq<State>, actions: seq<Action>, timeout: int, maxSize: nat, i: nat, n: nat, o: Outcome)
    requires Run(states, actions, timeout, maxSize) && i < |states|
    ensures n in states[i].futures && states[i].futures[n] == o <==> exists k :: k < i && ResolvesAt(states, actions, maxSize, k, n, o)
  {
    hide Next, Enabled, EndsTicket;
    if i == 0 {
      NoneBefore(states, actions, maxSize, n, o);
    } else {
      OutcomeExactly(states, actions, timeout, maxSize, i - 1, n, o);
      assert StepAt(states, actions, timeout, maxSize, i - 1);
      StepResolves(states[i - 1], actions[i - 1], timeout, maxSize, n, o);
      assert ResolvesAt(states, actions, maxSize, i - 1, n, o)
        <==> n !in states[i - 1].futures && EndsTicket(states[i - 1], actions[i - 1], maxSize, n, o);
    }
  }

  lemma NoneBefore(states: seq<State>, actions: seq<Action>, maxSize: nat, n: nat, o: Outcome)
    ensures forall k | ResolvesAt(states, actions, maxSize, k, n, o) :: 0 <= k
  {
  }

  /** How many of the first `i` actions ended a job in this way. */
  ghost function Ended(states: seq<State>, actions: seq<Action>, maxSize: nat, i: nat, o: Outcome): nat
    requires i <= |actions| && i <= |states|
  {
    if i == 0 then 0
    else Ended(states, actions, maxSize, i - 1, o) + if EndsSome(states[i - 1], actions[i - 1], maxSize, o) then 1 else 0
  }

  ghost predicate EndsSome(s: State, a: Action, maxSize: nat, o: Outcome) { exists n: nat :: EndsTicket(s, a, maxSize, n, o) }

  /** Each counter counts the jobs that ended its way. */
  lemma {:induction false} CountersExactly(states: seq<State>, actions: seq<Action>, timeout: int, maxSize: nat, i: nat)
    requires Run(states, actions, timeout, maxSize) && i < |states|
    ensures states[i].rejected == Ended(states, actions, maxSize, i, Rejected)
    ensures states[i].expired == Ended(states, actions, maxSize, i, Expired)
    ensures states[i].completed == Ended(states, actions, maxSize, i, Done)
    ensures states[i].errors == Ended(states, actions, maxSize, i, Failed)
  {
    hide Next, Enabled, EndsSome;
    if i > 0 {
      CountersExactly(states, actions, timeout, maxSize, i - 1);
      assert StepAt(states, actions, timeout, maxSize, i - 1);
      StepCounts(states[i - 1], actions[i - 1], timeout, maxSize);
    }
  }

  lemma StepCounts(s: State, a: Action, timeout: int, maxSize: nat)
    requires Enabled(s, a)
    ensures var t := Next(s, a, timeout, maxSize);
            && t.rejected == s.rejected + (if EndsSome(s, a, maxSize, Rejected) then 1 else 0)
            && t.expired == s.expired + (if EndsSome(s, a, maxSize, Expired) then 1 else 0)
            && t.completed == s.completed + (if EndsSome(s, a, maxSize, Done) then 1 else 0)
            && t.errors == s.errors + (if EndsSome(s, a, maxSize, Failed) then 1 else 0)
  {
    match a {
      case Put(job) => assert EndsTicket(s, a, maxSize, job.ticket, Rejected) <==> |s.queue| >= maxSize;
      case TakeJob(job) => assert EndsTicket(s, a, maxSize, job.ticket, Expired) <==> PastDeadline(job, s.clock);
      case Finish(ok) => assert EndsTicket(s, a, maxSize, s.running.value.ticket, if ok then Done else Failed);
      case Ticket(_) =>
      case Cancel(_) =>
      case Tick(_) =>
    }
  }

  // ---------------------------------------------------------------- order of service

  /** The job `actions[i]` starts, if it starts one. */
  ghost predicate Starts(states: seq<State>, actions: seq<Action>, i: int, job: Job) {
    0 <= i < |actions| && i + 1 < |states| && actions[i] == TakeJob(job) && states[i + 1].running == Some(job)
  }

  /**
   * No job starts after its deadline, and none starts while a job of a higher lane, or an earlier
   * job of its own lane, is queued.
   */
  lemma StartsInTimeAndOrder(states: seq<State>, actions: seq<Action>, timeout: int, maxSize: nat, i: nat, job: Job)
    requires Run(states, actions, timeout, maxSize) && Starts(states, actions, i, job)
    ensures job.deadline == 0 || states[i].clock <= job.deadline
    ensures states[i].running.None? && job in states[i].queue && job !in states[i + 1].queue
    ensures forall o | o in states[i + 1].queue ::
              Lane(job.kind) < Lane(o.kind) || (Lane(job.kind) == Lane(o.kind) && job.ticket < o.ticket)
  {
    assert StepAt(states, actions, timeout, maxSize, i);
  }

  /** The worker takes jobs in order: what waits ahead of `b` is taken, to start or to expire, before `b` is. */
  lemma {:induction false} ServedInOrder(states: seq<State>, actions: seq<Action>, timeout: int, maxSize: nat, i: nat, k: nat, a: Job, b: Job)
    returns (j: nat)
    requires Run(states, actions, timeout, maxSize) && i <= k < |actions| && actions[k] == TakeJob(b)
    requires a in states[i].queue && Precedes(a, b)
    ensures i <= j < k && actions[j] == TakeJob(a)
    decreases k - i
  {
    assert StepAt(states, actions, timeout, maxSize, i);
    if actions[i] == TakeJob(a) {
      j := i;
      if i == k { assert false; }
    } else {
      j := ServedInOrder(states, actions, timeout, maxSize, i + 1, k, a, b);
    }
  }

  /** Reorgs go before forging, forging before adding, adding before importing. */
  ghost predicate MoreUrgent(a: Kind, b: Kind) {
    var reorg := a == Reorg || a == ReorgAndImport;
    || (reorg && b != Reorg && b != ReorgAndImport)
    || (a == ForgeAndApply && (b == AddBlock || b == ImportBlock))
    || (a == AddBlock && b == ImportBlock)
  }

  /** A queued job of a more urgent kind is taken before one of a less urgent kind, whenever either arrived. */
  lemma UrgentFirst(states: seq<State>, actions: seq<Action>, timeout: int, maxSize: nat, i: nat, k: nat, a: Job, b: Job)
    returns (j: nat)
    requires Run(states, actions, timeout, maxSize) && i <= k < |actions| && actions[k] == TakeJob(b)
    requires a in states[i].queue && MoreUrgent(a.kind, b.kind)
    ensures i <= j < k && actions[j] == TakeJob(a)
  {
    j := ServedInOrder(states, actions, timeout, maxSize, i, k, a, b);
  }

  /** Every job in the system got its ticket at some moment, with a deadline one timeout later. */
  lemma {:induction false} TicketedBefore(states: seq<State>, actions: seq<Action>, timeout: int, maxSize: nat, i: nat, job: Job)
    returns (k: nat)
    requires Run(states, actions, timeout, maxSize) && i < |states| && InSystem(states[i], job)
    ensures k < i && actions[k] == Ticket(job.kind) && job.ticket == states[k].issued + 1
    ensures job.deadline == states[k].clock + timeout
  {
    hide Next, Enabled;
    RunInvariant(states, actions, timeout, maxSize, if i > 0 then i - 1 else 0);
    if i > 0 {
      assert StepAt(states, actions, timeout, maxSize, i - 1);
      InSystemAfter(states[i - 1], actions[i - 1], timeout, maxSize, job);
      if InSystem(states[i - 1], job) {
        k := TicketedBefore(states, actions, timeout, maxSize, i - 1, job);
      } else {
        k := i - 1;
      }
    }
  }

  /** No job starts more than one timeout after it was enqueued, unless that moment falls on clock 0. */
  lemma StartsWithinTimeout(states: seq<State>, actions: seq<Action>, timeout: int, maxSize: nat, i: nat, job: Job) returns (k: nat)
    requires Run(states, actions, timeout, maxSize) && Starts(states, actions, i, job)
    ensures k < i && actions[k] == Ticket(job.kind) && job.ticket == states[k].issued + 1
    ensures states[k].clock + timeout == 0 || states[i].clock <= states[k].clock + timeout
  {
    StartsInTimeAndOrder(states, actions, timeout, maxSize, i, job);
    k := TicketedBefore(states, actions, timeout, maxSize, i, job);
  }

  /** Each job starts at most once. */
  lemma {:induction false} NeverBack(states: seq<State>, actions: seq<Action>, timeout: int, maxSize: nat, i: nat, k: nat, job: Job)
    requires Run(states, actions, timeout, maxSize) && i <= k < |states|
    requires job !in states[i].arriving && job !in states[i].queue && job.ticket <= states[i].issued
    ensures job !in states[k].arriving && job !in states[k].queue && job.ticket <= states[k].issued
    decreases k - i
  {
    if i < k {
      NeverBack(states, actions, timeout, maxSize, i, k - 1, job);
      assert StepAt(states, actions, timeout, maxSize, k - 1);
    }
  }

  lemma StartsOnce(states: seq<State>, actions: seq<Action>, timeout: int, maxSize: nat, i: nat, k: nat, job: Job)
    requires Run(states, actions, timeout, maxSize) && Starts(states, actions, i, job) && Starts(states, actions, k, job)
    ensures i == k
  {
    if i != k {
      var (first, second) := if i < k then (i, k) else (k, i);
      assert StepAt(states, actions, timeout, maxSize, first);
      RunInvariant(states, actions, timeout, maxSize, first);
      NeverBack(states, actions, timeout, maxSize, first + 1, second, job);
      StartsInTimeAndOrder(states, actions, timeout, maxSize, second, job);
      assert false;
    }
  }

  ghost function GivenUpActions(timeout: int): seq<Action> {
    var job := Job(1, AddBlock, timeout);
    [Ticket(AddBlock), Put(job), TakeJob(job), Tick(timeout), Cancel(job), Finish(true)]
  }

  ghost function GivenUpStates(timeout: int): seq<State> {
    var job := Job(1, AddBlock, timeout);
    [INITIAL,
     INITIAL.(issued := 1, arriving := {job}),
     INITIAL.(issued := 1, queue := {job}),
     INITIAL.(issued := 1, running := Some(job)),
     INITIAL.(issued := 1, running := Some(job), clock := timeout),
     INITIAL.(issued := 1, running := Some(job), clock := timeout, futures := map[1 := Cancelled]),
     INITIAL.(issued := 1, completed := 1, clock := timeout, futures := map[1 := Cancelled])]
  }

  lemma GivenUpStarts(timeout: int, maxSize: nat, i: nat)
    requires timeout > 0 && maxSize > 0 && i < 3
    ensures StepAt(GivenUpStates(timeout), GivenUpActions(timeout), timeout, maxSize, i)
  {
  }

  lemma GivenUpFinishes(timeout: int, maxSize: nat, i: nat)
    requires timeout > 0 && maxSize > 0 && 3 <= i < 6
    ensures StepAt(GivenUpStates(timeout), GivenUpActions(timeout), timeout, maxSize, i)
  {
  }

  /** The exception is real: a waiter gives up while its job runs, and the job completes all the same. */
  lemma GivenUpJobStillCompletes(timeout: int, maxSize: nat)
    requires timeout > 0 && maxSize > 0
    ensures var (states, actions) := (GivenUpStates(timeout), GivenUpActions(timeout));
            && Run(states, actions, timeout, maxSize)
            && states[5].running == Some(Job(1, AddBlock, timeout)) && 1 in states[5].futures
            && states[6].completed == 1 && states[6].futures == map[1 := Cancelled]
  {
    hide StepAt;
    forall i | 0 <= i < 6 ensures StepAt(GivenUpStates(timeout), GivenUpActions(timeout), timeout, maxSize, i) {
      if i < 3 { GivenUpStarts(timeout, maxSize, i); } else { GivenUpFinishes(timeout, maxSize, i); }
    }
  }
}
