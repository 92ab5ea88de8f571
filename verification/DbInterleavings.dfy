/** Every interleaving of database operations: any number of tasks start, wait for a write
    permit, call the database, fail, back off, retry and finish, sharing one semaphore and
    one circuit breaker (src/services/prisma.ts). */
module DbInterleavings {
  import opened FailureWindow
  import opened DbResilience

  datatype Phase =
    | Waiting                    // queued for a write permit
    | Calling(attempt: nat)      // the database call is running
    | BackingOff(attempt: nat)   // asleep before the next attempt
    | Finished(outcome: Outcome)
    | Refused                    // the circuit was open or the queue was full

  /** What one task has done: its calls so far, and the permits it took and gave back. */
  datatype Op = Op(usesPermit: bool, phase: Phase, calls: nat, took: nat, gaveBack: nat)

  /** `enqueued` and `dequeued` log the tasks that joined the queue and the tasks that a
      release served; `history` logs the failures recorded. */
  datatype System = System(
    permits: Permits, circuit: Circuit, ops: map<Task, Op>, now: int,
    enqueued: seq<Task>, dequeued: seq<Task>, history: seq<int>, prunedAt: int)

  datatype Event =
    | Start(t: Task, write: bool)
    | Settle(t: Task, outcome: Outcome)   // the running call of t ends
    | Wake(t: Task)                       // t's backoff is over
    | Pass(ms: nat)                       // time passes
    | Observe                             // someone reads the pressure state

  function Init(): System {
    System(Permits(0, 0, []), Circuit(0, []), map[], 0, [], [], [], 0)
  }

  function StartStep(c: Config, s: System, t: Task, write: bool): System {
    var usesPermit := write && c.semaphoreEnabled;
    if s.circuit.openUntil > s.now then
      s.(ops := s.ops[t := Op(usesPermit, Refused, 0, 0, 0)])
    else if !usesPermit then
      s.(ops := s.ops[t := Op(false, Calling(1), 1, 0, 0)])
    else
      var (permits, r) := AcquireStep(c, s.permits, t);
      match r
      case Granted => s.(permits := permits, ops := s.ops[t := Op(true, Calling(1), 1, 1, 0)])
      case Queued => s.(permits := permits, enqueued := s.enqueued + [t], ops := s.ops[t := Op(true, Waiting, 0, 0, 0)])
      case Overflow => s.(permits := permits, ops := s.ops[t := Op(true, Refused, 0, 0, 0)])
  }

  /** What a task's operation is once it is finished. */
  function Done(op: Op, outcome: Outcome): Op {
    op.(phase := Finished(outcome), gaveBack := if op.usesPermit then op.gaveBack + 1 else op.gaveBack)
  }

  /** What a waiter's operation is once it has the permit. */
  function Woken(op: Op): Op {
    op.(phase := Calling(1), calls := op.calls + 1, took := op.took + 1)
  }

  /** The `finally` block: the permit goes back, or straight to the oldest waiter. */
  function FinishStep(s: System, t: Task, outcome: Outcome): System
    requires t in s.ops
  {
    var ops := s.ops[t := Done(s.ops[t], outcome)];
    if !s.ops[t].usesPermit then s.(ops := ops)
    else
      var (permits, next) := ReleaseStep(s.permits);
      match next
      case None => s.(permits := permits, ops := ops)
      case Some(u) =>
        s.(permits := permits, dequeued := s.dequeued + [u], ops := if u in ops then ops[u := Woken(ops[u])] else ops)
  }

  function RecordStep(c: Config, s: System): System {
    s.(circuit := FailureStep(c, s.circuit, s.now), history := s.history + [s.now], prunedAt := s.now)
  }

  function SettleStep(c: Config, s: System, t: Task, outcome: Outcome): System
    requires t in s.ops && s.ops[t].phase.Calling?
  {
    var op := s.ops[t];
    if outcome == Transient && op.phase.attempt < c.maxAttempts then
      s.(ops := s.ops[t := op.(phase := BackingOff(op.phase.attempt))])
    else
      FinishStep(if outcome == Transient then RecordStep(c, s) else s, t, outcome)
  }

  /** An event that cannot happen in a state leaves the state as it is. */
  function Next(c: Config, s: System, e: Event): System {
    match e
    case Start(t, write) => if t in s.ops then s else StartStep(c, s, t, write)
    case Settle(t, outcome) =>
      if t in s.ops && s.ops[t].phase.Calling? then SettleStep(c, s, t, outcome) else s
    case Wake(t) =>
      if t in s.ops && s.ops[t].phase.BackingOff? then
        var op := s.ops[t];
        s.(ops := s.ops[t := op.(phase := Calling(op.phase.attempt + 1), calls := op.calls + 1)])
      else s
    case Pass(ms) => s.(now := s.now + ms)
    case Observe => s.(circuit := PruneStep(c, s.circuit, s.now), prunedAt := s.now)
  }

  function Run(c: Config, events: seq<Event>): System {
    if events == [] then Init() else Next(c, Run(c, events[..|events| - 1]), events[|events| - 1])
  }

  // ----- the invariant

  predicate Active(op: Op) {
    op.phase.Calling? || op.phase.BackingOff?
  }

  ghost function Holders(ops: map<Task, Op>): set<Task> {
    set t | t in ops && ops[t].usesPermit && Active(ops[t])
  }

  ghost predicate GoodOp(c: Config, op: Op) {
    && op.took == (if op.usesPermit && !op.phase.Waiting? && !op.phase.Refused? then 1 else 0)
    && op.gaveBack == (if op.phase.Finished? then op.took else 0)
    && match op.phase
       case Waiting => op.usesPermit && op.calls == 0
       case Calling(attempt) => 1 <= attempt == op.calls <= c.maxAttempts
       case BackingOff(attempt) => 1 <= attempt == op.calls < c.maxAttempts
       case Finished(_) => 1 <= op.calls <= c.maxAttempts
       case Refused => op.calls == 0
  }

  ghost predicate GoodOps(c: Config, ops: map<Task, Op>) {
    forall t :: t in ops ==> GoodOp(c, ops[t])
  }

  /** The queue holds exactly the waiting tasks, each once. */
  ghost predicate GoodQueue(queue: seq<Task>, ops: map<Task, Op>) {
    && (forall i, j :: 0 <= i < j < |queue| ==> queue[i] != queue[j])
    && (forall i :: 0 <= i < |queue| ==> queue[i] in ops && ops[queue[i]].phase.Waiting?)
    && (forall t :: t in ops && ops[t].phase.Waiting? ==> t in queue)
  }

  ghost predicate GoodPermits(c: Config, s: System) {
    && s.permits.active == |Holders(s.ops)| <= c.limit
    && |s.permits.queue| <= c.maxQueueDepth
    && (s.permits.queue != [] ==> s.permits.active == c.limit)
    && s.enqueued == s.dequeued + s.permits.queue
  }

  ghost predicate GoodCircuit(c: Config, s: System) {
    0 <= s.now && CircuitFor(c, s.circuit, s.history, s.prunedAt, s.now)
  }

  ghost predicate Inv(c: Config, s: System) {
    GoodOps(c, s.ops) && GoodQueue(s.permits.queue, s.ops) && GoodPermits(c, s) && GoodCircuit(c, s)
  }

  lemma HoldersAdd(ops: map<Task, Op>, t: Task, op: Op)
    requires t in ops ==> t !in Holders(ops)
    requires op.usesPermit && Active(op)
    ensures Holders(ops[t := op]) == Holders(ops) + {t}
    ensures |Holders(ops[t := op])| == |Holders(ops)| + 1
  {
    assert Holders(ops[t := op]) == Holders(ops) + {t};
  }

  lemma HoldersDrop(ops: map<Task, Op>, t: Task, op: Op)
    requires t in Holders(ops) && !Active(op)
    ensures Holders(ops[t := op]) == Holders(ops) - {t}
    ensures |Holders(ops[t := op])| == |Holders(ops)| - 1
  {
    assert Holders(ops[t := op]) == Holders(ops) - {t};
  }

  lemma HoldersSame(ops: map<Task, Op>, t: Task, op: Op)
    requires (t in Holders(ops)) == (op.usesPermit && Active(op))
    ensures Holders(ops[t := op]) == Holders(ops)
  {
  }

  lemma StartKeepsQueue(c: Config, s: System, t: Task, write: bool)
    requires GoodOps(c, s.ops) && GoodQueue(s.permits.queue, s.ops) && c.Valid() && t !in s.ops
    ensures var s' := StartStep(c, s, t, write); GoodOps(c, s'.ops) && GoodQueue(s'.permits.queue, s'.ops)
  {
    var s' := StartStep(c, s, t, write);
    assert t !in s.permits.queue;
    if s'.ops[t].phase.Waiting? {
      assert s'.permits.queue == s.permits.queue + [t];
      assert s'.permits.queue[|s.permits.queue|] == t;
      forall u | u in s'.ops && s'.ops[u].phase.Waiting?
        ensures u in s'.permits.queue
      {
        assert u == t || u in s.permits.queue;
      }
    } else {
      assert s'.permits.queue == s.permits.queue;
    }
  }

  lemma StartKeepsPermits(c: Config, s: System, t: Task, write: bool)
    requires GoodPermits(c, s) && c.Valid() && t !in s.ops
    ensures GoodPermits(c, StartStep(c, s, t, write))
  {
    var s' := StartStep(c, s, t, write);
    var op := s'.ops[t];
    if op.usesPermit && op.phase.Calling? {
      HoldersAdd(s.ops, t, op);
    } else {
      HoldersSame(s.ops, t, op);
    }
    if op.phase.Waiting? {
      assert s.dequeued + (s.permits.queue + [t]) == (s.dequeued + s.permits.queue) + [t];
    }
  }

  lemma QueueUntouched(c: Config, queue: seq<Task>, ops: map<Task, Op>, t: Task, op: Op)
    requires GoodOps(c, ops) && GoodQueue(queue, ops) && t in ops && !ops[t].phase.Waiting?
    requires GoodOp(c, op) && !op.phase.Waiting?
    ensures GoodOps(c, ops[t := op]) && GoodQueue(queue, ops[t := op])
  {
    hide GoodOp;
  }

  lemma QueueServed(c: Config, queue: seq<Task>, ops: map<Task, Op>, op: Op)
    requires GoodOps(c, ops) && GoodQueue(queue, ops) && queue != []
    requires GoodOp(c, op) && !op.phase.Waiting?
    ensures GoodOps(c, ops[queue[0] := op]) && GoodQueue(queue[1..], ops[queue[0] := op])
  {
    hide GoodOp;
    forall v | v in ops && ops[v].phase.Waiting? && v != queue[0]
      ensures v in queue[1..]
    {
      assert v in queue;
    }
  }

  lemma FinishKeepsQueue(c: Config, s: System, t: Task, outcome: Outcome)
    requires GoodOps(c, s.ops) && GoodQueue(s.permits.queue, s.ops) && c.Valid()
    requires t in s.ops && s.ops[t].phase.Calling?
    ensures var s' := FinishStep(s, t, outcome); GoodOps(c, s'.ops) && GoodQueue(s'.permits.queue, s'.ops)
  {
    var done, queue := Done(s.ops[t], outcome), s.permits.queue;
    assert GoodOp(c, s.ops[t]);
    QueueUntouched(c, queue, s.ops, t, done);
    if s.ops[t].usesPermit && queue != [] {
      var ops := s.ops[t := done];
      assert GoodOp(c, ops[queue[0]]) && ops[queue[0]].phase.Waiting?;
      QueueServed(c, queue, ops, Woken(ops[queue[0]]));
    }
  }

  lemma FinishKeepsPermits(c: Config, s: System, t: Task, outcome: Outcome)
    requires GoodPermits(c, s) && GoodQueue(s.permits.queue, s.ops) && c.Valid() && GoodOps(c, s.ops)
    requires t in s.ops && s.ops[t].phase.Calling?
    ensures GoodPermits(c, FinishStep(s, t, outcome))
  {
    var done, queue := Done(s.ops[t], outcome), s.permits.queue;
    if !s.ops[t].usesPermit {
      HoldersSame(s.ops, t, done);
    } else {
      var ops := s.ops[t := done];
      assert t in Holders(s.ops);
      HoldersDrop(s.ops, t, done);
      if queue != [] {
        var u := queue[0];
        assert u in s.ops && s.ops[u].phase.Waiting? && u != t;
        assert GoodOp(c, s.ops[u]);
        HoldersAdd(ops, u, Woken(ops[u]));
        assert s.dequeued + queue == (s.dequeued + [u]) + queue[1..];
      }
    }
  }

  lemma FinishKeeps(c: Config, s: System, t: Task, outcome: Outcome)
    requires c.Valid() && Inv(c, s)
    requires t in s.ops && s.ops[t].phase.Calling?
    ensures Inv(c, FinishStep(s, t, outcome))
  {
    FinishKeepsQueue(c, s, t, outcome);
    FinishKeepsPermits(c, s, t, outcome);
  }

  /** A task that goes from one held call or backoff to another. */
  lemma PhaseKeeps(c: Config, s: System, t: Task, op: Op)
    requires Inv(c, s) && t in s.ops && Active(s.ops[t])
    requires Active(op) && op.usesPermit == s.ops[t].usesPermit && GoodOp(c, op)
    ensures Inv(c, s.(ops := s.ops[t := op]))
  {
    HoldersSame(s.ops, t, op);
  }

  lemma NextKeeps(c: Config, s: System, e: Event)
    requires c.Valid() && Inv(c, s)
    ensures Inv(c, Next(c, s, e))
  {
    match e
    case Start(t, write) =>
      if t !in s.ops {
        StartKeepsQueue(c, s, t, write);
        StartKeepsPermits(c, s, t, write);
      }
    case Settle(t, outcome) =>
      if t in s.ops && s.ops[t].phase.Calling? {
        SettleKeeps(c, s, t, outcome);
      }
    case Wake(t) =>
      if t in s.ops && s.ops[t].phase.BackingOff? {
        PhaseKeeps(c, s, t, Next(c, s, e).ops[t]);
      }
    case Pass(ms) =>
    case Observe =>
      WindowPruned(s.circuit.failures, s.history, s.prunedAt, s.now, c.window, s.now);
  }

  lemma SettleKeeps(c: Config, s: System, t: Task, outcome: Outcome)
    requires c.Valid() && Inv(c, s)
    requires t in s.ops && s.ops[t].phase.Calling?
    ensures Inv(c, SettleStep(c, s, t, outcome))
  {
    if outcome == Transient && s.ops[t].phase.attempt < c.maxAttempts {
      PhaseKeeps(c, s, t, SettleStep(c, s, t, outcome).ops[t]);
    } else if outcome == Transient {
      CircuitAfterFailure(c, s.circuit, s.history, s.prunedAt, s.now, s.now);
      FinishKeeps(c, RecordStep(c, s), t, outcome);
    } else {
      FinishKeeps(c, s, t, outcome);
    }
  }

  lemma {:induction false} RunKeeps(c: Config, events: seq<Event>)
    requires c.Valid()
    ensures Inv(c, Run(c, events))
  {
    if events == [] {
      assert Holders(Init().ops) == {};
    } else {
      RunKeeps(c, events[..|events| - 1]);
      NextKeeps(c, Run(c, events[..|events| - 1]), events[|events| - 1]);
    }
  }

  // ----- what holds in every run

  /** The permits handed out are the permits held, never more than the limit; somebody waits
      only while all are out; the queue stays within its bound. */
  lemma {:induction false} PermitsAreSafe(c: Config, events: seq<Event>)
    requires c.Valid()
    ensures var s := Run(c, events);
            && s.permits.active == |Holders(s.ops)| <= c.limit
            && |s.permits.queue| <= c.maxQueueDepth
            && (s.permits.queue != [] ==> |Holders(s.ops)| == c.limit)
            && (forall t :: t in s.permits.queue <==> t in s.ops && s.ops[t].phase.Waiting?)
  {
    RunKeeps(c, events);
  }

  /** Waiters are served in the order in which they queued. */
  lemma {:induction false} WaitersAreServedInOrder(c: Config, events: seq<Event>)
    requires c.Valid()
    ensures var s := Run(c, events);
            && s.enqueued == s.dequeued + s.permits.queue
            && s.dequeued <= s.enqueued
  {
    RunKeeps(c, events);
  }

  /** No operation calls the database more often than configured, and a finished one has
      given back exactly the permits it took; a refused one took none. */
  lemma {:induction false} OperationsAreBounded(c: Config, events: seq<Event>, t: Task)
    requires c.Valid() && t in Run(c, events).ops
    ensures var op := Run(c, events).ops[t];
            && op.calls <= c.maxAttempts
            && op.gaveBack <= op.took <= 1
            && (op.phase.Finished? ==> op.gaveBack == op.took && op.calls >= 1)
            && (op.phase.Refused? ==> op.took == 0 && op.calls == 0)
            && (op.phase.Finished? && op.usesPermit ==> op.took == 1)
  {
    RunKeeps(c, events);
  }

  /** The guard against a negative count never fires. */
  lemma {:induction false} ReleaseNeverUnderflows(c: Config, events: seq<Event>, t: Task)
    requires c.Valid() && t in Holders(Run(c, events).ops)
    ensures Run(c, events).permits.active >= 1
  {
    RunKeeps(c, events);
    var s := Run(c, events);
    assert {t} <= Holders(s.ops);
    assert |Holders(s.ops)| >= 1 by { assert Holders(s.ops) == {t} + (Holders(s.ops) - {t}); }
  }

  /** The breaker is open exactly when a burst of recorded failures is within its cooldown,
      and what it remembers is the in-window part of all failures. */
  lemma {:induction false} CircuitFollowsHistory(c: Config, events: seq<Event>)
    requires c.Valid()
    ensures var s := Run(c, events);
            && (s.circuit.openUntil > s.now <==> TrippedAt(c, s.history, s.now))
            && PruneStep(c, s.circuit, s.now).failures == InWindow(s.history, s.now, c.window)
  {
    RunKeeps(c, events);
    var s := Run(c, events);
    OpenMeansTripped(c, s.circuit, s.history, s.prunedAt, s.now, s.now);
    WindowPruned(s.circuit.failures, s.history, s.prunedAt, s.now, c.window, s.now);
  }
}
