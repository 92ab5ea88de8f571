/** Database resilience: the write semaphore, the retry loop and the circuit breaker of
    src/services/prisma.ts, first as the code has them, then run together in every
    interleaving of the operations that share them. */
module DbResilience {
  import opened Common
  import opened FailureWindow

  /** Identifies one call of withDbRead or withDbWrite. */
  type Task = nat

  datatype Config = Config(
    limit: nat, maxQueueDepth: nat, semaphoreEnabled: bool,
    maxAttempts: nat, window: nat, threshold: nat, cooldown: nat)
  {
    /** What the bounded environment settings guarantee. */
    predicate Valid() {
      limit >= 1 && maxQueueDepth >= 1 && maxAttempts >= 1 && threshold >= 1
    }
  }

  // ----- the semaphore

  datatype Permits = Permits(active: int, saturated: nat, queue: seq<Task>)

  datatype AcquireResult = Granted | Queued | Overflow

  function AcquireStep(c: Config, p: Permits, t: Task): (Permits, AcquireResult) {
    if p.active < c.limit then (p.(active := p.active + 1), Granted)
    else if |p.queue| >= c.maxQueueDepth then (p.(saturated := p.saturated + 1), Overflow)
    else (p.(saturated := p.saturated + 1, queue := p.queue + [t]), Queued)
  }

  function ReleaseStep(p: Permits): (Permits, Option<Task>) {
    var active := Max(0, p.active - 1);
    if p.queue == [] then (p.(active := active), None)
    else (p.(active := active + 1, queue := p.queue[1..]), Some(p.queue[0]))
  }

  class Semaphore {
    const config: Config
    var active: int
    var saturatedCount: nat
    var queue: seq<Task>

    /** Who has a permit. */
    ghost var holders: set<Task>

    ghost function State(): Permits
      reads this
    {
      Permits(active, saturatedCount, queue)
    }

    /** The counter counts the holders, within the limit; tasks wait only while all permits are
        out, each once, and no more than the queue takes. */
    ghost predicate Valid()
      reads this
    {
      && config.Valid()
      && active == |holders| <= config.limit
      && |queue| <= config.maxQueueDepth && (queue != [] ==> active == config.limit)
      && (forall i, j :: 0 <= i < j < |queue| ==> queue[i] != queue[j])
      && (forall i :: 0 <= i < |queue| ==> queue[i] !in holders)
    }

    constructor (config: Config)
      requires config.Valid()
      ensures this.config == config && Valid() && holders == {} && queue == []
    {
      this.config := config;
      active, saturatedCount, queue, holders := 0, 0, [], {};
    }

    /** A permit at once while there is one, else a place at the end of the queue while there is one. */
    method Acquire(t: Task) returns (r: AcquireResult)
      requires Valid() && t !in holders && t !in queue
      modifies this
      ensures Valid()
      ensures r == Granted <==> |old(holders)| < config.limit
      ensures r == Overflow <==> |old(holders)| == config.limit && |old(queue)| == config.maxQueueDepth
      ensures holders == old(holders) + if r == Granted then {t} else {}
      ensures queue == old(queue) + if r == Queued then [t] else []
      ensures saturatedCount == old(saturatedCount) + if r == Granted then 0 else 1
      ensures (State(), r) == AcquireStep(config, old(State()), t)
    {
      if active < config.limit {
        active := active + 1;
        holders := holders + {t};
        return Granted;
      }
      saturatedCount := saturatedCount + 1;
      if |queue| >= config.maxQueueDepth {
        return Overflow;
      }
      queue := queue + [t];
      return Queued;
    }

    /** The permit goes to the task that has waited longest, or back if nobody waits. */
    method Release(t: Task) returns (next: Option<Task>)
      requires Valid() && t in holders
      modifies this
      ensures Valid()
      ensures old(queue) == [] ==> next == None && holders == old(holders) - {t} && queue == []
      ensures old(queue) != [] ==>
                next == Some(old(queue[0])) && holders == old(holders) - {t} + {old(queue[0])}
                  && queue == old(queue[1..])
      ensures saturatedCount == old(saturatedCount)
      ensures (State(), next) == ReleaseStep(old(State()))
    {
      active := Max(0, active - 1);
      holders := holders - {t};
      next := None;
      if |queue| > 0 {
        next := Some(queue[0]);
        holders := holders + {queue[0]};
        queue := queue[1..];
        active := active + 1;
      }
    }
  }

  // ----- the circuit breaker

  datatype Circuit = Circuit(openUntil: int, failures: seq<int>)

  function PruneStep(c: Config, circuit: Circuit, now: int): Circuit {
    circuit.(failures := InWindow(circuit.failures, now, c.window))
  }

  function FailureStep(c: Config, circuit: Circuit, now: int): Circuit {
    var kept := InWindow(circuit.failures + [now], now, c.window);
    Circuit(if |kept| >= c.threshold then now + c.cooldown else circuit.openUntil, kept)
  }

  /** Some burst of failures is less than a cooldown old. */
  ghost predicate TrippedAt(c: Config, history: seq<int>, now: int) {
    exists i :: 0 <= i < |history| && Burst(history, i, c.window, c.threshold)
                && history[i] <= now < history[i] + c.cooldown
  }

  /** What is left of the cooldown that ends last. */
  ghost predicate LongestCooldown(c: Config, history: seq<int>, now: int, remaining: int) {
    && (exists i :: 0 <= i < |history| && Burst(history, i, c.window, c.threshold)
                    && history[i] + c.cooldown == now + remaining)
    && (forall i :: 0 <= i < |history| && Burst(history, i, c.window, c.threshold) ==>
                    history[i] + c.cooldown <= now + remaining)
  }

  /** The breaker state that a failure history leads to. */
  ghost predicate CircuitFor(c: Config, circuit: Circuit, history: seq<int>, prunedAt: int, clock: int) {
    && IsWindow(circuit.failures, history, prunedAt, clock, c.window)
    && IsMark(circuit.openUntil, history, c.window, c.threshold, c.cooldown, [])
  }

  lemma {:induction false} MarkBound(mark: int, history: seq<int>, window: int, threshold: nat, cooldown: nat,
                                     clock: int)
    requires IsMark(mark, history, window, threshold, cooldown, [])
    requires forall i :: 0 <= i < |history| ==> history[i] <= clock
    requires 0 <= clock
    ensures mark <= clock + cooldown
  {
    if mark != 0 {
      var i :| 0 <= i < |history| && Burst(history, i, window, threshold) && mark == history[i] + cooldown;
    }
  }

  lemma {:induction false} CircuitAfterFailure(c: Config, circuit: Circuit, history: seq<int>, prunedAt: int,
                                               clock: int, now: int)
    requires CircuitFor(c, circuit, history, prunedAt, clock) && clock <= now && 0 <= now
    ensures CircuitFor(c, FailureStep(c, circuit, now), history + [now], now, now)
    ensures FailureStep(c, circuit, now).failures == InWindow(history + [now], now, c.window)
  {
    MarkBound(circuit.openUntil, history, c.window, c.threshold, c.cooldown, now);
    WindowRecorded(circuit.failures, history, prunedAt, clock, c.window, now);
    MarkAfterFailure(circuit.openUntil, history, now, c.window, c.threshold, c.cooldown, []);
  }

  /** The breaker is open at a time exactly when some burst then lies within its cooldown. */
  lemma {:induction false} OpenMeansTripped(c: Config, circuit: Circuit, history: seq<int>, prunedAt: int, clock: int,
                                            now: int)
    requires CircuitFor(c, circuit, history, prunedAt, clock) && clock <= now && 0 <= now
    ensures circuit.openUntil > now <==> TrippedAt(c, history, now)
  {
    MarkMeaning(circuit.openUntil, history, c.window, c.threshold, c.cooldown, [], now);
    if circuit.openUntil > now {
      var i :| 0 <= i < |history| && Burst(history, i, c.window, c.threshold) && now < history[i] + c.cooldown;
      assert history[i] <= now;
    }
  }

  class DbCircuit {
    const config: Config
    var openUntil: int
    var failureTimestamps: seq<int>
    ghost var history: seq<int>
    ghost var prunedAt: int
    ghost var clock: int

    ghost function State(): Circuit
      reads this
    {
      Circuit(openUntil, failureTimestamps)
    }

    ghost predicate Valid()
      reads this
    {
      0 <= clock && CircuitFor(config, State(), history, prunedAt, clock)
    }

    constructor (config: Config)
      ensures Valid() && this.config == config && history == [] && clock == 0
    {
      this.config := config;
      openUntil, failureTimestamps := 0, [];
      history, prunedAt, clock := [], 0, 0;
    }

    method PruneFailures(now: int)
      requires Valid() && clock <= now
      modifies this`failureTimestamps, this`prunedAt, this`clock
      ensures Valid() && clock == now
      ensures failureTimestamps == InWindow(history, now, config.window)
    {
      WindowPruned(failureTimestamps, history, prunedAt, clock, config.window, now);
      failureTimestamps := InWindow(failureTimestamps, now, config.window);
      prunedAt, clock := now, now;
    }

    method RecordDbFailure(now: int)
      requires Valid() && clock <= now
      modifies this
      ensures Valid() && clock == now
      ensures history == old(history) + [now]
      ensures State() == FailureStep(config, old(State()), now)
    {
      CircuitAfterFailure(config, State(), history, prunedAt, clock, now);
      failureTimestamps := InWindow(failureTimestamps + [now], now, config.window);
      if |failureTimestamps| >= config.threshold {
        openUntil := now + config.cooldown;
      }
      history, prunedAt, clock := history + [now], now, now;
    }

    method PressureState(now: int) returns (active: bool, remainingMs: int, observedErrors: nat)
      requires Valid() && clock <= now
      modifies this`failureTimestamps, this`prunedAt, this`clock
      ensures Valid() && clock == now
      ensures active <==> TrippedAt(config, history, now)
      ensures if active then LongestCooldown(config, history, now, remainingMs) else remainingMs == 0
      ensures observedErrors == |InWindow(history, now, config.window)|
    {
      PruneFailures(now);
      OpenMeansTripped(config, State(), history, prunedAt, clock, now);
      active := openUntil > now;
      assert active ==> LongestCooldown(config, history, now, openUntil - now);
      remainingMs := Max(0, openUntil - now);
      observedErrors := |failureTimestamps|;
    }
  }

  // ----- the retry loop of one operation

  datatype Outcome = Returned | Transient | Fatal

  /** The calls that one operation makes when call i ends with fn(i): it stops at the first
      outcome that is not transient, or when the attempts are used up. */
  ghost predicate StopsAt(c: Config, fn: nat -> Outcome, calls: nat) {
    && 1 <= calls <= c.maxAttempts
    && (forall i :: 1 <= i < calls ==> fn(i) == Transient)
    && (calls < c.maxAttempts ==> fn(calls) != Transient)
  }

  /** `fn` gives the outcome of each call and `clock` the time at which it ends. The
      statement after the loop is never reached. */
  method ExecuteWithRetries(fn: nat -> Outcome, clock: nat -> int, circuit: DbCircuit)
    returns (result: Outcome, calls: nat)
    requires circuit.config.Valid() && circuit.Valid()
    requires forall i :: 1 <= i ==> circuit.clock <= clock(i)
    modifies circuit
    ensures circuit.Valid()
    ensures StopsAt(circuit.config, fn, calls) && result == fn(calls)
    ensures circuit.history == old(circuit.history) + if result == Transient then [clock(calls)] else []
    ensures circuit.State() ==
            if result == Transient then FailureStep(circuit.config, old(circuit.State()), clock(calls))
                               else old(circuit.State())
  {
    calls := 0;
    for attempt := 1 to circuit.config.maxAttempts + 1
      invariant calls == attempt - 1 && attempt <= circuit.config.maxAttempts
      invariant forall i :: 1 <= i < attempt ==> fn(i) == Transient
      invariant circuit.Valid() && circuit.State() == old(circuit.State()) && circuit.history == old(circuit.history)
      invariant circuit.clock == old(circuit.clock)
    {
      calls := calls + 1;
      var outcome := fn(attempt);
      if outcome == Returned {
        return Returned, calls;
      }
      var transient := outcome == Transient;
      if !transient || attempt >= circuit.config.maxAttempts {
        if transient {
          circuit.RecordDbFailure(clock(attempt));
        }
        return outcome, calls;
      }
    }
    assert false;
  }

  // ----- one operation

  datatype Started = CircuitOpen | QueueOverflow | Parked | Running

  /** What happens before the first call: nothing starts while the breaker is open, and a write
      needs a permit. */
  method StartOperation(semaphore: Semaphore, circuit: DbCircuit, t: Task, write: bool, now: int) returns (r: Started)
    requires semaphore.Valid() && circuit.Valid() && semaphore.config == circuit.config && circuit.clock <= now
    requires t !in semaphore.holders && t !in semaphore.queue
    modifies semaphore
    ensures semaphore.Valid()
    ensures r == CircuitOpen <==> TrippedAt(circuit.config, circuit.history, now)
    ensures r == CircuitOpen || !(write && circuit.config.semaphoreEnabled) ==>
              semaphore.State() == old(semaphore.State()) && semaphore.holders == old(semaphore.holders)
    ensures r != CircuitOpen && !(write && circuit.config.semaphoreEnabled) ==> r == Running
    ensures r == Running && write && circuit.config.semaphoreEnabled ==>
            semaphore.holders == old(semaphore.holders) + {t}
    ensures r == Parked ==> semaphore.queue == old(semaphore.queue) + [t] && semaphore.holders == old(semaphore.holders)
    ensures r == QueueOverflow ==>
            semaphore.queue == old(semaphore.queue) && semaphore.holders == old(semaphore.holders)
  {
    OpenMeansTripped(circuit.config, circuit.State(), circuit.history, circuit.prunedAt, circuit.clock, now);
    if circuit.openUntil > now {
      return CircuitOpen;
    }
    if write && semaphore.config.semaphoreEnabled {
      var acquired := semaphore.Acquire(t);
      return match acquired case Granted => Running case Queued => Parked case Overflow => QueueOverflow;
    }
    return Running;
  }

  /** The calls of an operation that has started, and the permit given back whatever they end with. */
  method RunOperation(semaphore: Semaphore, circuit: DbCircuit, t: Task, usesPermit: bool, fn: nat -> Outcome,
                      clock: nat -> int)
    returns (result: Outcome, calls: nat, next: Option<Task>)
    requires semaphore.Valid() && circuit.Valid() && semaphore.config == circuit.config
    requires usesPermit ==> t in semaphore.holders
    requires forall i :: 1 <= i ==> circuit.clock <= clock(i)
    modifies semaphore, circuit
    ensures semaphore.Valid() && circuit.Valid()
    ensures StopsAt(circuit.config, fn, calls) && result == fn(calls)
    ensures circuit.history == old(circuit.history) + if result == Transient then [clock(calls)] else []
    ensures !usesPermit ==>
            next == None && semaphore.holders == old(semaphore.holders) && semaphore.queue == old(semaphore.queue)
    ensures usesPermit ==> t !in semaphore.holders
    ensures usesPermit && old(semaphore.queue) != [] ==>
              next == Some(old(semaphore.queue[0]))
                && semaphore.holders == old(semaphore.holders) - {t} + {old(semaphore.queue[0])}
    ensures usesPermit && old(semaphore.queue) == [] ==>
            next == None && semaphore.holders == old(semaphore.holders) - {t}
  {
    result, calls := ExecuteWithRetries(fn, clock, circuit);
    next := None;
    if usesPermit {
      next := semaphore.Release(t);
    }
  }
}
