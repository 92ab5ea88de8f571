/** Runs of the database operations read off their events: how the calls of each operation ended,
    when operations failed for good, and whom the breaker and the semaphore let start
    (src/services/prisma.ts). */
module DbRuns {
  import opened FailureWindow
  import opened DbResilience
  import opened DbInterleavings

  // ----- what the events tell

  /** The time is what has passed. */
  function Clock(events: seq<Event>): int {
    if events == [] then 0
    else
      var e := events[|events| - 1];
      Clock(events[..|events| - 1]) + if e.Pass? then e.ms else 0
  }

  /** An event ends t's running call. */
  predicate EndsCall(s: System, e: Event, t: Task) {
    e.Settle? && e.t == t && t in s.ops && s.ops[t].phase.Calling?
  }

  /** How the calls of an operation ended, one after another. */
  ghost function Outcomes(c: Config, events: seq<Event>, t: Task): seq<Outcome> {
    if events == [] then []
    else
      var before, e := events[..|events| - 1], events[|events| - 1];
      Outcomes(c, before, t) + if EndsCall(Run(c, before), e, t) then [e.outcome] else []
  }

  /** When operations failed for good: a call that was the last one allowed ended transiently. */
  ghost function FailureTimes(c: Config, events: seq<Event>): seq<int> {
    if events == [] then []
    else
      var before, e := events[..|events| - 1], events[|events| - 1];
      FailureTimes(c, before) + if FailsForGood(c, before, e) then [Clock(before)] else []
  }

  ghost predicate FailsForGood(c: Config, before: seq<Event>, e: Event) {
    && e.Settle? && e.outcome == Transient && EndsCall(Run(c, before), e, e.t)
    && |Outcomes(c, before, e.t)| + 1 == c.maxAttempts
  }

  // ----- every operation makes its calls as the retry loop does

  ghost predicate AllTransient(outcomes: seq<Outcome>) {
    forall i :: 0 <= i < |outcomes| ==> outcomes[i] == Transient
  }

  /** Where an operation is, by the outcomes of its calls: it goes on after transient ones while
      attempts are left, and ends with the first other outcome or the last attempt. */
  ghost predicate FollowsLoop(c: Config, op: Op, outcomes: seq<Outcome>) {
    var n := |outcomes|;
    match op.phase
    case Finished(outcome) =>
      && 1 <= n == op.calls <= c.maxAttempts && outcome == outcomes[n - 1] && AllTransient(outcomes[..n - 1])
      && (outcome == Transient ==> n == c.maxAttempts)
    case Calling(attempt) => AllTransient(outcomes) && attempt == op.calls == n + 1 <= c.maxAttempts
    case BackingOff(attempt) => AllTransient(outcomes) && 1 <= attempt == op.calls == n < c.maxAttempts
    case Waiting => outcomes == [] && op.calls == 0
    case Refused => outcomes == [] && op.calls == 0
  }

  ghost predicate Follows(c: Config, s: System, t: Task, outcomes: seq<Outcome>) {
    if t in s.ops then FollowsLoop(c, s.ops[t], outcomes) else outcomes == []
  }

  lemma SettleFollows(c: Config, s: System, t: Task, outcome: Outcome, outcomes: seq<Outcome>)
    requires c.Valid() && Inv(c, s) && t in s.ops && s.ops[t].phase.Calling?
    requires FollowsLoop(c, s.ops[t], outcomes)
    ensures Follows(c, SettleStep(c, s, t, outcome), t, outcomes + [outcome])
  {
    var more := outcomes + [outcome];
    assert more[..|outcomes|] == outcomes;
    assert s.permits.queue != [] ==> s.permits.queue[0] != t;
  }

  /** Another task's call ends: t's operation stays, or is the waiter that gets the permit. */
  lemma OtherSettles(c: Config, s: System, u: Task, outcome: Outcome, t: Task)
    requires c.Valid() && Inv(c, s) && u in s.ops && s.ops[u].phase.Calling? && u != t
    ensures var s' := SettleStep(c, s, u, outcome);
            && (t in s'.ops <==> t in s.ops)
            && (t in s.ops ==> s'.ops[t] == s.ops[t] || (s.ops[t].phase.Waiting? && s'.ops[t] == Woken(s.ops[t])))
  {
  }

  lemma NextFollows(c: Config, s: System, e: Event, t: Task, outcomes: seq<Outcome>)
    requires c.Valid() && Inv(c, s) && Follows(c, s, t, outcomes)
    ensures Follows(c, Next(c, s, e), t, outcomes + if EndsCall(s, e, t) then [e.outcome] else [])
  {
    match e
    case Start(u, write) =>
      assert outcomes + [] == outcomes;
    case Settle(u, outcome) =>
      if u in s.ops && s.ops[u].phase.Calling? {
        if u == t {
          SettleFollows(c, s, t, outcome, outcomes);
        } else {
          OtherSettles(c, s, u, outcome, t);
          assert outcomes + [] == outcomes;
        }
      } else {
        assert outcomes + [] == outcomes;
      }
    case Wake(u) =>
      assert outcomes + [] == outcomes;
    case Pass(ms) =>
      assert outcomes + [] == outcomes;
    case Observe =>
      assert outcomes + [] == outcomes;
  }

  /** In every run the calls of each operation end as the retry loop lets them. */
  lemma {:induction false} CallsFollowLoop(c: Config, events: seq<Event>, t: Task)
    requires c.Valid()
    ensures Follows(c, Run(c, events), t, Outcomes(c, events, t))
  {
    if events == [] {
    } else {
      var before, e := events[..|events| - 1], events[|events| - 1];
      CallsFollowLoop(c, before, t);
      RunKeeps(c, before);
      NextFollows(c, Run(c, before), e, t, Outcomes(c, before, t));
    }
  }

  // ----- what the breaker remembers

  ghost function FailedForGood(ops: map<Task, Op>): set<Task> {
    set t | t in ops && ops[t].phase == Finished(Transient)
  }

  lemma SettledOp(c: Config, s: System, t: Task, outcome: Outcome)
    requires c.Valid() && Inv(c, s) && t in s.ops && s.ops[t].phase.Calling?
    ensures var s' := SettleStep(c, s, t, outcome);
            var retries := outcome == Transient && s.ops[t].phase.attempt < c.maxAttempts;
            && t in s'.ops
            && s'.ops[t].phase == (if retries then BackingOff(s.ops[t].phase.attempt) else Finished(outcome))
            && s'.history == s.history + (if outcome == Transient && !retries then [s.now] else [])
            && s'.now == s.now
  {
    assert s.permits.queue != [] ==> s.permits.queue[0] != t;
  }

  /** The end of a last attempt that is transient. */
  predicate LastFails(c: Config, s: System, e: Event) {
    e.Settle? && e.outcome == Transient && EndsCall(s, e, e.t) && s.ops[e.t].phase.attempt >= c.maxAttempts
  }

  /** Such an event is recorded, and no other. */
  lemma NextHistory(c: Config, s: System, e: Event)
    requires c.Valid() && Inv(c, s)
    ensures Next(c, s, e).history == s.history + (if LastFails(c, s, e) then [s.now] else [])
    ensures Next(c, s, e).now == s.now + (if e.Pass? then e.ms else 0)
  {
    assert s.history + [] == s.history;
    if e.Settle? && EndsCall(s, e, e.t) {
      SettledOp(c, s, e.t, e.outcome);
    }
    hide SettleStep, Inv;
  }

  lemma SettleFailed(c: Config, s: System, t: Task, outcome: Outcome)
    requires c.Valid() && Inv(c, s) && t in s.ops && s.ops[t].phase.Calling?
    ensures FailedForGood(SettleStep(c, s, t, outcome).ops) ==
            FailedForGood(s.ops) + (if outcome == Transient && s.ops[t].phase.attempt >= c.maxAttempts then {t} else {})
  {
    hide SettleStep, Inv;
    var ops := SettleStep(c, s, t, outcome).ops;
    var failed := outcome == Transient && s.ops[t].phase.attempt >= c.maxAttempts;
    SettledOp(c, s, t, outcome);
    forall u
      ensures u in FailedForGood(ops) <==> u in FailedForGood(s.ops) || (failed && u == t)
    {
      if u != t { OtherSettles(c, s, t, outcome, u); }
    }
  }

  lemma FailedSame(ops: map<Task, Op>, t: Task, op: Op)
    requires op.phase != Finished(Transient) && (t in ops ==> ops[t].phase != Finished(Transient))
    ensures FailedForGood(ops[t := op]) == FailedForGood(ops)
  {
  }

  lemma StartDecides(c: Config, s: System, t: Task, write: bool)
    requires c.Valid() && Inv(c, s) && t !in s.ops
    ensures var s' := Next(c, s, Start(t, write));
            var open := s.circuit.openUntil > s.now;
            var noPermit := write && c.semaphoreEnabled && |Holders(s.ops)| == c.limit;
            && t in s'.ops
            && s'.ops[t].phase == (if open || (noPermit && |s.permits.queue| == c.maxQueueDepth) then Refused
                                   else if noPermit then Waiting else Calling(1))
            && s'.permits.queue == s.permits.queue + (if s'.ops[t].phase == Waiting then [t] else [])
            && s'.ops == s.ops[t := s'.ops[t]] && s'.ops[t].usesPermit == (write && c.semaphoreEnabled)
  {
    assert s.permits.queue + [] == s.permits.queue;
  }

  /** Its operation joins those that failed for good. */
  lemma NextFailed(c: Config, s: System, e: Event)
    requires c.Valid() && Inv(c, s)
    ensures FailedForGood(Next(c, s, e).ops) == FailedForGood(s.ops) + (if LastFails(c, s, e) then {e.t} else {})
    ensures LastFails(c, s, e) ==> e.t !in FailedForGood(s.ops)
  {
    match e
    case Start(t, write) =>
      if t !in s.ops {
        StartDecides(c, s, t, write);
        hide StartStep, Inv, FailedForGood;
        FailedSame(s.ops, t, Next(c, s, e).ops[t]);
      }
    case Settle(t, outcome) =>
      if EndsCall(s, e, t) {
        SettleFailed(c, s, t, outcome);
      }
      hide SettleStep, Inv;
    case Wake(t) =>
      if t in s.ops && s.ops[t].phase.BackingOff? {
        FailedSame(s.ops, t, Next(c, s, e).ops[t]);
      }
      hide Inv, FailedForGood;
    case Pass(ms) =>
    case Observe =>
  }

  /** In every run the recorded failures are the times at which operations failed for good. */
  lemma {:induction false} HistoryIsFailures(c: Config, events: seq<Event>)
    requires c.Valid()
    ensures Run(c, events).now == Clock(events) && Run(c, events).history == FailureTimes(c, events)
  {
    if events == [] {
    } else {
      var before, e := events[..|events| - 1], events[|events| - 1];
      HistoryIsFailures(c, before);
      RunKeeps(c, before);
      if e.Settle? {
        LastIsNth(c, before, e);
      }
      hide Inv, Next;
      NextHistory(c, Run(c, before), e);
    }
  }

  lemma LastIsNth(c: Config, before: seq<Event>, e: Event)
    requires c.Valid() && e.Settle? && Inv(c, Run(c, before))
    ensures FailsForGood(c, before, e) <==> LastFails(c, Run(c, before), e)
  {
    CallsFollowLoop(c, before, e.t);
  }

  /** There is one for each operation that did. */
  lemma {:induction false} OneFailureEach(c: Config, events: seq<Event>)
    requires c.Valid()
    ensures |FailureTimes(c, events)| == |FailedForGood(Run(c, events).ops)|
  {
    if events == [] {
      assert FailedForGood(Init().ops) == {};
    } else {
      var before, e := events[..|events| - 1], events[|events| - 1];
      OneFailureEach(c, before);
      RunKeeps(c, before);
      if e.Settle? {
        LastIsNth(c, before, e);
      }
      hide Inv, Next, FailedForGood;
      NextFailed(c, Run(c, before), e);
    }
  }

  /** So in every run the breaker is open exactly while a burst of such failures is less than a
      cooldown old. */
  lemma {:induction false} BreakerFollowsFailures(c: Config, events: seq<Event>)
    requires c.Valid()
    ensures Run(c, events).circuit.openUntil > Clock(events) <==> TrippedAt(c, FailureTimes(c, events), Clock(events))
  {
    HistoryIsFailures(c, events);
    CircuitFollowsHistory(c, events);
  }

  // ----- who may start

  /** A task that starts is refused exactly while the breaker is tripped, or if it needs a permit
      and finds none left and the queue full; it waits, last, if it finds none left and room in
      the queue; otherwise its first call runs, with the permit it needs. */
  lemma {:induction false} StartIff(c: Config, events: seq<Event>, t: Task, write: bool)
    requires c.Valid() && t !in Run(c, events).ops
    ensures var s, s' := Run(c, events), Run(c, events + [Start(t, write)]);
            var tripped := TrippedAt(c, FailureTimes(c, events), Clock(events));
            var noPermit := write && c.semaphoreEnabled && |Holders(s.ops)| == c.limit;
            && t in s'.ops
            && (s'.ops[t].phase == Refused <==> tripped || (noPermit && |s.permits.queue| == c.maxQueueDepth))
            && (s'.ops[t].phase == Waiting <==> !tripped && noPermit && |s.permits.queue| < c.maxQueueDepth)
            && (s'.ops[t].phase == Calling(1) <==> !tripped && !noPermit)
            && s'.permits.queue == s.permits.queue + (if s'.ops[t].phase == Waiting then [t] else [])
            && (t in Holders(s'.ops) <==> s'.ops[t].phase == Calling(1) && write && c.semaphoreEnabled)
  {
    var s := Run(c, events);
    assert (events + [Start(t, write)])[..|events|] == events;
    BreakerFollowsFailures(c, events);
    HistoryIsFailures(c, events);
    RunKeeps(c, events);
    StartDecides(c, s, t, write);
    hide Next, TrippedAt, FailureTimes, GoodOps, GoodCircuit, GoodQueue;
  }
}
