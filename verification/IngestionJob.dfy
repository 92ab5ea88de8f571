/** The scheduled callback of src/jobs/runIngestionCronJob.ts as a protocol: any number of
    processes fire any number of jobs, and each await may throw. The locks live in the database
    and are released by name, whoever holds them (src/jobs/koiosPressureGuard.ts,
    src/services/ingestion/syncLock.ts); an update that loses its connection is repeated inside
    its await (src/services/prisma.ts), and every attempt is a step of its own. */
module IngestionJob {
  import opened Common

  /** One registration of a job in one process; it has its own `isRunning` flag. */
  datatype Worker = Worker(process: nat, job: nat)

  datatype Lock = JobLock(job: nat) | HeavyLane

  /** `lossyRelease` says whether an attempt of a release may fail although it freed the lock,
      as when the connection drops after the update was committed. `maxAttempts` bounds the
      attempts of one update. */
  datatype Config = Config(heavyJobs: set<nat>, laneEnabled: bool, lossyRelease: bool, maxAttempts: nat)

  /** The await the callback is at. */
  datatype Point =
    | Idle
    | Gates          // jitter, pressure checks, beforeAcquire
    | AcquireLock
    | AcquireLane
    | ReleaseBusy    // the lane is busy: give the job lock back
    | Running        // inside run()
    | ReleaseLock
    | ReleaseLane
    | CatchLane      // the catch block gives the lane back
    | CatchLock      // the catch block gives the job lock back

  /** The callback's variables, the failed attempts of the update it is at, and what it took and
      tried to give back since it fired. */
  datatype Local = Local(
    at: Point, attempt: nat, isRunning: bool, lockAcquired: bool, laneAcquired: bool,
    tookLock: bool, tookLane: bool, triedLock: bool, triedLane: bool)

  /** `owner` records who took each held lock. `orphans` are the held locks that a failing attempt
      of an acquire took, or that the last release of their owner did not free, and that nobody
      has freed since. */
  datatype System = System(locals: map<Worker, Local>, owner: map<Lock, Worker>, orphans: set<Lock>)

  datatype Outcome =
    | Done                    // the await returns
    | Skip                    // a gate says no
    | Throws(effect: bool)    // it throws, with or without its effect on the database
    | Drops(effect: bool)     // an attempt loses its connection, with or without its effect

  datatype Event = Fire(w: Worker) | Step(w: Worker, outcome: Outcome)

  const FRESH := Local(Idle, 0, false, false, false, false, false, false, false)

  function LocalOf(s: System, w: Worker): Local {
    if w in s.locals then s.locals[w] else FRESH
  }

  /** After the finally block. */
  function Finish(l: Local): Local {
    l.(at := Idle, isRunning := false)
  }

  /** Where the catch block goes first. */
  function Catch(l: Local): Local {
    if l.laneAcquired then l.(at := CatchLane)
    else if l.lockAcquired then l.(at := CatchLock)
    else Finish(l)
  }

  predicate Fails(o: Outcome) {
    o.Throws? || o.Drops?
  }

  /** Whether a release frees its lock. */
  predicate Frees(c: Config, o: Outcome) {
    !Fails(o) || (o.effect && c.lossyRelease)
  }

  /** Whether an acquire of a free lock takes it: an atomic try-acquire, first come first served. */
  predicate Takes(o: Outcome) {
    !Fails(o) || o.effect
  }

  /** Whether the await is an update of the database. */
  predicate IsUpdate(c: Config, at: Point) {
    || at == AcquireLock || at == ReleaseBusy || at == ReleaseLock || at == CatchLock
    || (c.laneEnabled && (at == AcquireLane || at == ReleaseLane || at == CatchLane))
  }

  /** Whether the await goes on with another attempt. */
  predicate Repeats(c: Config, l: Local, o: Outcome) {
    o.Drops? && IsUpdate(c, l.at) && l.attempt + 1 < c.maxAttempts
  }

  /** The callback's variables after a step of the await it is at. */
  function LocalStep(c: Config, w: Worker, l: Local, o: Outcome, lockIsFree: bool, laneIsFree: bool): Local {
    if Repeats(c, l, o) then l.(attempt := l.attempt + 1)
    else AfterAwait(c, w, l.(attempt := 0), o, lockIsFree, laneIsFree)
  }

  function AfterAwait(c: Config, w: Worker, l: Local, o: Outcome, lockIsFree: bool, laneIsFree: bool): Local {
    match l.at
    case Idle => l
    case Gates =>
      (match o
       case Done => l.(at := AcquireLock)
       case Skip => Finish(l)
       case _ => Catch(l))
    case AcquireLock =>
      if Fails(o) then Catch(l)
      else if !lockIsFree then Finish(l)
      else l.(lockAcquired := true, tookLock := true, at := if w.job in c.heavyJobs then AcquireLane else Running)
    case AcquireLane =>
      if Fails(o) then Catch(l)
      else if c.laneEnabled && !laneIsFree then l.(at := ReleaseBusy)
      else l.(laneAcquired := true, tookLane := true, at := Running)
    case ReleaseBusy =>
      var l1 := l.(triedLock := true);
      if Fails(o) then Catch(l1) else Finish(l1.(lockAcquired := false))
    case Running =>
      if Fails(o) then Catch(l) else l.(at := ReleaseLock)
    case ReleaseLock =>
      var l1 := l.(triedLock := true);
      if Fails(o) then Catch(l1)
      else if l.laneAcquired then l1.(lockAcquired := false, at := ReleaseLane)
      else Finish(l1.(lockAcquired := false))
    case ReleaseLane =>
      var l1 := l.(triedLane := true);
      if Fails(o) then Catch(l1) else Finish(l1.(laneAcquired := false))
    case CatchLane =>
      var l1 := l.(triedLane := true, laneAcquired := Fails(o));
      if l.lockAcquired then l1.(at := CatchLock) else Finish(l1)
    case CatchLock => Finish(l.(triedLock := true))
  }

  /** The locks after that step. A release frees its lock by name, whoever owns it. */
  function OwnerStep(c: Config, w: Worker, l: Local, o: Outcome, owner: map<Lock, Worker>): map<Lock, Worker> {
    var lock := JobLock(w.job);
    match l.at
    case AcquireLock => if Takes(o) && lock !in owner then owner[lock := w] else owner
    case AcquireLane => if c.laneEnabled && Takes(o) && HeavyLane !in owner then owner[HeavyLane := w] else owner
    case ReleaseBusy => if Frees(c, o) then owner - {lock} else owner
    case ReleaseLock => if Frees(c, o) then owner - {lock} else owner
    case CatchLock => if Frees(c, o) then owner - {lock} else owner
    case ReleaseLane => if c.laneEnabled && Frees(c, o) then owner - {HeavyLane} else owner
    case CatchLane => if c.laneEnabled && Frees(c, o) then owner - {HeavyLane} else owner
    case _ => owner
  }

  /** The lock that an await is about. */
  function Target(w: Worker, at: Point): Lock {
    if at == AcquireLane || at == ReleaseLane || at == CatchLane then HeavyLane else JobLock(w.job)
  }

  /** A failing acquire that takes its lock, or a last release by which the owner does not free it. */
  predicate Orphans(c: Config, w: Worker, l: Local, o: Outcome, owner: map<Lock, Worker>) {
    var lock := Target(w, l.at);
    match l.at
    case AcquireLock => Fails(o) && o.effect && lock !in owner
    case AcquireLane => c.laneEnabled && Fails(o) && o.effect && lock !in owner
    case CatchLane => !Repeats(c, l, o) && !Frees(c, o) && lock in owner && owner[lock] == w
    case CatchLock => !Repeats(c, l, o) && !Frees(c, o) && lock in owner && owner[lock] == w
    case _ => false
  }

  function OrphansStep(c: Config, w: Worker, l: Local, o: Outcome, owner: map<Lock, Worker>,
                       orphans: set<Lock>): set<Lock> {
    if Orphans(c, w, l, o, owner) then orphans + {Target(w, l.at)}
    else if Target(w, l.at) !in OwnerStep(c, w, l, o, owner) then orphans - {Target(w, l.at)}
    else orphans
  }

  function StepOf(c: Config, s: System, w: Worker, o: Outcome): System {
    var l := LocalOf(s, w);
    System(s.locals[w := LocalStep(c, w, l, o, JobLock(w.job) !in s.owner, HeavyLane !in s.owner)],
           OwnerStep(c, w, l, o, s.owner),
           OrphansStep(c, w, l, o, s.owner, s.orphans))
  }

  function Next(c: Config, s: System, e: Event): System {
    match e
    case Fire(w) =>
      if LocalOf(s, w).isRunning then s else s.(locals := s.locals[w := FRESH.(at := Gates, isRunning := true)])
    case Step(w, o) => StepOf(c, s, w, o)
  }

  function Run(c: Config, events: seq<Event>): System {
    if events == [] then System(map[], map[], {})
    else Next(c, Run(c, events[..|events| - 1]), events[|events| - 1])
  }

  // ----- what one callback does, whatever the others do

  /** The variables agree with the point the callback is at. */
  ghost predicate GoodLocal(c: Config, w: Worker, l: Local) {
    && l.isRunning == (l.at != Idle)
    && (l.attempt > 0 ==> IsUpdate(c, l.at) && l.attempt < c.maxAttempts)
    && (l.tookLane ==> l.tookLock)
    && (l.triedLock ==> l.tookLock) && (l.triedLane ==> l.tookLane)
    && match l.at
       case Idle => (l.tookLock ==> l.triedLock) && (l.tookLane ==> l.triedLane)
       case Gates => l == FRESH.(at := Gates, isRunning := true)
       case AcquireLock => l == FRESH.(at := AcquireLock, isRunning := true, attempt := l.attempt)
       case AcquireLane => w.job in c.heavyJobs && l.lockAcquired && l.tookLock && !l.laneAcquired && !l.tookLane
       case ReleaseBusy => l.lockAcquired && l.tookLock && !l.laneAcquired && !l.tookLane
       case Running => l.lockAcquired && l.tookLock && l.laneAcquired == l.tookLane == (w.job in c.heavyJobs)
       case ReleaseLock => l.lockAcquired && l.tookLock && l.laneAcquired == l.tookLane
       case ReleaseLane => !l.lockAcquired && l.triedLock && l.laneAcquired && l.tookLane
       case CatchLane => l.laneAcquired && l.tookLane && (l.lockAcquired || l.triedLock)
       case CatchLock => l.lockAcquired && l.tookLock && (l.tookLane ==> l.triedLane)
  }

  ghost predicate GoodLocals(c: Config, s: System) {
    forall w :: w in s.locals ==> GoodLocal(c, w, s.locals[w])
  }

  lemma AttemptsKeep(c: Config, w: Worker, l: Local, o: Outcome)
    requires GoodLocal(c, w, l)
    ensures GoodLocal(c, w, l.(attempt := 0))
    ensures Repeats(c, l, o) ==> GoodLocal(c, w, l.(attempt := l.attempt + 1))
  {
  }

  lemma AfterAwaitKeeps(c: Config, w: Worker, l: Local, o: Outcome, lockIsFree: bool, laneIsFree: bool)
    requires GoodLocal(c, w, l) && l.attempt == 0
    ensures GoodLocal(c, w, AfterAwait(c, w, l, o, lockIsFree, laneIsFree))
  {
    hide IsUpdate;
  }

  lemma LocalStepKeeps(c: Config, w: Worker, l: Local, o: Outcome, lockIsFree: bool, laneIsFree: bool)
    requires GoodLocal(c, w, l)
    ensures GoodLocal(c, w, LocalStep(c, w, l, o, lockIsFree, laneIsFree))
  {
    AttemptsKeep(c, w, l, o);
    hide GoodLocal, AfterAwait, Repeats;
    AfterAwaitKeeps(c, w, l.(attempt := 0), o, lockIsFree, laneIsFree);
  }

  lemma NextKeepsLocals(c: Config, s: System, e: Event)
    requires GoodLocals(c, s)
    ensures GoodLocals(c, Next(c, s, e))
  {
    var w := e.w;
    assert GoodLocal(c, w, LocalOf(s, w));
    if e.Step? {
      LocalStepKeeps(c, w, LocalOf(s, w), e.outcome, JobLock(w.job) !in s.owner, HeavyLane !in s.owner);
    }
  }

  lemma {:induction false} RunKeepsLocals(c: Config, events: seq<Event>)
    ensures GoodLocals(c, Run(c, events))
  {
    if events == [] {
    } else {
      RunKeepsLocals(c, events[..|events| - 1]);
      NextKeepsLocals(c, Run(c, events[..|events| - 1]), events[|events| - 1]);
    }
  }

  /** A firing tries to release exactly what it took, and resets its flag, however it ends;
      until then its flag stays up. */
  lemma {:induction false} FiringReleasesWhatItTook(c: Config, events: seq<Event>, w: Worker)
    requires w in Run(c, events).locals
    ensures var l := Run(c, events).locals[w];
            && (l.triedLock ==> l.tookLock) && (l.triedLane ==> l.tookLane)
            && (l.at == Idle ==> l.triedLock == l.tookLock && l.triedLane == l.tookLane)
            && (l.isRunning <==> l.at != Idle)
  {
    RunKeepsLocals(c, events);
    assert GoodLocal(c, w, Run(c, events).locals[w]);
  }

  function Rank(p: Point): nat {
    match p
    case Idle => 0
    case CatchLock => 1
    case CatchLane => 2
    case ReleaseLane => 3
    case ReleaseLock => 4
    case Running => 5
    case ReleaseBusy => 5
    case AcquireLane => 6
    case AcquireLock => 7
    case Gates => 8
  }

  /** To a later await, or to another of the attempts that are left. */
  ghost predicate MovesForward(c: Config, l: Local, l': Local) {
    Rank(l'.at) < Rank(l.at) || (l'.at == l.at && l.attempt < l'.attempt < c.maxAttempts)
  }

  lemma LocalStepDescends(c: Config, w: Worker, l: Local, o: Outcome, lockIsFree: bool, laneIsFree: bool)
    requires GoodLocal(c, w, l) && l.at != Idle
    ensures MovesForward(c, l, LocalStep(c, w, l, o, lockIsFree, laneIsFree))
  {
    AfterAwaitDescends(c, w, l.(attempt := 0), o, lockIsFree, laneIsFree);
    hide GoodLocal, AfterAwait, IsUpdate, Rank;
  }

  lemma CatchIsLate(l: Local)
    ensures Rank(Catch(l).at) <= Rank(CatchLane)
  {
  }

  lemma AfterAwaitDescends(c: Config, w: Worker, l: Local, o: Outcome, lockIsFree: bool, laneIsFree: bool)
    requires l.at != Idle
    ensures Rank(AfterAwait(c, w, l, o, lockIsFree, laneIsFree).at) < Rank(l.at)
  {
    hide Catch, Fails, Rank, Finish;
    Ranks();
    FinishIsLast(l);
    match l.at
    case Gates => CatchIsLate(l);
    case AcquireLock => CatchIsLate(l);
    case AcquireLane => CatchIsLate(l);
    case ReleaseBusy =>
      CatchIsLate(l.(triedLock := true));
      FinishIsLast(l.(triedLock := true, lockAcquired := false));
    case Running => CatchIsLate(l);
    case ReleaseLock =>
      CatchIsLate(l.(triedLock := true));
      FinishIsLast(l.(triedLock := true, lockAcquired := false));
    case ReleaseLane =>
      CatchIsLate(l.(triedLane := true));
      FinishIsLast(l.(triedLane := true, laneAcquired := false));
    case CatchLane => FinishIsLast(l.(triedLane := true, laneAcquired := Fails(o)));
    case CatchLock => FinishIsLast(l.(triedLock := true));
  }

  lemma FinishIsLast(l: Local)
    ensures Finish(l).at == Idle
  {
  }

  lemma Ranks()
    ensures Rank(Idle) < Rank(CatchLock) < Rank(CatchLane) < Rank(ReleaseLane) < Rank(ReleaseLock) < Rank(Running)
    ensures Rank(Running) < Rank(AcquireLane) < Rank(AcquireLock) < Rank(Gates)
    ensures Rank(CatchLane) < Rank(ReleaseBusy) < Rank(AcquireLane)
  {
  }

  /** No step waits for another job: whatever the locks, every step of a callback moves it
      strictly forward, so a firing ends after at most eight awaits of bounded attempts. */
  lemma {:induction false} EveryStepMovesForward(c: Config, events: seq<Event>, w: Worker, o: Outcome)
    requires LocalOf(Run(c, events), w).at != Idle
    ensures MovesForward(c, LocalOf(Run(c, events), w), LocalOf(Run(c, events + [Step(w, o)]), w))
    ensures forall v :: v != w ==> LocalOf(Run(c, events + [Step(w, o)]), v) == LocalOf(Run(c, events), v)
  {
    var s := Run(c, events);
    RunKeepsLocals(c, events);
    LocalStepDescends(c, w, LocalOf(s, w), o, JobLock(w.job) !in s.owner, HeavyLane !in s.owner);
    RunSnoc(c, events, Step(w, o));
  }

  lemma RunSnoc(c: Config, events: seq<Event>, e: Event)
    ensures Run(c, events + [e]) == Next(c, Run(c, events), e)
  {
    assert (events + [e])[..|events|] == events;
  }

  // ----- safety

  ghost predicate InRun(s: System, w: Worker) {
    w in s.locals && s.locals[w].at == Running
  }

  /** At most one instance of a job runs, and at most one heavy job. */
  ghost predicate MutualExclusion(c: Config, s: System) {
    && (forall v, w :: InRun(s, v) && InRun(s, w) && v.job == w.job ==> v == w)
    && (c.laneEnabled ==>
          forall v, w :: InRun(s, v) && InRun(s, w) && v.job in c.heavyJobs && w.job in c.heavyJobs ==> v == w)
  }

  /** What a callback believes it holds, it holds. */
  ghost predicate OwnsIn(c: Config, w: Worker, l: Local, owner: map<Lock, Worker>) {
    l.at != Idle ==>
      && (l.lockAcquired ==> JobLock(w.job) in owner && owner[JobLock(w.job)] == w)
      && (l.laneAcquired && c.laneEnabled ==> HeavyLane in owner && owner[HeavyLane] == w)
  }

  ghost predicate AllOwn(c: Config, s: System) {
    forall w :: w in s.locals ==> OwnsIn(c, w, s.locals[w], s.owner)
  }

  lemma StepKeepsOwn(c: Config, w: Worker, l: Local, o: Outcome, owner: map<Lock, Worker>)
    requires !c.lossyRelease && GoodLocal(c, w, l) && OwnsIn(c, w, l, owner)
    ensures OwnsIn(c, w, LocalStep(c, w, l, o, JobLock(w.job) !in owner, HeavyLane !in owner),
                   OwnerStep(c, w, l, o, owner))
  {
  }

  lemma StepKeepsOthers(c: Config, w: Worker, l: Local, o: Outcome, owner: map<Lock, Worker>, v: Worker, lv: Local)
    requires !c.lossyRelease && GoodLocal(c, w, l) && OwnsIn(c, w, l, owner)
    requires v != w && OwnsIn(c, v, lv, owner)
    ensures OwnsIn(c, v, lv, OwnerStep(c, w, l, o, owner))
  {
  }

  lemma NextKeepsOwnership(c: Config, s: System, e: Event)
    requires !c.lossyRelease && GoodLocals(c, s) && AllOwn(c, s)
    ensures AllOwn(c, Next(c, s, e))
  {
    var s', w := Next(c, s, e), e.w;
    var l := LocalOf(s, w);
    assert GoodLocal(c, w, l) && OwnsIn(c, w, l, s.owner);
    if e.Step? {
      StepKeepsOwn(c, w, l, e.outcome, s.owner);
      forall v | v in s.locals && v != w
        ensures OwnsIn(c, v, s.locals[v], s'.owner)
      {
        StepKeepsOthers(c, w, l, e.outcome, s.owner, v, s.locals[v]);
      }
    }
  }

  lemma {:induction false} RunKeepsOwnership(c: Config, events: seq<Event>)
    requires !c.lossyRelease
    ensures AllOwn(c, Run(c, events))
  {
    if events == [] {
    } else {
      RunKeepsOwnership(c, events[..|events| - 1]);
      RunKeepsLocals(c, events[..|events| - 1]);
      NextKeepsOwnership(c, Run(c, events[..|events| - 1]), events[|events| - 1]);
    }
  }

  /** If an attempt of a release that fails has never freed its lock, jobs exclude each other in
      every run. */
  lemma {:induction false} JobsExcludeEachOther(c: Config, events: seq<Event>)
    requires !c.lossyRelease
    ensures MutualExclusion(c, Run(c, events))
  {
    var s := Run(c, events);
    RunKeepsOwnership(c, events);
    RunKeepsLocals(c, events);
    forall v | InRun(s, v)
      ensures JobLock(v.job) in s.owner && s.owner[JobLock(v.job)] == v
      ensures c.laneEnabled && v.job in c.heavyJobs ==> HeavyLane in s.owner && s.owner[HeavyLane] == v
    {
      assert GoodLocal(c, v, s.locals[v]) && OwnsIn(c, v, s.locals[v], s.owner);
    }
  }

  /** Every release a callback attempts names a lock that it holds at that moment. */
  lemma {:induction false} ReleasesOnlyOwnLocks(c: Config, events: seq<Event>, w: Worker)
    requires !c.lossyRelease
    ensures var s := Run(c, events);
            var at := LocalOf(s, w).at;
            && (at in {ReleaseBusy, ReleaseLock, CatchLock} ==>
                  JobLock(w.job) in s.owner && s.owner[JobLock(w.job)] == w)
            && (c.laneEnabled && at in {ReleaseLane, CatchLane} ==>
                  HeavyLane in s.owner && s.owner[HeavyLane] == w)
  {
    var s := Run(c, events);
    RunKeepsOwnership(c, events);
    RunKeepsLocals(c, events);
    if w in s.locals {
      assert GoodLocal(c, w, s.locals[w]) && OwnsIn(c, w, s.locals[w], s.owner);
    }
  }

  // ----- the condition on releases is needed

  lemma FreshJob(jobs: set<nat>) returns (j: nat)
    ensures j !in jobs
  {
    var rest := jobs;
    j := 0;
    while rest != {}
      invariant rest <= jobs
      invariant forall k :: k in jobs && k !in rest ==> k < j
      decreases |rest|
    {
      var k := Pick(rest);
      rest := rest - {k};
      if j <= k { j := k + 1; }
    }
  }

  /** No await throws: an attempt that fails is repeated. */
  ghost predicate Quiet(c: Config, events: seq<Event>) {
    events != [] ==>
      var init, e := events[..|events| - 1], events[|events| - 1];
      Quiet(c, init) && (e.Step? && Fails(e.outcome) ==> Repeats(c, LocalOf(Run(c, init), e.w), e.outcome))
  }

  lemma QuietSnoc(c: Config, events: seq<Event>, e: Event)
    requires Quiet(c, events)
    requires e.Step? && Fails(e.outcome) ==> Repeats(c, LocalOf(Run(c, events), e.w), e.outcome)
    ensures Quiet(c, events + [e])
  {
    assert (events + [e])[..|events|] == events;
  }

  /** A light job whose lock is free gets into run() in three steps. */
  lemma EntersRun(c: Config, events: seq<Event>, w: Worker) returns (more: seq<Event>)
    requires w.job !in c.heavyJobs
    requires LocalOf(Run(c, events), w).at == Idle && !LocalOf(Run(c, events), w).isRunning
    requires JobLock(w.job) !in Run(c, events).owner
    ensures var s, s' := Run(c, events), Run(c, more);
            && s'.owner == s.owner[JobLock(w.job) := w]
            && LocalOf(s', w) == FRESH.(at := Running, isRunning := true, lockAcquired := true, tookLock := true)
            && (forall v :: v != w ==> LocalOf(s', v) == LocalOf(s, v))
    ensures Quiet(c, events) ==> Quiet(c, more)
  {
    RunSnoc(c, events, Fire(w));
    var e1 := events + [Fire(w)];
    RunSnoc(c, e1, Step(w, Done));
    var e2 := e1 + [Step(w, Done)];
    RunSnoc(c, e2, Step(w, Done));
    more := e2 + [Step(w, Done)];
    if Quiet(c, events) {
      QuietSnoc(c, events, Fire(w));
      QuietSnoc(c, e1, Step(w, Done));
      QuietSnoc(c, e2, Step(w, Done));
    }
  }

  /** Leaving run() with a release that frees the lock and throws. */
  lemma ReleasesAndThrows(c: Config, events: seq<Event>, w: Worker) returns (more: seq<Event>)
    requires c.lossyRelease
    requires LocalOf(Run(c, events), w) ==
             FRESH.(at := Running, isRunning := true, lockAcquired := true, tookLock := true)
    ensures var s, s' := Run(c, events), Run(c, more);
            && s'.owner == s.owner - {JobLock(w.job)}
            && LocalOf(s', w).at == CatchLock
            && (forall v :: v != w ==> LocalOf(s', v) == LocalOf(s, v))
  {
    RunSnoc(c, events, Step(w, Done));
    RunSnoc(c, events + [Step(w, Done)], Step(w, Throws(true)));
    more := events + [Step(w, Done)] + [Step(w, Throws(true))];
  }

  /** The catch block then frees the lock again, whoever has it by now. */
  lemma ReleasesAgain(c: Config, events: seq<Event>, w: Worker) returns (more: seq<Event>)
    requires LocalOf(Run(c, events), w).at == CatchLock
    ensures var s, s' := Run(c, events), Run(c, more);
            && s'.owner == s.owner - {JobLock(w.job)}
            && (forall v :: v != w ==> LocalOf(s', v) == LocalOf(s, v))
  {
    RunSnoc(c, events, Step(w, Done));
    more := events + [Step(w, Done)];
  }

  /** One release that throws after freeing the lock is enough: the catch block frees the
      lock of whoever came next, and a third process joins that one in run(). */
  lemma LossyReleaseBreaksExclusion(c: Config)
    requires c.lossyRelease
    ensures exists events :: !MutualExclusion(c, Run(c, events))
  {
    var j := FreshJob(c.heavyJobs);
    var first, second, third := Worker(1, j), Worker(2, j), Worker(3, j);
    var e1 := EntersRun(c, [], first);
    var e2 := ReleasesAndThrows(c, e1, first);
    var e3 := EntersRun(c, e2, second);
    var e4 := ReleasesAgain(c, e3, first);
    var e5 := EntersRun(c, e4, third);
    assert InRun(Run(c, e5), second) && InRun(Run(c, e5), third);
    assert !MutualExclusion(c, Run(c, e5));
  }

  /** Leaving run() with a release whose first attempt frees the lock and loses its connection. */
  lemma ReleasesAndDrops(c: Config, events: seq<Event>, w: Worker) returns (more: seq<Event>)
    requires c.lossyRelease && c.maxAttempts >= 2
    requires LocalOf(Run(c, events), w) ==
             FRESH.(at := Running, isRunning := true, lockAcquired := true, tookLock := true)
    ensures var s, s' := Run(c, events), Run(c, more);
            && s'.owner == s.owner - {JobLock(w.job)}
            && LocalOf(s', w).at == ReleaseLock && !LocalOf(s', w).laneAcquired
            && (forall v :: v != w ==> LocalOf(s', v) == LocalOf(s, v))
    ensures Quiet(c, events) ==> Quiet(c, more)
  {
    RunSnoc(c, events, Step(w, Done));
    RunSnoc(c, events + [Step(w, Done)], Step(w, Drops(true)));
    more := events + [Step(w, Done)] + [Step(w, Drops(true))];
    if Quiet(c, events) {
      QuietSnoc(c, events, Step(w, Done));
      QuietSnoc(c, events + [Step(w, Done)], Step(w, Drops(true)));
    }
  }

  /** The next attempt frees the lock again, whoever has it by now, and returns. */
  lemma RepeatsRelease(c: Config, events: seq<Event>, w: Worker) returns (more: seq<Event>)
    requires LocalOf(Run(c, events), w).at == ReleaseLock && !LocalOf(Run(c, events), w).laneAcquired
    ensures var s, s' := Run(c, events), Run(c, more);
            && s'.owner == s.owner - {JobLock(w.job)}
            && LocalOf(s', w).at == Idle
            && (forall v :: v != w ==> LocalOf(s', v) == LocalOf(s, v))
    ensures Quiet(c, events) ==> Quiet(c, more)
  {
    RunSnoc(c, events, Step(w, Done));
    more := events + [Step(w, Done)];
    if Quiet(c, events) { QuietSnoc(c, events, Step(w, Done)); }
  }

  /** It takes no exception: a release that is repeated after it freed the lock frees the lock of
      whoever came in between, and a third process joins that one in run(). */
  lemma RepeatedReleaseBreaksExclusion(c: Config)
    requires c.lossyRelease && c.maxAttempts >= 2
    ensures exists events :: Quiet(c, events) && !MutualExclusion(c, Run(c, events))
  {
    var j := FreshJob(c.heavyJobs);
    var first, second, third := Worker(1, j), Worker(2, j), Worker(3, j);
    var e1 := EntersRun(c, [], first);
    var e2 := ReleasesAndDrops(c, e1, first);
    var e3 := EntersRun(c, e2, second);
    var e4 := RepeatsRelease(c, e3, first);
    var e5 := EntersRun(c, e4, third);
    assert InRun(Run(c, e5), second) && InRun(Run(c, e5), third);
    assert Quiet(c, e5) && !MutualExclusion(c, Run(c, e5));
  }

  /** Jobs exclude each other in every run exactly when an attempt of a release that fails has
      not freed its lock. */
  lemma ExclusionIff(c: Config)
    ensures (forall events :: MutualExclusion(c, Run(c, events))) <==> !c.lossyRelease
  {
    if c.lossyRelease {
      LossyReleaseBreaksExclusion(c);
    } else {
      forall events
        ensures MutualExclusion(c, Run(c, events))
      {
        JobsExcludeEachOther(c, events);
      }
    }
  }

  // ----- which locks outlive their firing

  /** The holder of a lock is a callback that is still on its way and knows it. */
  ghost predicate HeldBy(lock: Lock, w: Worker, l: Local) {
    l.at != Idle &&
    match lock
    case JobLock(job) => w.job == job && l.lockAcquired
    case HeavyLane => l.laneAcquired && l.at != CatchLock
  }

  /** A lock is an orphan, held, or free. */
  ghost predicate Accounted(s: System, lock: Lock) {
    if lock in s.owner then lock in s.orphans <==> !HeldBy(lock, s.owner[lock], LocalOf(s, s.owner[lock]))
    else lock !in s.orphans
  }

  /** The same for one callback: what it holds, and what it left behind. */
  ghost predicate AccountedOf(w: Worker, l: Local, owner: map<Lock, Worker>, orphans: set<Lock>, lock: Lock) {
    && (lock in owner && owner[lock] == w ==> (lock in orphans <==> !HeldBy(lock, w, l)))
    && (lock !in owner ==> lock !in orphans)
  }

  /** A step leaves the locks alone that its await is not about. */
  lemma StepFrame(c: Config, w: Worker, l: Local, o: Outcome, owner: map<Lock, Worker>, orphans: set<Lock>, lock: Lock)
    requires lock != Target(w, l.at)
    ensures lock in OwnerStep(c, w, l, o, owner) <==> lock in owner
    ensures lock in owner ==> OwnerStep(c, w, l, o, owner)[lock] == owner[lock]
    ensures lock in OrphansStep(c, w, l, o, owner, orphans) <==> lock in orphans
  {
    hide Takes, Frees, Fails, Repeats;
  }

  lemma LaneFrame(c: Config, w: Worker, l: Local, o: Outcome, lockIsFree: bool, laneIsFree: bool)
    requires GoodLocal(c, w, l) && Target(w, l.at) != HeavyLane
    ensures HeldBy(HeavyLane, w, AfterAwait(c, w, l, o, lockIsFree, laneIsFree)) <==> HeldBy(HeavyLane, w, l)
  {
    hide IsUpdate;
  }

  lemma JobFrame(c: Config, w: Worker, l: Local, o: Outcome, lockIsFree: bool, laneIsFree: bool)
    requires GoodLocal(c, w, l) && Target(w, l.at) == HeavyLane
    ensures HeldBy(JobLock(w.job), w, AfterAwait(c, w, l, o, lockIsFree, laneIsFree)) <==> HeldBy(JobLock(w.job), w, l)
  {
    hide IsUpdate;
  }

  lemma HeldFrame(c: Config, w: Worker, l: Local, o: Outcome, lock: Lock, lockIsFree: bool, laneIsFree: bool)
    requires GoodLocal(c, w, l) && lock != Target(w, l.at)
    ensures HeldBy(lock, w, LocalStep(c, w, l, o, lockIsFree, laneIsFree)) <==> HeldBy(lock, w, l)
  {
    AttemptsKeep(c, w, l, o);
    hide AfterAwait, GoodLocal;
    if lock == HeavyLane {
      LaneFrame(c, w, l.(attempt := 0), o, lockIsFree, laneIsFree);
    } else if lock == JobLock(w.job) {
      JobFrame(c, w, l.(attempt := 0), o, lockIsFree, laneIsFree);
    }
  }

  /** What it does to the one that its await is about. */
  lemma StepSettles(c: Config, w: Worker, l: Local, o: Outcome, owner: map<Lock, Worker>, orphans: set<Lock>)
    requires GoodLocal(c, w, l) && AccountedOf(w, l, owner, orphans, Target(w, l.at))
    requires Target(w, l.at) == HeavyLane && HeavyLane in owner ==> c.laneEnabled
    ensures var lock, owner', orphans' :=
            Target(w, l.at), OwnerStep(c, w, l, o, owner), OrphansStep(c, w, l, o, owner, orphans);
            && AccountedOf(w, LocalStep(c, w, l, o, JobLock(w.job) !in owner, HeavyLane !in owner), owner', orphans',
                           lock)
            && (lock in owner' && owner'[lock] != w ==>
                  lock in owner && owner'[lock] == owner[lock] && (lock in orphans' <==> lock in orphans))
            && (lock == HeavyLane && lock in owner' ==> c.laneEnabled)
  {
  }

  lemma {:induction false} RunAccounts(c: Config, events: seq<Event>, lock: Lock)
    ensures Accounted(Run(c, events), lock)
    ensures lock == HeavyLane && lock in Run(c, events).owner ==> c.laneEnabled
  {
    if events == [] {
    } else {
      var before, e := events[..|events| - 1], events[|events| - 1];
      RunAccounts(c, before, lock);
      RunKeepsLocals(c, before);
      NextAccounts(c, Run(c, before), e, lock);
    }
  }

  lemma NextAccounts(c: Config, s: System, e: Event, lock: Lock)
    requires GoodLocals(c, s) && Accounted(s, lock)
    requires lock == HeavyLane && lock in s.owner ==> c.laneEnabled
    ensures Accounted(Next(c, s, e), lock)
    ensures lock == HeavyLane && lock in Next(c, s, e).owner ==> c.laneEnabled
  {
    var l := LocalOf(s, e.w);
    assert GoodLocal(c, e.w, l);
    match e
    case Fire(w) => hide LocalStep, OwnerStep, OrphansStep, GoodLocals;
    case Step(w, o) =>
      if lock == Target(w, l.at) {
        StepSettles(c, w, l, o, s.owner, s.orphans);
      } else {
        StepFrame(c, w, l, o, s.owner, s.orphans, lock);
        HeldFrame(c, w, l, o, lock, JobLock(w.job) !in s.owner, HeavyLane !in s.owner);
      }
      hide LocalStep, OwnerStep, OrphansStep, GoodLocals, GoodLocal, Target, HeldBy;
  }

  /** In every run the holder of a lock is inside a firing that will still try to release it if
      and only if the lock is not an orphan. */
  lemma {:induction false} NoLockOutlivesItsFiring(c: Config, events: seq<Event>, lock: Lock)
    requires lock in Run(c, events).owner
    ensures var s := Run(c, events); HeldBy(lock, s.owner[lock], LocalOf(s, s.owner[lock])) <==> lock !in s.orphans
  {
    RunAccounts(c, events, lock);
  }

  /** An orphan whose owner is not even on its way. */
  ghost predicate LeftBehind(s: System, lock: Lock) {
    lock in s.orphans && lock in s.owner && LocalOf(s, s.owner[lock]).at == Idle
  }

  /** An acquire that is repeated after it took the lock finds the lock taken: the firing ends
      without an exception and leaves a lock that nobody will release. */
  lemma {:induction false} RepeatedAcquireOrphans(c: Config, w: Worker)
    requires c.maxAttempts >= 2
    ensures exists events :: Quiet(c, events) && LeftBehind(Run(c, events), JobLock(w.job))
  {
    var e1 := [Fire(w)];
    var e2 := e1 + [Step(w, Done)];
    var e3 := e2 + [Step(w, Drops(true))];
    var e4 := e3 + [Step(w, Done)];
    assert [] + [Fire(w)] == e1;
    RunSnoc(c, [], Fire(w));
    RunSnoc(c, e1, Step(w, Done));
    RunSnoc(c, e2, Step(w, Drops(true)));
    RunSnoc(c, e3, Step(w, Done));
    QuietSnoc(c, [], Fire(w));
    QuietSnoc(c, e1, Step(w, Done));
    QuietSnoc(c, e2, Step(w, Drops(true)));
    QuietSnoc(c, e3, Step(w, Done));
    assert Run(c, e4).owner == map[JobLock(w.job) := w];
    assert Quiet(c, e4) && LeftBehind(Run(c, e4), JobLock(w.job));
  }
}
