/** What a firing does that nothing disturbs, from any state the others have led to
    (src/jobs/runIngestionCronJob.ts). */
module IngestionFirings {
  import opened Common
  import opened IngestionJob

  /** The callback fires, and its next n awaits return. */
  function Clean(w: Worker, n: nat): seq<Event> {
    if n == 0 then [Fire(w)] else Clean(w, n - 1) + [Step(w, Done)]
  }

  /** The locks that it needs: its job's, and the lane for a heavy job. */
  predicate LocksAreFree(c: Config, owner: map<Lock, Worker>, w: Worker) {
    && JobLock(w.job) !in owner
    && (w.job in c.heavyJobs && c.laneEnabled ==> HeavyLane !in owner)
  }

  /** The locks with those that it took. */
  function WithLocks(c: Config, owner: map<Lock, Worker>, w: Worker): map<Lock, Worker> {
    if w.job in c.heavyJobs && c.laneEnabled then owner[JobLock(w.job) := w][HeavyLane := w]
    else owner[JobLock(w.job) := w]
  }

  /** How many awaits lie before run(). */
  function Before(c: Config, w: Worker): nat {
    if w.job in c.heavyJobs then 3 else 2
  }

  ghost predicate OthersStay(s: System, s': System, w: Worker) {
    forall v :: v != w ==> LocalOf(s', v) == LocalOf(s, v)
  }

  lemma CleanSnoc(c: Config, events: seq<Event>, w: Worker, n: nat)
    ensures Run(c, events + Clean(w, n + 1)) == StepOf(c, Run(c, events + Clean(w, n)), w, Done)
  {
    assert events + Clean(w, n + 1) == (events + Clean(w, n)) + [Step(w, Done)];
    RunSnoc(c, events + Clean(w, n), Step(w, Done));
  }

  lemma CleanStart(c: Config, events: seq<Event>, w: Worker)
    requires LocalOf(Run(c, events), w).at == Idle
    ensures var s, s' := Run(c, events), Run(c, events + Clean(w, 0));
            s'.owner == s.owner && LocalOf(s', w) == FRESH.(at := Gates, isRunning := true) && OthersStay(s, s', w)
  {
    RunKeepsLocals(c, events);
    assert GoodLocal(c, w, LocalOf(Run(c, events), w));
    RunSnoc(c, events, Fire(w));
  }

  /** The callback's variables and the locks after n such awaits. */
  datatype Progress = Progress(l: Local, owner: map<Lock, Worker>)

  function Advance(c: Config, w: Worker, p: Progress): Progress {
    Progress(AfterAwait(c, w, p.l.(attempt := 0), Done, JobLock(w.job) !in p.owner, HeavyLane !in p.owner),
             OwnerStep(c, w, p.l, Done, p.owner))
  }

  function After(c: Config, w: Worker, owner: map<Lock, Worker>, n: nat): Progress {
    if n == 0 then Progress(FRESH.(at := Gates, isRunning := true), owner) else Advance(c, w, After(c, w, owner, n - 1))
  }

  function ProgressOf(s: System, w: Worker): Progress {
    Progress(LocalOf(s, w), s.owner)
  }

  /** What one await that returns does. */
  lemma DoneStep(c: Config, s: System, w: Worker)
    ensures var s' := StepOf(c, s, w, Done);
            ProgressOf(s', w) == Advance(c, w, ProgressOf(s, w)) && OthersStay(s, s', w)
  {
  }

  lemma AdvanceOnce(c: Config, w: Worker, owner: map<Lock, Worker>, n: nat)
    ensures After(c, w, owner, n + 1) == Advance(c, w, After(c, w, owner, n))
  {
  }

  lemma OthersStayToo(s: System, s': System, s'': System, w: Worker)
    requires OthersStay(s, s', w) && OthersStay(s', s'', w)
    ensures OthersStay(s, s'', w)
  {
  }

  /** After n awaits that return, the callback is as far as its own code takes it. */
  ghost predicate IsAfter(c: Config, events: seq<Event>, w: Worker, n: nat) {
    var s, s' := Run(c, events), Run(c, events + Clean(w, n));
    ProgressOf(s', w) == After(c, w, s.owner, n) && OthersStay(s, s', w)
  }

  lemma OneMore(c: Config, events: seq<Event>, w: Worker, n: nat)
    requires IsAfter(c, events, w, n)
    ensures IsAfter(c, events, w, n + 1)
  {
    hide ProgressOf, OthersStay, Run, Clean, StepOf, After, Advance;
    var s, s', s'' := Run(c, events), Run(c, events + Clean(w, n)), Run(c, events + Clean(w, n + 1));
    CleanSnoc(c, events, w, n);
    DoneStep(c, s', w);
    AdvanceOnce(c, w, s.owner, n);
    OthersStayToo(s, s', s'', w);
  }

  lemma {:induction false} CleanIs(c: Config, events: seq<Event>, w: Worker, n: nat)
    requires LocalOf(Run(c, events), w).at == Idle
    ensures IsAfter(c, events, w, n)
  {
    if n == 0 {
      CleanStart(c, events, w);
    } else {
      CleanIs(c, events, w, n - 1);
      OneMore(c, events, w, n - 1);
    }
  }

  /** The way into run(): with the locks, or not at all. */
  lemma WayIn(c: Config, w: Worker, owner: map<Lock, Worker>)
    ensures var p := After(c, w, owner, Before(c, w));
            if LocksAreFree(c, owner, w) then
              p == Progress(FRESH.(at := Running, isRunning := true, lockAcquired := true, tookLock := true,
                                   laneAcquired := w.job in c.heavyJobs, tookLane := w.job in c.heavyJobs),
                            WithLocks(c, owner, w))
            else p.l.at != Running
    ensures !LocksAreFree(c, owner, w) && JobLock(w.job) in owner ==> After(c, w, owner, 2) == Progress(FRESH, owner)
    ensures !LocksAreFree(c, owner, w) && JobLock(w.job) !in owner ==>
              After(c, w, owner, 3) ==
              Progress(FRESH.(at := ReleaseBusy, isRunning := true, lockAcquired := true, tookLock := true),
                       owner[JobLock(w.job) := w])
  {
    var p1, p2 := After(c, w, owner, 1), After(c, w, owner, 2);
    assert p1 == Advance(c, w, After(c, w, owner, 0));
    assert p1 == Progress(FRESH.(at := AcquireLock, isRunning := true), owner);
    assert p2 == Advance(c, w, p1);
    assert JobLock(w.job) !in owner ==>
             p2 == Progress(FRESH.(at := if w.job in c.heavyJobs then AcquireLane else Running, isRunning := true,
                                   lockAcquired := true, tookLock := true), owner[JobLock(w.job) := w]);
    assert After(c, w, owner, 3) == Advance(c, w, p2);
  }

  lemma AdvanceIdle(c: Config, w: Worker, p: Progress)
    requires p.l.at == Idle && p.l.attempt == 0
    ensures Advance(c, w, p) == p
  {
  }

  /** Nothing happens to a callback that is idle. */
  lemma {:induction false} StaysIdle(c: Config, w: Worker, owner: map<Lock, Worker>, n: nat, m: nat)
    requires n <= m && After(c, w, owner, n).l.at == Idle && After(c, w, owner, n).l.attempt == 0
    ensures After(c, w, owner, m) == After(c, w, owner, n)
  {
    hide After, Advance;
    if n < m {
      StaysIdle(c, w, owner, n, m - 1);
      AdvanceOnce(c, w, owner, m - 1);
      AdvanceIdle(c, w, After(c, w, owner, m - 1));
    }
  }

  /** Out of run() with the job's lock, and with the lane if the job is heavy. */
  lemma OutOfRun(c: Config, w: Worker, p: Progress)
    requires p.l.at == Running && p.l.attempt == 0
    ensures var q := Advance(c, w, Advance(c, w, p));
            && q.l.attempt == 0
            && q.l.at == (if p.l.laneAcquired then ReleaseLane else Idle) && q.owner == p.owner - {JobLock(w.job)}
            && (p.l.laneAcquired ==>
                  var r := Advance(c, w, q);
                  && r.l.at == Idle && r.l.attempt == 0
                  && r.owner == if c.laneEnabled then q.owner - {HeavyLane} else q.owner)
  {
  }

  lemma OutOfBusy(c: Config, w: Worker, p: Progress)
    requires p.l.at == ReleaseBusy && p.l.attempt == 0
    ensures var q := Advance(c, w, p); q.l.at == Idle && q.l.attempt == 0 && q.owner == p.owner - {JobLock(w.job)}
  {
    var l := p.l.(attempt := 0);
    assert AfterAwait(c, w, l, Done, JobLock(w.job) !in p.owner, HeavyLane !in p.owner) ==
           Finish(l.(triedLock := true, lockAcquired := false));
    hide AfterAwait;
  }

  /** The locks that were free are given back. */
  lemma GivenBack(c: Config, owner: map<Lock, Worker>, w: Worker)
    requires JobLock(w.job) !in owner
    ensures owner[JobLock(w.job) := w] - {JobLock(w.job)} == owner
    ensures LocksAreFree(c, owner, w) ==>
              var left := WithLocks(c, owner, w) - {JobLock(w.job)};
              (if w.job in c.heavyJobs && c.laneEnabled then left - {HeavyLane} else left) == owner
  {
  }

  /** The way out: all that was taken is given back. */
  lemma WayOut(c: Config, w: Worker, owner: map<Lock, Worker>)
    ensures After(c, w, owner, 6).l.at == Idle && After(c, w, owner, 6).owner == owner
  {
    WayIn(c, w, owner);
    hide After, Advance, WithLocks, LocksAreFree;
    var n := Before(c, w);
    AdvanceOnce(c, w, owner, n);
    AdvanceOnce(c, w, owner, n + 1);
    AdvanceOnce(c, w, owner, n + 2);
    if !LocksAreFree(c, owner, w) && JobLock(w.job) in owner {
      StaysIdle(c, w, owner, 2, 6);
    } else if !LocksAreFree(c, owner, w) {
      GivenBack(c, owner, w);
      AdvanceOnce(c, w, owner, 3);
      OutOfBusy(c, w, After(c, w, owner, 3));
      StaysIdle(c, w, owner, 4, 6);
    } else {
      NeedsJobLock(c, owner, w);
      GivenBack(c, owner, w);
      OutOfRun(c, w, After(c, w, owner, n));
      StaysIdle(c, w, owner, if w.job in c.heavyJobs then 6 else 4, 6);
    }
  }

  lemma NeedsJobLock(c: Config, owner: map<Lock, Worker>, w: Worker)
    requires LocksAreFree(c, owner, w)
    ensures JobLock(w.job) !in owner
  {
  }

  /** From every state that a run leads to, a firing whose awaits all return gets into run() if and
      only if the locks it needs are free, with them and without a change for anyone else; in the
      end it is idle, and the locks are as it found them. */
  lemma CleanFiring(c: Config, events: seq<Event>, w: Worker)
    requires LocalOf(Run(c, events), w).at == Idle
    ensures var s, inside := Run(c, events), Run(c, events + Clean(w, Before(c, w)));
            var done := Run(c, events + Clean(w, 6));
            && (InRun(inside, w) <==> LocksAreFree(c, s.owner, w))
            && (InRun(inside, w) ==> inside.owner == WithLocks(c, s.owner, w))
            && LocalOf(done, w).at == Idle && done.owner == s.owner
            && OthersStay(s, inside, w) && OthersStay(s, done, w)
  {
    hide After, Clean, WithLocks, LocksAreFree, Run;
    var s := Run(c, events);
    CleanIs(c, events, w, Before(c, w));
    CleanIs(c, events, w, 6);
    WayIn(c, w, s.owner);
    WayOut(c, w, s.owner);
  }

  /** A firing that a gate turns away leaves everything as it was. */
  lemma SkippedFiring(c: Config, events: seq<Event>, w: Worker)
    requires LocalOf(Run(c, events), w).at == Idle
    ensures var s, done := Run(c, events), Run(c, events + [Fire(w)] + [Step(w, Skip)]);
            LocalOf(done, w).at == Idle && done.owner == s.owner && done.orphans == s.orphans && OthersStay(s, done, w)
  {
    CleanStart(c, events, w);
    RunAccounts(c, events, JobLock(w.job));
    RunSnoc(c, events, Fire(w));
    RunSnoc(c, events + [Fire(w)], Step(w, Skip));
  }
}
