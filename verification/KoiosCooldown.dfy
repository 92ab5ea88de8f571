/** Koios pressure shedding: the module state of src/services/koios.ts that decides when to
    slow down. Three marks say until when; they move on 429 answers, on bursts of
    pressure-like or timeout-like errors, and when another instance's marks are pulled. */
module KoiosCooldown {
  import opened Common
  import opened FailureWindow

  /** What the interceptor reads off a failed request. */
  datatype KoiosError = KoiosError(
    aborted: bool, tooManyRequests: bool, retryAfterSeconds: Option<int>, pressureLike: bool, timeoutLike: bool)

  /** The marks other instances have published. */
  datatype SharedMarks = SharedMarks(backoffUntil: int, pressureUntil: int, timeoutUntil: int)

  /** One event list with the mark it drives. The pressure signals and the timeout signals
      of the source are two of these. */
  class BurstDetector {
    const window: nat
    const threshold: nat
    const cooldown: nat

    var events: seq<int>
    var cooldownUntil: int

    /** Everything recorded and pulled so far, and when the list was last trimmed. */
    ghost var history: seq<int>
    ghost var pulled: seq<int>
    ghost var trimmedAt: int
    ghost var clock: int

    ghost predicate Valid()
      reads this
    {
      && 0 <= clock
      && IsWindow(events, history, trimmedAt, clock, window)
      && IsMark(cooldownUntil, history, window, threshold, cooldown, pulled)
    }

    constructor (window: nat, threshold: nat, cooldown: nat)
      ensures Valid() && history == [] && pulled == [] && clock == 0
      ensures this.window == window && this.threshold == threshold && this.cooldown == cooldown
    {
      this.window, this.threshold, this.cooldown := window, threshold, cooldown;
      events, cooldownUntil := [], 0;
      history, pulled, trimmedAt, clock := [], [], 0, 0;
    }

    method Trim(now: int)
      requires Valid() && clock <= now
      modifies this`events, this`trimmedAt, this`clock
      ensures Valid() && clock == now
      ensures events == InWindow(history, now, window)
    {
      WindowPruned(events, history, trimmedAt, clock, window, now);
      events := TrimFront(events, now, window);
      trimmedAt, clock := now, now;
    }

    method Record(now: int)
      requires Valid() && clock <= now
      modifies this
      ensures Valid() && clock == now && pulled == old(pulled)
      ensures history == old(history) + [now]
      ensures cooldownUntil == if Burst(history, |old(history)|, window, threshold)
                               then Max(old(cooldownUntil), now + cooldown) else old(cooldownUntil)
    {
      hide InWindow, IsWindow, IsMark, InOrder, Burst;
      WindowPruned(events, history, trimmedAt, clock, window, now);
      WindowRecorded(events, history, trimmedAt, clock, window, now);
      MarkAfterFailure(cooldownUntil, history, now, window, threshold, cooldown, pulled);
      events := TrimFront(events, now, window);
      events := events + [now];
      history, trimmedAt, clock := history + [now], now, now;
      if |events| < threshold { return; }
      cooldownUntil := Max(cooldownUntil, now + cooldown);
    }

    /** Another instance's mark is merged in; a stale one changes nothing. */
    method Pull(mark: int)
      requires Valid()
      modifies this`cooldownUntil, this`pulled
      ensures Valid() && pulled == old(pulled) + [mark]
      ensures cooldownUntil == Max(old(cooldownUntil), mark)
    {
      MarkAfterPull(cooldownUntil, history, window, threshold, cooldown, pulled, mark);
      cooldownUntil, pulled := Max(cooldownUntil, mark), pulled + [mark];
    }
  }

  class KoiosState {
    const pressure: BurstDetector
    const timeouts: BurstDetector
    const default429Cooldown: nat
    const sheddingEnabled: bool
    var backoffUntil: int

    ghost predicate Valid()
      reads this, pressure, timeouts
    {
      pressure != timeouts && pressure.Valid() && timeouts.Valid()
    }

    constructor (pressure: BurstDetector, timeouts: BurstDetector, default429Cooldown: nat, sheddingEnabled: bool)
      requires pressure != timeouts && pressure.Valid() && timeouts.Valid()
      ensures Valid() && backoffUntil == 0
      ensures this.pressure == pressure && this.timeouts == timeouts
    {
      this.pressure, this.timeouts := pressure, timeouts;
      this.default429Cooldown, this.sheddingEnabled := default429Cooldown, sheddingEnabled;
      backoffUntil := 0;
    }

    /** The response interceptor on a failed request. */
    method OnError(now: int, e: KoiosError)
      requires Valid() && pressure.clock <= now && timeouts.clock <= now
      modifies this, pressure, timeouts
      ensures Valid()
      ensures backoffUntil ==
              if e.aborted || !e.tooManyRequests then old(backoffUntil)
              else Max(old(backoffUntil), now + if e.retryAfterSeconds.Some? && e.retryAfterSeconds.value > 0
                                                then e.retryAfterSeconds.value * 1000 else default429Cooldown)
      ensures pressure.history ==
              old(pressure.history) + if !e.aborted && sheddingEnabled && e.pressureLike then [now] else []
      ensures timeouts.history == old(timeouts.history) + if !e.aborted && e.timeoutLike then [now] else []
      ensures pressure.pulled == old(pressure.pulled) && timeouts.pulled == old(timeouts.pulled)
      ensures backoffUntil >= old(backoffUntil)
      ensures pressure.cooldownUntil >= old(pressure.cooldownUntil)
      ensures timeouts.cooldownUntil >= old(timeouts.cooldownUntil)
    {
      if e.aborted { return; }
      if e.tooManyRequests {
        var cooldownMs := if e.retryAfterSeconds.Some? && e.retryAfterSeconds.value > 0
                          then e.retryAfterSeconds.value * 1000 else default429Cooldown;
        backoffUntil := Max(backoffUntil, now + cooldownMs);
      }
      if sheddingEnabled && e.pressureLike {
        pressure.Record(now);
      }
      if e.timeoutLike {
        timeouts.Record(now);
      }
    }

    method PullSharedCooldown(snapshot: SharedMarks)
      requires Valid()
      modifies this, pressure, timeouts
      ensures Valid()
      ensures backoffUntil == Max(old(backoffUntil), snapshot.backoffUntil)
      ensures pressure.cooldownUntil == Max(old(pressure.cooldownUntil), snapshot.pressureUntil)
      ensures timeouts.cooldownUntil == Max(old(timeouts.cooldownUntil), snapshot.timeoutUntil)
      ensures pressure.history == old(pressure.history) && timeouts.history == old(timeouts.history)
      ensures pressure.pulled == old(pressure.pulled) + [snapshot.pressureUntil]
      ensures timeouts.pulled == old(timeouts.pulled) + [snapshot.timeoutUntil]
    {
      backoffUntil := Max(backoffUntil, snapshot.backoffUntil);
      pressure.Pull(snapshot.pressureUntil);
      timeouts.Pull(snapshot.timeoutUntil);
    }

    /** What the pages and the jobs ask before they run. */
    method PressureState(now: int) returns (active: bool, remainingMs: int, observedErrors: nat)
      requires Valid() && pressure.clock <= now
      modifies pressure`events, pressure`trimmedAt, pressure`clock
      ensures Valid() && pressure.clock == now
      ensures active <==> (
                && sheddingEnabled
                && ((exists i :: 0 <= i < |pressure.history|
                                 && Burst(pressure.history, i, pressure.window, pressure.threshold)
                                 && now < pressure.history[i] + pressure.cooldown)
                    || (exists i :: 0 <= i < |pressure.pulled| && now < pressure.pulled[i])))
      ensures remainingMs == Max(0, pressure.cooldownUntil - now)
      ensures observedErrors == |InWindow(pressure.history, now, pressure.window)|
    {
      pressure.Trim(now);
      remainingMs := Max(0, pressure.cooldownUntil - now);
      MarkMeaning(pressure.cooldownUntil, pressure.history, pressure.window, pressure.threshold, pressure.cooldown,
                  pressure.pulled, now);
      active := sheddingEnabled && remainingMs > 0;
      observedErrors := |pressure.events|;
    }
  }
}
