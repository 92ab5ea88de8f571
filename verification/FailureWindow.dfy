/** Sliding windows of failure times, as both src/services/prisma.ts and
    src/services/koios.ts keep them: one filters the list, the other shifts old entries
    off its front. */
module FailureWindow {
  import opened Common

  /** The part of a history that a window ending now still sees, oldest first. */
  function InWindow(history: seq<int>, now: int, window: int): seq<int> {
    if history == [] then []
    else
      var last := history[|history| - 1];
      InWindow(history[..|history| - 1], now, window) + if now - last <= window then [last] else []
  }

  ghost predicate InOrder(history: seq<int>) {
    forall i, j :: 0 <= i <= j < |history| ==> history[i] <= history[j]
  }

  /** Failure i came when its window held at least `threshold` failures, itself included. */
  ghost predicate Burst(history: seq<int>, i: nat, window: int, threshold: nat)
    requires i < |history|
  {
    |InWindow(history[..i + 1], history[i], window)| >= threshold
  }

  function NoOlder(than: int): int -> bool {
    x => x >= than
  }

  /** A window sees the failures that are no older than its start. */
  lemma {:induction false} WindowCounts(history: seq<int>, now: int, window: int)
    ensures |InWindow(history, now, window)| == |Places(history, NoOlder(now - window))|
    ensures forall x :: x in InWindow(history, now, window) <==> x in history && x >= now - window
  {
    if history == [] {
      NoPlaces(NoOlder(now - window));
    } else {
      var init, last := history[..|history| - 1], history[|history| - 1];
      WindowCounts(init, now, window);
      PlacesSnoc(init, last, NoOlder(now - window));
      assert history == init + [last];
    }
  }

  /** A burst: with itself, at least the threshold of failures up to it are no older than the window. */
  lemma BurstCounts(history: seq<int>, i: nat, window: int, threshold: nat)
    requires i < |history|
    ensures Burst(history, i, window, threshold) <==>
            |set k | 0 <= k <= i && history[k] >= history[i] - window| >= threshold
  {
    WindowCounts(history[..i + 1], history[i], window);
    assert Places(history[..i + 1], NoOlder(history[i] - window)) ==
           set k | 0 <= k <= i && history[k] >= history[i] - window;
  }

  lemma Snoc(history: seq<int>, x: int, now: int, window: int)
    ensures InWindow(history + [x], now, window) ==
            InWindow(history, now, window) + if now - x <= window then [x] else []
  {
    assert (history + [x])[..|history|] == history;
  }

  /** Pruning twice at growing times is pruning once, at the later time. */
  lemma {:induction false} PruneAgain(history: seq<int>, earlier: int, now: int, window: int)
    requires earlier <= now
    ensures InWindow(InWindow(history, earlier, window), now, window) == InWindow(history, now, window)
  {
    if history == [] {
    } else {
      var init, last := history[..|history| - 1], history[|history| - 1];
      PruneAgain(init, earlier, now, window);
      Snoc(InWindow(init, earlier, window), last, now, window);
      assert InWindow(init, earlier, window) + [] == InWindow(init, earlier, window);
    }
  }

  lemma {:induction false} AllInWindow(history: seq<int>, now: int, window: int)
    requires forall i :: 0 <= i < |history| ==> now - history[i] <= window
    ensures InWindow(history, now, window) == history
  {
    if history == [] {
    } else {
      AllInWindow(history[..|history| - 1], now, window);
    }
  }

  lemma {:induction false} DropOldest(history: seq<int>, now: int, window: int)
    requires history != [] && now - history[0] > window
    ensures InWindow(history[1..], now, window) == InWindow(history, now, window)
  {
    var init, last := history[..|history| - 1], history[|history| - 1];
    if |history| == 1 {
      assert history[1..] == [] && init == [];
    } else {
      DropOldest(init, now, window);
      assert history[1..][..|history| - 2] == init[1..];
      assert history[1..][|history| - 2] == last;
    }
  }

  lemma {:induction false} InOrderKept(history: seq<int>, now: int, window: int)
    requires InOrder(history)
    ensures InOrder(InWindow(history, now, window))
    ensures forall i :: 0 <= i < |InWindow(history, now, window)| ==>
            InWindow(history, now, window)[i] <= history[|history| - 1]
  {
    if history == [] {
    } else {
      InOrderKept(history[..|history| - 1], now, window);
    }
  }

  /** Appending to a history does not change which of its failures were bursts. */
  lemma BurstStable(history: seq<int>, x: int, i: nat, window: int, threshold: nat)
    requires i < |history|
    ensures Burst(history + [x], i, window, threshold) == Burst(history, i, window, threshold)
  {
    assert (history + [x])[..i + 1] == history[..i + 1];
  }

  /** A kept list is the in-window part of everything recorded up to the clock. */
  ghost predicate IsWindow(events: seq<int>, history: seq<int>, prunedAt: int, clock: int, window: nat) {
    && prunedAt <= clock
    && InOrder(history)
    && (forall i :: 0 <= i < |history| ==> 0 <= history[i] <= clock)
    && events == InWindow(history, prunedAt, window)
  }

  lemma WindowPruned(events: seq<int>, history: seq<int>, prunedAt: int, clock: int, window: nat, now: int)
    requires IsWindow(events, history, prunedAt, clock, window) && clock <= now
    ensures InWindow(events, now, window) == InWindow(history, now, window)
    ensures InOrder(events)
    ensures IsWindow(InWindow(events, now, window), history, now, now, window)
  {
    PruneAgain(history, prunedAt, now, window);
    InOrderKept(history, prunedAt, window);
  }

  lemma OrderedAfter(history: seq<int>, clock: int, now: int)
    requires InOrder(history) && forall i :: 0 <= i < |history| ==> 0 <= history[i] <= clock
    requires clock <= now && 0 <= now
    ensures InOrder(history + [now])
    ensures forall i :: 0 <= i < |history + [now]| ==> 0 <= (history + [now])[i] <= now
  {
  }

  /** Recording a failure: pruning before or after the push gives the same list. */
  lemma WindowRecorded(events: seq<int>, history: seq<int>, prunedAt: int, clock: int, window: nat, now: int)
    requires IsWindow(events, history, prunedAt, clock, window) && clock <= now && 0 <= now
    ensures InWindow(events, now, window) + [now] == InWindow(history + [now], now, window)
    ensures InWindow(events + [now], now, window) == InWindow(history + [now], now, window)
    ensures IsWindow(InWindow(history + [now], now, window), history + [now], now, now, window)
  {
    PruneAgain(history, prunedAt, now, window);
    Snoc(history, now, now, window);
    Snoc(events, now, now, window);
    OrderedAfter(history, clock, now);
  }

  /** Shifts entries off the front while they are too old. */
  method TrimFront(events: seq<int>, now: int, window: int) returns (kept: seq<int>)
    requires InOrder(events)
    ensures kept == InWindow(events, now, window)
  {
    kept := events;
    while |kept| > 0 && now - kept[0] > window
      invariant InOrder(kept)
      invariant InWindow(kept, now, window) == InWindow(events, now, window)
      decreases |kept|
    {
      DropOldest(kept, now, window);
      kept := kept[1..];
    }
    AllInWindow(kept, now, window);
  }

  // ----- the mark that bursts move

  /** The mark is the latest of: never, the end of a burst's cooldown, a mark pulled from
      another instance. */
  ghost predicate IsMark(mark: int, history: seq<int>, window: int, threshold: nat, cooldown: int, pulled: seq<int>) {
    && 0 <= mark
    && (forall i :: 0 <= i < |history| && Burst(history, i, window, threshold) ==> history[i] + cooldown <= mark)
    && (forall i :: 0 <= i < |pulled| ==> pulled[i] <= mark)
    && (mark == 0
        || (exists i :: 0 <= i < |history| && Burst(history, i, window, threshold) && mark == history[i] + cooldown)
        || mark in pulled)
  }

  /** A mark lies in the future exactly when a burst's cooldown or a pulled mark does. */
  lemma {:induction false} MarkMeaning(mark: int, history: seq<int>, window: int, threshold: nat, cooldown: int,
                                       pulled: seq<int>, now: int)
    requires IsMark(mark, history, window, threshold, cooldown, pulled) && now >= 0
    ensures mark > now <==>
            || (exists i :: 0 <= i < |history| && Burst(history, i, window, threshold) && now < history[i] + cooldown)
            || (exists i :: 0 <= i < |pulled| && now < pulled[i])
  {
    if mark > now && mark in pulled {
      var i :| 0 <= i < |pulled| && pulled[i] == mark;
      assert now < pulled[i];
    }
  }

  /** A failure at the end of the history: a burst moves the mark, anything else leaves it. */
  lemma {:induction false} MarkAfterFailure(mark: int, history: seq<int>, now: int, window: int, threshold: nat,
                                            cooldown: int, pulled: seq<int>)
    requires IsMark(mark, history, window, threshold, cooldown, pulled)
    requires now + cooldown >= 0
    ensures var h := history + [now];
            Burst(h, |history|, window, threshold) ==
              (|InWindow(h, now, window)| >= threshold)
            && IsMark(if |InWindow(h, now, window)| >= threshold then Max(mark, now + cooldown) else mark,
                      h, window, threshold, cooldown, pulled)
  {
    var h := history + [now];
    assert h[..|history| + 1] == h;
    forall i | 0 <= i < |history|
      ensures Burst(h, i, window, threshold) == Burst(history, i, window, threshold) && h[i] == history[i]
    {
      BurstStable(history, now, i, window, threshold);
    }
    var burst := |InWindow(h, now, window)| >= threshold;
    assert h[|history|] == now;
    if burst && mark < now + cooldown {
      assert Burst(h, |history|, window, threshold);
    } else if mark != 0 && mark !in pulled {
      var i :| 0 <= i < |history| && Burst(history, i, window, threshold) && mark == history[i] + cooldown;
      assert Burst(h, i, window, threshold) && mark == h[i] + cooldown;
    }
  }

  lemma {:induction false} MarkAfterPull(mark: int, history: seq<int>, window: int, threshold: nat, cooldown: int,
                                         pulled: seq<int>, p: int)
    requires IsMark(mark, history, window, threshold, cooldown, pulled)
    ensures IsMark(Max(mark, p), history, window, threshold, cooldown, pulled + [p])
  {
    assert (pulled + [p])[|pulled|] == p;
    if mark in pulled {
      var i :| 0 <= i < |pulled| && pulled[i] == mark;
      assert (pulled + [p])[i] == mark;
    }
  }
}
