/** The sliding-window limiter of `internal/ratelimit/ratelimit.go`.

    Time is in nanoseconds. The weighted count `prev * (1 - elapsed / windowSize) + curr` is kept
    exact by multiplying it, and the limit it is compared with, by `windowSize`. A window size of zero or
    less, which the constructor accepts, makes every instant its own window. */
module SlidingWindows {

  datatype Limits = Limits(rate: int, windowSize: int)

  type Proper = l: Limits | 0 < l.windowSize witness Limits(1, 1)

  datatype Window = Window(prevCount: int, currCount: int, currWindow: int)

  type Windows = map<string, Window>

  const SECOND: int := 1_000_000_000
  const IDLE_LIMIT: int := 600 * SECOND

  function Truncate(l: Limits, now: int): int {
    if l.windowSize <= 0 then now else now - now % l.windowSize
  }

  function Rotated(l: Limits, w: Window, now: int): Window {
    var start := Truncate(l, now);
    if start <= w.currWindow then w
    else if start - w.currWindow >= 2 * l.windowSize then Window(0, 0, start)
    else if start - w.currWindow >= l.windowSize then Window(w.currCount, 0, start)
    else w.(currWindow := start)
  }

  function WindowFor(l: Limits, ws: Windows, key: string, now: int): Window {
    if key in ws then ws[key] else Window(0, 0, Truncate(l, now))
  }

  /** The weighted count that a call at `now` is judged by, times `windowSize`. */
  function Load(l: Proper, ws: Windows, key: string, now: int): int {
    var w := Rotated(l, WindowFor(l, ws, key, now), now);
    w.prevCount * (l.windowSize - now % l.windowSize) + w.currCount * l.windowSize
  }

  /** Of an empty window no fraction has elapsed and the weight is not a number, which no comparison
      admits; of a negative one none has elapsed either, and the weight is one. */
  predicate Allows(l: Limits, ws: Windows, key: string, now: int, n: int) {
    if l.windowSize > 0 then Load(l, ws, key, now) + n * l.windowSize <= l.rate * l.windowSize
    else
      var w := Rotated(l, WindowFor(l, ws, key, now), now);
      l.windowSize != 0 && w.prevCount + w.currCount + n <= l.rate
  }

  function AfterAllowN(l: Limits, ws: Windows, key: string, now: int, n: int): Windows {
    var w := Rotated(l, WindowFor(l, ws, key, now), now);
    ws[key := if Allows(l, ws, key, now, n) then w.(currCount := w.currCount + n) else w]
  }

  predicate Idle(w: Window, now: int) {
    now - w.currWindow > IDLE_LIMIT
  }

  function AfterCleanup(ws: Windows, now: int): Windows {
    map key | key in ws && !Idle(ws[key], now) :: ws[key]
  }

  class SlidingWindowLimiter {
    const limits: Limits
    var windows: Windows

    constructor (requestsPerSecond: int, windowSeconds: int)
      ensures limits == Limits(requestsPerSecond * windowSeconds, windowSeconds * SECOND) && windows == map[]
    {
      limits := Limits(requestsPerSecond * windowSeconds, windowSeconds * SECOND);
      windows := map[];
    }

    method Allow(key: string, now: int) returns (allowed: bool)
      modifies this
      ensures allowed == Allows(limits, old(windows), key, now, 1)
      ensures windows == AfterAllowN(limits, old(windows), key, now, 1)
    {
      allowed := AllowN(key, 1, now);
    }

    method AllowN(key: string, n: int, now: int) returns (allowed: bool)
      modifies this
      ensures allowed == Allows(limits, old(windows), key, now, n)
      ensures windows == AfterAllowN(limits, old(windows), key, now, n)
    {
      var start := Truncate(limits, now);
      var w := Window(0, 0, start);
      if key in windows {
        w := windows[key];
      }
      if start > w.currWindow {
        var timeDiff := start - w.currWindow;
        if timeDiff >= 2 * limits.windowSize {
          w := w.(prevCount := 0, currCount := 0);
        } else if timeDiff >= limits.windowSize {
          w := w.(prevCount := w.currCount, currCount := 0);
        }
        w := w.(currWindow := start);
      }
      assert w == Rotated(limits, WindowFor(limits, windows, key, now), now);
      var elapsed := now - start;
      if limits.windowSize > 0 {
        var weightedCount := w.prevCount * (limits.windowSize - elapsed) + w.currCount * limits.windowSize;
        allowed := weightedCount + n * limits.windowSize <= limits.rate * limits.windowSize;
      } else {
        allowed := limits.windowSize != 0 && w.prevCount + w.currCount + n <= limits.rate;
      }
      if allowed {
        w := w.(currCount := w.currCount + n);
      }
      windows := windows[key := w];
    }

    method Cleanup(now: int)
      modifies this
      ensures windows == AfterCleanup(old(windows), now)
      ensures forall key :: key in windows <==> key in old(windows) && now - old(windows)[key].currWindow <= 600 * SECOND
    {
      var pending := windows.Keys;
      while pending != {}
        invariant pending <= old(windows).Keys
        invariant forall key :: key in windows <==> key in old(windows) && (key in pending || !Idle(old(windows)[key], now))
        invariant forall key | key in windows :: windows[key] == old(windows)[key]
      {
        var key :| key in pending;
        if now - windows[key].currWindow > IDLE_LIMIT {
          windows := windows - {key};
        }
        pending := pending - {key};
      }
    }
  }
}
