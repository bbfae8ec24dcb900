/** The once-a-second frame-rate window at the end of `useFrame`
    (src/components/ParticleScene.tsx). The clock (`performance.now()`)
    enters as the `now` of each frame. */
module Fps {
  import opened Base

  /** Length of a reporting window in milliseconds. */
  const WindowMs: real := 1000.0

  /** Frames counted since the window opened at `last`. */
  datatype FpsWindow = FpsWindow(frames: nat, last: real)

  /** The window after a frame, and the value passed to `onFps`, if any. */
  datatype Tick = Tick(window: FpsWindow, report: Option<int>)

  /** Count the frame; once a full second has passed since `last`, report
      the nearest integer to frames per second (the rate over the window,
      this frame included) and open a new window at `now`. The report never
      exceeds the frames counted, because the window is at least a second. */
  function FpsTick(w: FpsWindow, now: real): (t: Tick)
    ensures t.report.Some? <==> now - w.last >= WindowMs
    ensures t.report.Some? ==> t.window == FpsWindow(0, now)
    ensures t.report.None? ==> t.window == FpsWindow(w.frames + 1, w.last)
    ensures t.report.Some? ==> 0 <= t.report.value <= w.frames + 1
    ensures t.report.Some? ==>
      var rate := (w.frames + 1) as real * 1000.0 / (now - w.last);
      rate - 0.5 < t.report.value as real <= rate + 0.5
  {
    var frames := w.frames + 1;
    var elapsed := now - w.last;
    if elapsed >= WindowMs then
      RateAtMostFrames(frames, elapsed);
      Tick(FpsWindow(0, now), Some(Round(frames as real * 1000.0 / elapsed)))
    else
      Tick(FpsWindow(frames, w.last), None)
  }

  /** Over at least a second, the per-second rate is at most the count. */
  lemma RateAtMostFrames(frames: nat, elapsed: real)
    requires elapsed >= WindowMs
    ensures 0.0 <= frames as real * 1000.0 / elapsed <= frames as real
  {
    var f := frames as real;
    var q := f * 1000.0 / elapsed;
    assert q * elapsed == f * 1000.0;
    if q < 0.0 {
      PosMul(-q, elapsed);
    }
    if q > f {
      PosMul(q - f, elapsed);
      NonnegMul(f, elapsed - WindowMs);
    }
  }

  /** A run of frames at the given clock readings: the final window and the
      reports in order. */
  function FpsRun(w: FpsWindow, nows: seq<real>): (r: (FpsWindow, seq<int>))
    ensures |r.1| <= |nows|
    ensures r.0.last == w.last || r.0.last in nows
    ensures r.0.frames <= w.frames + |nows|
    ensures |r.1| == 0 ==> r.0 == FpsWindow(w.frames + |nows|, w.last)
    decreases |nows|
  {
    if |nows| == 0 then (w, [])
    else
      var t := FpsTick(w, nows[0]);
      var rest := FpsRun(t.window, nows[1..]);
      (rest.0, (if t.report.Some? then [t.report.value] else []) + rest.1)
  }

  /** Frames that all fall within a second of `last` are only counted:
      nothing is reported and the window start stays put. */
  lemma {:induction false} QuietRun(w: FpsWindow, nows: seq<real>)
    requires forall k :: 0 <= k < |nows| ==> nows[k] - w.last < WindowMs
    ensures FpsRun(w, nows) == (FpsWindow(w.frames + |nows|, w.last), [])
    decreases |nows|
  {
    if |nows| > 0 {
      var t := FpsTick(w, nows[0]);
      assert t.window == FpsWindow(w.frames + 1, w.last);
      QuietRun(t.window, nows[1..]);
    }
  }

  /** Every report of a run lies between 0 and the number of frames counted
      so far. */
  lemma {:induction false} ReportsBounded(w: FpsWindow, nows: seq<real>)
    ensures forall k :: 0 <= k < |FpsRun(w, nows).1| ==> 0 <= FpsRun(w, nows).1[k] <= w.frames + |nows|
    decreases |nows|
  {
    if |nows| > 0 {
      var t := FpsTick(w, nows[0]);
      ReportsBounded(t.window, nows[1..]);
      assert t.window.frames <= w.frames + 1;
    }
  }
}
