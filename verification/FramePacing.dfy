/** Frame pacing of XLN/Core/Foundation/FrameExecutor.cpp over a millisecond tick that wraps round at 32 bits. */
module FramePacing {
  import opened Machine

  /** What `GetTickCount` answers at time `now`, in milliseconds. */
  function Tick(now: nat): UInt32 {
    now % UINT32_LIMIT
  }

  function Subtract(a: UInt32, b: UInt32): UInt32 {
    (a - b) % UINT32_LIMIT
  }

  function Add(a: UInt32, b: UInt32): UInt32 {
    (a + b) % UINT32_LIMIT
  }

  /** `frames` are the deltas given to `OnFrame` so far. */
  datatype Pacer = Pacer(millisPerFrame: UInt32, prevRenderTick: UInt32, curAccuTime: UInt32, frames: seq<UInt32>)

  function Polled(p: Pacer, now: nat): Pacer {
    var accu := Add(p.curAccuTime, Subtract(Tick(now), p.prevRenderTick));
    if accu > p.millisPerFrame then p.(prevRenderTick := Tick(now), curAccuTime := 0, frames := p.frames + [accu])
    else p.(prevRenderTick := Tick(now), curAccuTime := accu)
  }

  /** 1000 / `fps`, rounded down. */
  function FrameLength(fps: UInt32, undefined: UInt32): UInt32 {
    if fps == 0 then undefined else 1000 / fps
  }

  /** A signed rate as an unsigned number. */
  function Unsigned(fps: Int32): (r: UInt32)
    ensures r == fps || r == UINT32_LIMIT + fps
  {
    if fps < 0 then UINT32_LIMIT + fps else fps
  }

  /** The longest whole number of milliseconds of which `fps` fit a second. */
  predicate FitsSecond(millis: nat, fps: nat) {
    millis * fps <= 1000 < (millis + 1) * fps
  }

  lemma LongestFrame(fps: UInt32, undefined: UInt32)
    requires fps > 0
    ensures FitsSecond(FrameLength(fps, undefined), fps)
    ensures fps > 1000 ==> FrameLength(fps, undefined) == 0
  {
    var q := 1000 / fps;
    assert 1000 == fps * q + 1000 % fps;
    assert (q + 1) * fps == fps * q + fps;
    if fps > 1000 && q > 0 {
      Times(fps, 1, q);
      assert false;
    }
  }

  class FrameExecutor {
    var fps: UInt32
    var millisPerFrame: UInt32
    var prevRenderTick: UInt32
    var curAccuTime: UInt32
    var frames: seq<UInt32>

    function View(): Pacer
      reads this
    {
      Pacer(millisPerFrame, prevRenderTick, curAccuTime, frames)
    }

    constructor (now: nat)
      ensures fps == 30 && View() == Started(30, now)
    {
      fps, millisPerFrame, prevRenderTick, curAccuTime, frames := 30, 1000 / 30, Tick(now), 0, [];
    }

    /** The length of a frame, without the rounding of the floating-point division. The rate becomes an unsigned
        number, so a negative one becomes huge; for 0 the division gives infinity, and `undefined` is what the cast
        makes of it. */
    method SetMaxFPS(fps: Int32, undefined: UInt32)
      modifies this
      ensures this.fps == Unsigned(fps) && View() == old(View()).(millisPerFrame := millisPerFrame)
      ensures fps > 0 ==> FitsSecond(millisPerFrame, fps)
      ensures fps < 0 ==> millisPerFrame == 0
      ensures fps == 0 ==> millisPerFrame == undefined
    {
      this.fps := if fps < 0 then UINT32_LIMIT + fps else fps;
      if this.fps > 0 {
        LongestFrame(this.fps, undefined);
      }
      millisPerFrame := FrameLength(this.fps, undefined);
    }

    method OnThreadPreRun(now: nat)
      modifies this
      ensures fps == old(fps) && View() == old(View()).(prevRenderTick := Tick(now), curAccuTime := 0)
    {
      prevRenderTick := Tick(now);
      curAccuTime := 0;
    }

    method OnThreadRun(now: nat)
      modifies this
      ensures fps == old(fps) && millisPerFrame == old(millisPerFrame) && View() == Polled(old(View()), now)
    {
      var curTime := Tick(now);
      var deltaTime := Subtract(curTime, prevRenderTick);
      curAccuTime := Add(curAccuTime, deltaTime);
      if curAccuTime > millisPerFrame {
        frames := frames + [curAccuTime];
        curAccuTime := 0;
      }
      prevRenderTick := curTime;
    }
  }

  // ---------- Runs ----------

  /** A pacer started at time `now`. */
  function Started(fps: UInt32, now: nat): Pacer
    requires fps > 0
  {
    Pacer(1000 / fps, Tick(now), 0, [])
  }

  ghost predicate Ascending(times: seq<nat>) {
    forall i, j | 0 <= i < j < |times| :: times[i] <= times[j]
  }

  /** The pacer after it was started at `times[0]` and polled at the later times. */
  function Run(fps: UInt32, times: seq<nat>): (p: Pacer)
    requires fps > 0 && times != []
  {
    if |times| == 1 then Started(fps, times[0]) else Polled(Run(fps, times[..|times| - 1]), times[|times| - 1])
  }

  function Sum(s: seq<UInt32>): nat {
    if s == [] then 0 else Sum(s[..|s| - 1]) + s[|s| - 1]
  }

  /** The time accounted for: given to frames or kept for the next. */
  function Accounted(p: Pacer): nat {
    Sum(p.frames) + p.curAccuTime
  }

  /** At every poll the time accumulated and the time since the poll before fit a tick. */
  predicate Fits(fps: UInt32, times: seq<nat>)
    requires fps > 0 && times != []
  {
    |times| == 1 ||
    var past := times[..|times| - 1];
    Fits(fps, past) && Run(fps, past).curAccuTime + times[|times| - 1] - times[|times| - 2] < UINT32_LIMIT
  }

  lemma SubtractTicks(now: nat, before: nat)
    requires before <= now
    ensures Subtract(Tick(now), Tick(before)) == (now - before) % UINT32_LIMIT
  {
    var q, r := now / UINT32_LIMIT, before / UINT32_LIMIT;
    assert now - before == UINT32_LIMIT * (q - r) + (Tick(now) - Tick(before));
  }

  /** What one poll adds to the time accounted for: the time that has passed, but for multiples of the tick's range. */
  lemma PollAccounts(p: Pacer, before: nat, now: nat)
    requires before <= now && p.prevRenderTick == Tick(before)
    ensures var p' := Polled(p, now);
            && p'.prevRenderTick == Tick(now) && p'.millisPerFrame == p.millisPerFrame
            && Accounted(p') <= Accounted(p) + (now - before)
            && (Accounted(p') == Accounted(p) + (now - before) <==> p.curAccuTime + now - before < UINT32_LIMIT)
  {
    hide Add, Subtract, Tick;
    AddTicks(p.curAccuTime, before, now);
    var accu := Add(p.curAccuTime, Subtract(Tick(now), Tick(before)));
    assert (p.frames + [accu])[..|p.frames|] == p.frames;
    assert Accounted(Polled(p, now)) == Sum(p.frames) + accu;
  }

  /** What a poll accumulates: the time that has passed, but for multiples of the tick's range. */
  lemma AddTicks(accu: UInt32, before: nat, now: nat)
    requires before <= now
    ensures var sum := Add(accu, Subtract(Tick(now), Tick(before)));
            && sum == (accu + now - before) % UINT32_LIMIT <= accu + now - before
            && (sum == accu + now - before <==> accu + now - before < UINT32_LIMIT)
  {
    SubtractTicks(now, before);
    var gap := now - before;
    assert accu + gap == UINT32_LIMIT * (gap / UINT32_LIMIT) + (accu + gap % UINT32_LIMIT);
  }

  /** One poll gives at most one frame: if the time since the last one exceeds the length of a frame, a frame for all
      of it; else none, and the time is kept. */
  lemma PollFrames(p: Pacer, before: nat, now: nat)
    requires before <= now && p.prevRenderTick == Tick(before)
    ensures var p', time := Polled(p, now), p.curAccuTime + now - before;
            && |p'.frames| <= |p.frames| + 1 && p.frames <= p'.frames && (p'.frames != p.frames ==> p'.curAccuTime == 0)
            && (p.millisPerFrame < time < UINT32_LIMIT ==> p'.frames == p.frames + [time])
            && (time <= p.millisPerFrame ==> p'.frames == p.frames && p'.curAccuTime == time)
  {
    hide Add, Subtract, Tick;
    AddTicks(p.curAccuTime, before, now);
  }

  /** The deltas given to frames and what is left never exceed the time elapsed; they equal it exactly if no poll
      overruns the tick. */
  lemma {:induction false} TimeIsConserved(fps: UInt32, times: seq<nat>)
    requires fps > 0 && times != [] && Ascending(times)
    ensures var p := Run(fps, times);
            && p.prevRenderTick == Tick(times[|times| - 1]) && p.millisPerFrame == 1000 / fps
            && Accounted(p) <= times[|times| - 1] - times[0]
            && (Accounted(p) == times[|times| - 1] - times[0] <==> Fits(fps, times))
  {
    if |times| > 1 {
      hide Polled, Subtract, Tick, Accounted;
      var past, before, now := times[..|times| - 1], times[|times| - 2], times[|times| - 1];
      assert past[|past| - 1] == before && past[0] == times[0];
      TimeIsConserved(fps, past);
      PollAccounts(Run(fps, past), before, now);
    } else {
      assert Sum([]) == 0;
    }
  }

  /** A caller that polls often enough loses no time. */
  lemma {:induction false} ShortGapsFit(fps: UInt32, times: seq<nat>)
    requires fps > 0 && times != []
    requires forall i, j | 0 <= i < |times| && j == i + 1 < |times| :: times[j] - times[i] + 1000 / fps < UINT32_LIMIT
    ensures Fits(fps, times)
  {
    if |times| > 1 {
      var past := times[..|times| - 1];
      ShortGapsFit(fps, past);
      ResidueIsShort(fps, past);
      assert times[|times| - 1] - times[|times| - 2] + 1000 / fps < UINT32_LIMIT;
    }
  }

  lemma {:induction false} ResidueIsShort(fps: UInt32, times: seq<nat>)
    requires fps > 0 && times != []
    ensures Run(fps, times).curAccuTime <= Run(fps, times).millisPerFrame == 1000 / fps
    ensures forall d | d in Run(fps, times).frames :: d > 1000 / fps
  {
    if |times| > 1 {
      ResidueIsShort(fps, times[..|times| - 1]);
    }
  }

  lemma OneMoreTimes(k: nat, n: nat)
    ensures (k + 1) * n == k * n + n
  {
  }

  lemma {:induction false} SumAtLeast(s: seq<UInt32>, n: nat)
    requires forall d | d in s :: d >= n
    ensures Sum(s) >= |s| * n
  {
    if s != [] {
      var front, last := s[..|s| - 1], s[|s| - 1];
      assert s == front + [last];
      forall d: UInt32 | d in front
        ensures d >= n
      {
        assert d in s;
      }
      SumAtLeast(front, n);
      assert last in s;
      OneMoreTimes(|front|, n);
    }
  }

  /** In every run, wrapped or not: the frames fit the time elapsed, and there are no more than the configured rate
      allows. */
  lemma FpsIsNeverExceeded(fps: UInt32, times: seq<nat>)
    requires fps > 0 && times != [] && Ascending(times)
    ensures var frames, elapsed := |Run(fps, times).frames|, times[|times| - 1] - times[0];
            frames * (1000 / fps + 1) <= elapsed && frames * 1000 <= fps * elapsed
  {
    hide Run, Fits;
    TimeIsConserved(fps, times);
    ResidueIsShort(fps, times);
    SumAtLeast(Run(fps, times).frames, 1000 / fps + 1);
    Rate(|Run(fps, times).frames|, fps, times[|times| - 1] - times[0]);
  }

  /** The same over any window of polls, and with nothing left over where the window begins at a frame. */
  lemma FpsIsNeverExceededWithin(fps: UInt32, times: seq<nat>, i: nat)
    requires fps > 0 && Ascending(times) && 0 < i <= |times|
    ensures var before, after := Run(fps, times[..i]), Run(fps, times);
            var frames, elapsed := |after.frames| - |before.frames|, times[|times| - 1] - times[i - 1];
            && frames >= 0 && frames * (1000 / fps + 1) <= elapsed + before.curAccuTime
            && (before.curAccuTime == 0 ==> frames * 1000 <= fps * elapsed)
  {
    hide Run;
    WindowAccounts(fps, times, i);
    var before, after := Run(fps, times[..i]), Run(fps, times);
    var more := after.frames[|before.frames|..];
    ResidueIsShort(fps, times);
    forall d: UInt32 | d in more
      ensures d >= 1000 / fps + 1
    {
      assert d in after.frames;
    }
    SumAtLeast(more, 1000 / fps + 1);
    SumSplits(before.frames, more);
    assert after.frames == before.frames + more;
    if before.curAccuTime == 0 {
      Rate(|more|, fps, times[|times| - 1] - times[i - 1]);
    }
  }

  /** Over a window of polls frames are only added, and no more time is accounted for than has passed. */
  lemma {:induction false} WindowAccounts(fps: UInt32, times: seq<nat>, i: nat)
    requires fps > 0 && Ascending(times) && 0 < i <= |times|
    ensures Run(fps, times[..i]).frames <= Run(fps, times).frames
    ensures Accounted(Run(fps, times)) <= Accounted(Run(fps, times[..i])) + times[|times| - 1] - times[i - 1]
    decreases |times|
  {
    if i == |times| {
      assert times[..i] == times;
    } else {
      hide Accounted;
      var past, before, now := times[..|times| - 1], times[|times| - 2], times[|times| - 1];
      assert past[..i] == times[..i] && past[|past| - 1] == before && past[i - 1] == times[i - 1];
      WindowAccounts(fps, past, i);
      TimeIsConserved(fps, past);
      PollAccounts(Run(fps, past), before, now);
    }
  }

  lemma {:induction false} SumSplits(a: seq<UInt32>, b: seq<UInt32>)
    ensures Sum(a + b) == Sum(a) + Sum(b)
  {
    if b == [] {
      assert a + b == a;
    } else {
      assert (a + b)[..|a + b| - 1] == a + b[..|b| - 1];
      SumSplits(a, b[..|b| - 1]);
    }
  }

  lemma Rate(frames: nat, fps: nat, elapsed: nat)
    requires fps > 0 && frames * (1000 / fps + 1) <= elapsed
    ensures frames * 1000 <= fps * elapsed
  {
    var q := 1000 / fps;
    assert 1000 <= fps * (q + 1);
    Times(frames, 1000, fps * (q + 1));
    Times(fps, frames * (q + 1), elapsed);
    assert frames * (fps * (q + 1)) == fps * (frames * (q + 1));
  }

  lemma Times(k: nat, a: nat, b: nat)
    requires a <= b
    ensures k * a <= k * b
  {
  }

  /** A pacer made at any time, given a rate, started at `times[0]` and polled at the later times. Frames are as long as
      a second divided by the rate allows, rounded down, and there are no more of them than the rate allows. */
  method Session(fps: Int32, made: nat, undefined: UInt32, times: seq<nat>) returns (e: FrameExecutor)
    requires fps != 0 && times != [] && Ascending(times)
    ensures FitsSecond(e.millisPerFrame, Unsigned(fps))
    ensures |e.frames| * 1000 <= Unsigned(fps) * (times[|times| - 1] - times[0])
    ensures Sum(e.frames) + e.curAccuTime <= times[|times| - 1] - times[0]
    ensures Sum(e.frames) + e.curAccuTime == times[|times| - 1] - times[0] <==> Fits(Unsigned(fps), times)
    ensures e.View() == Run(Unsigned(fps), times)
  {
    hide Ascending, Polled, Fits, Run, FitsSecond;
    var rate := Unsigned(fps);
    e := new FrameExecutor(made);
    e.SetMaxFPS(fps, undefined);
    HugeRateFits(rate);
    WholeMillis(e.millisPerFrame, rate);
    e.OnThreadPreRun(times[0]);
    RunBegins(rate, times);
    var i := 1;
    while i < |times|
      invariant 1 <= i <= |times| && e.View() == Run(rate, times[..i])
      invariant FitsSecond(e.millisPerFrame, rate)
    {
      RunContinues(rate, times, i);
      e.OnThreadRun(times[i]);
      i := i + 1;
    }
    assert times[..i] == times;
    TimeIsConserved(rate, times);
    FpsIsNeverExceeded(rate, times);
  }

  lemma HugeRateFits(rate: nat)
    ensures rate > 1000 ==> FitsSecond(0, rate)
  {
  }

  lemma WholeMillis(millis: nat, rate: nat)
    requires rate > 0 && FitsSecond(millis, rate)
    ensures millis == 1000 / rate
  {
    var q := 1000 / rate;
    assert rate * q <= 1000 < rate * (q + 1);
    if millis < q {
      Times(rate, millis + 1, q);
    } else if q < millis {
      Times(rate, q + 1, millis);
    }
  }

  lemma RunBegins(rate: UInt32, times: seq<nat>)
    requires rate > 0 && times != []
    ensures Run(rate, times[..1]) == Pacer(1000 / rate, Tick(times[0]), 0, [])
  {
  }

  lemma RunContinues(rate: UInt32, times: seq<nat>, i: nat)
    requires rate > 0 && 1 <= i < |times|
    ensures Run(rate, times[..i + 1]) == Polled(Run(rate, times[..i]), times[i])
  {
    assert times[..i + 1][..i] == times[..i];
  }

  /** The loss is real: a pacer polled 50 days apart does not account for them. */
  lemma LongGapLosesTime()
    ensures Accounted(Run(30, [0, 4320000000])) < 4320000000
  {
    var times := [0, 4320000000];
    assert times[..1] == [0];
    assert !Fits(30, times);
    TimeIsConserved(30, times);
  }
}
