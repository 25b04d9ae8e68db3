/** The drift-closing 90 kHz timeline of src/dvr/dvr.cpp (`next_frame_duration`) and the muxer clock it
    drives. Times are mathematical integers. */
module FrameTimeline {

  const TIMEBASE := 90000
  const MS_TO_90K := 90
  const MAX_FRAME_DURATION := TIMEBASE / 4

  /** `rec_start_pts`, `segment_video_ticks` and `last_good_duration`. */
  datatype Clock = Clock(start: int, ticks: int, lastGood: int)

  /** What open_next_file() leaves: no anchor, no time elapsed; the last duration is kept. */
  function NewSegment(c: Clock): Clock { Clock(-1, 0, c.lastGood) }

  const PowerOn := Clock(-1, 0, 0)

  datatype Tick = Tick(c: Clock, duration: int, gap: bool)

  /** `next_frame_duration(pts)`. */
  function Next(c: Clock, fps: int, pts: int): (r: Tick)
    requires fps > 0
  {
    var start := if c.start < 0 then pts else c.start;
    var target := (pts - start) * MS_TO_90K;
    var raw := target - c.ticks;
    var atLeast1 := if raw < 1 then 1 else raw;
    if atLeast1 > MAX_FRAME_DURATION then
      var d := if c.lastGood > 0 then c.lastGood else TIMEBASE / fps;
      Tick(Clock(start, target + d, d), d, true)
    else Tick(Clock(start, c.ticks + atLeast1, atLeast1), atLeast1, false)
  }

  class Timeline {
    var startPts: int
    var ticks: int
    var lastGood: int
    const fps: int

    function Value(): Clock reads this { Clock(startPts, ticks, lastGood) }

    constructor (fps: int)
      ensures Value() == PowerOn && this.fps == if fps > 0 then fps else 60
    {
      this.fps := if fps > 0 then fps else 60;
      startPts, ticks, lastGood := -1, 0, 0;
    }

    method NewFile()
      modifies this
      ensures Value() == NewSegment(old(Value()))
    {
      startPts, ticks := -1, 0;
    }

    method NextFrameDuration(pts: int) returns (duration: int)
      requires fps > 0
      modifies this
      ensures Value() == Next(old(Value()), fps, pts).c
      ensures duration == Next(old(Value()), fps, pts).duration
    {
      var fallback := TIMEBASE / fps;
      if startPts < 0 {
        startPts := pts;
      }
      var target := (pts - startPts) * MS_TO_90K;
      duration := target - ticks;
      if duration < 1 {
        duration := 1;
      }
      if duration > MAX_FRAME_DURATION {
        duration := if lastGood > 0 then lastGood else fallback;
        ticks := target;
      }
      lastGood := duration;
      ticks := ticks + duration;
    }
  }

  // ---------------------------------------------------------------- one segment

  /** The clock after the frames `pts` of a segment, and the durations handed to the muxer. */
  function After(c: Clock, fps: int, pts: seq<int>): (r: Clock)
    requires fps > 0
  {
    if pts == [] then c else Next(After(c, fps, pts[..|pts| - 1]), fps, pts[|pts| - 1]).c
  }

  function Durations(c: Clock, fps: int, pts: seq<int>): (r: seq<int>)
    requires fps > 0
    ensures |r| == |pts|
  {
    if pts == [] then [] else
    Durations(c, fps, pts[..|pts| - 1]) + [Next(After(c, fps, pts[..|pts| - 1]), fps, pts[|pts| - 1]).duration]
  }

  /** Frame `i` of the segment was too far ahead and its gap was skipped. */
  predicate GapAt(c: Clock, fps: int, pts: seq<int>, i: nat)
    requires fps > 0 && i < |pts|
  {
    Next(After(c, fps, pts[..i]), fps, pts[i]).gap
  }

  /** The muxer's media clock: the sum of the durations. */
  function Sum(d: seq<int>): int { if d == [] then 0 else Sum(d[..|d| - 1]) + d[|d| - 1] }

  /** A clock that starts a segment, whatever was recorded before. */
  predicate Fresh(c: Clock) { c.start == -1 && c.ticks == 0 && 0 <= c.lastGood <= MAX_FRAME_DURATION }

  /** The last good duration is usable once a frame has been seen, so the nominal rate never is. */
  predicate Usable(c: Clock) {
    0 <= c.lastGood <= MAX_FRAME_DURATION && (c.start >= 0 ==> c.lastGood >= 1) && c.ticks >= 0
  }

  lemma NextUsable(c: Clock, fps: int, pts: int)
    requires fps > 0 && Usable(c)
    ensures 1 <= Next(c, fps, pts).duration <= MAX_FRAME_DURATION
    ensures Usable(Next(c, fps, pts).c)
  {
  }

  /** For any timestamps at all, every duration is between 1 tick and a quarter of a second. */
  lemma {:induction false} DurationsBounded(c: Clock, fps: int, pts: seq<int>)
    requires fps > 0 && Fresh(c)
    ensures forall i :: 0 <= i < |pts| ==> 1 <= Durations(c, fps, pts)[i] <= MAX_FRAME_DURATION
    ensures Usable(After(c, fps, pts))
  {
    hide Next;
    if pts != [] {
      DurationsBounded(c, fps, pts[..|pts| - 1]);
      NextUsable(After(c, fps, pts[..|pts| - 1]), fps, pts[|pts| - 1]);
    }
  }

  /** A new file after any segment starts another one. */
  lemma {:induction false} NextSegmentIsFresh(c: Clock, fps: int, pts: seq<int>)
    requires fps > 0 && Fresh(c)
    ensures Fresh(NewSegment(After(c, fps, pts)))
  {
    DurationsBounded(c, fps, pts);
    hide After;
  }

  ghost predicate Ascending(pts: seq<int>) { forall i, j :: 0 <= i < j < |pts| ==> pts[i] < pts[j] }

  /** The real time at the last frame, in ticks since the first. */
  function Target(pts: seq<int>): int
    requires pts != []
  {
    (pts[|pts| - 1] - pts[0]) * MS_TO_90K
  }

  lemma {:induction false} Anchored(c: Clock, fps: int, pts: seq<int>)
    requires fps > 0 && c.start == -1 && Ascending(pts) && pts != [] && pts[0] >= 0
    ensures After(c, fps, pts).start == pts[0]
    decreases |pts|
  {
    var p := pts[..|pts| - 1];
    if p != [] { Anchored(c, fps, p); }
  }

  lemma StepTracks(c: Clock, fps: int, last: int, pts: int)
    requires fps > 0 && Usable(c) && 0 <= c.start <= last < pts
    requires (last - c.start) * MS_TO_90K <= c.ticks <= (last - c.start) * MS_TO_90K + MAX_FRAME_DURATION
    ensures var t := (pts - c.start) * MS_TO_90K; t <= Next(c, fps, pts).c.ticks <= t + MAX_FRAME_DURATION
  {
  }

  /** For increasing timestamps from zero on, the segment clock never lags real time and leads it by at
      most a quarter of a second. */
  lemma {:induction false} NeverLags(c: Clock, fps: int, pts: seq<int>)
    requires fps > 0 && Fresh(c) && Ascending(pts) && pts != [] && pts[0] >= 0
    ensures Target(pts) <= After(c, fps, pts).ticks <= Target(pts) + MAX_FRAME_DURATION
  {
    var p, x := pts[..|pts| - 1], pts[|pts| - 1];
    if p != [] {
      NeverLags(c, fps, p);
      Anchored(c, fps, p);
      DurationsBounded(c, fps, p);
      StepTracks(After(c, fps, p), fps, p[|p| - 1], x);
      hide Next;
      assert After(c, fps, pts) == Next(After(c, fps, p), fps, x).c;
      Anchored(c, fps, pts);
    }
  }

  /** Without gaps it is exact from the second frame on: the one tick the first frame borrows is paid
      back by the second. */
  lemma {:induction false} ExactWithoutGaps(c: Clock, fps: int, pts: seq<int>)
    requires fps > 0 && Fresh(c) && Ascending(pts) && |pts| >= 1 && pts[0] >= 0
    requires forall i :: 0 <= i < |pts| ==> !GapAt(c, fps, pts, i)
    ensures After(c, fps, pts).ticks == if |pts| == 1 then 1 else Target(pts)
  {
    var n := |pts| - 1;
    var p, x := pts[..n], pts[n];
    if p != [] {
      forall i | 0 <= i < n ensures !GapAt(c, fps, p, i) {
        assert !GapAt(c, fps, pts, i);
        assert p[..i] == pts[..i];
      }
      ExactWithoutGaps(c, fps, p);
      Anchored(c, fps, p);
      assert !GapAt(c, fps, pts, n);
    }
  }

  /** A negative first stamp reads as no anchor: the second frame anchors the segment again, and two
      frames have moved the clock by two ticks. */
  lemma {:induction false} NegativeAnchorIsLost(c: Clock, fps: int, pts: seq<int>)
    requires fps > 0 && Fresh(c) && Ascending(pts) && |pts| == 2 && pts[0] < 0
    ensures After(c, fps, pts).ticks == 2 < Target(pts)
  {
    var p := pts[..1];
    assert p[..0] == [] && After(c, fps, []) == c;
    assert After(c, fps, p) == Clock(pts[0], 1, 1);
    assert Next(Clock(pts[0], 1, 1), fps, pts[1]).c.ticks == 2;
  }

  /** Exactly when: at every frame of an increasing sequence the clock is at or ahead of real time by at
      most a quarter of a second iff the first stamp is not negative, or there is no second one. */
  lemma NeverLagsIff(c: Clock, fps: int, pts: seq<int>)
    requires fps > 0 && Fresh(c) && Ascending(pts) && pts != []
    ensures (forall n :: 0 < n <= |pts| ==>
               Target(pts[..n]) <= After(c, fps, pts[..n]).ticks <= Target(pts[..n]) + MAX_FRAME_DURATION)
            <==> pts[0] >= 0 || |pts| == 1
  {
    hide After;
    if pts[0] >= 0 {
      forall n | 0 < n <= |pts|
        ensures Target(pts[..n]) <= After(c, fps, pts[..n]).ticks <= Target(pts[..n]) + MAX_FRAME_DURATION
      {
        NeverLags(c, fps, pts[..n]);
      }
    } else if |pts| == 1 {
      assert After(c, fps, pts).ticks == 1 by { OneFrame(c, fps, pts); }
      assert pts[..1] == pts;
    } else {
      NegativeAnchorIsLost(c, fps, pts[..2]);
    }
  }

  lemma {:induction false} OneFrame(c: Clock, fps: int, pts: seq<int>)
    requires fps > 0 && Fresh(c) && |pts| == 1
    ensures After(c, fps, pts).ticks == 1
  {
    assert pts[..0] == [] && After(c, fps, []) == c;
  }

  /** And without gaps it is exact at every frame from the second on, under the same condition. */
  lemma ExactIff(c: Clock, fps: int, pts: seq<int>)
    requires fps > 0 && Fresh(c) && Ascending(pts) && pts != []
    requires forall i :: 0 <= i < |pts| ==> !GapAt(c, fps, pts, i)
    ensures (forall n :: 1 < n <= |pts| ==> After(c, fps, pts[..n]).ticks == Target(pts[..n]))
            <==> pts[0] >= 0 || |pts| == 1
  {
    hide After, GapAt;
    if pts[0] >= 0 {
      forall n | 1 < n <= |pts| ensures After(c, fps, pts[..n]).ticks == Target(pts[..n]) {
        forall i | 0 <= i < n ensures !GapAt(c, fps, pts[..n], i) { GapPrefix(c, fps, pts, n, i); }
        ExactWithoutGaps(c, fps, pts[..n]);
      }
    } else if |pts| > 1 {
      NegativeAnchorIsLost(c, fps, pts[..2]);
    }
  }

  lemma {:induction false} LastIsKept(c: Clock, fps: int, pts: seq<int>)
    requires fps > 0 && pts != []
    ensures After(c, fps, pts).lastGood == Durations(c, fps, pts)[|pts| - 1]
  {
  }

  /** The duration of a frame whose gap is skipped, for any stamps: never the first of a file, and the same as
      that of the frame before. Every other frame takes what brings the clock to its stamp, but at least one
      tick. */
  lemma {:induction false} DurationIs(c: Clock, fps: int, pts: seq<int>, i: nat)
    requires fps > 0 && Fresh(c) && i < |pts|
    ensures var d, was := Durations(c, fps, pts), After(c, fps, pts[..i]);
            var ahead := (pts[i] - (if was.start < 0 then pts[i] else was.start)) * 90 - was.ticks;
            && (GapAt(c, fps, pts, i) <==> ahead > 22500)
            && (GapAt(c, fps, pts, i) ==> i > 0 && d[i] == d[i - 1])
            && (!GapAt(c, fps, pts, i) ==> d[i] == if ahead < 1 then 1 else ahead)
  {
    var front := pts[..i];
    DurationAt(c, fps, pts, i);
    DurationsBounded(c, fps, front);
    hide Durations, After;
    if i > 0 {
      DurationsFront(c, fps, pts, i);
      LastIsKept(c, fps, front);
    } else {
      assert front == [];
      assert After(c, fps, []) == c by { AfterNone(c, fps); }
    }
  }

  lemma {:induction false} AfterNone(c: Clock, fps: int)
    requires fps > 0
    ensures After(c, fps, []) == c
  {
  }

  lemma {:induction false} DurationAt(c: Clock, fps: int, pts: seq<int>, i: nat)
    requires fps > 0 && i < |pts|
    ensures Durations(c, fps, pts)[i] == Next(After(c, fps, pts[..i]), fps, pts[i]).duration
  {
    hide Next;
    var n := |pts| - 1;
    if i < n {
      DurationAt(c, fps, pts[..n], i);
      assert pts[..n][..i] == pts[..i];
    }
  }

  lemma {:induction false} DurationsFront(c: Clock, fps: int, pts: seq<int>, i: nat)
    requires fps > 0 && 0 < i <= |pts|
    ensures Durations(c, fps, pts[..i])[i - 1] == Durations(c, fps, pts)[i - 1]
  {
    hide Durations;
    DurationAt(c, fps, pts, i - 1);
    DurationAt(c, fps, pts[..i], i - 1);
    assert pts[..i][..i - 1] == pts[..i - 1];
  }

  /** The muxer clock is the sum of the durations; for any timestamps it never runs ahead of the segment
      clock, and falls behind it exactly when a gap was skipped. */
  lemma {:induction false} MuxerClock(c: Clock, fps: int, pts: seq<int>)
    requires fps > 0 && c.ticks == 0
    ensures Sum(Durations(c, fps, pts)) <= After(c, fps, pts).ticks
    ensures Sum(Durations(c, fps, pts)) == After(c, fps, pts).ticks
            <==> forall i :: 0 <= i < |pts| ==> !GapAt(c, fps, pts, i)
  {
    if pts != [] {
      hide *;
      var n := |pts| - 1;
      var p, x := pts[..n], pts[n];
      MuxerClock(c, fps, p);
      forall i | 0 <= i < n ensures GapAt(c, fps, p, i) == GapAt(c, fps, pts, i) { GapPrefix(c, fps, pts, n, i); }
      SumStep(c, fps, pts);
      GapJumps(After(c, fps, p), fps, x);
    }
  }

  lemma GapPrefix(c: Clock, fps: int, pts: seq<int>, n: nat, i: nat)
    requires fps > 0 && i < n <= |pts|
    ensures GapAt(c, fps, pts[..n], i) == GapAt(c, fps, pts, i)
  {
    assert pts[..n][..i] == pts[..i];
  }

  lemma SumStep(c: Clock, fps: int, pts: seq<int>)
    requires fps > 0 && pts != []
    ensures var p := pts[..|pts| - 1];
            var t := Next(After(c, fps, p), fps, pts[|pts| - 1]);
            && Sum(Durations(c, fps, pts)) == Sum(Durations(c, fps, p)) + t.duration
            && After(c, fps, pts) == t.c && GapAt(c, fps, pts, |pts| - 1) == t.gap
  {
    hide Next;
    var d := Durations(c, fps, pts);
    assert d[..|d| - 1] == Durations(c, fps, pts[..|pts| - 1]);
  }

  /** Only a skipped gap moves the segment clock by more than the duration. */
  lemma GapJumps(c: Clock, fps: int, pts: int)
    requires fps > 0
    ensures var t := Next(c, fps, pts);
            if t.gap then t.c.ticks > c.ticks + t.duration else t.c.ticks == c.ticks + t.duration
  {
  }
}
