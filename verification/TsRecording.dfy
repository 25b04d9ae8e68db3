/** What a recording made by the muxer plays back: the whole file, any prefix of it, and any suffix
    that starts at a keyframe. */
module TsRecording {
  import opened Bytes
  import opened TsPacket
  import opened TsTables
  import opened TsWriter
  import opened TsDemux

  datatype Write = Write(au: seq<Byte>, duration: int)

  // --- the reference: what should be played -----------------------------------------------

  /** The presentation clock: the durations so far. */
  function Clock(ws: seq<Write>): int {
    if ws == [] then 0 else Clock(ws[..|ws| - 1]) + ws[|ws| - 1].duration
  }

  /** Whether the tables go out ahead of `au`: first unit, keyframe, or a tenth of a second since. */
  ghost predicate Due(earlier: seq<Write>, au: seq<Byte>)
    decreases |earlier|, 1
  {
    earlier == [] || HasIrap(au) || Clock(earlier) - LastDue(earlier) >= 9000
  }

  /** The clock when the tables last went out. */
  ghost function LastDue(ws: seq<Write>): int
    decreases |ws|, 0
  {
    if ws == [] then 0
    else
      var earlier := ws[..|ws| - 1];
      if Due(earlier, ws[|ws| - 1].au) then Clock(earlier) else LastDue(earlier)
  }

  ghost function Played(ws: seq<Write>): (us: seq<Unit>)
    ensures |us| == |ws|
  {
    if ws == [] then []
    else
      var earlier, au := ws[..|ws| - 1], ws[|ws| - 1].au;
      Played(earlier)
      + [Unit(Some((Clock(earlier) + 90000) % 0x2_0000_0000), Some(Clock(earlier) % 0x2_0000_0000),
              HasIrap(au), Due(earlier, au), au)]
  }

  /** Every unit of the reference, by its position. */
  lemma {:induction false} PlayedAt(ws: seq<Write>, k: nat)
    requires k < |ws|
    ensures Played(ws)[k]
         == Unit(Some((Clock(ws[..k]) + 90000) % 0x2_0000_0000), Some(Clock(ws[..k]) % 0x2_0000_0000),
                 HasIrap(ws[k].au), Due(ws[..k], ws[k].au), ws[k].au)
    ensures k == 0 || HasIrap(ws[k].au) ==> Played(ws)[k].tabled
  {
    hide Clock, LastDue, HasIrap;
    var last := |ws| - 1;
    if k < last {
      PlayedAt(ws[..last], k);
      assert ws[..last][..k] == ws[..k];
    }
  }

  // --- the file ---------------------------------------------------------------------------

  ghost function MuxFrom(m: Mux, ws: seq<Write>): Mux {
    if ws == [] then m
    else After(MuxFrom(m, ws[..|ws| - 1]), ws[|ws| - 1].au, ws[|ws| - 1].duration)
  }

  ghost function PacketsFrom(m: Mux, ws: seq<Write>): seq<seq<Byte>> {
    if ws == [] then []
    else PacketsFrom(m, ws[..|ws| - 1]) + UnitPackets(MuxFrom(m, ws[..|ws| - 1]), ws[|ws| - 1].au)
  }

  ghost function UnitOf(m: Mux, au: seq<Byte>): Unit {
    Unit(Some(Wrap33(m.ticks + PTS_PREROLL)), Some(Wrap33(m.ticks)), HasIrap(au), NeedsTables(m, au), au)
  }

  ghost function UnitsFrom(m: Mux, ws: seq<Write>): (us: seq<Unit>)
    ensures |us| == |ws|
  {
    if ws == [] then []
    else UnitsFrom(m, ws[..|ws| - 1]) + [UnitOf(MuxFrom(m, ws[..|ws| - 1]), ws[|ws| - 1].au)]
  }

  /** The bytes on disk after the writes `ws` to a fresh file. */
  ghost function File(ws: seq<Write>): seq<Byte> { Concat(PacketsFrom(BEGIN, ws)) }

  lemma {:induction false} MuxState(ws: seq<Write>)
    ensures var m := MuxFrom(BEGIN, ws);
            m.ticks == Clock(ws) && m.lastPsi == LastDue(ws) && m.psiPending == (ws == [])
  {
    hide Packets, HasIrap;
    if ws != [] {
      MuxState(ws[..|ws| - 1]);
    }
  }

  lemma {:induction false} UnitsAreReference(ws: seq<Write>)
    ensures UnitsFrom(BEGIN, ws) == Played(ws)
  {
    hide HasIrap, MuxFrom, Clock, LastDue;
    if ws != [] {
      UnitsAreReference(ws[..|ws| - 1]);
      MuxState(ws[..|ws| - 1]);
    }
  }

  // --- demultiplexing one unit ------------------------------------------------------------

  /** The demultiplexer is between units and its counters agree with the writer's. */
  ghost predicate Synced(d: Demux, m: Mux) {
    d.continuous && !d.sawPat && !d.sawPmt
    && Expects(d, PID_PAT, m.pat) && Expects(d, PID_PMT, m.pmt) && Expects(d, PID_VIDEO, m.video)
  }

  ghost predicate Ready(d: Demux, m: Mux, au: seq<Byte>) {
    Synced(d, m) && (Tuned(d) || NeedsTables(m, au))
  }

  /** The state after the tables, if there are any. */
  ghost function Tabled(d: Demux, m: Mux, au: seq<Byte>): Demux {
    if NeedsTables(m, au) then Retuned(d, m.pat, m.pmt) else d
  }

  lemma TabledIsTuned(d: Demux, m: Mux, au: seq<Byte>)
    requires Ready(d, m, au)
    ensures var t := Tabled(d, m, au);
            Tuned(t) && t.continuous && Expects(t, PID_VIDEO, m.video) && t.sawPmt == NeedsTables(m, au)
            && Finish(t) == Finish(d)
  {
    hide NeedsTables;
  }

  /** The first `n` video packets, behind the tables if there are any. */
  ghost function Opening(m: Mux, au: seq<Byte>, n: nat): seq<seq<Byte>>
    requires n <= Packets(14 + |au|)
  {
    (if NeedsTables(m, au) then TablePackets(m.pat, m.pmt) else [])
    + PesPackets(UnitStream(m, au), HasIrap(au), Wrap33(m.ticks), m.video, n)
  }

  ghost function Partial(d: Demux, m: Mux, au: seq<Byte>, n: nat): Demux {
    Mid(Tabled(d, m, au), HasIrap(au), Wrap33(m.ticks + PTS_PREROLL), Wrap33(m.ticks), m.video, au, n)
  }

  lemma {:induction false} OpeningRun(d: Demux, m: Mux, au: seq<Byte>, n: nat)
    requires Ready(d, m, au) && 0 < n <= Packets(14 + |au|)
    ensures Run(d, Opening(m, au, n)) == Partial(d, m, au, n)
  {
    hide NeedsTables, HasIrap, PesPackets, TablePackets, Mid, Wrap33, Packets, PesHeader, Retuned, Run;
    TabledIsTuned(d, m, au);
    var part := PesPackets(UnitStream(m, au), HasIrap(au), Wrap33(m.ticks), m.video, n);
    PesRun(Tabled(d, m, au), HasIrap(au), Wrap33(m.ticks + PTS_PREROLL), Wrap33(m.ticks), m.video, au, n);
    if NeedsTables(m, au) {
      TablesRun(d, m.pat, m.pmt);
      hide Synced, Tuned;
      RunAppend(d, TablePackets(m.pat, m.pmt), part);
    } else {
      hide Synced, Tuned;
      assert [] + part == part;
    }
  }

  /** What a partial unit shows: all of its stamps and flags, and the bytes sent so far. */
  lemma PartialShows(d: Demux, m: Mux, au: seq<Byte>, n: nat)
    requires Ready(d, m, au)
    ensures Finish(Partial(d, m, au, n)) == Finish(d) + [UnitOf(m, au).(data := Sent(au, n))]
    ensures Partial(d, m, au, n).continuous && Tuned(Partial(d, m, au, n))
  {
    hide NeedsTables, HasIrap, Wrap33, Sent, Retuned;
    TabledIsTuned(d, m, au);
    hide Tabled;
  }

  lemma PartialCounters(d: Demux, m: Mux, au: seq<Byte>, duration: int)
    requires Ready(d, m, au)
    ensures Synced(Partial(d, m, au, Packets(14 + |au|)), After(m, au, duration))
  {
    hide NeedsTables, HasIrap, Wrap33, Sent, Packets;
  }

  /** A whole unit comes out as it went in, and leaves the counters in step. */
  lemma {:induction false} UnitRun(d: Demux, m: Mux, au: seq<Byte>, duration: int)
    requires Ready(d, m, au)
    ensures var d' := Run(d, UnitPackets(m, au));
            Synced(d', After(m, au, duration)) && Tuned(d') && Finish(d') == Finish(d) + [UnitOf(m, au)]
  {
    hide *;
    var n := Packets(14 + |au|);
    PacketsPositive(14 + |au|);
    WholeUnit(m, au);
    OpeningRun(d, m, au, n);
    PartialCounters(d, m, au, duration);
    PartialShows(d, m, au, n);
  }

  lemma WholeUnit(m: Mux, au: seq<Byte>)
    ensures Opening(m, au, Packets(14 + |au|)) == UnitPackets(m, au)
    ensures UnitOf(m, au).(data := Sent(au, Packets(14 + |au|))) == UnitOf(m, au)
  {
    hide NeedsTables, HasIrap, PesPackets, TablePackets, Wrap33, Packets, PesHeader, Offset;
    OffsetEnd(14 + |au|, Packets(14 + |au|));
    assert au[..|au|] == au;
  }

  lemma PacketsPositive(total: nat)
    ensures Packets(total) > 0
  {
  }

  // --- demultiplexing a file --------------------------------------------------------------

  lemma {:induction false} RunFrom(d: Demux, m: Mux, ws: seq<Write>)
    requires Synced(d, m)
    requires ws != [] ==> Ready(d, m, ws[0].au)
    ensures var d' := Run(d, PacketsFrom(m, ws));
            Synced(d', MuxFrom(m, ws)) && Finish(d') == Finish(d) + UnitsFrom(m, ws) && (ws != [] ==> Tuned(d'))
  {
    hide Run, Synced, Tuned, NeedsTables, UnitPackets, After, UnitOf, Finish;
    if ws == [] {
      assert Run(d, []) == d by { RunNone(d); }
      assert Finish(d) + [] == Finish(d);
    } else {
      var earlier, last := ws[..|ws| - 1], ws[|ws| - 1];
      RunFrom(d, m, earlier);
      var mid := Run(d, PacketsFrom(m, earlier));
      assert Ready(mid, MuxFrom(m, earlier), last.au) by {
        if earlier == [] { RunNone(d); }
      }
      UnitRun(mid, MuxFrom(m, earlier), last.au, last.duration);
      RunAppend(d, PacketsFrom(m, earlier), UnitPackets(MuxFrom(m, earlier), last.au));
      Regroup(Finish(d), UnitsFrom(m, earlier), [UnitOf(MuxFrom(m, earlier), last.au)]);
    }
  }

  lemma {:induction false} RunNone(d: Demux)
    ensures Run(d, []) == d
  {
  }

  lemma {:induction false} PacketsSize(m: Mux, ws: seq<Write>)
    ensures forall k :: 0 <= k < |PacketsFrom(m, ws)| ==> |PacketsFrom(m, ws)[k]| == SIZE
  {
    hide UnitPackets, MuxFrom;
    if ws != [] {
      PacketsSize(m, ws[..|ws| - 1]);
      UnitPacketsSize(MuxFrom(m, ws[..|ws| - 1]), ws[|ws| - 1].au);
    }
  }

  lemma {:induction false} ChopWhole(ps: seq<seq<Byte>>)
    requires forall k :: 0 <= k < |ps| ==> |ps[k]| == SIZE
    ensures Chop(Concat(ps)) == ps
  {
    hide Chop, Concat;
    ConcatSize(ps);
    ChopConcat(ps, |Concat(ps)|);
    assert Concat(ps)[..|Concat(ps)|] == Concat(ps);
    assert ps[..|ps|] == ps;
  }

  lemma StartIsReady(au: seq<Byte>)
    ensures Synced(START, BEGIN) && Ready(START, BEGIN, au) && Finish(START) == []
  {
    hide HasIrap;
  }

  /** Demultiplexing a recording gives every unit back, byte for byte and in order, with the right
      clock, time stamps, random-access flags and tables, and no counter ever jumps. */
  lemma {:induction false} RecordingPlaysBack(ws: seq<Write>)
    ensures Finish(Demultiplex(File(ws))) == Played(ws)
    ensures Demultiplex(File(ws)).continuous
  {
    hide Chop, Concat, Run, PacketsFrom, UnitsFrom, MuxFrom, Played, Finish, Ready;
    StartIsReady(if ws != [] then ws[0].au else []);
    PacketsSize(BEGIN, ws);
    ChopWhole(PacketsFrom(BEGIN, ws));
    RunFrom(START, BEGIN, ws);
    UnitsAreReference(ws);
    assert [] + UnitsFrom(BEGIN, ws) == UnitsFrom(BEGIN, ws);
  }

  // --- starting in the middle -------------------------------------------------------------

  lemma {:induction false} SplitMux(m: Mux, a: seq<Write>, b: seq<Write>)
    ensures MuxFrom(m, a + b) == MuxFrom(MuxFrom(m, a), b)
  {
    hide After;
    if b == [] {
      assert a + b == a;
    } else {
      SplitMux(m, a, b[..|b| - 1]);
      assert (a + b)[..|a + b| - 1] == a + b[..|b| - 1];
    }
  }

  lemma {:induction false} UnfoldFrom(m: Mux, ws: seq<Write>, earlier: seq<Write>)
    requires ws != [] && ws[..|ws| - 1] == earlier
    ensures PacketsFrom(m, ws) == PacketsFrom(m, earlier) + UnitPackets(MuxFrom(m, earlier), ws[|ws| - 1].au)
    ensures UnitsFrom(m, ws) == UnitsFrom(m, earlier) + [UnitOf(MuxFrom(m, earlier), ws[|ws| - 1].au)]
  {
    hide UnitPackets, MuxFrom, UnitOf;
  }

  lemma {:induction false} NothingFrom(m: Mux)
    ensures PacketsFrom(m, []) == [] && UnitsFrom(m, []) == []
  {
  }

  lemma {:induction false} SplitFrom(m: Mux, a: seq<Write>, b: seq<Write>)
    ensures PacketsFrom(m, a + b) == PacketsFrom(m, a) + PacketsFrom(MuxFrom(m, a), b)
    ensures UnitsFrom(m, a + b) == UnitsFrom(m, a) + UnitsFrom(MuxFrom(m, a), b)
    decreases |b|
  {
    hide *;
    var m1 := MuxFrom(m, a);
    if b == [] {
      NothingFrom(m1);
      assert a + b == a;
      assert PacketsFrom(m, a) + [] == PacketsFrom(m, a) && UnitsFrom(m, a) + [] == UnitsFrom(m, a);
      return;
    }
    var earlier, last := b[..|b| - 1], b[|b| - 1];
    assert (a + b)[..|a + b| - 1] == a + earlier;
    UnfoldFrom(m, a + b, a + earlier);
    UnfoldFrom(m1, b, earlier);
    SplitMux(m, a, earlier);
    SplitFrom(m, a, earlier);
    Regroup(PacketsFrom(m, a), PacketsFrom(m1, earlier), UnitPackets(MuxFrom(m1, earlier), last.au));
    Regroup(UnitsFrom(m, a), UnitsFrom(m1, earlier), [UnitOf(MuxFrom(m1, earlier), last.au)]);
  }

  /** A player that joins where a keyframe's packets start needs nothing from before: it plays the rest
      of the recording with the same stamps, whatever the counters had reached. */
  lemma {:induction false} JoinAtKeyframe(a: seq<Write>, b: seq<Write>)
    requires b != [] && HasIrap(b[0].au)
    ensures |File(a)| <= |File(a + b)|
    ensures var d := Demultiplex(File(a + b)[|File(a)|..]);
            d.continuous && Finish(d) == Played(a + b)[|a|..]
  {
    hide Chop, Concat, Run, PacketsFrom, UnitsFrom, MuxFrom, Played, HasIrap;
    var m := MuxFrom(BEGIN, a);
    SplitFrom(BEGIN, a, b);
    ConcatAppend(PacketsFrom(BEGIN, a), PacketsFrom(m, b));
    assert File(a + b)[|File(a)|..] == Concat(PacketsFrom(m, b));
    PacketsSize(m, b);
    ChopWhole(PacketsFrom(m, b));
    RunFrom(START, m, b);
    UnitsAreReference(a + b);
    assert (UnitsFrom(BEGIN, a) + UnitsFrom(m, b))[|a|..] == UnitsFrom(m, b);
    assert [] + UnitsFrom(m, b) == UnitsFrom(m, b);
  }

  // --- cutting ----------------------------------------------------------------------------

  /** `got` is `whole` with fewer bytes. */
  ghost predicate Truncated(got: Unit, whole: Unit) {
    |got.data| <= |whole.data| && got == whole.(data := whole.data[..|got.data|])
  }

  /** `got` is the first units of `all`, the last one possibly truncated. */
  ghost predicate LostTail(got: seq<Unit>, all: seq<Unit>) {
    |got| <= |all|
    && (forall k :: 0 <= k < |got| - 1 ==> got[k] == all[k])
    && (got != [] ==> Truncated(got[|got| - 1], all[|got| - 1]))
  }

  /** The first `r` packets of a unit show either nothing of it or a truncated unit. */
  lemma PartOfUnit(d: Demux, m: Mux, au: seq<Byte>, r: nat) returns (shown: seq<Unit>)
    requires Ready(d, m, au) && r <= |UnitPackets(m, au)|
    ensures var d' := Run(d, UnitPackets(m, au)[..r]);
            d'.continuous && Finish(d') == Finish(d) + shown
    ensures shown == [] || (|shown| == 1 && Truncated(shown[0], UnitOf(m, au)))
  {
    hide *;
    var t := if NeedsTables(m, au) then 2 else 0;
    if r <= t {
      FewTables(d, m, au, r);
      shown := [];
      assert Finish(d) + [] == Finish(d);
    } else {
      OpeningPrefix(m, au, r, t);
      OpeningRun(d, m, au, r - t);
      PartialShows(d, m, au, r - t);
      SentIsPrefix(m, au, r - t);
      shown := [UnitOf(m, au).(data := Sent(au, r - t))];
    }
  }

  lemma SentIsPrefix(m: Mux, au: seq<Byte>, n: nat)
    ensures Truncated(UnitOf(m, au).(data := Sent(au, n)), UnitOf(m, au))
  {
    hide Offset, HasIrap, NeedsTables, Wrap33;
  }

  lemma {:induction false} FewTables(d: Demux, m: Mux, au: seq<Byte>, r: nat)
    requires Ready(d, m, au) && r <= (if NeedsTables(m, au) then 2 else 0) && r <= |UnitPackets(m, au)|
    ensures var d' := Run(d, UnitPackets(m, au)[..r]); d'.continuous && Finish(d') == Finish(d)
  {
    hide NeedsTables, VideoPackets, TablePackets, Run;
    RunNone(d);
    var ps := UnitPackets(m, au);
    if r == 0 {
      assert ps[..r] == [];
    } else {
      TablesRun(d, m.pat, m.pmt);
      assert ps[..r] == TablePackets(m.pat, m.pmt)[..r];
      assert TablePackets(m.pat, m.pmt)[..2] == TablePackets(m.pat, m.pmt);
    }
  }

  lemma {:induction false} FirstOf(stream: seq<Byte>, keyframe: bool, pcr: Stamp, counter: Counter, n: nat, all: nat)
    requires |stream| > 0 && n <= all <= Packets(|stream|)
    ensures PesPackets(stream, keyframe, pcr, counter, all)[..n] == PesPackets(stream, keyframe, pcr, counter, n)
    decreases all
  {
    hide PesPacket, Packets;
    if n == all {
      var ps := PesPackets(stream, keyframe, pcr, counter, n);
      assert ps[..n] == ps;
    } else {
      FirstOf(stream, keyframe, pcr, counter, n, all - 1);
    }
  }

  lemma OpeningPrefix(m: Mux, au: seq<Byte>, r: nat, t: nat)
    requires t == (if NeedsTables(m, au) then 2 else 0) && t < r <= |UnitPackets(m, au)|
    ensures r - t <= Packets(14 + |au|)
    ensures UnitPackets(m, au)[..r] == Opening(m, au, r - t)
  {
    hide NeedsTables, PesPackets, TablePackets, Packets, HasIrap, Wrap33, UnitStream;
    FirstOf(UnitStream(m, au), HasIrap(au), Wrap33(m.ticks), m.video, r - t, Packets(14 + |au|));
    var head := if NeedsTables(m, au) then TablePackets(m.pat, m.pmt) else [];
    var ps := VideoPackets(m, au);
    assert (head + ps)[..r] == head + ps[..r - t];
  }

  /** Every unit that ends at or before byte `n` of the recording is there, unchanged. */
  ghost predicate WholeInside(got: seq<Unit>, ws: seq<Write>, n: nat) {
    forall k :: 0 <= k <= |ws| && |File(ws[..k])| <= n ==> k <= |got| && got[..k] == Played(ws)[..k]
  }

  lemma FileSnoc(ws: seq<Write>)
    requires ws != []
    ensures var earlier, last := ws[..|ws| - 1], ws[|ws| - 1];
            var unit := UnitPackets(MuxFrom(BEGIN, earlier), last.au);
            PacketsFrom(BEGIN, ws) == PacketsFrom(BEGIN, earlier) + unit
            && File(ws) == File(earlier) + Concat(unit) && |File(earlier)| < |File(ws)|
  {
    hide UnitPackets, MuxFrom, Concat;
    var earlier, last := ws[..|ws| - 1], ws[|ws| - 1];
    var m := MuxFrom(BEGIN, earlier);
    ConcatAppend(PacketsFrom(BEGIN, earlier), UnitPackets(m, last.au));
    UnitSize(m, last.au);
    PacketsPositive(14 + |last.au|);
  }

  lemma PlayedSnoc(ws: seq<Write>)
    requires ws != []
    ensures var earlier := ws[..|ws| - 1];
            Played(ws) == Played(earlier) + [UnitOf(MuxFrom(BEGIN, earlier), ws[|ws| - 1].au)]
  {
    hide UnitOf, MuxFrom, Played;
    UnitsAreReference(ws);
    UnitsAreReference(ws[..|ws| - 1]);
  }

  /** A cut inside the last unit. */
  lemma CutInLast(ws: seq<Write>, n: nat) returns (shown: seq<Unit>)
    requires ws != [] && |File(ws[..|ws| - 1])| <= n <= |File(ws)|
    ensures var d := Demultiplex(File(ws)[..n]);
            d.continuous && Finish(d) == Played(ws[..|ws| - 1]) + shown
    ensures shown == [] || (|shown| == 1 && Truncated(shown[0], Played(ws)[|ws| - 1]))
  {
    hide *;
    var earlier, last := ws[..|ws| - 1], ws[|ws| - 1];
    var m, head := MuxFrom(BEGIN, earlier), PacketsFrom(BEGIN, earlier);
    var unit := UnitPackets(m, last.au);
    var r := CutPackets(ws, n);
    StartIsReady(if earlier != [] then earlier[0].au else last.au);
    RunFrom(START, BEGIN, earlier);
    StillReady(earlier, last.au);
    shown := PartOfUnit(Run(START, head), m, last.au, r);
    RunAppend(START, head, unit[..r]);
    UnitsAreReference(earlier);
    assert [] + Played(earlier) == Played(earlier);
    PlayedSnoc(ws);
  }

  lemma {:induction false} StillReady(earlier: seq<Write>, au: seq<Byte>)
    ensures Ready(Run(START, PacketsFrom(BEGIN, earlier)), MuxFrom(BEGIN, earlier), au)
  {
    hide Run, PacketsFrom, MuxFrom, HasIrap, UnitsFrom, Finish;
    StartIsReady(if earlier != [] then earlier[0].au else au);
    RunFrom(START, BEGIN, earlier);
    MuxState(earlier);
  }

  lemma CutPackets(ws: seq<Write>, n: nat) returns (r: nat)
    requires ws != [] && |File(ws[..|ws| - 1])| <= n <= |File(ws)|
    ensures r <= |UnitPackets(MuxFrom(BEGIN, ws[..|ws| - 1]), ws[|ws| - 1].au)|
    ensures Demultiplex(File(ws)[..n])
         == Run(START, PacketsFrom(BEGIN, ws[..|ws| - 1])
                       + UnitPackets(MuxFrom(BEGIN, ws[..|ws| - 1]), ws[|ws| - 1].au)[..r])
  {
    hide Run, PacketsFrom, MuxFrom, UnitPackets, Concat, Chop;
    var earlier := ws[..|ws| - 1];
    var head, unit := PacketsFrom(BEGIN, earlier), UnitPackets(MuxFrom(BEGIN, earlier), ws[|ws| - 1].au);
    FileSnoc(ws);
    PacketsSize(BEGIN, ws);
    PacketsSize(BEGIN, earlier);
    ConcatSize(head);
    ChopConcat(head + unit, n);
    r := n / SIZE - |head|;
    assert (head + unit)[..n / SIZE] == head + unit[..r];
  }

  lemma LostNothing(us: seq<Unit>)
    ensures LostTail(us, us)
  {
    forall k | 0 <= k < |us| ensures Truncated(us[k], us[k]) {
      assert us[k].data[..|us[k].data|] == us[k].data;
    }
  }

  lemma LostMore(got: seq<Unit>, all: seq<Unit>, u: Unit)
    requires LostTail(got, all)
    ensures LostTail(got, all + [u])
  {
    hide Truncated;
  }

  lemma LostPart(all: seq<Unit>, shown: seq<Unit>, u: Unit)
    requires shown == [] || (|shown| == 1 && Truncated(shown[0], u))
    ensures LostTail(all + shown, all + [u])
  {
    hide Truncated;
    if shown == [] {
      LostNothing(all);
      assert all + shown == all;
      LostMore(all, all, u);
    }
  }

  lemma {:induction false} AllInside(got: seq<Unit>, ws: seq<Write>, n: nat)
    requires |ws| <= |got| && got[..|ws|] == Played(ws)
    ensures WholeInside(got, ws, n)
  {
    hide File, Played;
    forall k | 0 <= k <= |ws| ensures got[..k] == Played(ws)[..k] {
      assert got[..|ws|][..k] == got[..k];
    }
  }

  lemma {:induction false} InsideStays(got: seq<Unit>, ws: seq<Write>, n: nat)
    requires ws != [] && n < |File(ws)|
    requires WholeInside(got, ws[..|ws| - 1], n)
    requires Played(ws)[..|ws| - 1] == Played(ws[..|ws| - 1])
    ensures WholeInside(got, ws, n)
  {
    hide File, Played;
    var earlier := ws[..|ws| - 1];
    assert ws[..|ws|] == ws;
    forall k | 0 <= k < |ws| && |File(ws[..k])| <= n ensures k <= |got| && got[..k] == Played(ws)[..k] {
      assert ws[..k] == earlier[..k];
      assert Played(ws)[..k] == Played(earlier)[..k];
    }
  }

  lemma EmptyFile()
    ensures File([]) == []
  {
  }

  /** Cutting a recording at any byte loses only a tail: every unit wholly before the cut plays back
      unchanged, and after them at most one more unit, truncated. */
  lemma {:induction false} CutLosesOnlyATail(ws: seq<Write>, n: nat)
    requires n <= |File(ws)|
    ensures Demultiplex(File(ws)[..n]).continuous
    ensures LostTail(Finish(Demultiplex(File(ws)[..n])), Played(ws))
    ensures WholeInside(Finish(Demultiplex(File(ws)[..n])), ws, n)
    decreases |ws|
  {
    var got := Finish(Demultiplex(File(ws)[..n]));
    hide *;
    if n == |File(ws)| {
      assert File(ws)[..n] == File(ws);
      RecordingPlaysBack(ws);
      LostNothing(got);
      AllInside(got, ws, n);
      return;
    }
    EmptyFile();
    var earlier, u := ws[..|ws| - 1], UnitOf(MuxFrom(BEGIN, ws[..|ws| - 1]), ws[|ws| - 1].au);
    FileSnoc(ws);
    PlayedSnoc(ws);
    if n < |File(earlier)| {
      assert File(ws)[..n] == File(earlier)[..n];
      CutLosesOnlyATail(earlier, n);
      LostMore(got, Played(earlier), u);
    } else {
      var shown := CutInLast(ws, n);
      LostPart(Played(earlier), shown, u);
      AllInside(got, earlier, n);
    }
    InsideStays(got, ws, n);
  }

  // --- driving the writer -----------------------------------------------------------------

  /** The writes that carry anything: `write_nal` ignores an empty unit. */
  ghost function Real(ws: seq<Write>): (r: seq<Write>) {
    if ws == [] then []
    else Real(ws[..|ws| - 1]) + (if ws[|ws| - 1].au == [] then [] else [ws[|ws| - 1]])
  }

  /** What fits into `room` bytes. */
  ghost function Kept(all: seq<Byte>, room: nat): (k: seq<Byte>)
    ensures |k| <= room && (all == [] ==> k == [])
  {
    all[..Min(room, |all|)]
  }

  lemma KeptGrows(all: seq<Byte>, bytes: seq<Byte>, room: nat)
    ensures var k := Kept(all, room);
            k + bytes[..Min(room - |k|, |bytes|)] == Kept(all + bytes, room)
  {
  }

  /** A file on storage with `room` bytes left, written to until all of `ws` is submitted: it holds
      exactly the first `room` bytes of the recording, and plays back all of `ws` but a tail. */
  method Record(ws: seq<Write>, room: nat, now: int) returns (w: Writer)
    ensures fresh(w)
    ensures w.file == Some(Kept(File(Real(ws)), room))
    ensures LostTail(Finish(Demultiplex(w.file.value)), Played(Real(ws)))
    ensures WholeInside(Finish(Demultiplex(w.file.value)), Real(ws), |w.file.value|)
  {
    hide *;
    w := new Writer();
    var isOpen := w.Open(now, true);
    var started := w.BeginVideo();
    RecordNothing(ws);
    for i := 0 to |ws|
      invariant fresh(w)
      invariant w.videoStarted && w.Muxer() == MuxFrom(BEGIN, Real(ws[..i]))
      invariant w.file == Some(Kept(File(Real(ws[..i])), room))
    {
      RecordOne(ws, i, room);
      var ok := w.WriteNal(ws[i].au, ws[i].duration, room - |w.file.value|, now, true);
    }
    assert ws[..|ws|] == ws;
    RoomIsCut(Real(ws), room);
  }

  lemma {:induction false} RoomIsCut(ws: seq<Write>, room: nat)
    ensures var got := Kept(File(ws), room);
            LostTail(Finish(Demultiplex(got)), Played(ws)) && WholeInside(Finish(Demultiplex(got)), ws, |got|)
  {
    hide File, Demultiplex, Finish, Played, LostTail, WholeInside;
    CutLosesOnlyATail(ws, Min(room, |File(ws)|));
  }

  lemma RecordNothing(ws: seq<Write>)
    ensures MuxFrom(BEGIN, Real(ws[..0])) == BEGIN && File(Real(ws[..0])) == []
  {
    assert ws[..0] == [];
  }

  /** One more write on `room` bytes of storage. */
  lemma RecordOne(ws: seq<Write>, i: nat, room: nat)
    requires i < |ws|
    ensures var m, file := MuxFrom(BEGIN, Real(ws[..i])), Kept(File(Real(ws[..i])), room);
            var bytes := Concat(UnitPackets(m, ws[i].au));
            if ws[i].au == [] then Real(ws[..i + 1]) == Real(ws[..i])
            else MuxFrom(BEGIN, Real(ws[..i + 1])) == After(m, ws[i].au, ws[i].duration)
                 && file + bytes[..Min(room - |file|, |bytes|)] == Kept(File(Real(ws[..i + 1])), room)
  {
    hide UnitPackets, After, Concat, File, Kept;
    assert ws[..i + 1][..i] == ws[..i];
    var before := Real(ws[..i]);
    if ws[i].au == [] {
      assert before + [] == before;
    } else {
      var now := before + [ws[i]];
      assert now[..|now| - 1] == before;
      FileSnoc(now);
      KeptGrows(File(before), Concat(UnitPackets(MuxFrom(BEGIN, before), ws[i].au)), room);
    }
  }
}
