/** Failed writes that leave whole packets only: which units a player shows afterwards, how much of each,
    and which gaps in the continuity counters it notices. */
module TsGaps {
  import opened Bytes
  import opened TsPacket
  import opened TsTables
  import opened TsWriter
  import opened TsDemux
  import opened TsRecording
  import opened TsFailedWrites

  // --- the reference ----------------------------------------------------------------------

  /** What a player has: the tables once (`tuned`), tables since the last unit, and the units so far. */
  datatype Screen = Screen(tuned: bool, pat: bool, pmt: bool, units: seq<Unit>)

  const BLANK := Screen(false, false, false, [])

  /** The first `q` of the two table packets arrive. */
  function ShowTables(s: Screen, q: nat): Screen {
    if q == 0 then s
    else if q == 1 then s.(pat := true, pmt := false)
    else s.(tuned := true, pat := true, pmt := true)
  }

  /** Then the first `v` video packets of the unit; without the tables they go by unseen. */
  ghost function ShowVideo(s: Screen, m: Mux, au: seq<Byte>, v: nat): Screen {
    if v == 0 || !s.tuned then s
    else s.(units := s.units + [UnitOf(m, au).(tabled := s.pmt, data := Sent(au, v))], pat := false, pmt := false)
  }

  /** For each PID how many packets were lost since its last one, or None if it had none yet; and
      whether every gap so far went unnoticed. */
  datatype Gaps = Gaps(pat: Option<nat>, pmt: Option<nat>, video: Option<nat>, unnoticed: bool)

  const NO_GAPS := Gaps(None, None, None, true)

  /** Of `all` packets of one PID the first `taken` arrive. */
  function Lose(lost: Option<nat>, all: nat, taken: nat): Option<nat>
    requires taken <= all
  {
    if taken > 0 then Some(all - taken)
    else match lost { case None => None case Some(l) => Some(l + all) }
  }

  /** Counters are modulo sixteen, so a loss of a multiple of sixteen packets is not noticed. */
  predicate Seamless(lost: Option<nat>, taken: nat) {
    taken > 0 && lost.Some? ==> lost.value % 16 == 0
  }

  function LoseTables(g: Gaps, q: nat): Gaps
    requires q <= 2
  {
    var t := if q == 2 then 1 else 0;
    Gaps(Lose(g.pat, 1, Min(q, 1)), Lose(g.pmt, 1, t), g.video,
         g.unnoticed && Seamless(g.pat, q) && Seamless(g.pmt, t))
  }

  function LoseVideo(g: Gaps, all: nat, v: nat): Gaps
    requires v <= all
  {
    g.(video := Lose(g.video, all, v), unnoticed := g.unnoticed && Seamless(g.video, v))
  }

  /** The table packets among the first `n` packets of a unit, and the video packets. */
  ghost function TablesIn(m: Mux, au: seq<Byte>, n: nat): (q: nat)
    ensures q <= 2
  {
    if NeedsTables(m, au) then Min(n, 2) else 0
  }

  ghost function VideoIn(m: Mux, au: seq<Byte>, n: nat): (v: nat)
    requires n <= |UnitPackets(m, au)|
    ensures v <= Packets(14 + |au|)
  {
    n - TablesIn(m, au, n)
  }

  ghost function Show(s: Screen, m: Mux, au: seq<Byte>, n: nat): Screen
    requires n <= |UnitPackets(m, au)|
  {
    ShowVideo(ShowTables(s, TablesIn(m, au, n)), m, au, VideoIn(m, au, n))
  }

  ghost function LoseRest(g: Gaps, m: Mux, au: seq<Byte>, n: nat): Gaps
    requires n <= |UnitPackets(m, au)|
  {
    var t := if NeedsTables(m, au) then LoseTables(g, TablesIn(m, au, n)) else g;
    LoseVideo(t, Packets(14 + |au|), VideoIn(m, au, n))
  }

  /** The packets of the k-th write that storage took. */
  ghost function TakenOf(ts: seq<Attempt>, k: nat): (n: nat)
    requires k < |ts|
    ensures n <= |UnitPackets(MuxTried(ts[..k]), ts[k].w.au)|
  {
    Min(ts[k].accepted / SIZE, |UnitPackets(MuxTried(ts[..k]), ts[k].w.au)|)
  }

  /** What is shown after the attempts `ts`. */
  ghost function Shown(ts: seq<Attempt>): Screen {
    if ts == [] then BLANK
    else
      var n := |ts| - 1;
      Show(Shown(ts[..n]), MuxTried(ts[..n]), ts[n].w.au, TakenOf(ts, n))
  }

  ghost function Lost(ts: seq<Attempt>): Gaps {
    if ts == [] then NO_GAPS
    else
      var n := |ts| - 1;
      LoseRest(Lost(ts[..n]), MuxTried(ts[..n]), ts[n].w.au, TakenOf(ts, n))
  }

  // --- the packets on disk ----------------------------------------------------------------

  /** Every failed write left whole packets. */
  ghost predicate WholePackets(ts: seq<Attempt>) {
    forall k :: 0 <= k < |ts| ==> ts[k].accepted >= |BytesOf(ts, k)| || ts[k].accepted % SIZE == 0
  }

  ghost function PacketsOnDisk(ts: seq<Attempt>): seq<seq<Byte>> {
    if ts == [] then []
    else
      var n := |ts| - 1;
      PacketsOnDisk(ts[..n]) + UnitPackets(MuxTried(ts[..n]), ts[n].w.au)[..TakenOf(ts, n)]
  }

  lemma {:induction false} ConcatPrefix(ps: seq<seq<Byte>>, n: nat)
    requires n <= |ps| && forall k :: 0 <= k < |ps| ==> |ps[k]| == SIZE
    ensures |Concat(ps)| == SIZE * |ps|
    ensures Concat(ps)[..SIZE * n] == Concat(ps[..n])
  {
    hide Concat;
    ConcatSize(ps);
    ConcatSize(ps[..n]);
    ConcatAppend(ps[..n], ps[n..]);
    assert ps[..n] + ps[n..] == ps;
  }

  lemma WholePrefix(ts: seq<Attempt>)
    requires ts != [] && WholePackets(ts)
    ensures WholePackets(ts[..|ts| - 1])
  {
    hide BytesOf;
    var n := |ts| - 1;
    forall k | 0 <= k < n ensures BytesOf(ts[..n], k) == BytesOf(ts, k) { BytesOfPrefix(ts, n, k); }
  }

  /** The bytes that a whole-packet write leaves are whole packets. */
  lemma TakenBytes(ts: seq<Attempt>, k: nat)
    requires k < |ts| && (ts[k].accepted >= |BytesOf(ts, k)| || ts[k].accepted % SIZE == 0)
    ensures BytesOf(ts, k)[..Min(ts[k].accepted, |BytesOf(ts, k)|)]
         == Concat(UnitPackets(MuxTried(ts[..k]), ts[k].w.au)[..TakenOf(ts, k)])
  {
    hide UnitPackets, MuxTried, Concat;
    var ps := UnitPackets(MuxTried(ts[..k]), ts[k].w.au);
    UnitPacketsSize(MuxTried(ts[..k]), ts[k].w.au);
    ConcatPrefix(ps, TakenOf(ts, k));
    assert Min(ts[k].accepted, |BytesOf(ts, k)|) == SIZE * TakenOf(ts, k);
  }

  lemma {:induction false} DiskIsPackets(ts: seq<Attempt>)
    requires WholePackets(ts)
    ensures OnDisk(ts) == Concat(PacketsOnDisk(ts))
    ensures forall k :: 0 <= k < |PacketsOnDisk(ts)| ==> |PacketsOnDisk(ts)[k]| == SIZE
  {
    hide UnitPackets, MuxTried, BytesOf, TakenOf;
    if ts != [] {
      var n := |ts| - 1;
      WholePrefix(ts);
      DiskIsPackets(ts[..n]);
      TakenBytes(ts, n);
      var more := UnitPackets(MuxTried(ts[..n]), ts[n].w.au);
      UnitPacketsSize(MuxTried(ts[..n]), ts[n].w.au);
      hide Concat;
      ConcatAppend(PacketsOnDisk(ts[..n]), more[..TakenOf(ts, n)]);
    }
  }

  // --- the demultiplexer against the reference --------------------------------------------

  /** The demultiplexer shows what the reference does. */
  ghost predicate Shows(d: Demux, s: Screen) {
    && d.video == (if s.tuned then Some(PID_VIDEO) else None)
    && (s.tuned ==> d.pmt == Some(PID_PMT))
    && (d.pmt.Some? ==> d.pmt == Some(PID_PMT))
    && d.sawPat == s.pat && d.sawPmt == s.pmt
    && Finish(d) == s.units
  }

  /** What one PID expects next, against the writer's counter. */
  ghost predicate Hears(d: Demux, pid: int, lost: Option<nat>, now: Counter) {
    && (pid in d.next <==> lost.Some?)
    && (lost.Some? ==> 0 <= d.next[pid] < 16 && (d.next[pid] + lost.value) % 16 == now)
  }

  ghost predicate HearsAll(d: Demux, g: Gaps, m: Mux) {
    && Hears(d, PID_PAT, g.pat, m.pat) && Hears(d, PID_PMT, g.pmt, m.pmt) && Hears(d, PID_VIDEO, g.video, m.video)
    && d.continuous == g.unnoticed
  }

  lemma HeardIsExpected(d: Demux, pid: int, lost: Option<nat>, now: Counter)
    requires Hears(d, pid, lost, now)
    ensures Expects(d, pid, now) <==> Seamless(lost, 1)
  {
  }

  lemma HeardMore(d: Demux, n: Demux, pid: int, lost: Option<nat>, now: Counter, all: nat, taken: nat)
    requires Hears(d, pid, lost, now) && taken <= all
    requires if taken == 0 then (pid in n.next <==> pid in d.next) && (pid in d.next ==> n.next[pid] == d.next[pid])
             else pid in n.next && n.next[pid] == (now + taken) % 16
    ensures Hears(n, pid, Lose(lost, all, taken), (now + all) % 16)
  {
    if taken > 0 {
      AddModulo(now + taken, all - taken);
    } else if lost.Some? {
      AddModulo(d.next[pid] + lost.value, all);
    }
  }

  lemma HeardStill(d: Demux, n: Demux, pid: int, lost: Option<nat>, now: Counter)
    requires Hears(d, pid, lost, now)
    requires (pid in n.next <==> pid in d.next) && (pid in d.next ==> n.next[pid] == d.next[pid])
    ensures Hears(n, pid, lost, now)
  {
  }

  lemma AddModulo(x: nat, y: nat)
    ensures (x % 16 + y) % 16 == (x + y) % 16
  {
  }

  // --- the tables -------------------------------------------------------------------------

  /** The state after the first `q` table packets. */
  ghost function Tables(d: Demux, pat: Counter, pmt: Counter, q: nat): Demux {
    if q == 0 then d
    else
      var one := Met(d, PID_PAT, pat).(pmt := Some(PID_PMT), sawPat := true, sawPmt := false,
                                       next := d.next[PID_PAT := (pat + 1) % 16]);
      if q == 1 then one
      else
        Met(one, PID_PMT, pmt).(video := Some(PID_VIDEO), sawPmt := true,
                                next := one.next[PID_PMT := (pmt + 1) % 16])
  }

  lemma {:induction false} SomeTables(d: Demux, pat: Counter, pmt: Counter, q: nat)
    requires q <= 2
    ensures Run(d, TablePackets(pat, pmt)[..q]) == Tables(d, pat, pmt, q)
  {
    hide Feed, Run, SectionPacket, PatSection, PmtSection;
    var ps := TablePackets(pat, pmt);
    if q == 0 {
      RunNone(d);
      assert ps[..0] == [];
    } else {
      FeedPat(d, pat);
      RunOne(d, ps[0]);
      assert ps[..1] == [ps[0]];
      if q == 2 {
        FeedPmt(Feed(d, ps[0]), pmt);
        RunOne(Feed(d, ps[0]), ps[1]);
        RunAppend(d, [ps[0]], [ps[1]]);
        assert ps[..2] == [ps[0]] + [ps[1]];
      }
    }
  }

  lemma TablesShow(d: Demux, s: Screen, pat: Counter, pmt: Counter, q: nat)
    requires Shows(d, s) && q <= 2
    ensures Shows(Tables(d, pat, pmt, q), ShowTables(s, q))
  {
  }

  lemma TablesHeard(d: Demux, g: Gaps, m: Mux, q: nat)
    requires HearsAll(d, g, m) && q <= 2
    ensures HearsAll(Tables(d, m.pat, m.pmt, q), LoseTables(g, q),
                     m.(pat := (m.pat + 1) % 16, pmt := (m.pmt + 1) % 16))
  {
    hide Hears, Lose;
    var n := Tables(d, m.pat, m.pmt, q);
    var t := if q == 2 then 1 else 0;
    HeardIsExpected(d, PID_PAT, g.pat, m.pat);
    HeardIsExpected(d, PID_PMT, g.pmt, m.pmt);
    HeardMore(d, n, PID_PAT, g.pat, m.pat, 1, Min(q, 1));
    HeardMore(d, n, PID_PMT, g.pmt, m.pmt, 1, t);
    HeardStill(d, n, PID_VIDEO, g.video, m.video);
  }

  // --- the video packets ------------------------------------------------------------------

  /** The state after the first `v` video packets of a unit. */
  ghost function Video(d: Demux, m: Mux, au: seq<Byte>, v: nat): Demux {
    if v == 0 then d
    else if Tuned(d) then
      Mid(Met(d, PID_VIDEO, m.video), HasIrap(au), Wrap33(m.ticks + PTS_PREROLL), Wrap33(m.ticks), m.video, au, v)
    else Met(d, PID_VIDEO, m.video).(next := d.next[PID_VIDEO := (m.video + v) % 16])
  }

  /** No tables have named the video PID yet. */
  ghost predicate Untuned(d: Demux) {
    d.video.None? && (d.pmt.Some? ==> d.pmt == Some(PID_PMT))
  }

  lemma PidOf(stream: seq<Byte>, keyframe: bool, pcr: Stamp, counter: Counter, k: nat)
    requires |stream| > 0 && k < Packets(|stream|)
    ensures var p := Parse(PesPacket(stream, keyframe, pcr, counter, k));
            p.Some? && p.value.pid == PID_VIDEO && p.value.counter == (counter + k) % 16
  {
    hide VideoPacket, Parse, Packets, Offset;
    OffsetEnd(|stream|, k);
    VideoPacketParses(PID_VIDEO, k == 0, keyframe, pcr, (counter + k) % 16,
                      stream[Offset(|stream|, k)..Offset(|stream|, k + 1)]);
  }

  /** Video packets go by unseen while no table has named their PID; only their counters are noted. */
  lemma {:induction false} UnseenRun(d: Demux, m: Mux, au: seq<Byte>, v: nat)
    requires Untuned(d) && 0 < v <= Packets(14 + |au|)
    ensures Run(d, PesPackets(UnitStream(m, au), HasIrap(au), Wrap33(m.ticks), m.video, v)) == Video(d, m, au, v)
  {
    hide *;
    var stream := UnitStream(m, au);
    LastPacket(d, stream, HasIrap(au), Wrap33(m.ticks), m.video, v);
    PidOf(stream, HasIrap(au), Wrap33(m.ticks), m.video, v - 1);
    var raw := PesPacket(stream, HasIrap(au), Wrap33(m.ticks), m.video, v - 1);
    if v > 1 {
      UnseenRun(d, m, au, v - 1);
    }
    FeedUnseen(d, m, au, v, raw);
  }

  lemma FeedUnseen(d: Demux, m: Mux, au: seq<Byte>, v: nat, raw: seq<Byte>)
    requires Untuned(d) && v > 0 && Parse(raw).Some?
    requires Parse(raw).value.pid == PID_VIDEO && Parse(raw).value.counter == (m.video + v - 1) % 16
    ensures Feed(Video(d, m, au, v - 1), raw) == Video(d, m, au, v)
    ensures v == 1 ==> Video(d, m, au, 0) == d
  {
    hide Parse, Mid, HasIrap, Wrap33;
    AddModulo(m.video + v - 1, 1);
    if v > 1 {
      var before := Video(d, m, au, v - 1);
      assert before.next[PID_VIDEO := (m.video + v) % 16] == d.next[PID_VIDEO := (m.video + v) % 16];
    }
  }

  lemma TunedVideo(d: Demux, m: Mux, au: seq<Byte>, v: nat)
    requires Tuned(d) && v > 0
    ensures Video(d, m, au, v)
         == Mid(Met(d, PID_VIDEO, m.video), HasIrap(au), Wrap33(m.ticks + PTS_PREROLL), Wrap33(m.ticks), m.video, au, v)
    ensures UnitStream(m, au) == PesHeader(Wrap33(m.ticks + PTS_PREROLL)) + au
  {
    hide Mid, PesHeader, HasIrap;
  }

  lemma {:induction false} VideoRun(d: Demux, m: Mux, au: seq<Byte>, v: nat)
    requires (Tuned(d) || Untuned(d)) && v <= Packets(14 + |au|)
    ensures Run(d, PesPackets(UnitStream(m, au), HasIrap(au), Wrap33(m.ticks), m.video, v)) == Video(d, m, au, v)
  {
    if v == 0 {
      hide Packets, HasIrap, Wrap33, UnitStream;
      NoPackets(UnitStream(m, au), HasIrap(au), Wrap33(m.ticks), m.video);
      RunNone(d);
    } else if Tuned(d) {
      hide *;
      PesRun(d, HasIrap(au), Wrap33(m.ticks + PTS_PREROLL), Wrap33(m.ticks), m.video, au, v);
      TunedVideo(d, m, au, v);
    } else {
      hide *;
      UnseenRun(d, m, au, v);
    }
  }

  lemma VideoShows(d: Demux, s: Screen, m: Mux, au: seq<Byte>, v: nat)
    requires Shows(d, s)
    ensures Shows(Video(d, m, au, v), ShowVideo(s, m, au, v))
  {
    hide Sent, HasIrap, Wrap33, NeedsTables;
  }

  lemma VideoHeard(d: Demux, s: Screen, g: Gaps, m: Mux, au: seq<Byte>, v: nat)
    requires Shows(d, s) && HearsAll(d, g, m) && v <= Packets(14 + |au|)
    ensures HearsAll(Video(d, m, au, v), LoseVideo(g, Packets(14 + |au|), v),
                     m.(video := (m.video + Packets(14 + |au|)) % 16))
  {
    hide Hears, Lose, Sent, HasIrap, Wrap33, Packets;
    var n, all := Video(d, m, au, v), Packets(14 + |au|);
    HeardIsExpected(d, PID_VIDEO, g.video, m.video);
    HeardMore(d, n, PID_VIDEO, g.video, m.video, all, v);
    HeardStill(d, n, PID_PAT, g.pat, m.pat);
    HeardStill(d, n, PID_PMT, g.pmt, m.pmt);
  }

  // --- one attempt ------------------------------------------------------------------------

  /** The first `n` packets of a unit are its first tables, and then its first video packets. */
  lemma TakenPackets(m: Mux, au: seq<Byte>, n: nat)
    requires n <= |UnitPackets(m, au)|
    ensures UnitPackets(m, au)[..n]
         == TablePackets(m.pat, m.pmt)[..TablesIn(m, au, n)]
            + PesPackets(UnitStream(m, au), HasIrap(au), Wrap33(m.ticks), m.video, VideoIn(m, au, n))
  {
    hide NeedsTables, HasIrap, PesPackets, TablePackets, Wrap33, Packets, UnitStream;
    var q, v := TablesIn(m, au, n), VideoIn(m, au, n);
    FirstOf(UnitStream(m, au), HasIrap(au), Wrap33(m.ticks), m.video, v, Packets(14 + |au|));
    NoPackets(UnitStream(m, au), HasIrap(au), Wrap33(m.ticks), m.video);
    var head := if NeedsTables(m, au) then TablePackets(m.pat, m.pmt) else [];
    var ps := VideoPackets(m, au);
    assert (head + ps)[..n] == head[..q] + ps[..v];
    assert head[..q] == TablePackets(m.pat, m.pmt)[..q];
  }

  lemma {:induction false} AttemptRun(d: Demux, s: Screen, m: Mux, au: seq<Byte>, n: nat)
    requires Shows(d, s) && n <= |UnitPackets(m, au)|
    ensures Run(d, UnitPackets(m, au)[..n])
         == Video(Tables(d, m.pat, m.pmt, TablesIn(m, au, n)), m, au, VideoIn(m, au, n))
  {
    hide *;
    var q, v := TablesIn(m, au, n), VideoIn(m, au, n);
    var t := Tables(d, m.pat, m.pmt, q);
    TakenPackets(m, au, n);
    TablesShow(d, s, m.pat, m.pmt, q);
    TunedOrNot(t, ShowTables(s, q));
    SomeTables(d, m.pat, m.pmt, q);
    VideoRun(t, m, au, v);
    RunAppend(d, TablePackets(m.pat, m.pmt)[..q],
              PesPackets(UnitStream(m, au), HasIrap(au), Wrap33(m.ticks), m.video, v));
  }

  lemma TunedOrNot(d: Demux, s: Screen)
    requires Shows(d, s)
    ensures Tuned(d) || Untuned(d)
    ensures Tuned(d) == s.tuned
  {
  }

  lemma {:induction false} AttemptShows(d: Demux, s: Screen, g: Gaps, m: Mux, au: seq<Byte>, duration: int, n: nat)
    requires Shows(d, s) && HearsAll(d, g, m) && n <= |UnitPackets(m, au)|
    ensures var d' := Run(d, UnitPackets(m, au)[..n]);
            Shows(d', Show(s, m, au, n)) && HearsAll(d', LoseRest(g, m, au, n), After(m, au, duration))
  {
    hide Shows, HearsAll, Run, UnitPackets, Packets, NeedsTables, Tables, Video, ShowTables, ShowVideo, LoseVideo,
         LoseTables;
    var q, v := TablesIn(m, au, n), VideoIn(m, au, n);
    var t := Tables(d, m.pat, m.pmt, q);
    AttemptRun(d, s, m, au, n);
    TablesShow(d, s, m.pat, m.pmt, q);
    VideoShows(t, ShowTables(s, q), m, au, v);
    if NeedsTables(m, au) {
      var m' := m.(pat := (m.pat + 1) % 16, pmt := (m.pmt + 1) % 16);
      TablesHeard(d, g, m, q);
      VideoHeard(t, ShowTables(s, q), LoseTables(g, q), m', au, v);
      SameVideo(t, m, m', au, v);
      HeardSame(Video(t, m, au, v), LoseRest(g, m, au, n),
                m'.(video := (m.video + Packets(14 + |au|)) % 16), After(m, au, duration));
    } else {
      NoTables(d, s, m, au);
      VideoHeard(d, s, g, m, au, v);
      HeardSame(Video(t, m, au, v), LoseRest(g, m, au, n),
                m.(video := (m.video + Packets(14 + |au|)) % 16), After(m, au, duration));
    }
  }

  lemma NoTables(d: Demux, s: Screen, m: Mux, au: seq<Byte>)
    ensures Tables(d, m.pat, m.pmt, 0) == d && ShowTables(s, 0) == s
  {
  }

  lemma SameVideo(d: Demux, m: Mux, m': Mux, au: seq<Byte>, v: nat)
    requires m' == m.(pat := m'.pat, pmt := m'.pmt)
    ensures Video(d, m, au, v) == Video(d, m', au, v)
  {
    hide Mid, HasIrap;
  }

  lemma HeardSame(d: Demux, g: Gaps, a: Mux, b: Mux)
    requires HearsAll(d, g, a) && a.pat == b.pat && a.pmt == b.pmt && a.video == b.video
    ensures HearsAll(d, g, b)
  {
    hide Hears;
  }

  // --- all attempts -----------------------------------------------------------------------

  lemma {:induction false} AttemptsRun(ts: seq<Attempt>)
    ensures var d := Run(START, PacketsOnDisk(ts));
            Shows(d, Shown(ts)) && HearsAll(d, Lost(ts), MuxTried(ts))
  {
    if ts == [] {
      hide HasIrap;
      RunNone(START);
    } else {
      hide Shows, HearsAll, Run, UnitPackets, After, Show, LoseRest, TakenOf;
      var n := |ts| - 1;
      AttemptsRun(ts[..n]);
      var m := MuxTried(ts[..n]);
      AttemptShows(Run(START, PacketsOnDisk(ts[..n])), Shown(ts[..n]), Lost(ts[..n]), m, ts[n].w.au,
                   ts[n].w.duration, TakenOf(ts, n));
      RunAppend(START, PacketsOnDisk(ts[..n]), UnitPackets(m, ts[n].w.au)[..TakenOf(ts, n)]);
    }
  }

  /** After any mixture of writes whose failures left whole packets, a player shows exactly the reference,
      and notices a gap exactly where a number of lost packets is no multiple of sixteen. */
  lemma {:induction false} WholePacketsPlay(ts: seq<Attempt>)
    requires WholePackets(ts)
    ensures Finish(Demultiplex(OnDisk(ts))) == Shown(ts).units
    ensures Demultiplex(OnDisk(ts)).continuous <==> Lost(ts).unnoticed
  {
    hide Chop, Concat, Run, PacketsOnDisk, Shown, Lost, Hears, WholePackets, OnDisk, Finish;
    DiskIsPackets(ts);
    ChopWhole(PacketsOnDisk(ts));
    AttemptsRun(ts);
  }

  // --- what that means for a unit ---------------------------------------------------------

  ghost function TablesOf(ts: seq<Attempt>, k: nat): (q: nat)
    requires k < |ts|
  {
    TablesIn(MuxTried(ts[..k]), ts[k].w.au, TakenOf(ts, k))
  }

  ghost function VideoOf(ts: seq<Attempt>, k: nat): (v: nat)
    requires k < |ts|
    ensures v <= Packets(14 + |ts[k].w.au|)
  {
    VideoIn(MuxTried(ts[..k]), ts[k].w.au, TakenOf(ts, k))
  }

  /** Some write up to the k-th left its tables whole. */
  ghost predicate TablesBy(ts: seq<Attempt>, k: nat)
    requires k < |ts|
  {
    exists j :: 0 <= j <= k && TablesOf(ts, j) == 2
  }

  lemma TablesOfPrefix(ts: seq<Attempt>, n: nat, k: nat)
    requires k < n <= |ts|
    ensures TablesOf(ts[..n], k) == TablesOf(ts, k)
  {
    hide TablesIn, MuxTried, UnitPackets;
    assert ts[..n][..k] == ts[..k];
  }

  lemma {:induction false} TunedIff(ts: seq<Attempt>)
    ensures Shown(ts).tuned <==> ts != [] && TablesBy(ts, |ts| - 1)
    decreases |ts|
  {
    if ts == [] {
      assert !Shown(ts).tuned;
    } else {
      hide *;
      TunedIff(ts[..|ts| - 1]);
      TunedNext(ts);
      TablesByNext(ts);
    }
  }

  lemma TablesByNext(ts: seq<Attempt>)
    requires ts != []
    ensures var n := |ts| - 1;
            TablesBy(ts, n) <==> TablesOf(ts, n) == 2 || (n > 0 && TablesBy(ts[..n], n - 1))
  {
    var n := |ts| - 1;
    hide TablesOf;
    forall k | 0 <= k < n ensures TablesOf(ts[..n], k) == TablesOf(ts, k) { TablesOfPrefix(ts, n, k); }
    if n > 0 && TablesBy(ts[..n], n - 1) {
      var j :| 0 <= j <= n - 1 && TablesOf(ts[..n], j) == 2;
      assert TablesOf(ts, j) == 2;
    }
  }

  lemma {:induction false} TunedNext(ts: seq<Attempt>)
    requires ts != []
    ensures Shown(ts).tuned <==> Shown(ts[..|ts| - 1]).tuned || TablesOf(ts, |ts| - 1) == 2
  {
    hide MuxTried, UnitPackets, UnitOf, Sent, NeedsTables;
  }

  lemma {:induction false} TriedClock(ts: seq<Attempt>)
    ensures MuxTried(ts).ticks == Clock(Tried(ts))
  {
    hide Packets, NeedsTables;
    if ts != [] {
      var n := |ts| - 1;
      TriedClock(ts[..n]);
      assert Tried(ts)[..n] == Tried(ts[..n]);
    }
  }

  /** The k-th write adds a unit to what is played iff one of its video packets is on disk and some write
      up to then left its tables there. It carries the stamps of its place in time, failed writes counted,
      and all of its bytes iff all of its packets are on disk. */
  lemma UnitPlaysIff(ts: seq<Attempt>, k: nat)
    requires k < |ts|
    ensures var before, after := Shown(ts[..k]).units, Shown(ts[..k + 1]).units;
            var au, clock := ts[k].w.au, Clock(Tried(ts[..k]));
            && (after != before <==> VideoOf(ts, k) > 0 && TablesBy(ts, k))
            && (after != before ==>
                  && |after| == |before| + 1 && after[..|before|] == before
                  && var u := after[|before|];
                     && u.pts == Some((clock + 90000) % 0x2_0000_0000) && u.pcr == Some(clock % 0x2_0000_0000)
                     && u.random == HasIrap(au)
                     && (TablesOf(ts, k) == 2 ==> u.tabled)
                     && u.data <= au
                     && (u.data == au <==> VideoOf(ts, k) == Packets(14 + |au|)))
    ensures Shown(ts[..k + 1]).units <= Shown(ts).units
  {
    hide *;
    var pre := ts[..k + 1];
    assert pre[..k] == ts[..k] && pre[k] == ts[k];
    TunedIff(pre);
    TriedClock(ts[..k]);
    LastShown(pre);
    TablesByPrefix(ts, k);
    SentIs(ts[k].w.au, VideoOf(ts, k));
    UnitStamps(MuxTried(ts[..k]), ts[k].w.au);
    ShownGrows(ts, k + 1);
  }

  lemma TablesByPrefix(ts: seq<Attempt>, k: nat)
    requires k < |ts|
    ensures TablesBy(ts[..k + 1], k) == TablesBy(ts, k)
    ensures TablesOf(ts[..k + 1], k) == TablesOf(ts, k)
    ensures VideoOf(ts[..k + 1], k) == VideoOf(ts, k)
  {
    hide TablesOf, TablesIn, MuxTried, UnitPackets;
    forall j | 0 <= j <= k ensures TablesOf(ts[..k + 1], j) == TablesOf(ts, j) { TablesOfPrefix(ts, k + 1, j); }
    if TablesBy(ts, k) {
      var j :| 0 <= j <= k && TablesOf(ts, j) == 2;
      assert TablesOf(ts[..k + 1], j) == 2;
    }
    if TablesBy(ts[..k + 1], k) {
      var j :| 0 <= j <= k && TablesOf(ts[..k + 1], j) == 2;
      assert TablesOf(ts, j) == 2;
    }
    assert ts[..k + 1][..k] == ts[..k];
  }

  /** Whether the k-th unit finds tables since the unit before it. */
  ghost function TabledAt(ts: seq<Attempt>, k: nat): bool
    requires k < |ts|
  {
    ShowTables(Shown(ts[..k]), TablesOf(ts, k)).pmt
  }

  lemma UnitStamps(m: Mux, au: seq<Byte>)
    ensures var u := UnitOf(m, au);
            u.pts == Some((m.ticks + 90000) % 0x2_0000_0000) && u.pcr == Some(m.ticks % 0x2_0000_0000)
            && u.random == HasIrap(au)
  {
  }

  lemma {:induction false} LastShown(ts: seq<Attempt>)
    requires ts != []
    ensures var k := |ts| - 1;
            var before, s := Shown(ts[..k]).units, Shown(ts);
            var v, u := VideoOf(ts, k), UnitOf(MuxTried(ts[..k]), ts[k].w.au);
            s.units == if v == 0 || !s.tuned then before
                       else before + [u.(tabled := TabledAt(ts, k), data := Sent(ts[k].w.au, v))]
    ensures TablesOf(ts, |ts| - 1) == 2 ==> TabledAt(ts, |ts| - 1)
  {
    hide MuxTried, UnitPackets, UnitOf, Sent, NeedsTables;
  }

  lemma SentIs(au: seq<Byte>, v: nat)
    requires v <= Packets(14 + |au|)
    ensures Sent(au, v) <= au
    ensures v > 0 ==> (Sent(au, v) == au <==> v == Packets(14 + |au|))
  {
    var total := 14 + |au|;
    OffsetEnd(total, v);
    if 0 < v < Packets(total) {
      assert Offset(total, v) < total;
    }
  }

  lemma {:induction false} ShownGrows(ts: seq<Attempt>, n: nat)
    requires n <= |ts|
    ensures Shown(ts[..n]).units <= Shown(ts).units
    decreases |ts|
  {
    if n == |ts| {
      assert ts[..n] == ts;
    } else {
      var front := ts[..|ts| - 1];
      ShownGrows(front, n);
      assert front[..n] == ts[..n];
      LastShown(ts);
      hide Shown, UnitOf, Sent;
    }
  }

  // --- one failed write -------------------------------------------------------------------

  const UP_TO_DATE := Gaps(Some(0), Some(0), Some(0), true)

  lemma {:induction false} NothingLost(ts: seq<Attempt>)
    requires Took(ts, |ts|)
    ensures Lost(ts) == if ts == [] then NO_GAPS else UP_TO_DATE
  {
    if ts != [] {
      var n := |ts| - 1;
      TookPrefix(ts, n);
      NothingLost(ts[..n]);
      TookAll(ts, n);
      hide UnitPackets, Packets, HasIrap, LoseRest, TakenOf;
      WholeLosesNothing(Lost(ts[..n]), MuxTried(ts[..n]), ts[n].w.au);
      assert n == 0 ==> MuxTried(ts[..n]) == BEGIN;
    }
  }

  lemma WholeLosesNothing(g: Gaps, m: Mux, au: seq<Byte>)
    requires g == UP_TO_DATE || (g == NO_GAPS && NeedsTables(m, au))
    ensures LoseRest(g, m, au, |UnitPackets(m, au)|) == UP_TO_DATE
  {
    hide NeedsTables, Packets, PesPackets, TablePackets, HasIrap, Wrap33;
    PacketsPositive(14 + |au|);
  }

  lemma TookAll(ts: seq<Attempt>, k: nat)
    requires k < |ts| && ts[k].accepted >= |BytesOf(ts, k)|
    ensures var m, au := MuxTried(ts[..k]), ts[k].w.au;
            && TakenOf(ts, k) == |UnitPackets(m, au)|
            && VideoOf(ts, k) == Packets(14 + |au|) && Packets(14 + |au|) > 0
            && TablesOf(ts, k) == (if NeedsTables(m, au) then 2 else 0)
  {
    hide NeedsTables, MuxTried, Concat, Packets, PesPackets, TablePackets;
    UnitPacketsSize(MuxTried(ts[..k]), ts[k].w.au);
    ConcatSize(UnitPackets(MuxTried(ts[..k]), ts[k].w.au));
    PacketsPositive(14 + |ts[k].w.au|);
  }

  /** A recording, one failed write of which some whole packets are on disk, and one more write: the
      player notices the gap unless the video packets lost are a multiple of sixteen and the tables, if
      both writes carried them, are not among the lost. */
  lemma GapNoticedIff(ts: seq<Attempt>)
    requires |ts| >= 3 && Took(ts, |ts| - 2) && WholePackets(ts)
    requires ts[|ts| - 1].accepted >= |BytesOf(ts, |ts| - 1)|
    ensures var k := |ts| - 2;
            var due, again := NeedsTables(MuxTried(ts[..k]), ts[k].w.au),
                              NeedsTables(MuxTried(ts[..k + 1]), ts[k + 1].w.au);
            Demultiplex(OnDisk(ts)).continuous
            <==> (Packets(14 + |ts[k].w.au|) - VideoOf(ts, k)) % 16 == 0
                 && (due && again ==> TablesOf(ts, k) == 2)
  {
    hide *;
    var k := |ts| - 2;
    var pre := ts[..k + 1];
    assert ts[..k] == pre[..k] && pre[k] == ts[k];
    TookPrefix(ts, k);
    NothingLost(ts[..k]);
    TookAll(ts, k + 1);
    WholePacketsPlay(ts);
    TwoWrites(ts);
  }

  lemma TwoWrites(ts: seq<Attempt>)
    requires |ts| >= 2 && Lost(ts[..|ts| - 2]) == UP_TO_DATE
    requires ts[|ts| - 1].accepted >= |BytesOf(ts, |ts| - 1)|
    ensures var k := |ts| - 2;
            var due, again := NeedsTables(MuxTried(ts[..k]), ts[k].w.au),
                              NeedsTables(MuxTried(ts[..k + 1]), ts[k + 1].w.au);
            Lost(ts).unnoticed
            <==> (Packets(14 + |ts[k].w.au|) - VideoOf(ts, k)) % 16 == 0
                 && (due && again ==> TablesOf(ts, k) == 2)
  {
    hide *;
    var k := |ts| - 2;
    var pre := ts[..k + 1];
    assert ts[..k] == pre[..k] && pre[k] == ts[k] && pre == ts[..|ts| - 1];
    TookAll(ts, k + 1);
    TablesByPrefix(ts, k);
    LostStep(pre);
    LostStep(ts);
    PartLoses(MuxTried(ts[..k]), ts[k].w.au, TakenOf(pre, k));
    WholeNotices(Lost(pre), MuxTried(pre), ts[k + 1].w.au);
    OfIs(pre, k);
  }

  lemma OfIs(ts: seq<Attempt>, k: nat)
    requires k < |ts|
    ensures var m, au := MuxTried(ts[..k]), ts[k].w.au;
            VideoOf(ts, k) == VideoIn(m, au, TakenOf(ts, k)) && TablesOf(ts, k) == TablesIn(m, au, TakenOf(ts, k))
  {
  }

  lemma {:induction false} LostStep(ts: seq<Attempt>)
    requires ts != []
    ensures var n := |ts| - 1;
            Lost(ts) == LoseRest(Lost(ts[..n]), MuxTried(ts[..n]), ts[n].w.au, TakenOf(ts, n))
  {
    hide LoseRest, TakenOf, MuxTried;
  }

  lemma PartLoses(m: Mux, au: seq<Byte>, n: nat)
    requires n <= |UnitPackets(m, au)|
    ensures var g := LoseRest(UP_TO_DATE, m, au, n);
            var due, q := NeedsTables(m, au), TablesIn(m, au, n);
            && g.unnoticed && g.video == Some(Packets(14 + |au|) - VideoIn(m, au, n))
            && g.pat == Some(if due && q == 0 then 1 else 0) && g.pmt == Some(if due && q < 2 then 1 else 0)
  {
    hide NeedsTables, Packets, UnitPackets;
  }

  lemma WholeNotices(g: Gaps, m: Mux, au: seq<Byte>)
    requires g.unnoticed && g.video.Some? && g.pat.Some? && g.pmt.Some?
    ensures LoseRest(g, m, au, |UnitPackets(m, au)|).unnoticed
            <==> g.video.value % 16 == 0
                 && (NeedsTables(m, au) ==> g.pat.value % 16 == 0 && g.pmt.value % 16 == 0)
  {
    hide NeedsTables, Packets, PesPackets, TablePackets, HasIrap, Wrap33;
    PacketsPositive(14 + |au|);
  }
}
