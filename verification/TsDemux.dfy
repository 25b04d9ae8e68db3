/** A demultiplexer written from sections 2.4.3 and 2.4.4 of ISO/IEC 13818-1, as a fold over packets.
    It finds the video PID through the PAT and PMT and knows nothing of the writer's state. */
module TsDemux {
  import opened Bytes
  import opened TsPacket
  import opened TsTables
  import opened TsWriter

  /** One access unit as a player sees it. `tabled`: a PAT and then a PMT came since the unit before. */
  datatype Unit = Unit(pts: Option<int>, pcr: Option<int>, random: bool, tabled: bool, data: seq<Byte>)

  datatype Demux = Demux(
    pmt: Option<int>, video: Option<int>,     // PIDs learnt from the tables
    sawPat: bool, sawPmt: bool,
    next: map<int, int>,                      // the continuity counter each PID must show next
    continuous: bool,                         // no counter has jumped
    open: Option<Unit>, units: seq<Unit>)

  const START := Demux(None, None, false, false, map[], true, None, [])

  /** The units so far, the one in progress included. */
  function Finish(d: Demux): seq<Unit> {
    d.units + (if d.open.Some? then [d.open.value] else [])
  }

  predicate Expects(d: Demux, pid: int, counter: int) {
    pid in d.next ==> d.next[pid] == counter
  }

  function Count(d: Demux, p: Packet): Demux {
    d.(continuous := d.continuous && Expects(d, p.pid, p.counter),
       next := d.next[p.pid := (p.counter + 1) % 16])
  }

  /** The start of a video PES packet of no stated length, not scrambled, that starts with an access unit and
      bears a time stamp: section 2.4.3.6. None if the payload is no such start. */
  function OpenUnit(p: Packet, tabled: bool): Option<Unit> {
    var b := p.payload;
    if |b| < 14 || b[0] != 0 || b[1] != 0 || b[2] != 1 || b[3] as int / 16 != 0xE || b[4] != 0 || b[5] != 0 then None
    else if b[6] != 0x84 || b[7] != 0x80 || b[8] != 5 || !IsTimestamp(b[9..]) then None
    else Some(Unit(Some(ReadTimestamp(b[9..])), p.pcr, p.random, tabled, b[14..]))
  }

  function Route(d: Demux, p: Packet): Demux {
    if p.pid == 0 then
      if p.start && ReadPat(p.payload).Some? then d.(pmt := ReadPat(p.payload), sawPat := true, sawPmt := false) else d
    else if d.pmt == Some(p.pid) then
      if p.start && ReadPmt(p.payload).Some? then d.(video := ReadPmt(p.payload), sawPmt := d.sawPat) else d
    else if d.video == Some(p.pid) then
      if p.start then
        d.(units := Finish(d), open := OpenUnit(p, d.sawPmt), sawPat := false, sawPmt := false)
      else if d.open.Some? then d.(open := Some(d.open.value.(data := d.open.value.data + p.payload)))
      else d
    else d
  }

  function Feed(d: Demux, raw: seq<Byte>): Demux {
    match Parse(raw)
    case None => d
    case Some(p) => Route(Count(d, p), p)
  }

  function Run(d: Demux, ps: seq<seq<Byte>>): Demux {
    if ps == [] then d else Feed(Run(d, ps[..|ps| - 1]), ps[|ps| - 1])
  }

  /** The whole packets of a file, in order; a rest of fewer than 188 bytes is no packet. */
  function Chop(b: seq<Byte>): seq<seq<Byte>> {
    if |b| < 188 then [] else [b[..188]] + Chop(b[188..])
  }

  function Demultiplex(b: seq<Byte>): Demux { Run(START, Chop(b)) }

  lemma {:induction false} RunAppend(d: Demux, a: seq<seq<Byte>>, b: seq<seq<Byte>>)
    ensures Run(d, a + b) == Run(Run(d, a), b)
  {
    hide Feed;
    if b == [] {
      assert a + b == a;
    } else {
      var last := |b| - 1;
      RunAppend(d, a, b[..last]);
      assert (a + b)[..|a + b| - 1] == a + b[..last];
    }
  }

  lemma {:induction false} RunOne(d: Demux, p: seq<Byte>)
    ensures Run(d, [p]) == Feed(d, p)
  {
    hide Feed;
    assert [p][..0] == [];
  }

  /** Cutting a file of whole packets at any byte leaves the whole packets before the cut. */
  lemma {:induction false} ChopConcat(ps: seq<seq<Byte>>, n: nat)
    requires forall k :: 0 <= k < |ps| ==> |ps[k]| == SIZE
    requires n <= |Concat(ps)|
    ensures n / SIZE <= |ps|
    ensures Chop(Concat(ps)[..n]) == ps[..n / SIZE]
  {
    ConcatSize(ps);
    if n >= SIZE {
      var cut := Concat(ps)[..n];
      assert cut[..SIZE] == ps[0];
      assert cut[SIZE..] == Concat(ps[1..])[..n - SIZE];
      ChopConcat(ps[1..], n - SIZE);
      assert ps[..n / SIZE] == [ps[0]] + ps[1..][..n / SIZE - 1];
    }
  }

  // --- one packet at a time ---------------------------------------------------------------

  /** The state as far as a counter has been compared with what its PID had to show. */
  function Met(d: Demux, pid: int, counter: int): Demux {
    d.(continuous := d.continuous && Expects(d, pid, counter))
  }

  predicate Tuned(d: Demux) { d.pmt == Some(PID_PMT) && d.video == Some(PID_VIDEO) }

  lemma FeedPat(d: Demux, counter: Counter)
    ensures Feed(d, SectionPacket(PID_PAT, counter, PatSection()))
         == Met(d, PID_PAT, counter).(pmt := Some(PID_PMT), sawPat := true, sawPmt := false,
                                      next := d.next[PID_PAT := (counter + 1) % 16])
  {
    hide SectionPacket, PatSection, SectionBody, Parse, ReadPat, ReadPmt, OpenUnit;
    SectionPacketParses(PID_PAT, counter, PatSection());
    PatReadBack();
  }

  lemma FeedPmt(d: Demux, counter: Counter)
    requires d.pmt == Some(PID_PMT) && d.sawPat
    ensures Feed(d, SectionPacket(PID_PMT, counter, PmtSection()))
         == Met(d, PID_PMT, counter).(video := Some(PID_VIDEO), sawPmt := true,
                                      next := d.next[PID_PMT := (counter + 1) % 16])
  {
    hide SectionPacket, PmtSection, SectionBody, Parse, ReadPat, ReadPmt, OpenUnit;
    SectionPacketParses(PID_PMT, counter, PmtSection());
    PmtReadBack();
  }

  lemma OpenUnitReads(p: Packet, tabled: bool, pts: Stamp, data: seq<Byte>)
    requires p.payload == PesHeader(pts) + data
    ensures OpenUnit(p, tabled) == Some(Unit(Some(pts), p.pcr, p.random, tabled, data))
  {
    hide ReadTimestamp, TimestampBytes;
    var h, b := PesHeader(pts), p.payload;
    assert b[..14] == h;
    assert forall i :: 0 <= i < 14 ==> b[i] == h[i];
    assert b[14..] == data;
    assert h[9..] == TimestampBytes(2, pts);
    assert b[9..] == TimestampBytes(2, pts) + data;
    TimestampReadBack(2, pts, data);
  }

  /** The state with unit `u` in progress. */
  function Carrying(d: Demux, u: Unit, counter: Counter): Demux {
    d.(units := Finish(d), open := Some(u), sawPat := false, sawPmt := false, next := d.next[PID_VIDEO := counter])
  }

  lemma FeedFirst(d: Demux, keyframe: bool, pcr: Stamp, counter: Counter, pts: Stamp, data: seq<Byte>)
    requires Tuned(d) && 14 + |data| <= Room(true)
    ensures Feed(d, VideoPacket(PID_VIDEO, true, keyframe, pcr, counter, PesHeader(pts) + data))
         == Carrying(Met(d, PID_VIDEO, counter), Unit(Some(pts), Some(pcr), keyframe, d.sawPmt, data),
                     (counter + 1) % 16)
  {
    hide VideoPacket, PesHeader, Parse, ReadPat, ReadPmt, OpenUnit;
    VideoPacketParses(PID_VIDEO, true, keyframe, pcr, counter, PesHeader(pts) + data);
    var p := Packet(true, PID_VIDEO, counter, keyframe, Some(pcr), PesHeader(pts) + data);
    OpenUnitReads(p, d.sawPmt, pts, data);
  }

  lemma FeedNext(d: Demux, keyframe: bool, pcr: Stamp, counter: Counter, slice: seq<Byte>)
    requires Tuned(d) && Expects(d, PID_VIDEO, counter) && d.open.Some?
    requires |slice| <= Room(false)
    ensures Feed(d, VideoPacket(PID_VIDEO, false, keyframe, pcr, counter, slice))
         == d.(open := Some(d.open.value.(data := d.open.value.data + slice)),
               next := d.next[PID_VIDEO := (counter + 1) % 16])
  {
    hide VideoPacket, Parse, ReadPat, ReadPmt, OpenUnit;
    VideoPacketParses(PID_VIDEO, false, keyframe, pcr, counter, slice);
  }

  // --- the packets of one unit ------------------------------------------------------------

  /** The bytes of a unit that its first `n` packets carry. */
  function Sent(au: seq<Byte>, n: nat): seq<Byte> {
    var at := Offset(14 + |au|, n) - 14;
    if 0 <= at then au[..at] else []
  }

  /** The state once `n` video packets of a unit are in. */
  function Mid(d: Demux, keyframe: bool, pts: Stamp, pcr: Stamp, counter: Counter, au: seq<Byte>, n: nat): Demux {
    Carrying(d, Unit(Some(pts), Some(pcr), keyframe, d.sawPmt, Sent(au, n)), (counter + n) % 16)
  }

  lemma FirstSlice(pts: Stamp, au: seq<Byte>)
    ensures Offset(14 + |au|, 1) >= 14
    ensures (PesHeader(pts) + au)[..Offset(14 + |au|, 1)] == PesHeader(pts) + au[..Offset(14 + |au|, 1) - 14]
  {
    hide PesHeader;
  }

  lemma NextSlice(pts: Stamp, au: seq<Byte>, n: nat)
    requires 0 < n < Packets(14 + |au|)
    ensures 14 <= Offset(14 + |au|, n) <= Offset(14 + |au|, n + 1) <= 14 + |au|
    ensures au[..Offset(14 + |au|, n) - 14] + (PesHeader(pts) + au)[Offset(14 + |au|, n)..Offset(14 + |au|, n + 1)]
         == au[..Offset(14 + |au|, n + 1) - 14]
  {
    hide PesHeader;
    var p, q := Offset(14 + |au|, n), Offset(14 + |au|, n + 1);
    assert 14 <= p <= q <= 14 + |au|;
    SliceBehind(PesHeader(pts), au, p, q);
    assert au[..p - 14] + au[p - 14..q - 14] == au[..q - 14];
  }

  lemma SliceBehind(header: seq<Byte>, au: seq<Byte>, p: nat, q: nat)
    requires |header| <= p <= q <= |header| + |au|
    ensures (header + au)[p..q] == au[p - |header|..q - |header|]
  {
  }

  lemma FirstStep(d: Demux, keyframe: bool, pts: Stamp, pcr: Stamp, counter: Counter, au: seq<Byte>)
    requires Tuned(d) && 0 < Packets(14 + |au|)
    ensures Feed(d, PesPacket(PesHeader(pts) + au, keyframe, pcr, counter, 0))
         == Mid(Met(d, PID_VIDEO, counter), keyframe, pts, pcr, counter, au, 1)
  {
    var stream := PesHeader(pts) + au;
    hide PesHeader, Feed, VideoPacket, Packets;
    FirstSlice(pts, au);
    var data := au[..Offset(|stream|, 1) - 14];
    assert PesPacket(stream, keyframe, pcr, counter, 0)
        == VideoPacket(PID_VIDEO, true, keyframe, pcr, counter, PesHeader(pts) + data);
    FeedFirst(d, keyframe, pcr, counter, pts, data);
  }

  lemma CarryOn(d: Demux, u: Unit, keyframe: bool, pcr: Stamp, counter: Counter, slice: seq<Byte>)
    requires Tuned(d) && |slice| <= Room(false)
    ensures Feed(Carrying(d, u, counter), VideoPacket(PID_VIDEO, false, keyframe, pcr, counter, slice))
         == Carrying(d, u.(data := u.data + slice), (counter + 1) % 16)
  {
    hide Feed, VideoPacket;
    FeedNext(Carrying(d, u, counter), keyframe, pcr, counter, slice);
    assert d.next[PID_VIDEO := counter][PID_VIDEO := (counter + 1) % 16] == d.next[PID_VIDEO := (counter + 1) % 16];
  }

  /** The (n+1)-st packet carries the next bytes of the unit. */
  lemma PacketCarries(keyframe: bool, pts: Stamp, pcr: Stamp, counter: Counter, au: seq<Byte>, n: nat)
    returns (slice: seq<Byte>)
    requires 0 < n < Packets(14 + |au|)
    ensures |slice| <= Room(false) && Sent(au, n + 1) == Sent(au, n) + slice
    ensures PesPacket(PesHeader(pts) + au, keyframe, pcr, counter, n)
         == VideoPacket(PID_VIDEO, false, keyframe, pcr, (counter + n) % 16, slice)
  {
    hide PesHeader, VideoPacket, Packets, Offset;
    var stream := PesHeader(pts) + au;
    NextSlice(pts, au, n);
    OffsetEnd(|stream|, n);
    slice := stream[Offset(|stream|, n)..Offset(|stream|, n + 1)];
  }

  lemma NextStep(d: Demux, keyframe: bool, pts: Stamp, pcr: Stamp, counter: Counter, au: seq<Byte>, n: nat)
    requires Tuned(d) && 0 < n < Packets(14 + |au|)
    ensures Feed(Mid(d, keyframe, pts, pcr, counter, au, n), PesPacket(PesHeader(pts) + au, keyframe, pcr, counter, n))
         == Mid(d, keyframe, pts, pcr, counter, au, n + 1)
  {
    hide PesHeader, PesPacket, Feed, VideoPacket, Packets, Sent, Carrying;
    var slice := PacketCarries(keyframe, pts, pcr, counter, au, n);
    CarryOn(d, Unit(Some(pts), Some(pcr), keyframe, d.sawPmt, Sent(au, n)), keyframe, pcr, (counter + n) % 16, slice);
    assert ((counter + n) % 16 + 1) % 16 == (counter + (n + 1)) % 16;
  }

  lemma {:induction false} PesRun(d: Demux, keyframe: bool, pts: Stamp, pcr: Stamp, counter: Counter,
                                  au: seq<Byte>, n: nat)
    requires Tuned(d) && 0 < n <= Packets(14 + |au|)
    ensures Run(d, PesPackets(PesHeader(pts) + au, keyframe, pcr, counter, n))
         == Mid(Met(d, PID_VIDEO, counter), keyframe, pts, pcr, counter, au, n)
  {
    var stream := PesHeader(pts) + au;
    hide PesHeader, PesPackets, PesPacket, Feed, Run, Packets, Mid;
    LastPacket(d, stream, keyframe, pcr, counter, n);
    if n == 1 {
      FirstStep(d, keyframe, pts, pcr, counter, au);
    } else {
      PesRun(d, keyframe, pts, pcr, counter, au, n - 1);
      NextStep(Met(d, PID_VIDEO, counter), keyframe, pts, pcr, counter, au, n - 1);
    }
  }

  lemma LastPacket(d: Demux, stream: seq<Byte>, keyframe: bool, pcr: Stamp, counter: Counter, n: nat)
    requires |stream| > 0 && 0 < n <= Packets(|stream|)
    ensures Run(d, PesPackets(stream, keyframe, pcr, counter, n))
         == Feed(Run(d, PesPackets(stream, keyframe, pcr, counter, n - 1)),
                 PesPacket(stream, keyframe, pcr, counter, n - 1))
    ensures n == 1 ==> Run(d, PesPackets(stream, keyframe, pcr, counter, 0)) == d
  {
    hide PesPacket, Packets, Feed;
    var before := PesPackets(stream, keyframe, pcr, counter, n - 1);
    var last := PesPacket(stream, keyframe, pcr, counter, n - 1);
    assert (before + [last])[..n - 1] == before;
  }

  /** The state after the table pair. */
  function Retuned(d: Demux, pat: Counter, pmt: Counter): Demux {
    d.(pmt := Some(PID_PMT), video := Some(PID_VIDEO), sawPat := true, sawPmt := true,
       next := d.next[PID_PAT := (pat + 1) % 16][PID_PMT := (pmt + 1) % 16])
  }

  lemma {:induction false} TablesRun(d: Demux, pat: Counter, pmt: Counter)
    requires d.continuous && Expects(d, PID_PAT, pat) && Expects(d, PID_PMT, pmt)
    ensures Run(d, TablePackets(pat, pmt)) == Retuned(d, pat, pmt)
    ensures Finish(Run(d, TablePackets(pat, pmt)[..1])) == Finish(d) && Run(d, TablePackets(pat, pmt)[..1]).continuous
  {
    hide Feed, Run, SectionPacket, PatSection, PmtSection;
    var ps := TablePackets(pat, pmt);
    FeedPat(d, pat);
    FeedPmt(Feed(d, ps[0]), pmt);
    RunOne(d, ps[0]);
    RunOne(Feed(d, ps[0]), ps[1]);
    RunAppend(d, [ps[0]], [ps[1]]);
    assert ps == [ps[0]] + [ps[1]] && ps[..1] == [ps[0]];
  }
}
