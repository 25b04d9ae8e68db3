/** The muxer of src/dvr/ts_writer.cpp: access units to a file of 188-byte packets. */
module TsWriter {
  import opened Bytes
  import opened TsPacket
  import opened TsTables
  import Crc32
  import DvrWorker

  const PTS_PREROLL := 90000
  const PSI_INTERVAL := 9000
  const SYNC_BYTES := 4 * 1024 * 1024
  const SYNC_INTERVAL_MS := 2000

  /** `& TS_TIMESTAMP_MASK` on a two's complement integer. */
  function Wrap33(t: int): Stamp { t % 0x2_0000_0000 }

  // --- keyframes --------------------------------------------------------------------------

  /** A start code at `i` followed by the header of an IRAP unit. */
  ghost predicate IrapAt(d: seq<Byte>, i: int) {
    0 <= i && i + 3 < |d| && d[i] == 0 && d[i + 1] == 0 && d[i + 2] == 1
    && 16 <= d[i + 3] as int / 2 % 64 <= 21
  }

  ghost predicate HasIrap(d: seq<Byte>) { exists i :: IrapAt(d, i) }

  /** `au_is_keyframe`: stepping over each start code misses no IRAP unit. */
  method AuIsKeyframe(d: seq<Byte>) returns (keyframe: bool)
    ensures keyframe <==> HasIrap(d)
  {
    if |d| < 4 {
      return false;
    }
    var i := 0;
    while i + 3 < |d|
      invariant 0 <= i
      invariant forall j :: 0 <= j < i ==> !IrapAt(d, j)
    {
      if d[i] == 0 && d[i + 1] == 0 && d[i + 2] == 1 {
        var nalType := d[i + 3] as int / 2 % 64;
        if 16 <= nalType <= 21 {
          assert IrapAt(d, i);
          return true;
        }
        assert !IrapAt(d, i) && !IrapAt(d, i + 1) && !IrapAt(d, i + 2);
        i := i + 2;
      }
      i := i + 1;
    }
    return false;
  }

  // --- one PES packet ---------------------------------------------------------------------

  function PesHeader(pts: Stamp): (b: seq<Byte>)
    ensures |b| == 14
  {
    [0x00, 0x00, 0x01, 0xE0, 0x00, 0x00, 0x84, 0x80, 0x05] + TimestampBytes(2, pts)
  }

  /** How many packets `total` bytes take, and where the k-th one starts. */
  function Packets(total: nat): nat {
    if total <= 176 then 1 else 1 + (total - 176 + 183) / 184
  }

  function Offset(total: nat, k: nat): (at: nat)
    ensures at <= total
  {
    if k == 0 then 0 else if total <= 176 + 184 * (k - 1) then total else 176 + 184 * (k - 1)
  }

  lemma OffsetStep(total: nat, k: nat)
    requires Offset(total, k) < total
    ensures k < Packets(total)
    ensures Offset(total, k + 1) - Offset(total, k)
         == if total - Offset(total, k) < Room(k == 0) then total - Offset(total, k) else Room(k == 0)
  {
  }

  lemma OffsetEnd(total: nat, k: nat)
    requires total > 0 && k <= Packets(total)
    ensures Offset(total, k) == total <==> k == Packets(total)
    ensures k < Packets(total) ==> Offset(total, k) < Offset(total, k + 1)
    ensures k < Packets(total) ==> Offset(total, k + 1) - Offset(total, k) <= Room(k == 0)
  {
  }

  /** The k-th packet of a PES packet whose header and payload are `stream`. */
  function PesPacket(stream: seq<Byte>, keyframe: bool, pcr: Stamp, counter: Counter, k: nat): (b: seq<Byte>)
    requires |stream| > 0 && k < Packets(|stream|)
    ensures |b| == SIZE
  {
    OffsetEnd(|stream|, k);
    VideoPacket(PID_VIDEO, k == 0, keyframe, pcr, (counter + k) % 16,
                stream[Offset(|stream|, k)..Offset(|stream|, k + 1)])
  }

  /** The first `n` packets. */
  function PesPackets(stream: seq<Byte>, keyframe: bool, pcr: Stamp, counter: Counter, n: nat): (ps: seq<seq<Byte>>)
    requires |stream| > 0 && n <= Packets(|stream|)
    ensures |ps| == n
  {
    if n == 0 then []
    else PesPackets(stream, keyframe, pcr, counter, n - 1) + [PesPacket(stream, keyframe, pcr, counter, n - 1)]
  }

  // --- one access unit --------------------------------------------------------------------

  /** The per-file mux state. */
  datatype Mux = Mux(ticks: int, lastPsi: int, psiPending: bool, pat: Counter, pmt: Counter, video: Counter)

  const BEGIN := Mux(0, 0, true, 0, 0, 0)

  ghost predicate NeedsTables(m: Mux, au: seq<Byte>) {
    m.psiPending || HasIrap(au) || m.ticks - m.lastPsi >= PSI_INTERVAL
  }

  function TablePackets(pat: Counter, pmt: Counter): (ps: seq<seq<Byte>>)
    ensures |ps| == 2
  {
    [SectionPacket(PID_PAT, pat, PatSection()), SectionPacket(PID_PMT, pmt, PmtSection())]
  }

  /** The PES packet of a unit: its header, stamped one second ahead of the clock, then its bytes. */
  function UnitStream(m: Mux, au: seq<Byte>): (s: seq<Byte>)
    ensures |s| == 14 + |au|
  {
    PesHeader(Wrap33(m.ticks + PTS_PREROLL)) + au
  }

  ghost function VideoPackets(m: Mux, au: seq<Byte>): (ps: seq<seq<Byte>>)
    ensures |ps| == Packets(14 + |au|)
  {
    PesPackets(UnitStream(m, au), HasIrap(au), Wrap33(m.ticks), m.video, Packets(14 + |au|))
  }

  ghost function UnitPackets(m: Mux, au: seq<Byte>): (ps: seq<seq<Byte>>) {
    (if NeedsTables(m, au) then TablePackets(m.pat, m.pmt) else []) + VideoPackets(m, au)
  }

  ghost function After(m: Mux, au: seq<Byte>, duration: int): Mux {
    var tables := NeedsTables(m, au);
    Mux(m.ticks + duration,
        if tables then m.ticks else m.lastPsi,
        m.psiPending && !tables,
        if tables then (m.pat + 1) % 16 else m.pat,
        if tables then (m.pmt + 1) % 16 else m.pmt,
        (m.video + Packets(14 + |au|)) % 16)
  }

  lemma {:induction false} PesPacketsSize(stream: seq<Byte>, keyframe: bool, pcr: Stamp, counter: Counter, n: nat)
    requires |stream| > 0 && n <= Packets(|stream|)
    ensures forall k :: 0 <= k < n ==> |PesPackets(stream, keyframe, pcr, counter, n)[k]| == SIZE
  {
    hide PesPacket, Packets;
    if n > 0 {
      PesPacketsSize(stream, keyframe, pcr, counter, n - 1);
    }
  }

  lemma UnitPacketsSize(m: Mux, au: seq<Byte>)
    ensures forall k :: 0 <= k < |UnitPackets(m, au)| ==> |UnitPackets(m, au)[k]| == SIZE
  {
    hide PesPackets, Packets, UnitStream, SectionPacket;
    PesPacketsSize(UnitStream(m, au), HasIrap(au), Wrap33(m.ticks), m.video, Packets(14 + |au|));
  }

  lemma {:induction false} ConcatSize(ps: seq<seq<Byte>>)
    requires forall k :: 0 <= k < |ps| ==> |ps[k]| == SIZE
    ensures |Concat(ps)| == SIZE * |ps|
  {
    if ps != [] {
      ConcatSize(ps[1..]);
    }
  }

  /** A unit takes exactly the bytes that the recorder's size accounting assumes. */
  lemma UnitSize(m: Mux, au: seq<Byte>)
    ensures |Concat(UnitPackets(m, au))| == DvrWorker.MuxedSize(|au|, NeedsTables(m, au))
  {
    hide NeedsTables, TablePackets, VideoPackets;
    UnitPacketsSize(m, au);
    ConcatSize(UnitPackets(m, au));
  }

  // --- pieces of emit_pes -----------------------------------------------------------------

  /** The packet up to its payload: how much payload fits decides the adaptation field. */
  method PacketFront(first: bool, keyframe: bool, pcr: Stamp, counter: Counter, remaining: nat)
    returns (pkt: seq<Byte>, room: nat)
    requires remaining > 0
    ensures room == Min(remaining, Room(first))
    ensures pkt == Head(first, PID_VIDEO, counter, first || room < Room(first))
                   + Adaptation(first, keyframe, pcr, Room(first) - room)
  {
    hide Fill, PcrBytes;
    var wantPcr, wantRai := first, first && keyframe;
    var afLen: nat := 0;
    if wantPcr || wantRai {
      afLen := 1 + if wantPcr then 6 else 0;
    }
    var afTotal := if afLen != 0 then afLen + 1 else 0;
    room := SIZE - 4 - afTotal;
    if remaining < room {
      var pad := room - remaining;
      if afTotal == 0 {
        afLen := if pad == 1 then 0 else pad - 1;
        afTotal := pad;
      } else {
        afLen := afLen + pad;
        afTotal := afTotal + pad;
      }
      room := remaining;
    }
    pkt := [SYNC, (if first then 0x40 else 0) + PID_VIDEO / 0x100, PID_VIDEO % 0x100,
            (if afTotal != 0 then 0x30 else 0x10) + counter];
    assert pkt == Head(first, PID_VIDEO, counter, first || room < Room(first));
    var field: seq<Byte> := [];
    if afTotal != 0 {
      field := [afLen];
      if afLen != 0 {
        field := field + [(if wantRai then 0x40 else 0x00) + if wantPcr then 0x10 else 0x00];
        if wantPcr {
          field := field + PcrBytes(pcr);
        }
        var stuffing := afTotal - |field|;
        field := field + Fill(stuffing);
      }
    }
    assert field == Adaptation(first, keyframe, pcr, Room(first) - room);
    pkt := pkt + field;
  }

  /** `room` bytes of the header and the unit, read as one stream without joining them. */
  method CopySlice(pes: seq<Byte>, au: seq<Byte>, pos: nat, room: nat) returns (slice: seq<Byte>)
    requires pos + room <= |pes| + |au|
    ensures slice == (pes + au)[pos..pos + room]
  {
    var copied := 0;
    slice := [];
    while copied < room
      invariant copied <= room && |slice| == copied
      invariant slice == (pes + au)[pos..pos + copied]
    {
      var at := pos + copied;
      var src := if at < |pes| then pes[at..] else au[at - |pes|..];
      var n := if room - copied < |src| then room - copied else |src|;
      assert src[..n] == (pes + au)[at..at + n];
      slice := slice + src[..n];
      copied := copied + n;
    }
  }

  // --- the writer -------------------------------------------------------------------------

  class Writer {
    var file: Option<seq<Byte>>          // contents of the open file
    var videoStarted: bool
    var sizeBytes: nat
    var discardCount: nat
    var failCount: nat
    var failStreak: nat
    var bytesSinceSync: nat
    var lastSyncMs: int
    var mediaTicks: int
    var lastPsiTicks: int
    var psiPending: bool
    var ccVideo: Counter
    var ccPat: Counter
    var ccPmt: Counter
    var pktBuf: seq<Byte>

    constructor ()
      ensures file.None? && !videoStarted && sizeBytes == 0 && Muxer() == BEGIN
    {
      file, videoStarted, sizeBytes, discardCount, failCount, failStreak := None, false, 0, 0, 0, 0;
      bytesSinceSync, lastSyncMs := 0, 0;
      mediaTicks, lastPsiTicks, psiPending, ccVideo, ccPat, ccPmt, pktBuf := 0, 0, true, 0, 0, 0, [];
    }

    ghost function Muxer(): Mux
      reads this
    {
      Mux(mediaTicks, lastPsiTicks, psiPending, ccPat, ccPmt, ccVideo)
    }

    /** A section wrapped in one packet. `emit_section` takes the counter by reference. */
    method EmitSection(pid: Pid, counter: Counter, section: seq<Byte>) returns (next: Counter)
      requires |section| <= 179
      modifies this`pktBuf
      ensures pktBuf == old(pktBuf) + SectionPacket(pid, counter, section)
      ensures next == (counter + 1) % 16
    {
      hide Crc32.Crc, Crc32.Tail, Fill, Head;
      next := (counter + 1) % 16;
      var crc := Crc32.Compute(section);
      var used := section + Crc32.Tail(crc);
      pktBuf := pktBuf + (Head(true, pid, counter, false) + ([0] + (used + Fill(SIZE - 5 - |used|))));
    }

    method EmitPsi()
      modifies this`pktBuf, this`ccPat, this`ccPmt
      ensures pktBuf == old(pktBuf) + Concat(TablePackets(old(ccPat), old(ccPmt)))
      ensures ccPat == (old(ccPat) + 1) % 16 && ccPmt == (old(ccPmt) + 1) % 16
    {
      hide SectionPacket, PatSection, PmtSection;
      var before := pktBuf;
      var a, b := SectionPacket(PID_PAT, ccPat, PatSection()), SectionPacket(PID_PMT, ccPmt, PmtSection());
      ConcatPair(a, b);
      ccPat := EmitSection(PID_PAT, ccPat, PatSection());
      ccPmt := EmitSection(PID_PMT, ccPmt, PmtSection());
      Regroup(before, a, b);
    }

    method EmitPes(au: seq<Byte>, pts: Stamp, pcr: Stamp, keyframe: bool)
      modifies this`pktBuf, this`ccVideo
      ensures pktBuf == old(pktBuf)
                        + Concat(PesPackets(PesHeader(pts) + au, keyframe, pcr, old(ccVideo), Packets(14 + |au|)))
      ensures ccVideo == (old(ccVideo) + Packets(14 + |au|)) % 16
    {
      hide PesPackets, PesPacket, Packets, Offset, PesHeader, Concat;
      var pes := PesHeader(pts);
      var pos, total, first := 0, |pes| + |au|, true;
      ghost var stream, before, counter := pes + au, pktBuf, ccVideo;
      ghost var sent := 0;
      NoPackets(stream, keyframe, pcr, counter);
      while pos < total
        invariant sent <= Packets(total) && pos == Offset(total, sent) && first == (sent == 0)
        invariant ccVideo == (counter + sent) % 16
        invariant pktBuf == before + Concat(PesPackets(stream, keyframe, pcr, counter, sent))
        decreases total - pos
      {
        var room := EmitPacket(pes, au, pos, first, pcr, keyframe, counter, sent);
        MorePackets(stream, keyframe, pcr, counter, sent);
        Regroup(before, Concat(PesPackets(stream, keyframe, pcr, counter, sent)),
                PesPacket(stream, keyframe, pcr, counter, sent));
        pos := pos + room;
        first := false;
        sent := sent + 1;
      }
      OffsetEnd(total, sent);
    }

    /** One turn of the loop: the packet that starts at `pos`. */
    method EmitPacket(pes: seq<Byte>, au: seq<Byte>, pos: nat, first: bool, pcr: Stamp, keyframe: bool,
                      ghost counter: Counter, ghost sent: nat) returns (room: nat)
      requires |pes| + |au| > 0 && pos == Offset(|pes| + |au|, sent) < |pes| + |au| && first == (sent == 0)
      requires ccVideo == (counter + sent) % 16
      modifies this`pktBuf, this`ccVideo
      ensures sent < Packets(|pes| + |au|) && room > 0 && pos + room == Offset(|pes| + |au|, sent + 1)
      ensures pktBuf == old(pktBuf) + PesPacket(pes + au, keyframe, pcr, counter, sent)
      ensures ccVideo == (counter + sent + 1) % 16
    {
      hide PesPacket, Packets, Offset;
      OffsetStep(|pes| + |au|, sent);
      var pkt;
      pkt, room := PacketFront(first, keyframe, pcr, ccVideo, |pes| + |au| - pos);
      ccVideo := (ccVideo + 1) % 16;
      var slice := CopySlice(pes, au, pos, room);
      PacketIs(pes + au, keyframe, pcr, counter, sent, room, slice);
      Regroup(Head(first, PID_VIDEO, (counter + sent) % 16, first || room < Room(first)),
              Adaptation(first, keyframe, pcr, Room(first) - room), slice);
      pktBuf := pktBuf + (pkt + slice);
    }

    /** One unit, muxed whole and handed to storage in one write, which takes `accepted` bytes of it. */
    method MuxAccessUnit(au: seq<Byte>, duration: int, accepted: nat) returns (ok: bool)
      requires file.Some?
      modifies this`file, this`sizeBytes, this`mediaTicks, this`lastPsiTicks, this`psiPending,
               this`ccVideo, this`ccPat, this`ccPmt, this`pktBuf
      ensures Muxer() == old(After(Muxer(), au, duration))
      ensures var bytes := Concat(UnitPackets(old(Muxer()), au));
              ok == (accepted >= |bytes|)
              && file == Some(old(file).value + bytes[..Min(accepted, |bytes|)])
              && sizeBytes == old(sizeBytes) + (if ok then |bytes| else 0)
    {
      hide TablePackets, PesPackets, Packets, PesHeader, Concat, HasIrap, Wrap33;
      ghost var m := Muxer();
      var keyframe := AuIsKeyframe(au);
      var pcr := Wrap33(mediaTicks);
      var pts := Wrap33(mediaTicks + PTS_PREROLL);
      pktBuf := [];
      if psiPending || keyframe || mediaTicks - lastPsiTicks >= PSI_INTERVAL {
        EmitPsi();
        lastPsiTicks := mediaTicks;
        psiPending := false;
      }
      ghost var tables := pktBuf;
      assert tables == if NeedsTables(m, au) then Concat(TablePackets(m.pat, m.pmt)) else [];
      EmitPes(au, pts, pcr, keyframe);
      UnitBytes(m, au);
      assert pktBuf == tables + Concat(VideoPackets(m, au));
      ok := accepted >= |pktBuf|;
      file := Some(file.value + pktBuf[..Min(accepted, |pktBuf|)]);
      if ok {
        sizeBytes := sizeBytes + |pktBuf|;
      }
      mediaTicks := mediaTicks + duration;
    }

    method SyncIfDue(now: int, syncOk: bool)
      modifies this`bytesSinceSync, this`lastSyncMs, this`failCount, this`failStreak
      ensures var due := old(bytesSinceSync) >= 4194304 || now - old(lastSyncMs) >= 2000;
              failStreak == old(failStreak) + (if due && !syncOk then 1 else 0)
              && bytesSinceSync == (if due then 0 else old(bytesSinceSync))
              && lastSyncMs == (if due then now else old(lastSyncMs))
    {
      if bytesSinceSync < SYNC_BYTES && now - lastSyncMs < SYNC_INTERVAL_MS {
        return;
      }
      bytesSinceSync, lastSyncMs := 0, now;
      if !syncOk {
        failCount, failStreak := failCount + 1, failStreak + 1;
      }
    }

    method Open(now: int, opens: bool) returns (ok: bool)
      modifies this
      ensures ok == opens
      ensures ok ==> file == Some([]) && sizeBytes == 0 && failStreak == 0
      ensures !ok ==> file == None && sizeBytes == old(sizeBytes) && failStreak == old(failStreak)
      ensures Muxer() == old(Muxer()) && videoStarted == old(videoStarted)
    {
      if !opens {
        file := None;
        return false;
      }
      file, sizeBytes, failCount, failStreak, bytesSinceSync, lastSyncMs := Some([]), 0, 0, 0, 0, now;
      return true;
    }

    method BeginVideo() returns (ok: bool)
      modifies this
      ensures file == old(file) && sizeBytes == old(sizeBytes) && failStreak == old(failStreak)
      ensures ok == file.Some?
      ensures ok ==> videoStarted && Muxer() == BEGIN
      ensures !ok ==> videoStarted == old(videoStarted) && Muxer() == old(Muxer())
    {
      if file.None? {
        return false;
      }
      mediaTicks, lastPsiTicks, psiPending := 0, 0, true;
      ccVideo, ccPat, ccPmt, pktBuf, videoStarted := 0, 0, 0, [], true;
      return true;
    }

    /** `write_nal`: an empty unit is a no-op, and without a started muxer the unit is discarded. A
        failed write leaves a prefix of the unit behind and lengthens the failure streak. */
    method WriteNal(au: seq<Byte>, duration: int, accepted: nat, now: int, syncOk: bool) returns (ok: bool)
      modifies this
      ensures videoStarted == old(videoStarted)
      ensures au == [] || old(file).None? || !old(videoStarted) ==>
                ok == (au == []) && file == old(file) && sizeBytes == old(sizeBytes)
                && Muxer() == old(Muxer()) && failStreak == old(failStreak)
      ensures au != [] && old(file).Some? && old(videoStarted) ==>
                var bytes := Concat(UnitPackets(old(Muxer()), au));
                Muxer() == After(old(Muxer()), au, duration)
                && ok == (accepted >= |bytes|)
                && file == Some(old(file).value + bytes[..Min(accepted, |bytes|)])
                && sizeBytes == old(sizeBytes) + (if ok then |bytes| else 0)
                && (!ok ==> failStreak == old(failStreak) + 1)
                && (ok ==> failStreak <= 1 && (syncOk ==> failStreak == 0))
    {
      hide After, UnitPackets, Concat;
      if au == [] {
        return true;
      }
      if file.None? || !videoStarted {
        discardCount := discardCount + 1;
        return false;
      }
      ok := MuxAccessUnit(au, duration, accepted);
      if !ok {
        failCount, failStreak := failCount + 1, failStreak + 1;
        return;
      }
      failCount, failStreak := 0, 0;
      bytesSinceSync := bytesSinceSync + |au|;
      SyncIfDue(now, syncOk);
    }
  }

  lemma ConcatPair(a: seq<Byte>, b: seq<Byte>)
    ensures Concat([a, b]) == a + b
  {
    ConcatOne(a);
    ConcatSnoc([a], b);
    assert [a] + [b] == [a, b];
  }

  lemma {:induction false} NoPackets(stream: seq<Byte>, keyframe: bool, pcr: Stamp, counter: Counter)
    requires |stream| > 0
    ensures Concat(PesPackets(stream, keyframe, pcr, counter, 0)) == []
    ensures Offset(|stream|, 0) == 0
  {
  }

  lemma MorePackets(stream: seq<Byte>, keyframe: bool, pcr: Stamp, counter: Counter, n: nat)
    requires |stream| > 0 && n < Packets(|stream|)
    ensures Concat(PesPackets(stream, keyframe, pcr, counter, n + 1))
         == Concat(PesPackets(stream, keyframe, pcr, counter, n)) + PesPacket(stream, keyframe, pcr, counter, n)
  {
    hide PesPacket, Packets;
    ConcatSnoc(PesPackets(stream, keyframe, pcr, counter, n), PesPacket(stream, keyframe, pcr, counter, n));
  }

  lemma PacketIs(stream: seq<Byte>, keyframe: bool, pcr: Stamp, counter: Counter, n: nat, room: nat,
                 slice: seq<Byte>)
    requires |stream| > 0 && n < Packets(|stream|) && Offset(|stream|, n) < |stream|
    requires room == Min(|stream| - Offset(|stream|, n), Room(n == 0))
    requires slice == stream[Offset(|stream|, n)..Offset(|stream|, n) + room]
    ensures PesPacket(stream, keyframe, pcr, counter, n)
         == Head(n == 0, PID_VIDEO, (counter + n) % 16, n == 0 || room < Room(n == 0))
            + (Adaptation(n == 0, keyframe, pcr, Room(n == 0) - room) + slice)
  {
    hide Head, Adaptation, Packets, Offset;
    OffsetStep(|stream|, n);
  }

  lemma UnitBytes(m: Mux, au: seq<Byte>)
    ensures Concat(UnitPackets(m, au))
         == (if NeedsTables(m, au) then Concat(TablePackets(m.pat, m.pmt)) else []) + Concat(VideoPackets(m, au))
  {
    hide TablePackets, VideoPackets, NeedsTables, Concat;
    if NeedsTables(m, au) {
      ConcatAppend(TablePackets(m.pat, m.pmt), VideoPackets(m, au));
    } else {
      assert UnitPackets(m, au) == VideoPackets(m, au);
    }
  }
}
