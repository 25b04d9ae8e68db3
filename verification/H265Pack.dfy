/** The H.265 RTP packer of lib/librtp/payload/rtp-h265-pack.c: single NAL unit packets and
    fragmentation units (sections 4.4.1 and 4.4.3 of RFC 7798). */
module H265Pack {
  import opened Bytes
  import opened RtpPacket
  import opened AnnexB

  const H265_RTP_FU := 49
  const N_FU_HEADER := 3

  /** What stays fixed while one access unit is packed. */
  datatype Stream = Stream(size: int, pt: int, ssrc: U32, timestamp: U32)

  ghost predicate ValidStream(c: Stream) {
    // The fragment loop needs room for at least one payload byte; rtp_packet_setsize keeps 564 or more.
    c.size > RTP_FIXED_HEADER + N_FU_HEADER && 0 <= c.pt < 128
  }

  function NalType(b: Byte): (t: int)
    ensures 0 <= t < 64
  {
    b / 2 % 64
  }

  /** `(b & 0x81) | (t << 1)`: the forbidden and layer bits of `b` around the NAL type `t`. */
  function WithType(b: Byte, t: int): (r: Byte)
    requires 0 <= t < 64
    ensures NalType(r) == t && r / 128 == b / 128 && r % 2 == b % 2
  {
    b / 128 * 128 + t * 2 + b % 2
  }

  /** Only the type bits are replaced: putting the old type back restores the byte. */
  lemma RetypeBack(b: Byte, t: int)
    requires 0 <= t < 64
    ensures WithType(WithType(b, t), NalType(b)) == b
  {
    assert b == b / 128 * 128 + NalType(b) * 2 + b % 2;
  }

  function Bit(b: bool): (r: int)
    ensures 0 <= r < 2
  {
    if b then 1 else 0
  }

  function FuHeader(start: bool, end: bool, t: int): (r: Byte)
    requires 0 <= t < 64
    ensures (r >= 128) == start && (r / 64 % 2 == 1) == end && r % 64 == t
  {
    Bit(start) * 128 + Bit(end) * 64 + t
  }

  lemma SeqnoIsMod(s: U16)
    ensures Mod16(s) == s
  {
  }

  lemma Mod16Add(a: int, b: int)
    ensures Mod16(Mod16(a) + b) == Mod16(a + b)
  {
  }

  function RtpOf(c: Stream, seqno: U16, m: bool, payload: seq<Byte>): (p: Packet)
    requires ValidStream(c)
    ensures WellFormed(p)
  {
    Packet(Header(RTP_VERSION, 0, 0, 0, Bit(m), c.pt, seqno, c.timestamp, c.ssrc), Zeros(16), 0, [], payload)
  }

  /** An RTP packet on the wire. */
  function Wire(c: Stream, seqno: U16, m: bool, payload: seq<Byte>): (b: seq<Byte>)
    requires ValidStream(c)
    ensures |b| == RTP_FIXED_HEADER + |payload|
  {
    HeaderImage(RtpOf(c, seqno, m, payload)) + payload
  }

  /** One fragment: payload header with type 49, FU header, and `n` bytes of the NAL unit from `pos`. */
  function FuPayload(nal: seq<Byte>, pos: nat, n: nat, start: bool, end: bool): (b: seq<Byte>)
    requires 2 <= pos && pos + n <= |nal|
    ensures |b| == N_FU_HEADER + n
  {
    [WithType(nal[0], H265_RTP_FU), nal[1], FuHeader(start, end, NalType(nal[0]))] + nal[pos..pos + n]
  }

  /** The fragments of `nal` from offset `pos` on; the END branch clears a START bit still set. */
  function Fragments(c: Stream, seqno: U16, nal: seq<Byte>, pos: nat, mark: bool): (r: seq<seq<Byte>>)
    requires ValidStream(c) && 2 <= pos <= |nal|
    decreases |nal| - pos
  {
    if pos == |nal| then []
    else if |nal| - pos + RTP_FIXED_HEADER <= c.size - N_FU_HEADER then
      [Wire(c, seqno, mark, FuPayload(nal, pos, |nal| - pos, false, true))]
    else
      var n := c.size - RTP_FIXED_HEADER - N_FU_HEADER;
      [Wire(c, seqno, false, FuPayload(nal, pos, n, pos == 2, false))]
      + Fragments(c, Mod16(seqno + 1), nal, pos + n, mark)
  }

  /** `rtp_h265_pack_handler`: the packets of one NAL unit, None when it is refused. */
  function PackNal(c: Stream, seqno: U16, nal: seq<Byte>, mark: bool): (r: Option<seq<seq<Byte>>>)
    requires ValidStream(c)
  {
    if |nal| < 3 then None
    else if |nal| + RTP_FIXED_HEADER <= c.size then
      Some([Wire(c, seqno, mark && NalType(nal[0]) < 32, nal)])
    else Some(Fragments(c, seqno, nal, 2, mark))
  }

  /** The packets of a list of NAL units, up to the first one the handler refuses. */
  function PackAll(c: Stream, seqno: U16, units: seq<Nalu>): (r: seq<seq<Byte>>)
    requires ValidStream(c)
    decreases |units|
  {
    if units == [] then [] else
    var p := PackNal(c, seqno, units[0].data, units[0].last);
    if p.None? then [] else p.value + PackAll(c, Mod16(seqno + |p.value|), units[1..])
  }

  predicate AllAccepted(units: seq<Nalu>) {
    forall i :: 0 <= i < |units| ==> |units[i].data| >= 3
  }

  // ---------------------------------------------------------------- the packer object

  /** Three single bytes and a copy after the header fill the packet. */
  lemma FuFills(image: seq<Byte>, blank: seq<Byte>, fu: seq<Byte>, slice: seq<Byte>)
    requires |image| == RTP_FIXED_HEADER && |fu| == 3 && |blank| == RTP_FIXED_HEADER + 3 + |slice|
    requires image <= blank
    ensures Overwrite(blank[12 := fu[0]][13 := fu[1]][14 := fu[2]], 15, slice) == image + (fu + slice)
  {
  }

  /** The header does not depend on the payload. */
  lemma SameHeader(c: Stream, seqno: U16, m: bool, a: seq<Byte>, b: seq<Byte>)
    requires ValidStream(c)
    ensures HeaderImage(RtpOf(c, seqno, m, a)) == HeaderImage(RtpOf(c, seqno, m, b))
  {
    hide FixedHeader, CsrcImage, W16, W32;
  }

  class H265Packer {
    const size: int
    const pt: int
    const ssrc: U32
    var seqno: U16
    var timestamp: U32

    ghost predicate Valid() reads this {
      ValidStream(Params())
    }

    function Params(): Stream reads this {
      Stream(size, pt, ssrc, timestamp)
    }

    constructor (size: int, pt: int, seqno: U16, ssrc: U32)
      requires size > RTP_FIXED_HEADER + N_FU_HEADER && 0 <= pt < 128
      ensures Valid() && this.size == size && this.pt == pt && this.ssrc == ssrc && this.seqno == seqno
    {
      this.size, this.pt, this.ssrc, this.seqno, this.timestamp := size, pt, ssrc, seqno, 0;
    }

    /** `rtp_h265_pack_nalu`. */
    method PackNalu(nal: seq<Byte>, mark: bool) returns (r: int, out: seq<seq<Byte>>)
      requires Valid()
      modifies this`seqno
      ensures r == 0 <==> |nal| >= 3
      ensures r == 0 ==> out == [Wire(Params(), old(seqno), mark && NalType(nal[0]) < 32, nal)]
      ensures r != 0 ==> out == []
      ensures seqno == Mod16(old(seqno) + |out|)
    {
      if |nal| < 3 {
        return -1, [];
      }
      var p := RtpOf(Params(), seqno, mark && NalType(nal[0]) < 32, nal);
      var rtp := new Byte[RTP_FIXED_HEADER + |nal|];
      ghost var blank := rtp[..];
      var n := Serialize(p, rtp);
      SentPlain(p, blank);
      out := [rtp[..n]];
      seqno := Mod16(seqno + 1);
      return 0, out;
    }

    /** `rtp_h265_pack_fu`: cut `nal` into fragments. */
    method PackFu(nal: seq<Byte>, mark: bool) returns (r: int, out: seq<seq<Byte>>)
      requires Valid()
      modifies this`seqno
      ensures r == 0 <==> |nal| >= 3
      ensures r == 0 ==> out == Fragments(Params(), old(seqno), nal, 2, mark)
      ensures r != 0 ==> out == []
      ensures seqno == Mod16(old(seqno) + |out|)
    {
      if |nal| < 3 {
        return -1, [];
      }
      out := FragmentLoop(nal, mark);
      r := 0;
    }

    method FragmentLoop(nal: seq<Byte>, mark: bool) returns (out: seq<seq<Byte>>)
      requires Valid() && |nal| >= 3
      modifies this`seqno
      ensures out == Fragments(Params(), old(seqno), nal, 2, mark)
      ensures seqno == Mod16(old(seqno) + |out|)
    {
      hide Fragments, Wire, FuPayload, Mod16;
      out := [];
      SeqnoIsMod(seqno);
      var pos := 2;
      var start := true;
      while pos < |nal|
        invariant 2 <= pos <= |nal|
        invariant start == (pos == 2)
        invariant seqno == Mod16(old(seqno) + |out|)
        invariant Fragments(Params(), old(seqno), nal, 2, mark) == out + Fragments(Params(), seqno, nal, pos, mark)
        decreases |nal| - pos
      {
        FragmentsStep(Params(), seqno, nal, pos, mark);
        var bytes := |nal| - pos;
        var end := bytes + RTP_FIXED_HEADER <= size - N_FU_HEADER;
        var n := if end then bytes else size - RTP_FIXED_HEADER - N_FU_HEADER;
        var packet := PackFragment(nal, pos, n, start && !end, end, mark && end);
        Mod16Add(old(seqno) + |out|, 1);
        Regroup(out, [packet], Fragments(Params(), Mod16(seqno + 1), nal, pos + n, mark));
        seqno := Mod16(seqno + 1);
        out := out + [packet];
        pos := pos + n;
        start := false;
      }
      FragmentsDone(Params(), seqno, nal, mark);
    }

    /** One turn of the fragment loop: header, FU header and payload into a fresh buffer. */
    method PackFragment(nal: seq<Byte>, pos: nat, n: nat, start: bool, end: bool, m: bool) returns (b: seq<Byte>)
      requires Valid() && 2 <= pos && pos + n <= |nal|
      ensures b == Wire(Params(), seqno, m, FuPayload(nal, pos, n, start, end))
    {
      hide HeaderImage, WithType, FuHeader, NalType, Overwrite;
      ghost var payload := FuPayload(nal, pos, n, start, end);
      var rtp := new Byte[RTP_FIXED_HEADER + N_FU_HEADER + n];
      var p := RtpOf(Params(), seqno, m, nal[pos..pos + n]);
      var h := SerializeHeader(p, rtp);
      ghost var image := HeaderImage(p);
      ghost var blank := rtp[..];
      var fu := [WithType(nal[0], H265_RTP_FU), nal[1], FuHeader(start, end, NalType(nal[0]))];
      rtp[h], rtp[h + 1], rtp[h + 2] := fu[0], fu[1], fu[2];
      WriteAt(rtp, h + 3, nal[pos..pos + n]);
      b := rtp[..];
      FuFills(image, blank, fu, nal[pos..pos + n]);
      SameHeader(Params(), seqno, m, nal[pos..pos + n], payload);
    }

    /** `rtp_h265_pack_input` over the splitter: stop at the first unit the handler refuses. */
    method Input(au: seq<Byte>, timestamp: U32) returns (r: int, out: seq<seq<Byte>>)
      requires Valid()
      modifies this
      ensures Valid() && this.timestamp == timestamp
      ensures out == PackAll(Params(), old(seqno), Units(au))
      ensures r == 0 <==> AllAccepted(Units(au))
      ensures seqno == Mod16(old(seqno) + |out|)
    {
      hide Fragments, Mod16, PackAll, PackNal, Units;
      this.timestamp := timestamp;
      var units, failed := Split(au, None);
      r, out := 0, [];
      SeqnoIsMod(seqno);
      var i := 0;
      assert units[0..] == units;
      while i < |units| && r == 0
        invariant 0 <= i <= |units|
        invariant this.timestamp == timestamp
        invariant seqno == Mod16(old(seqno) + |out|)
        invariant r == 0 ==> PackAll(Params(), old(seqno), units) == out + PackAll(Params(), seqno, units[i..])
        invariant r != 0 ==> PackAll(Params(), old(seqno), units) == out && !AllAccepted(units)
        invariant r == 0 ==> forall k :: 0 <= k < i ==> |units[k].data| >= 3
        decreases |units| - i, r == 0
      {
        ghost var before := seqno;
        var more: seq<seq<Byte>>;
        r, more := PackUnit(units[i].data, units[i].last);
        Mod16Add(old(seqno) + |out|, |more|);
        PackAllStep(Params(), before, units, i);
        if r == 0 {
          Regroup(out, more, PackAll(Params(), Mod16(before + |more|), units[i + 1..]));
        } else {
          assert out + more == out && out + [] == out;
        }
        out := out + more;
        i := i + 1;
      }
      PackAllDone(Params(), seqno, units[i..]);
    }

    /** `rtp_h265_pack_handler`. */
    method PackUnit(nal: seq<Byte>, last: bool) returns (r: int, out: seq<seq<Byte>>)
      requires Valid()
      modifies this`seqno
      ensures r == 0 <==> |nal| >= 3
      ensures PackNal(Params(), old(seqno), nal, last) == (if r == 0 then Some(out) else None)
      ensures r != 0 ==> out == []
      ensures seqno == Mod16(old(seqno) + |out|)
    {
      if |nal| + RTP_FIXED_HEADER <= size {
        r, out := PackNalu(nal, last);
      } else {
        r, out := PackFu(nal, last);
      }
    }
  }

  lemma {:induction false} PackAllStep(c: Stream, seqno: U16, units: seq<Nalu>, i: nat)
    requires ValidStream(c) && i < |units|
    ensures var p := PackNal(c, seqno, units[i].data, units[i].last);
            PackAll(c, seqno, units[i..])
            == if p.None? then [] else p.value + PackAll(c, Mod16(seqno + |p.value|), units[i + 1..])
  {
    hide PackNal, Mod16;
    assert units[i..][1..] == units[i + 1..];
  }

  lemma {:induction false} PackAllDone(c: Stream, seqno: U16, units: seq<Nalu>)
    requires ValidStream(c)
    ensures units == [] ==> PackAll(c, seqno, units) == []
  {
  }

  lemma FragmentsStep(c: Stream, seqno: U16, nal: seq<Byte>, pos: nat, mark: bool)
    requires ValidStream(c) && 2 <= pos < |nal|
    ensures var end := |nal| - pos + RTP_FIXED_HEADER <= c.size - N_FU_HEADER;
            var n := if end then |nal| - pos else c.size - RTP_FIXED_HEADER - N_FU_HEADER;
            && 0 < n <= |nal| - pos
            && Fragments(c, seqno, nal, pos, mark)
               == [Wire(c, seqno, mark && end, FuPayload(nal, pos, n, pos == 2 && !end, end))]
                  + Fragments(c, Mod16(seqno + 1), nal, pos + n, mark)
  {
    hide Wire, FuPayload;
  }

  lemma {:induction false} FragmentsDone(c: Stream, seqno: U16, nal: seq<Byte>, mark: bool)
    requires ValidStream(c) && 2 <= |nal|
    ensures Fragments(c, seqno, nal, |nal|, mark) == []
  {
  }

  // ---------------------------------------------------------------- what goes on the wire

  /** The receiver's view of a packet: the header fields and the payload come back. */
  lemma WireReadBack(c: Stream, seqno: U16, m: bool, payload: seq<Byte>)
    requires ValidStream(c)
    ensures Deserialize(Wire(c, seqno, m, payload)) == Some(RtpOf(c, seqno, m, payload))
  {
    hide Deserialize, HeaderImage;
    var p := RtpOf(c, seqno, m, payload);
    PlainReads(p);
    assert p.csrc[..0] + Zeros(16) == p.csrc;
  }

  /** Fragment `i` of a NAL unit that does not fit one packet: it fits the configured size, what its
      payload is, with the START bit on the first and only the first, and the END bit on the last and
      only the last. */
  lemma {:induction false} FragmentShape(c: Stream, seqno: U16, nal: seq<Byte>, pos: nat, mark: bool, i: nat)
    requires ValidStream(c) && 2 <= pos <= |nal| && |nal| + RTP_FIXED_HEADER > c.size
    requires i < |Fragments(c, seqno, nal, pos, mark)|
    ensures var last := i == |Fragments(c, seqno, nal, pos, mark)| - 1;
            var at := pos + i * (c.size - 15);
            var n := if last then |nal| - at else c.size - 15;
            && pos <= at && 0 < n <= c.size - 15 && at + n <= |nal|
            && |Fragments(c, seqno, nal, pos, mark)[i]| <= c.size
            && Fragments(c, seqno, nal, pos, mark)[i]
               == Wire(c, Mod16(seqno + i), last && mark, FuPayload(nal, at, n, pos == 2 && i == 0, last))
    decreases |nal| - pos
  {
    hide Fragments, Wire, FuPayload, Mod16;
    if pos == |nal| {
      FragmentsDone(c, seqno, nal, mark);
    } else {
      FragmentsStep(c, seqno, nal, pos, mark);
      var end := |nal| - pos + 12 <= c.size - 3;
      if end {
        SeqnoIsMod(seqno);
        FragmentsDone(c, Mod16(seqno + 1), nal, mark);
      } else {
        var n := c.size - 15;
        FragmentsNonEmpty(c, Mod16(seqno + 1), nal, pos + n, mark);
        if i > 0 {
          FragmentShape(c, Mod16(seqno + 1), nal, pos + n, mark, i - 1);
          Mod16Add(seqno + 1, i - 1);
          assert pos + n + (i - 1) * (c.size - 15) == pos + i * (c.size - 15);
        } else {
          SeqnoIsMod(seqno);
        }
      }
    }
  }

  lemma {:induction false} FragmentsNonEmpty(c: Stream, seqno: U16, nal: seq<Byte>, pos: nat, mark: bool)
    requires ValidStream(c) && 2 <= pos < |nal|
    ensures |Fragments(c, seqno, nal, pos, mark)| >= 1
  {
    FragmentsStep(c, seqno, nal, pos, mark);
  }
}
