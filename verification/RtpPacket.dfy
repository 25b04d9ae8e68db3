/** The RTP header codec of lib/librtp/source/rtp-packet.c (section 5.1 of RFC 3550). */
module RtpPacket {
  import opened Bytes

  const RTP_VERSION := 2
  const RTP_FIXED_HEADER := 12

  /** The bit fields of `rtp_header_t`. */
  datatype Header = Header(v: int, p: int, x: int, cc: int, m: int, pt: int, seqno: U16, timestamp: U32, ssrc: U32)

  ghost predicate FieldWidths(h: Header) {
    0 <= h.v < 4 && 0 <= h.p < 2 && 0 <= h.x < 2 && 0 <= h.cc < 16 && 0 <= h.m < 2 && 0 <= h.pt < 128
  }

  /** `struct rtp_packet_t`: `csrc` is the 16-entry table, of which `cc` entries are in use. */
  datatype Packet = Packet(rtp: Header, csrc: seq<U32>, extprofile: U16, extension: seq<Byte>, payload: seq<Byte>)

  ghost predicate WellFormed(p: Packet) {
    && FieldWidths(p.rtp)
    && |p.csrc| == 16
    && |p.extension| < 0x1_0000
  }

  // ---------------------------------------------------------------- serialising

  /** `nbo_write_rtp_header`: the bit fields are disjoint, so the shifts-and-ors are sums. */
  function FixedHeader(h: Header): (b: seq<Byte>)
    requires FieldWidths(h)
    ensures |b| == RTP_FIXED_HEADER
  {
    [h.v * 64 + h.p * 32 + h.x * 16 + h.cc, h.m * 128 + h.pt] + W16(h.seqno) + W32(h.timestamp) + W32(h.ssrc)
  }

  /** The first `n` entries of the CSRC table as they go on the wire. */
  function CsrcImage(csrc: seq<U32>, n: nat): (b: seq<Byte>)
    requires n <= |csrc|
    ensures |b| == 4 * n
  {
    if n == 0 then [] else CsrcImage(csrc, n - 1) + W32(csrc[n - 1])
  }

  /** The extension header and its words. */
  function ExtensionImage(p: Packet): (b: seq<Byte>)
    requires WellFormed(p)
    ensures |b| == if p.rtp.x == 1 then 4 + |p.extension| else 0
  {
    if p.rtp.x == 1 then W16(p.extprofile) + W16(|p.extension| / 4) + p.extension else []
  }

  /** Everything `rtp_packet_serialize_header` writes. */
  function HeaderImage(p: Packet): (b: seq<Byte>)
    requires WellFormed(p)
    ensures |b| == RTP_FIXED_HEADER + 4 * p.rtp.cc + (if p.rtp.x == 1 then 4 + |p.extension| else 0)
  {
    FixedHeader(p.rtp) + CsrcImage(p.csrc, p.rtp.cc) + ExtensionImage(p)
  }

  /** The space the source reserves: the extension is counted even when the X bit is clear. */
  function HeaderRoom(p: Packet): int {
    RTP_FIXED_HEADER + 4 * p.rtp.cc + (if p.rtp.x == 1 then 4 else 0) + |p.extension|
  }

  /** `s` with `b` copied over it at offset `at`. */
  function Overwrite(s: seq<Byte>, at: nat, b: seq<Byte>): (r: seq<Byte>)
    requires at + |b| <= |s|
    ensures |r| == |s|
  {
    s[..at] + b + s[at + |b|..]
  }

  /** A `memcpy` of `b` to offset `at`. */
  method WriteAt(data: array<Byte>, at: nat, b: seq<Byte>)
    requires at + |b| <= data.Length
    modifies data
    ensures data[..] == Overwrite(old(data[..]), at, b)
  {
    ghost var before := data[..];
    forall i | 0 <= i < |b| {
      data[at + i] := b[i];
    }
    ghost var r := Overwrite(before, at, b);
    forall k | 0 <= k < |r| ensures data[k] == r[k] {
      if at <= k < at + |b| {
        assert data[at + (k - at)] == b[k - at];
      }
    }
  }

  /** `rtp_packet_serialize_header` into `data`: the header length, or -1. */
  method SerializeHeader(p: Packet, data: array<Byte>) returns (n: int)
    requires WellFormed(p)
    modifies data
    ensures n == -1 <==> p.rtp.v != RTP_VERSION || |p.extension| % 4 != 0 || data.Length < HeaderRoom(p)
    ensures n == -1 ==> data[..] == old(data[..])
    ensures n != -1 ==> n == HeaderRoom(p) <= data.Length
    ensures n != -1 ==> data[..] == HeaderImage(p) + old(data[..])[|HeaderImage(p)|..]
  {
    if p.rtp.v != RTP_VERSION || |p.extension| % 4 != 0 {
      return -1;
    }
    if data.Length < HeaderRoom(p) {
      return -1;
    }
    FillHeader(p, data);
    n := HeaderRoom(p);
  }

  /** The writes themselves, once there is room. */
  method FillHeader(p: Packet, data: array<Byte>)
    requires WellFormed(p) && |p.extension| % 4 == 0 && HeaderRoom(p) <= data.Length
    modifies data
    ensures data[..] == HeaderImage(p) + old(data[..])[|HeaderImage(p)|..]
  {
    hide W16, W32, FixedHeader, CsrcImage, Overwrite, ExtensionImage;
    ghost var before := data[..];
    OverwriteFirst(before, FixedHeader(p.rtp));
    WriteAt(data, 0, FixedHeader(p.rtp));
    WriteCsrc(p, data, before);
    ghost var front := FixedHeader(p.rtp) + CsrcImage(p.csrc, p.rtp.cc);
    OverwriteNext(front, before, ExtensionImage(p));
    if p.rtp.x == 1 {
      WriteAt(data, RTP_FIXED_HEADER + 4 * p.rtp.cc, ExtensionImage(p));
    }
  }

  /** Writing on where `front` ends. */
  lemma OverwriteNext(front: seq<Byte>, before: seq<Byte>, b: seq<Byte>)
    requires |front| + |b| <= |before|
    ensures Overwrite(front + before[|front|..], |front|, b) == (front + b) + before[|front + b|..]
  {
  }

  lemma OverwriteFirst(before: seq<Byte>, b: seq<Byte>)
    requires |b| <= |before|
    ensures Overwrite(before, 0, b) == b + before[|b|..]
  {
  }

  /** The CSRC loop of the header. */
  method WriteCsrc(p: Packet, data: array<Byte>, ghost before: seq<Byte>)
    requires WellFormed(p) && RTP_FIXED_HEADER + 4 * p.rtp.cc <= |before| == data.Length
    requires data[..] == FixedHeader(p.rtp) + before[RTP_FIXED_HEADER..]
    modifies data
    ensures data[..] == FixedHeader(p.rtp) + CsrcImage(p.csrc, p.rtp.cc) + before[RTP_FIXED_HEADER + 4 * p.rtp.cc..]
  {
    hide W32, FixedHeader, Overwrite;
    ghost var head := FixedHeader(p.rtp);
    assert head + [] == head;
    for i := 0 to p.rtp.cc
      invariant data[..] == head + CsrcImage(p.csrc, i) + before[RTP_FIXED_HEADER + 4 * i..]
    {
      hide CsrcImage;
      UnfoldCsrc(p.csrc, i);
      OverwriteNext(head + CsrcImage(p.csrc, i), before, W32(p.csrc[i]));
      Regroup(head, CsrcImage(p.csrc, i), W32(p.csrc[i]));
      WriteAt(data, RTP_FIXED_HEADER + 4 * i, W32(p.csrc[i]));
    }
  }

  lemma UnfoldCsrc(csrc: seq<U32>, n: nat)
    requires n < |csrc|
    ensures CsrcImage(csrc, n + 1) == CsrcImage(csrc, n) + W32(csrc[n])
  {
    hide W32;
  }

  /** `rtp_packet_serialize`: header then payload; the whole length, or -1. */
  method Serialize(p: Packet, data: array<Byte>) returns (n: int)
    requires WellFormed(p)
    modifies data
    ensures n == -1 <==> p.rtp.v != RTP_VERSION || |p.extension| % 4 != 0
                         || data.Length < HeaderRoom(p) + |p.payload|
    ensures n != -1 ==> n == HeaderRoom(p) + |p.payload| <= data.Length
    ensures n != -1 ==> data[..n] == Sent(p, old(data[..]))
  {
    var h := SerializeHeader(p, data);
    if h < RTP_FIXED_HEADER || h + |p.payload| > data.Length {
      return -1;
    }
    ghost var image := HeaderImage(p);
    WriteAt(data, h, p.payload);
    n := h + |p.payload|;
    assert data[..n] == data[..][..n];
  }

  /** What goes out: between header and payload the bytes counted for an extension that a clear X bit keeps
      from being written stay what they were. */
  function Sent(p: Packet, before: seq<Byte>): (b: seq<Byte>)
    requires WellFormed(p) && HeaderRoom(p) <= |before|
    ensures |b| == HeaderRoom(p) + |p.payload|
  {
    HeaderImage(p) + before[|HeaderImage(p)|..HeaderRoom(p)] + p.payload
  }

  // ---------------------------------------------------------------- deserialising

  /** `n` CSRC entries read from offset `at`. */
  function CsrcRead(b: seq<Byte>, at: nat, n: nat): (csrc: seq<U32>)
    requires |b| >= at + 4 * n
    ensures |csrc| == n
  {
    if n == 0 then [] else CsrcRead(b, at, n - 1) + [R32(b, at + 4 * (n - 1))]
  }

  function Zeros(n: nat): (z: seq<U32>)
    ensures |z| == n
  {
    seq(n, _ => 0)
  }

  /** The header word split by the RTP_V .. RTP_SEQ macros. */
  function ReadHeader(w: U32, timestamp: U32, ssrc: U32): (h: Header)
    ensures FieldWidths(h)
  {
    var flags := w / 0x1_0000;        // the upper half of the word
    Header(flags / 128 / 2 / 16 / 2 / 2 % 4, flags / 128 / 2 / 16 / 2 % 2, flags / 128 / 2 / 16 % 2,
           flags / 128 / 2 % 16, flags / 128 % 2, flags % 128, w % 0x1_0000, timestamp, ssrc)
  }

  /** `rtp_packet_deserialize`: the packet, or None on every path that returns -1. */
  function Deserialize(b: seq<Byte>): (r: Option<Packet>)
    ensures r.Some? ==> WellFormed(r.value) && r.value.rtp.v == RTP_VERSION
    ensures r.Some? ==> |r.value.payload| <= |b| - RTP_FIXED_HEADER
  {
    if |b| < RTP_FIXED_HEADER then None else
    var h := ReadHeader(R32(b, 0), R32(b, 4), R32(b, 8));
    var hdrlen := RTP_FIXED_HEADER + 4 * h.cc;
    if h.v != RTP_VERSION || |b| < hdrlen + (if h.x == 1 then 4 else 0) + (if h.p == 1 then 1 else 0) then None else
    var csrc := CsrcRead(b, RTP_FIXED_HEADER, h.cc) + Zeros(16 - h.cc);
    var extlen := if h.x == 1 then 4 * R16(b, hdrlen + 2) as int % 0x1_0000 else 0;
    var start := if h.x == 1 then hdrlen + 4 + extlen else hdrlen;
    if start > |b| then None
    else
      Finish(h, csrc, if h.x == 1 then R16(b, hdrlen) else 0, if h.x == 1 then b[hdrlen + 4..start] else [], b, start)
  }

  /** The payload from `start` on, without the padding the last byte counts. */
  function Finish(h: Header, csrc: seq<U32>, extprofile: U16, extension: seq<Byte>, b: seq<Byte>, start: nat)
    : (r: Option<Packet>)
    requires start <= |b| && b != []
    ensures r.Some? ==> r.value.rtp == h && r.value.csrc == csrc && r.value.extension == extension
    ensures r.Some? ==> |r.value.payload| <= |b| - start
  {
    var padding := if h.p == 1 then b[|b| - 1] as int else 0;
    if |b| - start < padding then None
    else Some(Packet(h, csrc, extprofile, extension, b[start..|b| - padding]))
  }

  /** The header word as the sender's bytes spell it splits back into the fields. */
  lemma HeaderWord(h: Header, w: U32)
    requires FieldWidths(h)
    requires w as int
          == (((((h.v * 2 + h.p) * 2 + h.x) * 16 + h.cc) * 2 + h.m) * 128 + h.pt) * 0x1_0000 + h.seqno as int
    ensures ReadHeader(w, h.timestamp, h.ssrc) == h
  {
    var w0 := w / 0x1_0000;
    var w1 := w0 / 128;
    var w2 := w1 / 2;
    var w3 := w2 / 16;
    var w4 := w3 / 2;
    assert w0 == ((((h.v * 2 + h.p) * 2 + h.x) * 16 + h.cc) * 2 + h.m) * 128 + h.pt;
    assert w1 == (((h.v * 2 + h.p) * 2 + h.x) * 16 + h.cc) * 2 + h.m;
    assert w2 == ((h.v * 2 + h.p) * 2 + h.x) * 16 + h.cc;
    assert w3 == (h.v * 2 + h.p) * 2 + h.x;
    assert w4 == h.v * 2 + h.p;
  }

  lemma HeaderFields(h: Header)
    requires FieldWidths(h)
    ensures ReadHeader(R32(FixedHeader(h), 0), h.timestamp, h.ssrc) == h
  {
    hide ReadHeader;
    var b := FixedHeader(h);
    var s := W16(h.seqno);
    assert b[2] == s[0] && b[3] == s[1];
    assert R16(b, 2) == h.seqno by { assert R16(s, 0) == h.seqno; }
    HeaderWord(h, R32(b, 0));
  }

  lemma ReadAt32(b: seq<Byte>, at: nat, v: U32)
    requires at + 4 <= |b| && b[at..at + 4] == W32(v)
    ensures R32(b, at) == v
  {
    hide W32, R32;
    ReadBack32(b[..at], v, b[at + 4..]);
    assert b[..at] + W32(v) + b[at + 4..] == b;
  }

  lemma {:induction false} CsrcRoundTrip(b: seq<Byte>, at: nat, csrc: seq<U32>, n: nat)
    requires n <= |csrc|
    requires at + 4 * n <= |b|
    requires b[at..at + 4 * n] == CsrcImage(csrc, n)
    ensures CsrcRead(b, at, n) == csrc[..n]
  {
    hide W32, R32;
    if n > 0 {
      var m := at + 4 * (n - 1);
      assert b[at..m] == b[at..at + 4 * n][..4 * (n - 1)] == CsrcImage(csrc, n - 1);
      CsrcRoundTrip(b, at, csrc, n - 1);
      assert b[m..m + 4] == b[at..at + 4 * n][4 * (n - 1)..] == W32(csrc[n - 1]);
      hide CsrcImage;
      ReadAt32(b, m, csrc[n - 1]);
      assert csrc[..n] == csrc[..n - 1] + [csrc[n - 1]];
    }
  }

  lemma FixedReadBack(h: Header, tail: seq<Byte>)
    requires FieldWidths(h)
    ensures var b := FixedHeader(h) + tail; ReadHeader(R32(b, 0), R32(b, 4), R32(b, 8)) == h
  {
    hide W32, ReadHeader;
    var fixed := FixedHeader(h);
    var b := fixed + tail;
    assert R32(b, 0) == R32(fixed, 0);
    HeaderFields(h);
    ReadBack32(fixed[..4], h.timestamp, W32(h.ssrc) + tail);
    assert b == fixed[..4] + W32(h.timestamp) + (W32(h.ssrc) + tail);
    ReadBack32(fixed[..8], h.ssrc, tail);
    assert b == fixed[..8] + W32(h.ssrc) + tail;
  }

  lemma ExtensionReadBack(head: seq<Byte>, profile: U16, ext: seq<Byte>, tail: seq<Byte>)
    requires |ext| % 4 == 0 && |ext| < 0x1_0000
    ensures var b := head + (W16(profile) + W16(|ext| / 4) + ext) + tail;
            var n := |head|;
            && R16(b, n) == profile
            && 4 * R16(b, n + 2) as int == |ext|
            && b[n + 4..n + 4 + |ext|] == ext
            && b[n + 4 + |ext|..] == tail
  {
    hide W16, R16;
    var b := head + (W16(profile) + W16(|ext| / 4) + ext) + tail;
    ReadBack16(head, profile, W16(|ext| / 4) + ext + tail);
    assert b == head + W16(profile) + (W16(|ext| / 4) + ext + tail);
    ReadBack16(head + W16(profile), |ext| / 4, ext + tail);
    assert b == (head + W16(profile)) + W16(|ext| / 4) + (ext + tail);
  }

  /** What a receiver makes of packet `p` when it arrives as `b`. A set P bit makes it take the last byte
      for the length of the padding to strip; the serialiser neither adds nor counts any. */
  function Received(p: Packet, b: seq<Byte>): Option<Packet>
    requires |b| >= RTP_FIXED_HEADER
  {
    if p.rtp.p == 0 then Some(p)
    else if p.payload == [] && p.extension == [] then None
    else
      var padding := b[|b| - 1] as int;
      if |p.payload| < padding then None else Some(p.(payload := p.payload[..|p.payload| - padding]))
  }

  /** The layout of section 5.1 of RFC 3550, byte by byte. */
  lemma HeaderOnWire(p: Packet)
    requires WellFormed(p) && p.rtp.v == RTP_VERSION
    ensures var b, h := HeaderImage(p), p.rtp;
            && b[0] as int == 128 + (if h.p == 1 then 32 else 0) + (if h.x == 1 then 16 else 0) + h.cc
            && b[1] as int == (if h.m == 1 then 128 else 0) + h.pt
            && b[2] as int * 256 + b[3] as int == h.seqno
            && b[4] as int * 16777216 + b[5] as int * 65536 + b[6] as int * 256 + b[7] as int == h.timestamp
            && b[8] as int * 16777216 + b[9] as int * 65536 + b[10] as int * 256 + b[11] as int == h.ssrc
  {
    var h, f := p.rtp, FixedHeader(p.rtp);
    var b := HeaderImage(p);
    assert forall i :: 0 <= i < 12 ==> b[i] == f[i];
    BigEndian16(h.seqno);
    BigEndian32(h.timestamp);
    BigEndian32(h.ssrc);
    hide CsrcImage, ExtensionImage, W16, W32;
    assert f == [f[0], f[1]] + W16(h.seqno) + W32(h.timestamp) + W32(h.ssrc);
    assert [b[2], b[3]] == W16(h.seqno);
    assert [b[4], b[5], b[6], b[7]] == W32(h.timestamp);
    assert [b[8], b[9], b[10], b[11]] == W32(h.ssrc);
  }

  lemma BigEndian16(v: U16)
    ensures |W16(v)| == 2 && W16(v)[0] as int * 256 + W16(v)[1] as int == v
  {
  }

  lemma BigEndian32(v: U32)
    ensures |W32(v)| == 4
    ensures W32(v)[0] as int * 16777216 + W32(v)[1] as int * 65536 + W32(v)[2] as int * 256 + W32(v)[3] as int == v
  {
    BigEndian16(v / 0x1_0000);
    BigEndian16(v % 0x1_0000);
    hide W16;
  }

  /** What Deserialize returns once each piece of `b` is known. */
  lemma {:induction false} Assemble(b: seq<Byte>, p: Packet, start: nat)
    requires WellFormed(p) && p.rtp.v == RTP_VERSION
    requires start == 12 + 4 * p.rtp.cc + (if p.rtp.x == 1 then 4 + |p.extension| else 0) <= |b|
    requires ReadHeader(R32(b, 0), R32(b, 4), R32(b, 8)) == p.rtp
    requires p.csrc == CsrcRead(b, 12, p.rtp.cc) + Zeros(16 - p.rtp.cc)
    requires p.rtp.x == 0 ==> p.extension == [] && p.extprofile == 0
    requires p.rtp.x == 1 ==> R16(b, 12 + 4 * p.rtp.cc) == p.extprofile
    requires p.rtp.x == 1 ==> 4 * R16(b, 14 + 4 * p.rtp.cc) as int == |p.extension|
    requires p.rtp.x == 1 ==> b[16 + 4 * p.rtp.cc..start] == p.extension
    requires b[start..] == p.payload
    ensures Deserialize(b) == Received(p, b)
  {
    hide R16, R32, ReadHeader, CsrcRead, Zeros, Finish;
    assert |p.payload| == |b| - start;
    if p.payload != [] || p.extension != [] || p.rtp.p == 0 {
      FinishIs(p, b, start);
      hide Received;
    }
  }

  lemma FinishIs(p: Packet, b: seq<Byte>, start: nat)
    requires start <= |b| && b[start..] == p.payload && 12 <= |b|
    requires FieldWidths(p.rtp) && (p.payload != [] || p.extension != [] || p.rtp.p == 0)
    ensures Finish(p.rtp, p.csrc, p.extprofile, p.extension, b, start) == Received(p, b)
  {
    assert |p.payload| == |b| - start && p.payload[..|p.payload|] == p.payload;
    if p.rtp.p == 1 {
      var padding := b[|b| - 1] as int;
      if padding <= |p.payload| {
        assert b[start..|b| - padding] == p.payload[..|p.payload| - padding];
      }
    } else {
      assert b[start..|b| - 0] == p.payload;
    }
  }

  lemma PlainReads(p: Packet)
    requires WellFormed(p) && p.rtp.v == RTP_VERSION
    requires |p.extension| % 4 == 0
    requires p.rtp.x == 0 ==> p.extension == [] && p.extprofile == 0
    ensures var b := HeaderImage(p) + p.payload;
            Deserialize(b) == Received(p.(csrc := p.csrc[..p.rtp.cc] + Zeros(16 - p.rtp.cc)), b)
  {
    hide R16, R32, W16, W32, ReadHeader, CsrcRead, FixedHeader, CsrcImage, ExtensionImage, Zeros, Deserialize, Received;
    var fixed, csrcs, ext := FixedHeader(p.rtp), CsrcImage(p.csrc, p.rtp.cc), ExtensionImage(p);
    var b := HeaderImage(p) + p.payload;
    var q := p.(csrc := p.csrc[..p.rtp.cc] + Zeros(16 - p.rtp.cc));
    assert b == fixed + csrcs + ext + p.payload;
    assert ReadHeader(R32(b, 0), R32(b, 4), R32(b, 8)) == p.rtp by {
      FixedReadBack(p.rtp, csrcs + ext + p.payload);
      assert b == fixed + (csrcs + ext + p.payload);
    }
    assert CsrcRead(b, 12, p.rtp.cc) == p.csrc[..p.rtp.cc] by {
      assert b[12..12 + 4 * p.rtp.cc] == csrcs;
      CsrcRoundTrip(b, 12, p.csrc, p.rtp.cc);
    }
    if p.rtp.x == 1 {
      ExtensionIs(p);
      ExtensionReadBack(fixed + csrcs, p.extprofile, p.extension, p.payload);
    }
    assert b[|HeaderImage(p)|..] == p.payload;
    hide HeaderImage;
    Assemble(b, q, |HeaderImage(p)|);
  }

  lemma ExtensionIs(p: Packet)
    requires WellFormed(p) && p.rtp.x == 1
    ensures ExtensionImage(p) == W16(p.extprofile) + W16(|p.extension| / 4) + p.extension
  {
  }

  /** The packet with the CSRC entries behind the used ones zeroed, as the parser leaves them. */
  function Normal(p: Packet): Packet
    requires WellFormed(p)
  {
    p.(csrc := p.csrc[..p.rtp.cc] + Zeros(16 - p.rtp.cc))
  }

  /** The packet a receiver takes the bytes for: with the X bit clear there is no extension, and the bytes
      left in its place belong to the payload. */
  function Apparent(p: Packet, before: seq<Byte>): (q: Packet)
    requires WellFormed(p) && HeaderRoom(p) <= |before|
    ensures WellFormed(q)
  {
    if p.rtp.x == 1 then Normal(p)
    else
      Normal(p).(extension := [], extprofile := 0,
                 payload := before[|HeaderImage(p)|..HeaderRoom(p)] + p.payload)
  }

  /** For every packet the serialiser accepts: the receiver reads every header field, the used part of the
      CSRC table, the extension if there is one, and the payload up to the padding it assumes. */
  lemma HeaderRoundTrip(p: Packet, before: seq<Byte>)
    requires WellFormed(p) && p.rtp.v == RTP_VERSION && |p.extension| % 4 == 0 && HeaderRoom(p) <= |before|
    ensures Deserialize(Sent(p, before)) == Received(Apparent(p, before), Sent(p, before))
  {
    hide *;
    if p.rtp.x == 1 {
      SentPlain(p, before);
      NormalIs(p, before);
      PlainReads(p);
    } else {
      var q := Stripped(p, before);
      StrippedIs(p, before);
      PlainReads(q);
    }
  }

  /** What is left of a packet whose X bit is clear. */
  function Stripped(p: Packet, before: seq<Byte>): (q: Packet)
    requires WellFormed(p) && HeaderRoom(p) <= |before|
    ensures WellFormed(q) && q.rtp == p.rtp && q.csrc == p.csrc && q.extension == [] && q.extprofile == 0
  {
    p.(extension := [], extprofile := 0, payload := before[|HeaderImage(p)|..HeaderRoom(p)] + p.payload)
  }

  lemma StrippedIs(p: Packet, before: seq<Byte>)
    requires WellFormed(p) && p.rtp.x != 1 && HeaderRoom(p) <= |before|
    ensures var q := Stripped(p, before);
            && Sent(p, before) == HeaderImage(q) + q.payload && WellFormed(q) && q.rtp.x == 0
            && Apparent(p, before) == q.(csrc := q.csrc[..q.rtp.cc] + Zeros(16 - q.rtp.cc))
  {
    hide FixedHeader, CsrcImage, Zeros, W16;
    var q := Stripped(p, before);
    assert HeaderImage(q) == HeaderImage(p);
    Regroup(HeaderImage(p), before[|HeaderImage(p)|..HeaderRoom(p)], p.payload);
  }

  lemma NormalIs(p: Packet, before: seq<Byte>)
    requires WellFormed(p) && p.rtp.x == 1 && HeaderRoom(p) <= |before|
    ensures Apparent(p, before) == p.(csrc := p.csrc[..p.rtp.cc] + Zeros(16 - p.rtp.cc))
  {
    hide HeaderImage;
  }

  /** Exactly when a packet comes back whole: what the X bit hides is empty, and the P bit is clear or the
      last byte happens to be zero and is not one of the fixed header. */
  lemma RoundTripIff(p: Packet, before: seq<Byte>)
    requires WellFormed(p) && p.rtp.v == RTP_VERSION && |p.extension| % 4 == 0 && HeaderRoom(p) <= |before|
    ensures var b := Sent(p, before);
            Deserialize(b) == Some(Normal(p))
            <==> && (p.rtp.x == 1 || (p.extension == [] && p.extprofile == 0))
                 && (p.rtp.p == 0 || ((p.payload != [] || p.extension != []) && b[|b| - 1] == 0))
  {
    hide *;
    var q, b := Apparent(p, before), Sent(p, before);
    HeaderRoundTrip(p, before);
    ApparentIs(p, before);
    ReceivedIff(q, b);
  }

  /** Only the P bit keeps a receiver from taking a packet as it appears, and it never invents an extension. */
  lemma ReceivedIff(q: Packet, b: seq<Byte>)
    requires |b| >= RTP_FIXED_HEADER
    ensures Received(q, b) == Some(q)
            <==> q.rtp.p == 0 || (q.rtp.p != 0 && (q.payload != [] || q.extension != []) && b[|b| - 1] == 0)
    ensures Received(q, b).Some? ==>
              Received(q, b).value.extension == q.extension && Received(q, b).value.extprofile == q.extprofile
  {
    assert q.payload[..|q.payload|] == q.payload;
    if q.rtp.p != 0 && (q.payload != [] || q.extension != []) && 0 < b[|b| - 1] as int <= |q.payload| {
      assert |q.payload[..|q.payload| - b[|b| - 1] as int]| < |q.payload|;
    }
  }

  /** A packet appears as it is exactly when the X bit hides nothing. */
  lemma ApparentIs(p: Packet, before: seq<Byte>)
    requires WellFormed(p) && HeaderRoom(p) <= |before|
    ensures var q, n := Apparent(p, before), Normal(p);
            && q.rtp == p.rtp && n.rtp == p.rtp && n.extension == p.extension && n.extprofile == p.extprofile
            && (p.rtp.x == 0 ==> q.extension == [] && q.extprofile == 0)
            && (p.rtp.x != 0 || (p.extension == [] && p.extprofile == 0) ==> q == n && q.payload == p.payload)
            && (p.rtp.p == 0 || p.rtp.p == 1) && (p.rtp.x == 0 || p.rtp.x == 1)
    ensures RTP_FIXED_HEADER <= |Sent(p, before)|
  {
    hide HeaderImage, Zeros, Sent;
    if p.rtp.x == 0 && p.extension == [] {
      NoGap(p, before);
    }
  }

  lemma SentPlain(p: Packet, before: seq<Byte>)
    requires WellFormed(p) && (p.rtp.x == 1 || p.extension == []) && HeaderRoom(p) <= |before|
    ensures Sent(p, before) == HeaderImage(p) + p.payload
  {
    hide FixedHeader, CsrcImage, W16;
    assert HeaderImage(p) + [] == HeaderImage(p);
  }

  lemma NoGap(p: Packet, before: seq<Byte>)
    requires WellFormed(p) && p.rtp.x == 0 && p.extension == [] && HeaderRoom(p) <= |before|
    ensures before[|HeaderImage(p)|..HeaderRoom(p)] + p.payload == p.payload
  {
    hide FixedHeader, CsrcImage, W16;
  }

  /** An extension of one word behind a clear X bit: sixteen bytes go out, four of them never written, and
      they come back as payload. */
  lemma HiddenExtensionIsPayload(p: Packet, before: seq<Byte>)
    requires WellFormed(p) && p.rtp.v == RTP_VERSION && p.rtp.x == 0 && p.rtp.p == 0 && p.rtp.cc == 0
    requires |p.extension| == 4 && p.payload == [] && |before| >= 16
    ensures |Sent(p, before)| == 16
    ensures Deserialize(Sent(p, before)).Some? && Deserialize(Sent(p, before)).value.payload == before[12..16]
  {
    hide Deserialize, FixedHeader, CsrcImage, W16, Zeros;
    HeaderRoundTrip(p, before);
    assert before[12..16] + [] == before[12..16];
  }
}
