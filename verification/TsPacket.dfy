/** One transport-stream packet: the layout src/dvr/ts_writer.cpp writes, and a parser for section
    2.4.3 of ISO/IEC 13818-1 that knows nothing of the writer. */
module TsPacket {
  import opened Bytes

  const SIZE := 188
  const SYNC := 0x47

  /** A 33-bit time stamp at 90 kHz. */
  type Stamp = x: int | 0 <= x < 0x2_0000_0000
  type Pid = x: int | 0 <= x < 0x2000
  type Counter = x: int | 0 <= x < 16

  // --- time stamps ------------------------------------------------------------------------

  /** `write_timestamp`: a prefix and three groups, each closed by a marker bit. */
  function TimestampBytes(prefix: Counter, ts: Stamp): (b: seq<Byte>)
    ensures |b| == 5
  {
    [prefix as int * 16 + ts / 0x4000_0000 * 2 + 1,
     ts / 0x40_0000 % 0x100,
     ts / 0x8000 % 0x80 * 2 + 1,
     ts / 0x80 % 0x100,
     ts % 0x80 * 2 + 1]
  }

  /** Section 2.4.3.7: the prefix of a time stamp that stands alone, and the marker bits. */
  predicate IsTimestamp(b: seq<Byte>)
    requires |b| >= 5
  {
    b[0] as int / 16 == 2 && b[0] as int % 2 == 1 && b[2] as int % 2 == 1 && b[4] as int % 2 == 1
  }

  function ReadTimestamp(b: seq<Byte>): int
    requires |b| >= 5
  {
    b[0] as int / 2 % 8 * 0x4000_0000 + b[1] as int * 0x40_0000 + b[2] as int / 2 * 0x8000
    + b[3] as int * 0x80 + b[4] as int / 2
  }

  lemma TimestampReadBack(prefix: Counter, ts: Stamp, rest: seq<Byte>)
    ensures ReadTimestamp(TimestampBytes(prefix, ts) + rest) == ts
    ensures prefix == 2 ==> IsTimestamp(TimestampBytes(prefix, ts) + rest)
  {
    var b := TimestampBytes(prefix, ts);
    var all := b + rest;
    assert all[0] == b[0] && all[1] == b[1] && all[2] == b[2] && all[3] == b[3] && all[4] == b[4];
    assert b[0] as int / 2 % 8 == ts / 0x4000_0000;
    assert ts / 0x80 / 0x100 == ts / 0x8000;
    assert ts / 0x8000 / 0x80 == ts / 0x40_0000;
    assert ts / 0x40_0000 / 0x100 == ts / 0x4000_0000;
  }

  /** `write_pcr`: a 33-bit base, six reserved bits and a zero extension. */
  function PcrBytes(base: Stamp): (b: seq<Byte>)
    ensures |b| == 6
  {
    [base / 0x200_0000, base / 0x2_0000 % 0x100, base / 0x200 % 0x100, base / 2 % 0x100,
     base % 2 * 0x80 + 0x7E, 0]
  }

  /** Section 2.4.3.5: the reserved bits are set; the extension is zero, so the base is the clock. */
  predicate IsPcr(b: seq<Byte>)
    requires |b| >= 6
  {
    b[4] as int % 0x80 == 0x7E && b[5] == 0
  }

  function ReadPcr(b: seq<Byte>): int
    requires |b| >= 6
  {
    b[0] as int * 0x200_0000 + b[1] as int * 0x2_0000 + b[2] as int * 0x200 + b[3] as int * 2
    + b[4] as int / 0x80
  }

  lemma PcrReadBack(base: Stamp, rest: seq<Byte>)
    ensures ReadPcr(PcrBytes(base) + rest) == base && IsPcr(PcrBytes(base) + rest)
  {
    var b := PcrBytes(base);
    var all := b + rest;
    assert all[0] == b[0] && all[1] == b[1] && all[2] == b[2] && all[3] == b[3] && all[4] == b[4] && all[5] == b[5];
    assert base / 2 / 0x100 == base / 0x200;
    assert base / 0x200 / 0x100 == base / 0x2_0000;
    assert base / 0x2_0000 / 0x100 == base / 0x200_0000;
  }

  // --- the parser -------------------------------------------------------------------------

  datatype Packet = Packet(start: bool, pid: int, counter: int, random: bool, pcr: Option<int>,
                           payload: seq<Byte>)

  /** 188 bytes behind the sync byte, without transport error or priority, and not scrambled. */
  function Parse(b: seq<Byte>): Option<Packet> {
    if |b| != 188 || b[0] != 0x47 || b[1] as int / 0x80 == 1 || b[1] as int / 0x20 % 2 == 1 || b[3] as int / 0x40 != 0
    then None
    else ParseBody(b[1] as int / 0x40 % 2 == 1, b[1] as int % 0x20 * 0x100 + b[2] as int,
                   b[3] as int % 16, b[3] as int / 16 % 4, b[4..])
  }

  /** `control` is adaptation_field_control: 1 payload only, 2 adaptation field only, 3 both. Of the optional
      fields only the PCR is known here; behind it the adaptation field holds nothing but stuffing. */
  function ParseBody(start: bool, pid: int, counter: int, control: int, rest: seq<Byte>): Option<Packet> {
    if control == 1 then Some(Packet(start, pid, counter, false, None, rest))
    else if control == 0 || rest == [] || 1 + rest[0] as int > |rest| then None
    else
      var length := rest[0] as int;
      var flags := if length == 0 then 0 else rest[1] as int;
      var timed := flags / 0x10 % 2 == 1;
      if flags / 0x80 == 1 || flags / 0x20 % 2 == 1 || flags % 0x10 != 0 || (timed && length < 7) then None
      else if timed && !IsPcr(rest[2..]) then None
      else if !Stuffing(rest[if length == 0 then 1 else if timed then 8 else 2..1 + length]) then None
      else
        var pcr := if timed then Some(ReadPcr(rest[2..])) else None;
        Some(Packet(start, pid, counter, flags / 0x40 % 2 == 1, pcr,
                    if control == 2 then [] else rest[1 + length..]))
  }

  predicate Stuffing(b: seq<Byte>) { forall i :: 0 <= i < |b| ==> b[i] == 0xFF }

  // --- the writer's layouts ---------------------------------------------------------------

  function Head(start: bool, pid: Pid, counter: Counter, adaptation: bool): (b: seq<Byte>)
    ensures |b| == 4
  {
    [SYNC, (if start then 0x40 else 0) + pid / 0x100, pid % 0x100,
     (if adaptation then 0x30 else 0x10) + counter]
  }

  lemma ParseHead(start: bool, pid: Pid, counter: Counter, adaptation: bool, rest: seq<Byte>)
    requires |rest| == SIZE - 4
    ensures Parse(Head(start, pid, counter, adaptation) + rest)
         == ParseBody(start, pid, counter, if adaptation then 3 else 1, rest)
  {
    hide ParseBody;
    var h := Head(start, pid, counter, adaptation);
    var b := h + rest;
    assert b[..4] == h && b[4..] == rest;
    assert b[0] == h[0] && b[1] == h[1] && b[2] == h[2] && b[3] == h[3];
  }

  function Fill(n: nat): (b: seq<Byte>)
    ensures |b| == n
  {
    seq(n, _ => 0xFF)
  }

  lemma FillIsStuffing(n: nat)
    ensures Stuffing(Fill(n))
  {
  }

  /** The adaptation field of a video packet with `pad` bytes to spare. The first packet of a unit has
      one anyway, for the PCR and the random-access flag; a later one gets it only to absorb padding. */
  function Adaptation(first: bool, keyframe: bool, pcr: Stamp, pad: nat): (b: seq<Byte>)
    requires pad <= if first then 176 else 184
    ensures |b| == (if first then 8 else 0) + pad
  {
    if first then [7 + pad, if keyframe then 0x50 else 0x10] + PcrBytes(pcr) + Fill(pad)
    else if pad == 0 then []
    else if pad == 1 then [0]
    else [pad - 1, 0] + Fill(pad - 2)
  }

  function Room(first: bool): nat { if first then 176 else 184 }

  lemma ParsePcrField(keyframe: bool, pcr: Stamp, pad: nat, slice: seq<Byte>, pid: int, counter: int)
    requires |slice| + pad == Room(true)
    ensures ParseBody(true, pid, counter, 3, Adaptation(true, keyframe, pcr, pad) + slice)
         == Some(Packet(true, pid, counter, keyframe, Some(pcr), slice))
  {
    hide PcrBytes, ReadPcr, Fill;
    var a := Adaptation(true, keyframe, pcr, pad);
    var rest := a + slice;
    assert rest[0] == a[0] && rest[1] == a[1];
    assert rest[|a|..] == slice;
    PcrReadBack(pcr, Fill(pad) + slice);
    assert rest[2..] == PcrBytes(pcr) + (Fill(pad) + slice);
    assert rest[8..8 + pad] == Fill(pad);
    assert Stuffing(Fill(pad)) by { FillIsStuffing(pad); }
  }

  lemma ParsePadField(keyframe: bool, pcr: Stamp, pad: nat, slice: seq<Byte>, pid: int, counter: int)
    requires |slice| + pad == Room(false) && pad > 0
    ensures ParseBody(false, pid, counter, 3, Adaptation(false, keyframe, pcr, pad) + slice)
         == Some(Packet(false, pid, counter, false, None, slice))
  {
    hide PcrBytes, ReadPcr, Fill;
    var a := Adaptation(false, keyframe, pcr, pad);
    var rest := a + slice;
    assert rest[0] == a[0];
    assert rest[|a|..] == slice;
    if pad > 1 {
      assert rest[1] == a[1];
      assert rest[2..pad] == Fill(pad - 2);
      assert Stuffing(Fill(pad - 2)) by { FillIsStuffing(pad - 2); }
    }
  }

  /** A packet of the video stream: header, adaptation field, and a slice of the PES packet. */
  function VideoPacket(pid: Pid, first: bool, keyframe: bool, pcr: Stamp, counter: Counter,
                       slice: seq<Byte>): (b: seq<Byte>)
    requires |slice| <= Room(first)
    ensures |b| == SIZE
  {
    var pad := Room(first) - |slice|;
    Head(first, pid, counter, first || pad > 0) + (Adaptation(first, keyframe, pcr, pad) + slice)
  }

  /** Every field of a video packet comes back, whatever the stuffing. */
  lemma VideoPacketParses(pid: Pid, first: bool, keyframe: bool, pcr: Stamp, counter: Counter,
                          slice: seq<Byte>)
    requires |slice| <= Room(first)
    ensures Parse(VideoPacket(pid, first, keyframe, pcr, counter, slice))
         == Some(Packet(first, pid, counter, first && keyframe, if first then Some(pcr) else None, slice))
  {
    hide Parse, ParseBody, Head, Adaptation;
    var pad := Room(first) - |slice|;
    var rest := Adaptation(first, keyframe, pcr, pad) + slice;
    ParseHead(first, pid, counter, first || pad > 0, rest);
    if first {
      ParsePcrField(keyframe, pcr, pad, slice, pid, counter);
    } else if pad > 0 {
      ParsePadField(keyframe, pcr, pad, slice, pid, counter);
    } else {
      PlainBody(first, keyframe, pcr, slice, pid, counter);
    }
  }

  lemma PlainBody(first: bool, keyframe: bool, pcr: Stamp, slice: seq<Byte>, pid: int, counter: int)
    requires !first && |slice| == Room(first)
    ensures ParseBody(first, pid, counter, 1, Adaptation(first, keyframe, pcr, 0) + slice)
         == Some(Packet(first, pid, counter, false, None, slice))
  {
    assert Adaptation(first, keyframe, pcr, 0) + slice == slice;
  }
}
