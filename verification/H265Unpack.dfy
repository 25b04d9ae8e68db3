/** The H.265 RTP unpacker of lib/librtp/payload/rtp-h265-unpack.c. The DONL field is never enabled
    in the source, so its branches are not here. */
module H265Unpack {
  import opened Bytes
  import opened RtpPacket
  import opened AnnexB
  import opened H265Pack

  const MAX_SIZE := 10 * 1024 * 1024       // RTP_PAYLOAD_MAX_SIZE
  const PACKET_LOST := 0x0100
  const EINVAL := 22
  const ENOMEM := 12

  /** The unpacker's fields; `buf` is `ptr[0..size]`, `flags` is -1 until the first packet. */
  datatype Decoder = Decoder(seqno: U16, flags: int, buf: seq<Byte>, capacity: nat)

  const Fresh := Decoder(0, -1, [], 0)

  /** One call of the packet handler. */
  datatype Emit = Emit(data: seq<Byte>, timestamp: U32, flags: int)

  datatype Outcome = Outcome(st: Decoder, out: seq<Emit>, ret: int)

  /** A packet handed to the unpacker, and whether a `realloc` made for it would succeed. */
  datatype Arrival = Arrival(packet: seq<Byte>, allocOk: bool)

  // ---------------------------------------------------------------- one packet

  /** Sequence tracking: a gap drops the partial NAL unit. */
  function Track(st: Decoder, seqno: U16): (r: Decoder)
    ensures r.seqno == seqno && r.flags != -1
  {
    var st0 := if st.flags == -1 then st.(flags := 0, seqno := Mod16(seqno - 1)) else st;
    if seqno != Mod16(st0.seqno + 1) then st0.(seqno := seqno, flags := PACKET_LOST, buf := [])
    else st0.(seqno := seqno)
  }

  /** The buffer capacity after room for `bytes` of payload has been made. */
  function Grown(st: Decoder, bytes: nat): nat {
    if |st.buf| + bytes - 3 + 2 > st.capacity then
      var size := |st.buf| + bytes + 2;
      size + Max(size / 4, 128000)
    else st.capacity
  }

  /** The NAL unit header rebuilt from a fragment's payload header and FU header. */
  function NalHeader(pl: seq<Byte>): (h: seq<Byte>)
    requires |pl| >= 3
    ensures |h| == 2
  {
    [WithType(pl[0], pl[2] % 64), pl[1]]
  }

  predicate FuStart(pl: seq<Byte>) requires |pl| >= 3 { pl[2] >= 128 }
  predicate FuEnd(pl: seq<Byte>) requires |pl| >= 3 { pl[2] / 64 % 2 == 1 }

  /** The size guard: the fragment is refused, and whatever is being reassembled stays. */
  predicate Oversize(buf: seq<Byte>, pl: seq<Byte>) { |buf| + |pl| - 3 > MAX_SIZE }

  /** `rtp_h265_unpack_fu`. */
  function UnpackFu(st: Decoder, pl: seq<Byte>, timestamp: U32, allocOk: bool): (r: Outcome)
    requires |pl| >= 3
  {
    if Oversize(st.buf, pl) then Outcome(st, [], -EINVAL)
    else if Grown(st, |pl|) != st.capacity && !allocOk then
      Outcome(st.(flags := PACKET_LOST, buf := []), [], -ENOMEM)
    else
      var st0 := st.(capacity := Grown(st, |pl|));
      if !FuStart(pl) && st.buf == [] then Outcome(st0.(flags := PACKET_LOST), [], 0)
      else
        var buf := (if FuStart(pl) then NalHeader(pl) else st.buf) + pl[3..];
        if FuEnd(pl) then Outcome(st0.(flags := 0, buf := []), [Emit(START_CODE + buf, timestamp, st.flags)], 1)
        else Outcome(st0.(buf := buf), [], 1)
  }

  /** `rtp_h265_unpack_ap` from offset `at` on: units are emitted bare, without a start code. */
  function UnpackAp(st: Decoder, pl: seq<Byte>, at: nat, timestamp: U32): (r: Outcome)
    requires at <= |pl|
    decreases |pl| - at
  {
    if |pl| - at <= 2 then Outcome(st, [], 1)
    else
      var len := R16(pl, at) as int;
      if len + 2 > |pl| - at || len < 3 then Outcome(st.(flags := PACKET_LOST, buf := []), [], -EINVAL)
      else
        var e := Emit(pl[at + 2..at + 2 + len], timestamp, st.flags);
        var rest := UnpackAp(st.(flags := 0, buf := []), pl, at + 2 + len, timestamp);
        Outcome(rest.st, [e] + rest.out, rest.ret)
  }

  lemma UnfoldAp(st: Decoder, pl: seq<Byte>, at: nat, timestamp: U32)
    requires at <= |pl|
    ensures |pl| - at <= 2 ==> UnpackAp(st, pl, at, timestamp) == Outcome(st, [], 1)
    ensures |pl| - at > 2 ==>
              var len := R16(pl, at) as int;
              if len + 2 > |pl| - at || len < 3 then
                UnpackAp(st, pl, at, timestamp) == Outcome(st.(flags := PACKET_LOST, buf := []), [], -EINVAL)
              else
                var e := Emit(pl[at + 2..at + 2 + len], timestamp, st.flags);
                var rest := UnpackAp(st.(flags := 0, buf := []), pl, at + 2 + len, timestamp);
                UnpackAp(st, pl, at, timestamp) == Outcome(rest.st, [e] + rest.out, rest.ret)
  {
    hide R16;
  }

  /** The body of `rtp_h265_unpack_input` once the RTP header is off. */
  function Accept(st: Decoder, p: Packet, allocOk: bool): (r: Outcome)
    requires |p.payload| >= 3
  {
    var st0 := Track(st, p.rtp.seqno);
    var nal := NalType(p.payload[0]);
    if nal >= 50 then Outcome(st0, [], 0)
    else if nal == 48 then UnpackAp(st0, p.payload, 2, p.rtp.timestamp)
    else if nal == 49 then UnpackFu(st0, p.payload, p.rtp.timestamp, allocOk)
    else Outcome(st0.(flags := 0, buf := []), [Emit(START_CODE + p.payload, p.rtp.timestamp, st0.flags)], 1)
  }

  /** The packets that get past the RTP header checks. */
  function Parse(b: seq<Byte>): (r: Option<Packet>)
    ensures r.Some? ==> |r.value.payload| >= 3
  {
    var p := Deserialize(b);
    if p.Some? && |p.value.payload| >= 3 then p else None
  }

  /** `rtp_h265_unpack_input`. */
  function InputStep(st: Decoder, a: Arrival): (r: Outcome)
  {
    var p := Parse(a.packet);
    if p.None? then Outcome(st, [], -EINVAL) else Accept(st, p.value, a.allocOk)
  }

  // ---------------------------------------------------------------- the unpacker object

  class H265Unpacker {
    var seqno: U16
    var flags: int
    var buf: seq<Byte>
    var capacity: nat

    function Value(): Decoder reads this {
      Decoder(seqno, flags, buf, capacity)
    }

    /** Whatever is buffered fits the allocation. */
    ghost predicate Valid() reads this {
      |buf| <= capacity
    }

    constructor ()
      ensures Value() == Fresh && Valid()
    {
      seqno, flags, buf, capacity := 0, -1, [], 0;
    }

    method Input(packet: seq<Byte>, allocOk: bool) returns (ret: int, out: seq<Emit>)
      requires Valid()
      modifies this
      ensures Valid()
      ensures Outcome(Value(), out, ret) == InputStep(old(Value()), Arrival(packet, allocOk))
    {
      hide Parse, UnpackFu, UnpackAp;
      var parsed := Parse(packet);
      if parsed.None? {
        return -EINVAL, [];
      }
      var p := parsed.value;
      if flags == -1 {
        flags := 0;
        seqno := Mod16(p.rtp.seqno - 1);
      }
      if p.rtp.seqno != Mod16(seqno + 1) {
        flags := PACKET_LOST;
        buf := [];
      }
      seqno := p.rtp.seqno;
      var nal := NalType(p.payload[0]);
      if nal >= 50 {
        return 0, [];
      } else if nal == 48 {
        ret, out := Aggregate(p.payload, p.rtp.timestamp);
      } else if nal == 49 {
        ret, out := Fragment(p.payload, p.rtp.timestamp, allocOk);
      } else {
        out := [Emit(START_CODE + p.payload, p.rtp.timestamp, flags)];
        flags, buf := 0, [];
        ret := 1;
      }
    }

    method Fragment(pl: seq<Byte>, timestamp: U32, allocOk: bool) returns (ret: int, out: seq<Emit>)
      requires Valid() && |pl| >= 3
      modifies this`flags, this`buf, this`capacity
      ensures Valid()
      ensures Outcome(Value(), out, ret) == UnpackFu(old(Value()), pl, timestamp, allocOk)
    {
      if |buf| + |pl| - 3 > MAX_SIZE {
        return -EINVAL, [];
      }
      if |buf| + |pl| - 3 + 2 > capacity {
        var size := |buf| + |pl| + 2;
        if !allocOk {
          flags, buf := PACKET_LOST, [];
          return -ENOMEM, [];
        }
        capacity := size + Max(size / 4, 128000);
      }
      if FuStart(pl) {
        buf := NalHeader(pl);
      } else if buf == [] {
        flags := PACKET_LOST;
        return 0, [];
      }
      assert |buf| + |pl| - 3 <= capacity;     // the memmove stays inside the buffer
      buf := buf + pl[3..];
      out := [];
      if FuEnd(pl) {
        out := [Emit(START_CODE + buf, timestamp, flags)];
        flags, buf := 0, [];
      }
      ret := 1;
    }

    method Aggregate(pl: seq<Byte>, timestamp: U32) returns (ret: int, out: seq<Emit>)
      requires Valid() && |pl| >= 3
      modifies this`flags, this`buf
      ensures Valid()
      ensures Outcome(Value(), out, ret) == UnpackAp(old(Value()), pl, 2, timestamp)
    {
      hide UnpackAp, R16;
      var at := 2;
      out := [];
      while |pl| - at > 2
        invariant 2 <= at <= |pl| && Valid()
        invariant var rest := UnpackAp(Value(), pl, at, timestamp);
                  UnpackAp(old(Value()), pl, 2, timestamp) == Outcome(rest.st, out + rest.out, rest.ret)
        decreases |pl| - at
      {
        UnfoldAp(Value(), pl, at, timestamp);
        var len := R16(pl, at) as int;
        if len + 2 > |pl| - at || len < 3 {
          flags, buf := PACKET_LOST, [];
          return -EINVAL, out;
        }
        var e := [Emit(pl[at + 2..at + 2 + len], timestamp, flags)];
        flags, buf := 0, [];
        at := at + 2 + len;
        Regroup(out, e, UnpackAp(Value(), pl, at, timestamp).out);
        out := out + e;
      }
      UnfoldAp(Value(), pl, at, timestamp);
      ret := 1;
    }
  }

  // ---------------------------------------------------------------- runs

  /** The state after a stream of arrivals, and everything emitted on the way. */
  function Run(st: Decoder, h: seq<Arrival>): (r: Decoder)
  {
    if h == [] then st else InputStep(Run(st, h[..|h| - 1]), h[|h| - 1]).st
  }

  function Emitted(st: Decoder, h: seq<Arrival>): (r: seq<Emit>)
  {
    if h == [] then [] else Emitted(st, h[..|h| - 1]) + InputStep(Run(st, h[..|h| - 1]), h[|h| - 1]).out
  }

  lemma {:induction false} RunAppend(st: Decoder, a: seq<Arrival>, b: seq<Arrival>)
    ensures Run(st, a + b) == Run(Run(st, a), b)
    ensures Emitted(st, a + b) == Emitted(st, a) + Emitted(Run(st, a), b)
    decreases |b|
  {
    hide InputStep;
    if b == [] {
      assert a + b == a;
    } else {
      var b0, x := b[..|b| - 1], b[|b| - 1];
      assert (a + b)[..|a + b| - 1] == a + b0;
      assert (a + b)[|a + b| - 1] == x;
      RunAppend(st, a, b0);
    }
  }
}
