/** Packing and unpacking are inverse: the round trip of an access unit over an in-order channel. */
module H265RoundTrip {
  import opened Bytes
  import opened RtpPacket
  import opened AnnexB
  import opened H265Pack
  import opened H265Unpack

  /** The packets arriving in the order they were sent, with memory available. */
  function Arrivals(packets: seq<seq<Byte>>): (r: seq<Arrival>)
    ensures |r| == |packets|
  {
    if packets == [] then [] else Arrivals(packets[..|packets| - 1]) + [Arrival(packets[|packets| - 1], true)]
  }

  lemma {:induction false} ArrivalsAppend(a: seq<seq<Byte>>, b: seq<seq<Byte>>)
    ensures Arrivals(a + b) == Arrivals(a) + Arrivals(b)
    decreases |b|
  {
    if b == [] {
      assert a + b == a;
    } else {
      assert (a + b)[..|a + b| - 1] == a + b[..|b| - 1];
      ArrivalsAppend(a, b[..|b| - 1]);
    }
  }

  /** The decoder is between NAL units and expects sequence number `seqno` next. */
  ghost predicate Expects(st: Decoder, seqno: U16) {
    st.buf == [] && (st.flags == -1 || (st.flags == 0 && Mod16(st.seqno + 1) == seqno))
  }

  /** A NAL unit the pair carries: at least 3 bytes, at most the reassembly limit, and - when it goes
      out in one packet - not one of the types RFC 7798 reserves for its own packet formats. */
  predicate Carried(c: Stream, nal: seq<Byte>) {
    3 <= |nal| <= MAX_SIZE && (|nal| + RTP_FIXED_HEADER <= c.size ==> NalType(nal[0]) < 48)
  }

  lemma {:induction false} RunOne(st: Decoder, packet: seq<Byte>)
    ensures var h := [Arrival(packet, true)];
            && Run(st, h) == InputStep(st, Arrival(packet, true)).st
            && Emitted(st, h) == InputStep(st, Arrival(packet, true)).out
  {
    hide InputStep;
    var h := [Arrival(packet, true)];
    assert h[..0] == [];
    assert Run(st, []) == st && Emitted(st, []) == [];
  }

  /** What the decoder does with a packet of the packer's making. */
  lemma StepOnWire(st: Decoder, c: Stream, seqno: U16, m: bool, payload: seq<Byte>)
    requires ValidStream(c) && |payload| >= 3
    ensures InputStep(st, Arrival(Wire(c, seqno, m, payload), true)) == Accept(st, RtpOf(c, seqno, m, payload), true)
  {
    hide Accept, Deserialize, Wire;
    WireReadBack(c, seqno, m, payload);
  }

  lemma Tracked(st: Decoder, seqno: U16)
    requires st.flags == -1 || (st.flags == 0 && Mod16(st.seqno + 1) == seqno)
    ensures Track(st, seqno) == Decoder(seqno, 0, st.buf, st.capacity)
  {
  }

  /** A NAL unit in a single packet comes out whole, whatever was lost before. */
  lemma SingleRoundTrip(st: Decoder, c: Stream, seqno: U16, m: bool, nal: seq<Byte>)
    requires ValidStream(c) && |nal| >= 3 && NalType(nal[0]) < 48
    ensures var r := InputStep(st, Arrival(Wire(c, seqno, m, nal), true));
            && r.out == [Emit(START_CODE + nal, c.timestamp, Track(st, seqno).flags)]
            && Expects(r.st, Mod16(seqno + 1))
  {
    hide InputStep, Wire, Track, Mod16;
    StepOnWire(st, c, seqno, m, nal);
  }

  /** A fragment in sequence extends the partial NAL unit, and the last one completes it. */
  lemma FragmentStep(st: Decoder, c: Stream, seqno: U16, m: bool, nal: seq<Byte>, pos: nat, n: nat, end: bool)
    requires ValidStream(c) && 2 <= pos && 0 < n && pos + n <= |nal| <= MAX_SIZE
    requires Track(st, seqno).buf == if pos == 2 then [] else nal[..pos]
    ensures var r := InputStep(st, Arrival(Wire(c, seqno, m, FuPayload(nal, pos, n, pos == 2, end)), true));
            var flags := Track(st, seqno).flags;
            && r.st.seqno == seqno && r.st.flags == (if end then 0 else flags)
            && (end ==> r.st.buf == [] && r.out == [Emit(START_CODE + nal[..pos + n], c.timestamp, flags)])
            && (!end ==> r.st.buf == nal[..pos + n] && r.out == [])
  {
    hide InputStep, Wire, Track, Mod16, WithType, NalType, FuHeader, Grown;
    var pl := FuPayload(nal, pos, n, pos == 2, end);
    StepOnWire(st, c, seqno, m, pl);
    RetypeBack(nal[0], H265_RTP_FU);
    assert pl[3..] == nal[pos..pos + n];
    if pos == 2 {
      assert NalHeader(pl) == nal[..2];
    }
    assert nal[..pos] + nal[pos..pos + n] == nal[..pos + n];
  }

  /** The fragments from `pos` on complete the NAL unit of which `nal[..pos]` is already there. It carries
      the flag for what was lost before. */
  lemma {:induction false} FragmentsRoundTrip(st: Decoder, c: Stream, seqno: U16, nal: seq<Byte>, pos: nat, mark: bool)
    requires ValidStream(c) && 2 <= pos < |nal| <= MAX_SIZE
    requires |nal| + RTP_FIXED_HEADER > c.size
    requires Track(st, seqno).buf == if pos == 2 then [] else nal[..pos]
    ensures var h := Arrivals(Fragments(c, seqno, nal, pos, mark));
            && Emitted(st, h) == [Emit(START_CODE + nal, c.timestamp, Track(st, seqno).flags)]
            && Expects(Run(st, h), Mod16(seqno + |h|))
    decreases |nal| - pos
  {
    hide Fragments, Wire, FuPayload, Mod16, InputStep, Run, Emitted, Track;
    FragmentsStep(c, seqno, nal, pos, mark);
    var end := |nal| - pos + RTP_FIXED_HEADER <= c.size - N_FU_HEADER;
    var n := if end then |nal| - pos else c.size - RTP_FIXED_HEADER - N_FU_HEADER;
    assert pos == 2 ==> !end;
    var first := Wire(c, seqno, mark && end, FuPayload(nal, pos, n, pos == 2, end));
    var rest := Fragments(c, Mod16(seqno + 1), nal, pos + n, mark);
    FragmentStep(st, c, seqno, mark && end, nal, pos, n, end);
    RunOne(st, first);
    var st1 := InputStep(st, Arrival(first, true)).st;
    TrackNext(st1, seqno);
    ArrivalsAppend([first], rest);
    assert Arrivals([first]) == [Arrival(first, true)];
    RunAppend(st, [Arrival(first, true)], Arrivals(rest));
    if end {
      FragmentsDone(c, Mod16(seqno + 1), nal, mark);
      RunNothing(st1);
      assert nal[..pos + n] == nal;
    } else {
      FragmentsRoundTrip(st1, c, Mod16(seqno + 1), nal, pos + n, mark);
      Mod16Add(seqno + 1, |rest|);
    }
  }

  lemma TrackNext(st: Decoder, seqno: U16)
    requires st.seqno == seqno && st.flags != -1
    ensures Track(st, Mod16(seqno + 1)) == st.(seqno := Mod16(seqno + 1))
  {
  }

  lemma {:induction false} RunNothing(st: Decoder)
    ensures Run(st, []) == st && Emitted(st, []) == []
  {
  }

  /** The decoder carries no other partial unit once a packet `seqno` is in. */
  ghost predicate Clear(st: Decoder, seqno: U16) { Track(st, seqno).buf == [] }

  lemma ExpectsIsClear(st: Decoder, seqno: U16)
    requires Expects(st, seqno)
    ensures Clear(st, seqno) && Track(st, seqno).flags == 0
  {
  }

  /** One NAL unit through the packer and back, whichever packet form it takes and whatever was lost
      before it. */
  lemma {:induction false} NalRoundTrip(st: Decoder, c: Stream, seqno: U16, nal: seq<Byte>, mark: bool)
    requires ValidStream(c) && Carried(c, nal)
    requires Clear(st, seqno) || |nal| + RTP_FIXED_HEADER <= c.size
    ensures var p := PackNal(c, seqno, nal, mark);
            && p.Some?
            && Emitted(st, Arrivals(p.value)) == [Emit(START_CODE + nal, c.timestamp, Track(st, seqno).flags)]
            && Expects(Run(st, Arrivals(p.value)), Mod16(seqno + |p.value|))
  {
    hide Fragments, Wire, Mod16, InputStep, Run, Emitted, Track;
    if |nal| + RTP_FIXED_HEADER <= c.size {
      var m := mark && NalType(nal[0]) < 32;
      SingleRoundTrip(st, c, seqno, m, nal);
      RunOne(st, Wire(c, seqno, m, nal));
      assert Arrivals([Wire(c, seqno, m, nal)]) == [Arrival(Wire(c, seqno, m, nal), true)];
    } else {
      FragmentsRoundTrip(st, c, seqno, nal, 2, mark);
    }
  }

  /** The payload bytes handed to the application. */
  function Delivered(out: seq<Emit>): (d: seq<Byte>)
  {
    if out == [] then [] else out[0].data + Delivered(out[1..])
  }

  /** One emission per unit, in order; only the first can carry a flag. */
  function Emissions(nals: seq<seq<Byte>>, timestamp: U32, flags: int): (out: seq<Emit>)
    ensures |out| == |nals|
    ensures forall k :: 0 <= k < |nals| ==>
              out[k] == Emit(START_CODE + nals[k], timestamp, if k == 0 then flags else 0)
  {
    if nals == [] then [] else [Emit(START_CODE + nals[0], timestamp, flags)] + Emissions(nals[1..], timestamp, 0)
  }

  lemma {:induction false} EmissionsJoin(nals: seq<seq<Byte>>, timestamp: U32, flags: int)
    ensures Delivered(Emissions(nals, timestamp, flags)) == Join(nals)
  {
    if nals != [] {
      EmissionsJoin(nals[1..], timestamp, 0);
      assert Emissions(nals, timestamp, flags)[1..] == Emissions(nals[1..], timestamp, 0);
    }
  }

  /** A list of units from any state that carries no other partial unit. */
  lemma {:induction false} UnitsRoundTrip(st: Decoder, c: Stream, seqno: U16, nals: seq<seq<Byte>>)
    requires ValidStream(c) && (nals == [] ==> Expects(st, seqno))
    requires Clear(st, seqno) || (nals != [] && |nals[0]| + RTP_FIXED_HEADER <= c.size)
    requires forall n :: n in nals ==> Carried(c, n)
    ensures var h := Arrivals(PackAll(c, seqno, Marked(nals)));
            && Emitted(st, h) == Emissions(nals, c.timestamp, Track(st, seqno).flags)
            && Expects(Run(st, h), Mod16(seqno + |h|))
    decreases |nals|
  {
    hide PackAll, PackNal, Mod16, Run, Emitted, Carried, Marked, Join, Arrivals, ValidStream, Track, Clear, Expects;
    var units := Marked(nals);
    MarkedStep(nals);
    if nals == [] {
      PackAllDone(c, seqno, units);
      RunNothing(st);
      SeqnoIsMod(seqno);
    } else {
      var nal, mark := nals[0], |nals| == 1;
      assert nal in nals;
      NalRoundTrip(st, c, seqno, nal, mark);
      PackAllStep(c, seqno, units, 0);
      var p := PackNal(c, seqno, nal, mark).value;
      var seqno1, st1 := Mod16(seqno + |p|), Run(st, Arrivals(p));
      assert units[0..] == units && units[1..] == Marked(nals[1..]);
      var rest := PackAll(c, seqno1, units[1..]);
      ExpectsIsClear(st1, seqno1);
      UnitsRoundTrip(st1, c, seqno1, nals[1..]);
      ArrivalsAppend(p, rest);
      RunAppend(st, Arrivals(p), Arrivals(rest));
      Mod16Add(seqno + |p|, |rest|);
    }
  }

  lemma {:induction false} MarkedStep(nals: seq<seq<Byte>>)
    ensures nals == [] ==> Marked(nals) == [] && Arrivals([]) == []
    ensures nals != [] ==> Marked(nals) == [Nalu(nals[0], |nals| == 1)] + Marked(nals[1..])
  {
  }

  /** The marker bit of a packet on the wire. */
  function HasMarker(packet: seq<Byte>): bool { Deserialize(packet).Some? && Deserialize(packet).value.rtp.m == 1 }

  lemma MarkerOfWire(c: Stream, seqno: U16, m: bool, payload: seq<Byte>)
    requires ValidStream(c)
    ensures HasMarker(Wire(c, seqno, m, payload)) == m
  {
    hide Deserialize, Wire;
    WireReadBack(c, seqno, m, payload);
  }

  /** A fragment on the wire, as section 4.4.3 of RFC 7798 lays it out: payload header of type 49 between the
      outer bits of the unit's own, then S, E and the unit's type, then its bytes. */
  lemma {:induction false} FragmentOnWire(c: Stream, seqno: U16, nal: seq<Byte>, mark: bool, i: nat)
    requires ValidStream(c) && |nal| >= 3 && |nal| + 12 > c.size && i < |Fragments(c, seqno, nal, 2, mark)|
    ensures var all := Fragments(c, seqno, nal, 2, mark);
            var last, at := i == |all| - 1, 2 + i * (c.size - 15);
            var p := Deserialize(all[i]);
            && p.Some? && c.size > 15 && 0 < at < |nal|
            && var b := p.value.payload;
            && b == [nal[0] as int / 128 * 128 + 98 + nal[0] as int % 2, nal[1],
                     (if i == 0 then 128 else 0) + (if last then 64 else 0) + nal[0] as int / 2 % 64]
                    + nal[at..Min(|nal|, at + (c.size - 15))]
  {
    hide *;
    SizesAre(c);
    FragmentShape(c, seqno, nal, 2, mark, i);
    var last := i == |Fragments(c, seqno, nal, 2, mark)| - 1;
    var at := 2 + i * (c.size - 15);
    var n := if last then |nal| - at else c.size - 15;
    FuBytesAre(nal, at, n, i == 0, last);
    WireReadBack(c, Mod16(seqno + i), last && mark, FuPayload(nal, at, n, i == 0, last));
    PayloadOf(c, Mod16(seqno + i), last && mark, FuPayload(nal, at, n, i == 0, last));
  }

  lemma SizesAre(c: Stream)
    requires ValidStream(c)
    ensures RTP_FIXED_HEADER == 12 && c.size > 15
  {
  }

  lemma PayloadOf(c: Stream, seqno: U16, m: bool, payload: seq<Byte>)
    requires ValidStream(c)
    ensures RtpOf(c, seqno, m, payload).payload == payload
  {
  }

  lemma FuBytesAre(nal: seq<Byte>, pos: nat, n: nat, start: bool, end: bool)
    requires 2 <= pos && pos + n <= |nal|
    ensures FuPayload(nal, pos, n, start, end)
         == [nal[0] as int / 128 * 128 + 98 + nal[0] as int % 2, nal[1],
             (if start then 128 else 0) + (if end then 64 else 0) + nal[0] as int / 2 % 64] + nal[pos..pos + n]
  {
  }

  /** The packets of a unit: only the last one can carry the marker, and it does when the unit is the last of
      its access unit and is fragmented or carries coded video. */
  lemma UnitMarkers(c: Stream, seqno: U16, nal: seq<Byte>, mark: bool, k: nat)
    requires ValidStream(c) && PackNal(c, seqno, nal, mark).Some? && k < |PackNal(c, seqno, nal, mark).value|
    ensures var ps := PackNal(c, seqno, nal, mark).value;
            HasMarker(ps[k]) <==> k == |ps| - 1 && mark && (|nal| + 12 > c.size || nal[0] as int / 2 % 64 < 32)
  {
    hide Fragments, Wire, HasMarker, FuPayload;
    if |nal| + RTP_FIXED_HEADER <= c.size {
      MarkerOfWire(c, seqno, mark && NalType(nal[0]) < 32, nal);
    } else {
      FragmentShape(c, seqno, nal, 2, mark, k);
      var last, at := k == |Fragments(c, seqno, nal, 2, mark)| - 1, 2 + k * (c.size - 15);
      var n := if last then |nal| - at else c.size - 15;
      MarkerOfWire(c, Mod16(seqno + k), last && mark, FuPayload(nal, at, n, k == 0, last));
    }
  }

  /** Of all the packets of an access unit only the last one carries the marker, if it is a fragment or coded
      video; so a receiver never takes an access unit to end early. */
  lemma {:induction false} MarkerIsLast(c: Stream, seqno: U16, nals: seq<seq<Byte>>, k: nat)
    requires ValidStream(c) && (forall n :: n in nals ==> |n| >= 3) && k < |PackAll(c, seqno, Marked(nals))|
    ensures var ps, last := PackAll(c, seqno, Marked(nals)), nals[|nals| - 1];
            && nals != []
            && (HasMarker(ps[k]) <==> k == |ps| - 1 && (|last| + 12 > c.size || last[0] as int / 2 % 64 < 32))
    decreases |nals|
  {
    hide PackAll, PackNal, Mod16, Marked, HasMarker;
    var units := Marked(nals);
    MarkedStep(nals);
    PackAllDone(c, seqno, units);
    PackAllStep(c, seqno, units, 0);
    assert units[0..] == units && units[1..] == Marked(nals[1..]);
    var mark := |nals| == 1;
    PackNalSome(c, seqno, nals[0], mark);
    var p := PackNal(c, seqno, nals[0], mark).value;
    var rest := PackAll(c, Mod16(seqno + |p|), units[1..]);
    if k < |p| {
      UnitMarkers(c, seqno, nals[0], mark, k);
      if mark {
        MarkedStep(nals[1..]);
        PackAllDone(c, Mod16(seqno + |p|), units[1..]);
      } else {
        PackAllSome(c, Mod16(seqno + |p|), nals[1..]);
      }
    } else {
      if mark {
        MarkedStep(nals[1..]);
        PackAllDone(c, Mod16(seqno + |p|), units[1..]);
      }
      MarkerIsLast(c, Mod16(seqno + |p|), nals[1..], k - |p|);
    }
  }

  lemma PackNalSome(c: Stream, seqno: U16, nal: seq<Byte>, mark: bool)
    requires ValidStream(c) && |nal| >= 3
    ensures PackNal(c, seqno, nal, mark).Some? && PackNal(c, seqno, nal, mark).value != []
  {
    hide Wire;
  }

  lemma {:induction false} PackAllSome(c: Stream, seqno: U16, nals: seq<seq<Byte>>)
    requires ValidStream(c) && nals != [] && |nals[0]| >= 3
    ensures PackAll(c, seqno, Marked(nals)) != []
  {
    hide PackAll, PackNal, Mod16, Marked;
    MarkedStep(nals);
    PackAllStep(c, seqno, Marked(nals), 0);
    assert Marked(nals)[0..] == Marked(nals);
    PackNalSome(c, seqno, nals[0], |nals| == 1);
  }

  /** A unit the packer refuses - one below three bytes - ends the access unit: the packets are those of the
      units before it. */
  lemma {:induction false} RefusalEndsIt(c: Stream, seqno: U16, good: seq<Nalu>, bad: Nalu, rest: seq<Nalu>)
    requires ValidStream(c) && AllAccepted(good) && |bad.data| < 3
    ensures PackAll(c, seqno, good + [bad] + rest) == PackAll(c, seqno, good)
    decreases |good|
  {
    hide PackAll, PackNal, Mod16;
    var units := good + [bad] + rest;
    assert units[0..] == units && good[0..] == good;
    PackAllStep(c, seqno, units, 0);
    PackAllDone(c, seqno, good);
    if good == [] {
      PackNalNone(c, seqno, bad.data, bad.last);
    } else {
      PackAllStep(c, seqno, good, 0);
      assert units[1..] == good[1..] + [bad] + rest;
      PackNalSome(c, seqno, good[0].data, good[0].last);
      var p := PackNal(c, seqno, good[0].data, good[0].last).value;
      RefusalEndsIt(c, Mod16(seqno + |p|), good[1..], bad, rest);
    }
  }

  lemma PackNalNone(c: Stream, seqno: U16, nal: seq<Byte>, mark: bool)
    requires ValidStream(c) && |nal| < 3
    ensures PackNal(c, seqno, nal, mark).None?
  {
  }

  /** No packet is larger than the size the packer was created with. */
  lemma {:induction false} PacketsFit(c: Stream, seqno: U16, units: seq<Nalu>, k: nat)
    requires ValidStream(c) && k < |PackAll(c, seqno, units)|
    ensures |PackAll(c, seqno, units)[k]| <= c.size
    decreases |units|
  {
    hide Fragments, Wire, PackNal;
    if units != [] && PackNal(c, seqno, units[0].data, units[0].last).Some? {
      var p := PackNal(c, seqno, units[0].data, units[0].last).value;
      if k < |p| {
        NalFits(c, seqno, units[0].data, units[0].last, k);
      } else {
        PacketsFit(c, Mod16(seqno + |p|), units[1..], k - |p|);
      }
    }
  }

  lemma NalFits(c: Stream, seqno: U16, nal: seq<Byte>, mark: bool, k: nat)
    requires ValidStream(c) && PackNal(c, seqno, nal, mark).Some? && k < |PackNal(c, seqno, nal, mark).value|
    ensures |PackNal(c, seqno, nal, mark).value[k]| <= c.size
  {
    hide Fragments;
    if |nal| + RTP_FIXED_HEADER > c.size {
      FragmentShape(c, seqno, nal, 2, mark, k);
    }
  }

  /** The round trip of an access unit: joined with 4-byte start codes, split, packed into RTP packets
      of any size that leaves room for a fragment and any first sequence number, parsed and
      reassembled, it comes back byte for byte - one emission per NAL unit, none flagged as lossy. */
  lemma AccessUnitRoundTrip(st: Decoder, c: Stream, seqno: U16, nals: seq<seq<Byte>>)
    requires ValidStream(c) && Expects(st, seqno)
    requires forall n :: n in nals ==> Emulated(n) && Carried(c, n)
    ensures var h := Arrivals(PackAll(c, seqno, Units(Join(nals))));
            && Delivered(Emitted(st, h)) == Join(nals)
            && Emitted(st, h) == Emissions(nals, c.timestamp, 0)
            && Expects(Run(st, h), Mod16(seqno + |h|))
  {
    hide *;
    SplitJoin(nals);
    ExpectsIsClear(st, seqno);
    UnitsRoundTrip(st, c, seqno, nals);
    EmissionsJoin(nals, c.timestamp, 0);
  }

  /** The two objects back to back over an in-order channel. */
  method Loopback(packer: H265Packer, unpacker: H265Unpacker, nals: seq<seq<Byte>>, timestamp: U32)
    returns (received: seq<Byte>)
    requires packer.Valid() && unpacker.Valid() && Expects(unpacker.Value(), packer.seqno)
    requires forall n :: n in nals ==> Emulated(n) && Carried(Stream(packer.size, packer.pt, packer.ssrc, timestamp), n)
    modifies packer, unpacker
    ensures received == Join(nals)
    ensures Expects(unpacker.Value(), packer.seqno)
  {
    hide *;
    ghost var st, seqno := unpacker.Value(), packer.seqno;
    var r, packets := packer.Input(Join(nals), timestamp);
    var out := [];
    assert packets[..0] == [];
    RunNothing(st);
    ArrivalsNone();
    for i := 0 to |packets|
      modifies unpacker
      invariant unpacker.Valid()
      invariant unpacker.Value() == Run(st, Arrivals(packets[..i]))
      invariant out == Emitted(st, Arrivals(packets[..i]))
    {
      var ret, more := unpacker.Input(packets[i], true);
      RunSnoc(st, packets, i);
      out := out + more;
    }
    assert packets[..|packets|] == packets;
    assert packer.Params() == Stream(packer.size, packer.pt, packer.ssrc, timestamp) by { ParamsAre(packer); }
    ValidIs(packer);
    AccessUnitRoundTrip(st, packer.Params(), seqno, nals);
    received := Delivered(out);
  }

  lemma ParamsAre(packer: H265Packer)
    ensures packer.Params() == Stream(packer.size, packer.pt, packer.ssrc, packer.timestamp)
  {
  }

  lemma ValidIs(packer: H265Packer)
    requires packer.Valid()
    ensures ValidStream(packer.Params())
  {
  }

  lemma ArrivalsNone()
    ensures Arrivals([]) == []
  {
  }

  lemma {:induction false} RunSnoc(st: Decoder, packets: seq<seq<Byte>>, i: nat)
    requires i < |packets|
    ensures var step := InputStep(Run(st, Arrivals(packets[..i])), Arrival(packets[i], true));
            && Run(st, Arrivals(packets[..i + 1])) == step.st
            && Emitted(st, Arrivals(packets[..i + 1])) == Emitted(st, Arrivals(packets[..i])) + step.out
  {
    hide InputStep;
    assert packets[..i + 1][..i] == packets[..i];
    var h, x := Arrivals(packets[..i]), Arrival(packets[i], true);
    assert Arrivals(packets[..i + 1]) == h + [x];
    assert (h + [x])[..|h|] == h;
  }
}
