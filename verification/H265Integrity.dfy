/** What the unpacker guarantees about reassembled NAL units on an arbitrary packet stream: loss,
    reordering, truncated packets, foreign payload types and failed allocations included. */
module H265Integrity {
  import opened Bytes
  import opened RtpPacket
  import opened AnnexB
  import opened H265Pack
  import opened H265Unpack

  predicate IsFu(p: Packet) { |p.payload| >= 3 && NalType(p.payload[0]) == H265_RTP_FU }
  predicate IsStart(p: Packet) { IsFu(p) && FuStart(p.payload) }
  predicate IsEnd(p: Packet) { IsFu(p) && FuEnd(p.payload) }

  /** The arrivals that pass the RTP checks; the others leave the unpacker untouched. */
  function Parsed(h: seq<Arrival>): (r: seq<Packet>)
    ensures forall p :: p in r ==> |p.payload| >= 3
  {
    if h == [] then [] else
    var p := Parse(h[|h| - 1].packet);
    Parsed(h[..|h| - 1]) + (if p.Some? then [p.value] else [])
  }

  /** The reassembly buffer a window of packets builds: its first packet opens the NAL unit, and every
      later fragment is appended unless the size guard refuses it. */
  function Kept(w: seq<Packet>): (b: seq<Byte>)
    requires w != [] && |w[0].payload| >= 3
    ensures |b| >= 2
  {
    if |w| == 1 then NalHeader(w[0].payload) + w[0].payload[3..]
    else
      var b := Kept(w[..|w| - 1]);
      var p := w[|w| - 1];
      if IsFu(p) && !Oversize(b, p.payload) then b + p.payload[3..] else b
  }

  /** The NAL unit the sender fragmented: the rebuilt header and the payload of every fragment. */
  function Whole(w: seq<Packet>): (b: seq<Byte>)
    requires w != [] && |w[0].payload| >= 3
  {
    if |w| == 1 then NalHeader(w[0].payload) + w[0].payload[3..]
    else
      var p := w[|w| - 1];
      Whole(w[..|w| - 1]) + (if IsFu(p) then p.payload[3..] else [])
  }

  /** Packet `k` of the window is a fragment the size guard refuses. */
  predicate Refused(w: seq<Packet>, k: nat)
    requires 1 <= k < |w| && |w[0].payload| >= 3
  {
    IsFu(w[k]) && Oversize(Kept(w[..k]), w[k].payload)
  }

  /** No packet is missing between two neighbours. */
  ghost predicate Consecutive(w: seq<Packet>) {
    forall j, k :: 0 <= j < k < |w| && k == j + 1 ==> w[k].rtp.seqno == Mod16(w[j].rtp.seqno + 1)
  }

  /** A window of consecutive packets that opens with a START fragment; no later START took effect. */
  ghost predicate Window(w: seq<Packet>) {
    && w != [] && IsStart(w[0])
    && Consecutive(w)
    && (forall k :: 1 <= k < |w| && IsStart(w[k]) ==> Refused(w, k))
  }

  /** As `Window`, while the NAL unit is still open. */
  ghost predicate OpenWindow(w: seq<Packet>, st: Decoder) {
    && Window(w)
    && !IsEnd(w[0])
    && (forall k :: 1 <= k < |w| && IsEnd(w[k]) ==> Refused(w, k))
    && st.flags != -1
    && st.seqno == w[|w| - 1].rtp.seqno
    && st.buf == Kept(w)
  }

  // ---------------------------------------------------------------- windows

  /** The guard's verdict on a packet depends only on the packets before it. */
  lemma RefusedPrefix(w: seq<Packet>, p: Packet, k: nat)
    requires 1 <= k < |w| && |w[0].payload| >= 3
    ensures Refused(w + [p], k) == Refused(w, k)
  {
    assert (w + [p])[..k] == w[..k];
  }

  lemma {:induction false} RefusedLast(w: seq<Packet>, p: Packet)
    requires w != [] && |w[0].payload| >= 3
    ensures Refused(w + [p], |w|) == (IsFu(p) && Oversize(Kept(w), p.payload))
  {
    hide Kept, Oversize, IsFu;
    assert (w + [p])[..|w|] == w;
  }

  lemma {:induction false} KeptSnoc(w: seq<Packet>, p: Packet)
    requires w != [] && |w[0].payload| >= 3
    ensures Kept(w + [p])
            == if IsFu(p) && !Oversize(Kept(w), p.payload) then Kept(w) + p.payload[3..] else Kept(w)
  {
    hide IsFu, Oversize;
    assert (w + [p])[..|w|] == w;
  }

  lemma ConsecutiveSnoc(w: seq<Packet>, p: Packet)
    requires w != [] && Consecutive(w) && p.rtp.seqno == Mod16(w[|w| - 1].rtp.seqno + 1)
    ensures Consecutive(w + [p])
  {
    hide Mod16;
    var v := w + [p];
    forall j, k | 0 <= j < k < |v| && k == j + 1 ensures v[k].rtp.seqno == Mod16(v[j].rtp.seqno + 1) {
      assert v[j] == w[j];
      if k < |w| { assert v[k] == w[k]; }
    }
  }

  lemma {:induction false} WindowSnoc(w: seq<Packet>, p: Packet)
    requires Window(w)
    requires p.rtp.seqno == Mod16(w[|w| - 1].rtp.seqno + 1)
    requires IsStart(p) ==> Oversize(Kept(w), p.payload)
    ensures Window(w + [p])
  {
    hide Kept, Mod16, Refused, Oversize, Consecutive, FuStart, NalType;
    ConsecutiveSnoc(w, p);
    assert (w + [p])[0] == w[0];
    forall k | 1 <= k < |w + [p]| && IsStart((w + [p])[k]) ensures Refused(w + [p], k) {
      LaterStart(w, p, k);
    }
  }

  lemma {:induction false} LaterStart(w: seq<Packet>, p: Packet, k: nat)
    requires Window(w) && 1 <= k < |w + [p]| && IsStart((w + [p])[k])
    requires IsStart(p) ==> Oversize(Kept(w), p.payload)
    ensures Refused(w + [p], k)
  {
    hide Kept, Refused, Oversize, Consecutive;
    if k < |w| {
      assert (w + [p])[k] == w[k];
      RefusedPrefix(w, p, k);
    } else {
      RefusedLast(w, p);
    }
  }

  lemma OpenWindowSnoc(w: seq<Packet>, st: Decoder, p: Packet, st': Decoder)
    requires OpenWindow(w, st)
    requires p.rtp.seqno == Mod16(st.seqno + 1)
    requires IsFu(p) && !Oversize(st.buf, p.payload) ==> !IsStart(p) && !IsEnd(p)
    requires st'.flags != -1 && st'.seqno == p.rtp.seqno
    requires st'.buf == if IsFu(p) && !Oversize(st.buf, p.payload) then st.buf + p.payload[3..] else st.buf
    ensures OpenWindow(w + [p], st')
  {
    hide Kept, Mod16, Refused, Oversize, Window;
    OpenIsWindow(w, st);
    WindowSnoc(w, p);
    KeptSnoc(w, p);
    RefusedLast(w, p);
    var v := w + [p];
    forall k | 1 <= k < |v| && IsEnd(v[k]) ensures Refused(v, k) {
      if k < |w| {
        assert Refused(w, k);
        RefusedPrefix(w, p, k);
      }
    }
  }

  /** A fragment that opens a NAL unit is a window by itself. */
  lemma WindowOne(p: Packet, st: Decoder)
    requires IsStart(p) && !IsEnd(p)
    requires st.flags != -1 && st.seqno == p.rtp.seqno && st.buf == NalHeader(p.payload) + p.payload[3..]
    ensures OpenWindow([p], st)
  {
  }

  // ---------------------------------------------------------------- one step

  /** How the partial NAL unit changes: it is dropped, kept, extended or opened. */
  lemma StepCases(st: Decoder, p: Packet, allocOk: bool)
    requires |p.payload| >= 3
    ensures var r := Accept(st, p, allocOk).st;
            && r.flags != -1 && r.seqno == p.rtp.seqno
            && (|| r.buf == []
                || (IsStart(p) && !IsEnd(p) && r.buf == NalHeader(p.payload) + p.payload[3..])
                || (&& st.buf != [] && (st.flags != -1 ==> p.rtp.seqno == Mod16(st.seqno + 1))
                    && (IsFu(p) && !Oversize(st.buf, p.payload) ==> !IsStart(p) && !IsEnd(p))
                    && r.buf == if IsFu(p) && !Oversize(st.buf, p.payload) then st.buf + p.payload[3..] else st.buf))
  {
    hide Mod16, NalHeader, UnpackAp;
    var st0 := Track(st, p.rtp.seqno);
    ApEndsEmptyOrUnchanged(st0, p.payload, 2, p.rtp.timestamp);
  }

  lemma {:induction false} ApEndsEmptyOrUnchanged(st: Decoder, pl: seq<Byte>, at: nat, timestamp: U32)
    requires at <= |pl| && st.flags != -1
    ensures var r := UnpackAp(st, pl, at, timestamp).st;
            r.flags != -1 && r.seqno == st.seqno && (r.buf == [] || r.buf == st.buf)
    decreases |pl| - at
  {
    hide UnpackAp, R16;
    UnfoldAp(st, pl, at, timestamp);
    if |pl| - at > 2 {
      var len := R16(pl, at) as int;
      if len + 2 <= |pl| - at && len >= 3 {
        ApEndsEmptyOrUnchanged(st.(flags := 0, buf := []), pl, at + 2 + len, timestamp);
      }
    }
  }

  lemma ParsedSnoc(h: seq<Arrival>, s: nat, a: Arrival)
    requires s <= |h|
    ensures Parsed((h + [a])[s..]) == Parsed(h[s..]) + (if Parse(a.packet).Some? then [Parse(a.packet).value] else [])
  {
    hide Parse;
    var g := (h + [a])[s..];
    assert g == h[s..] + [a];
    assert g[..|g| - 1] == h[s..] && g[|g| - 1] == a;
  }

  // ---------------------------------------------------------------- whole runs

  /** In every run, a partial NAL unit has an open window of arrivals behind it. */
  lemma {:induction false} PartialHasWindow(h: seq<Arrival>) returns (s: nat)
    ensures Run(Fresh, h).buf != [] ==> s <= |h| && OpenWindow(Parsed(h[s..]), Run(Fresh, h))
    decreases |h|
  {
    hide *;
    if h == [] {
      RunStart();
      s := 0;
    } else {
      var h0, a := h[..|h| - 1], h[|h| - 1];
      assert h == h0 + [a];
      s := PartialHasWindow(h0);
      var st := Run(Fresh, h0);
      RunStep(Fresh, h0, a);
      if Parse(a.packet).None? {
        if st.buf != [] { ParsedSnoc(h0, s, a); assert Parsed(h[s..]) == Parsed(h0[s..]); }
      } else {
        var p := Parse(a.packet).value;
        ParseSize(a.packet);
        StepCases(st, p, a.allocOk);
        var st' := Run(Fresh, h);
        if st'.buf == [] {
        } else if IsStart(p) && !IsEnd(p) && st'.buf == NalHeader(p.payload) + p.payload[3..] {
          s := |h0|;
          ParsedSnoc(h0, s, a);
          assert h0[s..] == [];
          ParsedNone();
          WindowOne(p, st');
          assert [] + [p] == [p];
        } else {
          WindowStarted(Parsed(h0[s..]), st);
          ParsedSnoc(h0, s, a);
          OpenWindowSnoc(Parsed(h0[s..]), st, p, st');
        }
      }
    }
  }

  lemma RunStart()
    ensures Run(Fresh, []).buf == []
  {
  }

  lemma {:induction false} RunStep(st: Decoder, h: seq<Arrival>, a: Arrival)
    ensures var p := Parse(a.packet);
            && (p.None? ==> Run(st, h + [a]) == Run(st, h))
            && (p.Some? ==> |p.value.payload| >= 3 && Run(st, h + [a]) == Accept(Run(st, h), p.value, a.allocOk).st)
  {
    hide Parse, Accept;
    assert (h + [a])[..|h|] == h;
  }

  lemma ParseSize(b: seq<Byte>)
    ensures Parse(b).Some? ==> |Parse(b).value.payload| >= 3
  {
  }

  lemma ParsedNone()
    ensures Parsed([]) == []
  {
  }

  lemma WindowStarted(w: seq<Packet>, st: Decoder)
    requires OpenWindow(w, st)
    ensures st.flags != -1
  {
  }

  /** A fragment that completes a NAL unit closes a window: either it opened the unit itself, or the
      partial unit it extends had one. */
  lemma EmissionCases(st: Decoder, p: Packet, allocOk: bool)
    requires |p.payload| >= 3 && IsFu(p) && Accept(st, p, allocOk).out != []
    ensures IsEnd(p)
    ensures var out := Accept(st, p, allocOk).out;
            && |out| == 1
            && (|| (IsStart(p) && out[0].data == START_CODE + (NalHeader(p.payload) + p.payload[3..]))
                || (&& !IsStart(p) && st.buf != [] && (st.flags != -1 ==> p.rtp.seqno == Mod16(st.seqno + 1))
                    && !Oversize(st.buf, p.payload)
                    && out[0].data == START_CODE + (st.buf + p.payload[3..])))
  {
    hide Mod16, NalHeader, UnpackAp;
  }

  /** For every stream into a fresh unpacker: if the last packet is a fragment and a NAL unit comes
      out, then some suffix of the stream is a window - it opens with a START fragment, no packet is
      missing since, no later START took effect, it ends in an END fragment - and the unit is what that
      window builds. It is the complete unit exactly when no refused fragment of the window carried
      payload. */
  lemma ReassembledUnitIsIntact(h: seq<Arrival>, a: Arrival) returns (w: seq<Packet>, s: nat)
    requires Parse(a.packet).Some? && IsFu(Parse(a.packet).value)
    requires InputStep(Run(Fresh, h), a).out != []
    ensures s <= |h| && w == Parsed((h + [a])[s..])
    ensures Window(w) && w[|w| - 1] == Parse(a.packet).value && IsEnd(w[|w| - 1])
    ensures |InputStep(Run(Fresh, h), a).out| == 1
    ensures InputStep(Run(Fresh, h), a).out[0].data == START_CODE + Kept(w)
    ensures Kept(w) == Whole(w) <==> (forall k :: 1 <= k < |w| && Refused(w, k) ==> |w[k].payload| == 3)
  {
    hide *;
    var p := Parse(a.packet).value;
    var st := Run(Fresh, h);
    ParseSize(a.packet);
    StepIsAccept(st, a);
    EmissionCases(st, p, a.allocOk);
    if IsStart(p) && InputStep(st, a).out[0].data == START_CODE + (NalHeader(p.payload) + p.payload[3..]) {
      s := |h|;
      ParsedSnoc(h, s, a);
      assert h[s..] == [];
      ParsedNone();
      w := [p];
      assert [] + [p] == [p];
      WindowSingle(p);
    } else {
      s := PartialHasWindow(h);
      var w0 := Parsed(h[s..]);
      WindowStarted(w0, st);
      ParsedSnoc(h, s, a);
      w := w0 + [p];
      OpenIsWindow(w0, st);
      WindowSnoc(w0, p);
      KeptSnoc(w0, p);
    }
    WindowOpens(w);
    KeptIsWhole(w);
  }

  lemma StepIsAccept(st: Decoder, a: Arrival)
    requires Parse(a.packet).Some?
    ensures |Parse(a.packet).value.payload| >= 3
    ensures InputStep(st, a) == Accept(st, Parse(a.packet).value, a.allocOk)
  {
    hide Accept;
  }

  lemma WindowSingle(p: Packet)
    requires IsStart(p)
    ensures |p.payload| >= 3 && Window([p]) && Kept([p]) == NalHeader(p.payload) + p.payload[3..]
  {
  }

  lemma {:induction false} OpenIsWindow(w: seq<Packet>, st: Decoder)
    requires OpenWindow(w, st)
    ensures Window(w) && w != [] && |w[0].payload| >= 3 && st.buf == Kept(w) && st.seqno == w[|w| - 1].rtp.seqno
  {
  }

  lemma WindowOpens(w: seq<Packet>)
    requires Window(w)
    ensures w != [] && |w[0].payload| >= 3
  {
  }

  /** The guard costs nothing exactly when everything it refused was empty. */
  lemma {:induction false} KeptIsWhole(w: seq<Packet>)
    requires w != [] && |w[0].payload| >= 3
    ensures |Kept(w)| <= |Whole(w)|
    ensures Kept(w) == Whole(w) <==> (forall k :: 1 <= k < |w| && Refused(w, k) ==> |w[k].payload| == 3)
    decreases |w|
  {
    if |w| > 1 {
      hide Oversize;
      var n := |w| - 1;
      var w0, p := w[..n], w[n];
      KeptIsWhole(w0);
      assert w == w0 + [p];
      assert forall k :: 1 <= k < n ==> Refused(w, k) == Refused(w0, k) by {
        forall k | 1 <= k < n ensures Refused(w, k) == Refused(w0, k) { RefusedPrefix(w0, p, k); }
      }
      LastRefused(w0, p);
    }
  }

  lemma {:induction false} LastRefused(w: seq<Packet>, p: Packet)
    requires w != [] && |w[0].payload| >= 3
    requires |Kept(w)| <= |Whole(w)|
    ensures var v := w + [p];
            && |Kept(v)| <= |Whole(v)|
            && (Kept(v) == Whole(v) <==> Kept(w) == Whole(w) && (Refused(v, |w|) ==> |p.payload| == 3))
  {
    hide Oversize;
    var v := w + [p];
    assert v[..|w|] == w;
    KeptSnoc(w, p);
    assert Whole(v) == Whole(w) + (if IsFu(p) then p.payload[3..] else []);
    if Kept(v) == Whole(v) {
      assert |Kept(v)| == |Whole(v)|;
      assert Kept(v)[..|Kept(w)|] == Kept(w) && Whole(v)[..|Whole(w)|] == Whole(w);
    }
  }

  // ---------------------------------------------------------------- the loss flag

  /** A packet is missing before `p`. */
  predicate Gap(st: Decoder, p: Packet) { st.flags != -1 && p.rtp.seqno != Mod16(st.seqno + 1) }

  /** Something else is lost with `p`: no memory for a fragment, a fragment with no unit to extend, or
      a malformed aggregation packet. A fragment over the size guard is not among them. */
  predicate Trouble(st: Decoder, p: Packet, allocOk: bool)
    requires |p.payload| >= 3
  {
    var st0 := Track(st, p.rtp.seqno);
    if IsFu(p) then
      && !Oversize(st0.buf, p.payload)
      && ((Grown(st0, |p.payload|) != st0.capacity && !allocOk) || (!FuStart(p.payload) && st0.buf == []))
    else NalType(p.payload[0]) == 48 && UnpackAp(st0, p.payload, 2, p.rtp.timestamp).ret == -EINVAL
  }

  /** A loss that no unit has reported when `p` has been dealt with. */
  predicate Loses(st: Decoder, p: Packet, allocOk: bool)
    requires |p.payload| >= 3
  {
    Trouble(st, p, allocOk) || (Gap(st, p) && Accept(st, p, allocOk).out == [])
  }

  lemma {:induction false} ApFlags(st: Decoder, pl: seq<Byte>, at: nat, timestamp: U32)
    requires at <= |pl|
    ensures var r := UnpackAp(st, pl, at, timestamp);
            r.st.flags == if r.ret == -EINVAL then PACKET_LOST else if r.out == [] then st.flags else 0
    decreases |pl| - at
  {
    hide R16, UnpackAp;
    UnfoldAp(st, pl, at, timestamp);
    if |pl| - at > 2 && R16(pl, at) + 2 <= |pl| - at && R16(pl, at) >= 3 {
      ApFlags(st.(flags := 0, buf := []), pl, at + 2 + R16(pl, at), timestamp);
    }
  }

  predicate KnownFlags(st: Decoder) { st.flags == -1 || st.flags == 0 || st.flags == PACKET_LOST }

  lemma TrackFlags(st: Decoder, p: Packet)
    ensures Track(st, p.rtp.seqno).flags
         == if Gap(st, p) then PACKET_LOST else if st.flags == -1 then 0 else st.flags
  {
  }

  /** The flag after a packet: set by a loss, kept until a unit comes out. */
  lemma FlagStep(st: Decoder, p: Packet, allocOk: bool)
    requires |p.payload| >= 3 && KnownFlags(st)
    ensures var r := Accept(st, p, allocOk);
            && KnownFlags(r.st) && r.st.flags != -1
            && (r.st.flags == PACKET_LOST <==> Loses(st, p, allocOk) || (r.out == [] && st.flags == PACKET_LOST))
  {
    hide Track, Gap, NalHeader, UnpackAp, Grown;
    TrackFlags(st, p);
    ApFlags(Track(st, p.rtp.seqno), p.payload, 2, p.rtp.timestamp);
  }

  /** Arrival `k` of a stream loses something, or makes a unit come out. */
  ghost predicate LosesAt(h: seq<Arrival>, k: nat)
    requires k < |h|
  {
    var p := Parse(h[k].packet);
    p.Some? && Loses(Run(Fresh, h[..k]), p.value, h[k].allocOk)
  }

  ghost predicate EmitsAt(h: seq<Arrival>, k: nat)
    requires k < |h|
  {
    InputStep(Run(Fresh, h[..k]), h[k]).out != []
  }

  /** Something was lost and no unit has come out since. */
  ghost predicate Pending(h: seq<Arrival>) {
    exists k :: 0 <= k < |h| && LosesAt(h, k) && forall j :: k < j < |h| ==> !EmitsAt(h, j)
  }

  lemma PrefixAt(h: seq<Arrival>, a: Arrival, k: nat)
    requires k < |h|
    ensures LosesAt(h + [a], k) == LosesAt(h, k) && EmitsAt(h + [a], k) == EmitsAt(h, k)
  {
    hide Loses, Run, InputStep, Parse;
    assert (h + [a])[..k] == h[..k];
  }

  lemma PendingSnoc(h: seq<Arrival>, a: Arrival)
    ensures Pending(h + [a]) <==> LosesAt(h + [a], |h|) || (Pending(h) && !EmitsAt(h + [a], |h|))
  {
    hide LosesAt, EmitsAt;
    var g, n := h + [a], |h|;
    forall k | 0 <= k < n ensures LosesAt(g, k) == LosesAt(h, k) && EmitsAt(g, k) == EmitsAt(h, k) {
      PrefixAt(h, a, k);
    }
    assert |g| == n + 1;
    if !LosesAt(g, n) && Pending(h) && !EmitsAt(g, n) {
      var k :| 0 <= k < n && LosesAt(h, k) && forall j :: k < j < n ==> !EmitsAt(h, j);
      assert LosesAt(g, k) && forall j :: k < j < |g| ==> !EmitsAt(g, j);
    }
  }

  /** The flag a decoder carries says exactly that a loss is pending. */
  lemma {:induction false} FlagIsPending(h: seq<Arrival>)
    ensures KnownFlags(Run(Fresh, h)) && (Run(Fresh, h).flags == PACKET_LOST <==> Pending(h))
    decreases |h|
  {
    if h == [] {
      assert Run(Fresh, h) == Fresh;
    } else {
      var g, a := h[..|h| - 1], h[|h| - 1];
      assert h == g + [a];
      hide Run, Accept, Loses, Parse, Pending;
      FlagIsPending(g);
      RunStep(Fresh, g, a);
      PendingSnoc(g, a);
      LastAt(g, a);
      if Parse(a.packet).Some? {
        FlagStep(Run(Fresh, g), Parse(a.packet).value, a.allocOk);
      }
    }
  }

  lemma {:induction false} LastAt(g: seq<Arrival>, a: Arrival)
    ensures var h, p := g + [a], Parse(a.packet);
            && (p.None? ==> !LosesAt(h, |g|) && !EmitsAt(h, |g|))
            && (p.Some? ==> |p.value.payload| >= 3
                            && LosesAt(h, |g|) == Loses(Run(Fresh, g), p.value, a.allocOk)
                            && EmitsAt(h, |g|) == (Accept(Run(Fresh, g), p.value, a.allocOk).out != []))
  {
    hide Loses, Run, Accept, Parse;
    assert (g + [a])[..|g|] == g;
    ParseSize(a.packet);
  }

  /** Whatever comes out of a packet - a single NAL unit, a reassembled one, the units of an aggregation
      packet - the first goes out flagged exactly when a loss is pending or a packet is missing before it,
      and the others are not flagged. What the size guard took out of a reassembled unit never shows. */
  lemma {:induction false} EmissionFlags(h: seq<Arrival>, a: Arrival, k: nat)
    requires k < |InputStep(Run(Fresh, h), a).out|
    ensures Parse(a.packet).Some?
    ensures InputStep(Run(Fresh, h), a).out[k].flags
         == if k == 0 && (Pending(h) || Gap(Run(Fresh, h), Parse(a.packet).value)) then 0x100 else 0
  {
    StepParses(Run(Fresh, h), a);
    ParseSize(a.packet);
    hide *;
    var st, p := Run(Fresh, h), Parse(a.packet).value;
    FlagIsPending(h);
    StepIsAccept(st, a);
    EmittedFlags(st, p, a.allocOk, k);
  }

  lemma StepParses(st: Decoder, a: Arrival)
    requires InputStep(st, a).out != []
    ensures Parse(a.packet).Some?
  {
    hide Accept;
  }

  lemma EmittedFlags(st: Decoder, p: Packet, allocOk: bool, k: nat)
    requires |p.payload| >= 3 && KnownFlags(st) && k < |Accept(st, p, allocOk).out|
    ensures Accept(st, p, allocOk).out[k].flags
         == if k == 0 && (st.flags == PACKET_LOST || Gap(st, p)) then PACKET_LOST else 0
  {
    hide Track, Gap, NalHeader, UnpackAp, Grown;
    TrackFlags(st, p);
    var st0 := Track(st, p.rtp.seqno);
    if NalType(p.payload[0]) == 48 {
      ApEmissionFlags(st0, p.payload, 2, p.rtp.timestamp, k);
    }
  }

  lemma {:induction false} ApEmissionFlags(st: Decoder, pl: seq<Byte>, at: nat, timestamp: U32, k: nat)
    requires at <= |pl| && k < |UnpackAp(st, pl, at, timestamp).out|
    ensures UnpackAp(st, pl, at, timestamp).out[k].flags == if k == 0 then st.flags else 0
    decreases k
  {
    hide R16, UnpackAp;
    UnfoldAp(st, pl, at, timestamp);
    if k > 0 {
      ApEmissionFlags(st.(flags := 0, buf := []), pl, at + 2 + R16(pl, at), timestamp, k - 1);
    }
  }

  /** What a packet brings by its kind, after any stream: one that is no RTP packet or too short, nothing and no
      change; a single NAL unit, that unit whole behind a start code; a reserved kind, nothing, and what is
      half done stays unless a packet is missing. */
  lemma ByKind(st: Decoder, a: Arrival)
    ensures Parse(a.packet).None? ==> InputStep(st, a) == Outcome(st, [], -22)
    ensures Parse(a.packet).Some? ==>
              var p, r := Parse(a.packet).value, InputStep(st, a);
              var kind := p.payload[0] as int / 2 % 64;
              && (kind < 48 ==> r.ret == 1 && r.st.buf == [] && |r.out| == 1
                                && r.out[0].data == [0, 0, 0, 1] + p.payload && r.out[0].timestamp == p.rtp.timestamp)
              && (kind >= 50 ==> r.ret == 0 && r.out == [] && r.st.buf == if Gap(st, p) then [] else st.buf)
  {
    hide Deserialize, UnpackAp, UnpackFu;
  }

  // ---------------------------------------------------------------- what an aggregation packet holds

  /** Units behind their 16-bit lengths, as section 4.4.2 of RFC 7798 lays them out. */
  function Prefixed(units: seq<seq<Byte>>): (b: seq<Byte>)
    requires forall u :: u in units ==> |u| < 0x1_0000
  {
    if units == [] then [] else W16(|units[0]|) + units[0] + Prefixed(units[1..])
  }

  function Datas(out: seq<Emit>): (r: seq<seq<Byte>>)
    ensures |r| == |out| && forall k :: 0 <= k < |r| ==> r[k] == out[k].data
  {
    if out == [] then [] else [out[0].data] + Datas(out[1..])
  }

  /** What is left is no unit: a length that reaches past the end, or is below a unit's least size. */
  predicate Malformed(tail: seq<Byte>) { |tail| > 2 && (R16(tail, 0) + 2 > |tail| || R16(tail, 0) < 3) }

  /** What comes out of an aggregation packet, for any bytes: exactly the units it holds, in order, under
      its time stamp, up to the end or to the first malformed one, which is the error it returns. */
  lemma {:induction false} AggregateHolds(st: Decoder, pl: seq<Byte>, at: nat, timestamp: U32)
    returns (tail: seq<Byte>)
    requires at <= |pl|
    ensures var r := UnpackAp(st, pl, at, timestamp);
            && (forall e :: e in r.out ==> 3 <= |e.data| < 0x1_0000 && e.timestamp == timestamp)
            && (forall u :: u in Datas(r.out) ==> |u| < 0x1_0000)
            && pl[at..] == Prefixed(Datas(r.out)) + tail
            && (r.ret == if Malformed(tail) then -EINVAL else 1)
            && (!Malformed(tail) ==> |tail| <= 2)
            && r.st.seqno == st.seqno && (r.out != [] || Malformed(tail) ==> r.st.buf == [])
            && (r.out == [] && !Malformed(tail) ==> r.st == st)
    decreases |pl| - at
  {
    hide R16, UnpackAp, Prefixed, Datas;
    UnfoldAp(st, pl, at, timestamp);
    tail := pl[at..];
    NoUnits();
    assert [] + tail == tail;
    if |pl| - at > 2 {
      TailLength(pl, at);
      var len := R16(pl, at) as int;
      if len + 2 <= |pl| - at && len >= 3 {
        var st1 := st.(flags := 0, buf := []);
        tail := AggregateHolds(st1, pl, at + 2 + len, timestamp);
        FirstUnit(pl, at, Emit(pl[at + 2..at + 2 + len], timestamp, st.flags),
                  UnpackAp(st1, pl, at + 2 + len, timestamp).out, tail);
      }
    }
  }

  lemma NoUnits()
    ensures Prefixed([]) == [] && Datas([]) == []
  {
  }

  lemma TailLength(pl: seq<Byte>, at: nat)
    requires at + 2 <= |pl|
    ensures R16(pl[at..], 0) == R16(pl, at) && W16(R16(pl, at)) == pl[at..at + 2]
  {
  }

  lemma {:induction false} FirstUnit(pl: seq<Byte>, at: nat, e: Emit, rest: seq<Emit>, tail: seq<Byte>)
    requires at + 2 <= |pl| && at + 2 + R16(pl, at) <= |pl|
    requires e.data == pl[at + 2..at + 2 + R16(pl, at)]
    requires forall u :: u in Datas(rest) ==> |u| < 0x1_0000
    requires pl[at + 2 + R16(pl, at)..] == Prefixed(Datas(rest)) + tail
    ensures var us := Datas([e] + rest);
            (forall u :: u in us ==> |u| < 0x1_0000) && pl[at..] == Prefixed(us) + tail
  {
    hide R16, W16;
    var us, n := Datas([e] + rest), R16(pl, at) as int;
    assert ([e] + rest)[1..] == rest;
    assert us == [e.data] + Datas(rest) && us[1..] == Datas(rest);
    TailLength(pl, at);
    assert pl[at..] == pl[at..at + 2] + (pl[at + 2..at + 2 + n] + pl[at + 2 + n..]);
    assert Prefixed(us) == W16(n) + e.data + Prefixed(Datas(rest));
  }

  // ---------------------------------------------------------------- a unit the size guard damages

  /** A fragment of a unit with header bytes `b0`, `b1`, as it arrives. */
  function FuArrival(c: Stream, seqno: U16, b0: Byte, b1: Byte, fu: Byte, data: seq<Byte>): Arrival
    requires ValidStream(c)
  {
    Arrival(Wire(c, seqno, false, FuBytes(b0, b1, fu, data)), true)
  }

  /** What one such fragment does. */
  lemma FuArrives(st: Decoder, c: Stream, seqno: U16, b0: Byte, b1: Byte, fu: Byte, data: seq<Byte>)
    requires ValidStream(c)
    ensures InputStep(st, FuArrival(c, seqno, b0, b1, fu, data))
         == UnpackFu(Track(st, seqno), FuBytes(b0, b1, fu, data), c.timestamp, true)
  {
    var pl := FuBytes(b0, b1, fu, data);
    assert NalType(pl[0]) == H265_RTP_FU;
    hide Wire, Deserialize, UnpackFu, Track, FuBytes;
    WireReadBack(c, seqno, false, pl);
  }

  function FuBytes(b0: Byte, b1: Byte, fu: Byte, data: seq<Byte>): (pl: seq<Byte>)
    ensures |pl| == 3 + |data|
  {
    [WithType(b0, H265_RTP_FU), b1, fu] + data
  }

  lemma FuParts(b0: Byte, b1: Byte, high: int, data: seq<Byte>)
    requires high == 0x80 || high == 0x40
    ensures var pl := FuBytes(b0, b1, high + NalType(b0), data);
            NalHeader(pl) == [b0, b1] && pl[3..] == data && FuStart(pl) == (high == 0x80) && FuEnd(pl) == (high == 0x40)
  {
    RetypeBack(b0, H265_RTP_FU);
    FuByte(high, NalType(b0));
    hide WithType, NalType;
    var pl := FuBytes(b0, b1, high + NalType(b0), data);
    assert pl[3..] == data;
  }

  lemma FuByte(high: int, t: int)
    requires (high == 0x80 || high == 0x40) && 0 <= t < 64
    ensures (high + t) % 64 == t && (high + t >= 128 <==> high == 0x80) && ((high + t) / 64 % 2 == 1 <==> high == 0x40)
  {
  }

  /** The first, a middle and the last fragment, each in sequence. */
  lemma FuOpens(c: Stream, seqno: U16, b0: Byte, b1: Byte, x: seq<Byte>)
    requires ValidStream(c) && |x| <= MAX_SIZE - 2
    ensures var r := InputStep(Fresh, FuArrival(c, seqno, b0, b1, 0x80 + NalType(b0), x));
            r.ret == 1 && r.out == [] && r.st == Decoder(seqno, 0, [b0, b1] + x, r.st.capacity)
  {
    hide FuArrival, InputStep, Grown, Track, FuBytes, NalHeader, NalType, FuStart, FuEnd;
    FuArrives(Fresh, c, seqno, b0, b1, 0x80 + NalType(b0), x);
    FirstTracked(seqno);
    FuParts(b0, b1, 0x80, x);
  }

  lemma FuRefused(st: Decoder, c: Stream, seqno: U16, b0: Byte, b1: Byte, fu: Byte, y: seq<Byte>)
    requires ValidStream(c) && Track(st, seqno) == st.(seqno := seqno) && |st.buf| + |y| > MAX_SIZE
    ensures InputStep(st, FuArrival(c, seqno, b0, b1, fu, y)) == Outcome(st.(seqno := seqno), [], -EINVAL)
  {
    hide FuArrival, InputStep, Grown, Track, FuBytes;
    FuArrives(st, c, seqno, b0, b1, fu, y);
  }

  lemma FuCloses(st: Decoder, c: Stream, seqno: U16, b0: Byte, b1: Byte, z: seq<Byte>)
    requires ValidStream(c) && Track(st, seqno) == st.(seqno := seqno)
    requires st.buf != [] && st.flags == 0 && |st.buf| + |z| <= MAX_SIZE
    ensures var r := InputStep(st, FuArrival(c, seqno, b0, b1, 0x40 + NalType(b0), z));
            r.ret == 1 && r.out == [Emit(START_CODE + (st.buf + z), c.timestamp, 0)]
  {
    hide FuArrival, InputStep, Grown, Track, FuBytes, NalHeader, NalType, FuStart, FuEnd;
    FuArrives(st, c, seqno, b0, b1, 0x40 + NalType(b0), z);
    FuParts(b0, b1, 0x40, z);
  }

  /** Three fragments in sequence, the first almost filling the unit: the second is over the size guard
      and is refused, and the third completes the unit without it - with no flag raised. */
  lemma DamagedUnitGoesOutUnflagged(c: Stream, seqno: U16, b0: Byte, b1: Byte,
                                    x: seq<Byte>, y: seq<Byte>, z: seq<Byte>)
    requires ValidStream(c) && |x| <= 10485758 < |x| + |y| && |x| + |z| <= 10485758
    ensures var t := NalType(b0);
            var s1 := InputStep(Fresh, FuArrival(c, seqno, b0, b1, 0x80 + t, x));
            var s2 := InputStep(s1.st, FuArrival(c, Mod16(seqno + 1), b0, b1, t, y));
            var s3 := InputStep(s2.st, FuArrival(c, Mod16(seqno + 2), b0, b1, 0x40 + t, z));
            && s1.ret == 1 && s2.ret == -EINVAL && s3.ret == 1
            && s1.out == [] && s2.out == []
            && s3.out == [Emit(START_CODE + ([b0, b1] + x + z), c.timestamp, 0)]
  {
    var t := NalType(b0);
    hide FuArrival, InputStep, Track, Mod16, NalType;
    FuOpens(c, seqno, b0, b1, x);
    var d1 := InputStep(Fresh, FuArrival(c, seqno, b0, b1, 0x80 + t, x)).st;
    SeqnoIsMod(seqno);
    NextTracked(d1, seqno, 1);
    FuRefused(d1, c, Mod16(seqno + 1), b0, b1, t, y);
    var d2 := d1.(seqno := Mod16(seqno + 1));
    NextTracked(d2, seqno, 2);
    FuCloses(d2, c, Mod16(seqno + 2), b0, b1, z);
  }

  lemma FirstTracked(seqno: U16)
    ensures Track(Fresh, seqno) == Decoder(seqno, 0, [], 0)
  {
  }

  lemma NextTracked(d: Decoder, seqno: U16, k: nat)
    requires d.flags == 0 && k > 0 && d.seqno == Mod16(seqno + k - 1)
    ensures Track(d, Mod16(seqno + k)) == d.(seqno := Mod16(seqno + k))
  {
  }
}
