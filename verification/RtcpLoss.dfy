/** Sequence validation and loss reporting for one RTP source: lib/librtp/source/rtcp.c and rtcp-sr.c,
    after appendices A.1 and A.3 of RFC 3550. Counters wrap at 32 bits as they do in the source. */
module RtcpLoss {
  import opened Bytes

  const PROBATION := 2
  const DROPOUT := 500
  const MISORDER := 100
  const SEQ_MOD := 0x1_0000
  const NO_BAD := SEQ_MOD + 1

  function Wrap32(x: int): U32 { x % 0x1_0000_0000 }

  /** The fields of `rtp_member` that the validation and the report read and write. */
  datatype Source = Source(
    seqNo: U16, bad: U32, base: U16, cycles: U32, probation: nat,
    packets: U32, packets0: U32, expected0: U32)

  /** As `rtp_member_create` leaves it. */
  const CREATED := Source(0, 0, 0, 0, PROBATION, 0, 0, 0)

  // --- specification ----------------------------------------------------------------------

  function Init(s: U16): Source { Source(s, NO_BAD, s, 0, 0, 0, 0, 0) }

  function Delta(m: Source, s: U16): U16 { (s - m.seqNo) % SEQ_MOD }

  /** `rtp_seq_update`: the new state, and whether the packet is to be counted. */
  function Update(m: Source, s: U16): (Source, bool) {
    if m.probation > 0 then
      if m.seqNo as int + 1 == s then
        if m.probation == 1 then (Init(s), true) else (m.(seqNo := s, probation := m.probation - 1), false)
      else (m.(seqNo := s, probation := PROBATION), false)
    else if Delta(m, s) < DROPOUT then
      (m.(seqNo := s, cycles := if s < m.seqNo then Wrap32(m.cycles + SEQ_MOD) else m.cycles), true)
    else if Delta(m, s) <= SEQ_MOD - MISORDER then
      if Wrap32(m.bad + 1) == s then (Init(s), true) else (m.(bad := s), false)
    else (m, true)
  }

  /** `rtcp_input_rtp`: a packet that passes is counted. */
  function Input(m: Source, s: U16): Source {
    var (n, ok) := Update(m, s);
    if ok then n.(packets := Wrap32(n.packets + 1)) else n
  }

  function ExtSeq(m: Source): U32 { Wrap32(m.cycles + m.seqNo) }
  function Expected(m: Source): U32 { Wrap32(ExtSeq(m) - m.base + 1) }
  function ExpectedInterval(m: Source): U32 { Wrap32(Expected(m) - m.expected0) }
  function ReceivedInterval(m: Source): U32 { Wrap32(m.packets - m.packets0) }

  /** A 32-bit pattern read as a signed integer. */
  function Signed32(x: U32): int { if x < 0x8000_0000 then x else x - 0x1_0000_0000 }

  function Quotient(a: nat, b: nat): nat
    requires b > 0
  {
    a / b
  }

  /** The loss fraction before it is cut to one byte; the shift is on 32 bits. */
  function Share(lost: int, expected: nat): nat {
    if lost < 0 || expected == 0 then 0 else Quotient(Wrap32(lost * 0x100), expected)
  }

  function Fraction(m: Source): nat {
    Share(Signed32(Wrap32(ExpectedInterval(m) - ReceivedInterval(m))), ExpectedInterval(m))
  }

  /** The cumulative loss, clamped to a non-negative 24-bit field. */
  function Clamp(lost: int): (l: nat)
    ensures l < 0x80_0000
  {
    if lost > 0x7F_FFFF then 0x7F_FFFF else if lost < 0 then 0 else lost
  }

  function Lost(m: Source): (l: nat)
    ensures l < 0x80_0000
  {
    Clamp(Signed32(Wrap32(Expected(m) - m.packets)))
  }

  function Octets24(lost: nat): (b: seq<Byte>)
    requires lost < 0x100_0000
    ensures |b| == 3
  {
    [lost / 0x1_0000, lost / 0x100 % 0x100, lost % 0x100]
  }

  function Reported(m: Source): Source { m.(expected0 := Expected(m), packets0 := m.packets) }

  /** The 24 bytes of a report block. */
  function Block(ssrc: U32, m: Source, jitter: U32, lsr: U32, dlsr: U32): (b: seq<Byte>)
    ensures |b| == 24
  {
    W32(ssrc) + [Fraction(m) % 0x100] + Octets24(Lost(m))
    + W32(ExtSeq(m)) + W32(jitter) + W32(lsr) + W32(if lsr == 0 then 0 else dlsr)
  }

  // --- the code ---------------------------------------------------------------------------

  class Member {
    const ssrc: U32
    var seqNo: U16
    var bad: U32
    var base: U16
    var cycles: U32
    var probation: nat
    var packets: U32
    var packets0: U32
    var expected0: U32

    function State(): Source
      reads this
    {
      Source(seqNo, bad, base, cycles, probation, packets, packets0, expected0)
    }

    constructor (ssrc: U32)
      ensures this.ssrc == ssrc && State() == CREATED
    {
      this.ssrc := ssrc;
      seqNo, bad, base, cycles, probation, packets, packets0, expected0 := 0, 0, 0, 0, PROBATION, 0, 0, 0;
    }

    method SeqInit(s: U16)
      modifies this
      ensures State() == Init(s)
    {
      seqNo, bad, base, cycles, packets0, expected0, packets, probation := s, SEQ_MOD + 1, s, 0, 0, 0, 0, 0;
    }

    method SeqUpdate(s: U16) returns (ok: bool)
      modifies this
      ensures (State(), ok) == Update(old(State()), s)
    {
      var delta: U16 := (s - seqNo) % SEQ_MOD;
      if probation > 0 {
        if seqNo as int + 1 == s {
          seqNo := s;
          probation := probation - 1;
          if probation == 0 {
            SeqInit(s);
            return true;
          }
        } else {
          probation := PROBATION;
          seqNo := s;
        }
        return false;
      } else if delta < DROPOUT {
        if s < seqNo {
          cycles := Wrap32(cycles + SEQ_MOD);
        }
        seqNo := s;
      } else if delta <= SEQ_MOD - MISORDER {
        if Wrap32(bad + 1) == s {
          SeqInit(s);
        } else {
          bad := s;
          return false;
        }
      }
      return true;
    }

    method InputRtp(s: U16)
      modifies this
      ensures State() == Input(old(State()), s)
    {
      var ok := SeqUpdate(s);
      if ok {
        packets := Wrap32(packets + 1);
      }
    }

    /** The loss arithmetic of `rtcp_report_block`. */
    method Losses(expected: U32) returns (fraction: nat, lost: nat)
      requires expected == Expected(State())
      ensures fraction == Fraction(State()) && lost == Lost(State())
    {
      hide Quotient, Wrap32, Signed32, Expected;
      var expectedInterval := Wrap32(expected - expected0);
      var receivedInterval := Wrap32(packets - packets0);
      var lostInterval := Signed32(Wrap32(expectedInterval as int - receivedInterval as int));
      fraction := 0;
      if !(lostInterval < 0 || expectedInterval == 0) {
        fraction := Quotient(Wrap32(lostInterval * 0x100), expectedInterval);
      }
      var missing := Signed32(Wrap32(expected - packets));
      if missing > 0x7F_FFFF {
        missing := 0x7F_FFFF;
      } else if missing < 0 {
        missing := 0;
      }
      lost := missing;
    }

    /** `rtcp_report_block`; the caller skips sources it has counted no packet of. */
    method ReportBlock(bytes: nat, jitter: U32, lsr: U32, dlsr: U32) returns (b: seq<Byte>)
      modifies this`expected0, this`packets0
      ensures bytes < 24 ==> b == [] && State() == old(State())
      ensures bytes >= 24 ==> b == Block(ssrc, old(State()), jitter, lsr, dlsr) && State() == Reported(old(State()))
    {
      hide W32, Octets24, Fraction, Lost, Wrap32;
      if bytes < 24 {
        return [];
      }
      var extseq := Wrap32(cycles + seqNo);
      var expected := Wrap32(extseq - base + 1);
      var fraction, lost := Losses(expected);
      b := W32(ssrc) + [fraction % 0x100] + Octets24(lost)
           + W32(extseq) + W32(jitter) + W32(lsr) + W32(if lsr == 0 then 0 else dlsr);
      expected0 := expected;
      packets0 := packets;
    }
  }

  // --- every run --------------------------------------------------------------------------

  datatype Event = Packet(s: U16) | Report

  /** A report is made only for a source with counted packets (`rtcp_rr_pack`, `rtcp_sr_pack`). */
  function Next(m: Source, e: Event): Source {
    match e
    case Packet(s) => Input(m, s)
    case Report => if m.packets == 0 then m else Reported(m)
  }

  function Run(es: seq<Event>): Source {
    if es == [] then CREATED else Next(Run(es[..|es| - 1]), es[|es| - 1])
  }

  /** No 32-bit counter is about to wrap. */
  predicate Roomy(m: Source) {
    m.cycles + SEQ_MOD < 0x1_0000_0000 - SEQ_MOD && m.packets + 1 < 0x1_0000_0000
  }

  predicate NeverWraps(es: seq<Event>) {
    forall k :: 0 <= k <= |es| ==> Roomy(Run(es[..k]))
  }

  /** What holds between any two events. */
  predicate Sound(m: Source) {
    if m.probation > 0 then m.packets == 0 && m.cycles == 0 && m.base == 0 && m.packets0 == 0 && m.expected0 == 0
    else
      m.packets >= 1
      && m.cycles + m.seqNo >= m.base
      && m.expected0 <= m.cycles + m.seqNo - m.base + 1
      && m.packets0 <= m.packets
      && (m.expected0 < m.cycles + m.seqNo - m.base + 1 ==> m.packets0 < m.packets)
  }

  lemma ExpectedIs(m: Source)
    requires Sound(m) && Roomy(m)
    ensures ExtSeq(m) == m.cycles + m.seqNo && Expected(m) == m.cycles + m.seqNo - m.base + 1
  {
  }

  lemma InputKeeps(m: Source, s: U16)
    requires Sound(m) && Roomy(m)
    ensures Sound(Input(m, s))
  {
    if m.probation == 0 && Delta(m, s) < DROPOUT {
      assert s < m.seqNo ==> Delta(m, s) as int == s - m.seqNo + SEQ_MOD;
    }
  }

  lemma ReportKeeps(m: Source)
    requires Sound(m) && Roomy(m) && m.packets > 0
    ensures Sound(Reported(m))
  {
    ExpectedIs(m);
  }

  lemma {:induction false} RunKeeps(es: seq<Event>)
    requires NeverWraps(es)
    ensures Sound(Run(es)) && Roomy(Run(es))
  {
    hide Input, Reported, Sound, Roomy;
    assert es[..|es|] == es;
    if es == [] {
      assert Sound(CREATED) by { CreatedIsSound(); }
    } else {
      var earlier := es[..|es| - 1];
      forall k | 0 <= k <= |earlier| ensures Roomy(Run(earlier[..k])) {
        assert earlier[..k] == es[..k];
      }
      RunKeeps(earlier);
      match es[|es| - 1] {
        case Packet(s) => InputKeeps(Run(earlier), s);
        case Report => if Run(earlier).packets > 0 { ReportKeeps(Run(earlier)); }
      }
    }
  }

  lemma CreatedIsSound()
    ensures Sound(CREATED)
  {
  }

  /** At any point of any run where a report is made, the extended sequence number has not fallen below
      its base, an interval that expected a packet received one, and the fraction fits its byte. */
  lemma {:induction false} ReportsAreExact(es: seq<Event>)
    requires NeverWraps(es)
    requires var m := Run(es);
             m.packets > 0 && ExpectedInterval(m) < 0x80_0000 && ReceivedInterval(m) <= 0x8000_0000
    ensures var m := Run(es);
            ExtSeq(m) >= m.base
            && (ExpectedInterval(m) > 0 ==> ReceivedInterval(m) >= 1)
            && Fraction(m) <= 0xFF
  {
    hide Run;
    RunKeeps(es);
    var m := Run(es);
    ExpectedIs(m);
    assert ExpectedInterval(m) == Expected(m) - m.expected0;
    assert ReceivedInterval(m) == m.packets - m.packets0;
    FractionFitsIff(m);
  }

  lemma Scale(x: nat, y: int, z: int)
    requires y <= z
    ensures x * y <= x * z
  {
  }

  lemma QuotientBelow(a: nat, b: nat, c: nat)
    requires b > 0
    ensures Quotient(a, b) < c <==> a < b * c
  {
    var q := Quotient(a, b);
    assert a == b * q + a % b;
    if q < c { Scale(b, q + 1, c); } else { Scale(b, c, q); }
  }

  /** The byte holds the fraction exactly when a packet came in the interval, or none was expected. */
  lemma FractionFitsIff(m: Source)
    requires ExpectedInterval(m) < 0x80_0000 && ReceivedInterval(m) <= 0x8000_0000
    ensures Fraction(m) <= 0xFF <==> ExpectedInterval(m) == 0 || ReceivedInterval(m) > 0
  {
    var e, r := ExpectedInterval(m), ReceivedInterval(m);
    hide ExpectedInterval, ReceivedInterval, Quotient;
    if e > 0 && e >= r {
      QuotientBelow((e - r) * 0x100, e, 0x100);
    }
  }

  /** A source on probation, had it been reported: its byte would read zero where all was lost. */
  lemma ReportOnProbationMisreads()
    ensures var m := Input(CREATED, 7);
            m.packets == 0 && ReceivedInterval(m) == 0 && ExpectedInterval(m) == 8
            && Fraction(m) == 0x100 && Fraction(m) % 0x100 == 0
  {
    var m := Input(CREATED, 7);
    assert Delta(CREATED, 7) == 7;
    assert m == CREATED.(seqNo := 7);
    assert Quotient(0x800, 8) == 0x100;
  }

  // --- the interval between reports -------------------------------------------------------

  /** What an event does to the marks of the interval: a restart begins a new one with its own packet. */
  predicate Restarts(m: Source, s: U16) { Update(m, s) == (Init(s), true) }

  /** The packets counted, and how far the highest number has advanced, since the last report or since the
      source was restarted; its first packet counts for both. */
  function Since(es: seq<Event>): nat {
    if es == [] then 0
    else
      var earlier := es[..|es| - 1];
      match es[|es| - 1]
      case Report => if Run(earlier).packets == 0 then Since(earlier) else 0
      case Packet(s) =>
        var m := Run(earlier);
        if Restarts(m, s) then 1 else Since(earlier) + (if Update(m, s).1 then 1 else 0)
  }

  function Advanced(es: seq<Event>): nat {
    if es == [] then 0
    else
      var earlier := es[..|es| - 1];
      var m := Run(earlier);
      match es[|es| - 1]
      case Report => if m.packets == 0 then Advanced(earlier) else 0
      case Packet(s) =>
        if Restarts(m, s) then 1 else Advanced(earlier) + StepOf(m, s)
  }

  /** The marks that a report leaves make the next one tell of the interval alone. */
  lemma {:induction false} IntervalIs(es: seq<Event>)
    requires NeverWraps(es) && Run(es).packets > 0
    ensures ReceivedInterval(Run(es)) == Since(es) && ExpectedInterval(Run(es)) == Advanced(es)
  {
    hide *;
    RunKeeps(es);
    MarksAre(es);
    MarksTell(Run(es));
  }

  lemma MarksTell(m: Source)
    requires Sound(m) && Roomy(m) && m.packets > 0
    ensures ReceivedInterval(m) == m.packets - m.packets0
    ensures ExpectedInterval(m) == m.cycles + m.seqNo - m.base + 1 - m.expected0
  {
    ExpectedIs(m);
  }

  lemma {:induction false} MarksAre(es: seq<Event>)
    requires NeverWraps(es)
    ensures var m := Run(es);
            m.packets > 0 ==> m.packets - m.packets0 == Since(es)
                              && m.cycles + m.seqNo - m.base + 1 - m.expected0 == Advanced(es)
    ensures Run(es).packets == 0 ==> Since(es) == 0
  {
    if es != [] {
      var earlier, e := es[..|es| - 1], es[|es| - 1];
      forall k | 0 <= k <= |earlier| ensures Roomy(Run(earlier[..k])) {
        assert earlier[..k] == es[..k];
      }
      MarksAre(earlier);
      RunKeeps(earlier);
      var m := Run(earlier);
      match e {
        case Report => ExpectedIs(m);
        case Packet(s) => MarksStep(m, s);
      }
    }
  }

  /** How far a packet moves the highest number on. */
  function StepOf(m: Source, s: U16): nat {
    var ahead := (s as int - m.seqNo as int) % 0x1_0000;
    if m.probation == 0 && ahead < 500 then ahead else 0
  }

  lemma MarksStep(m: Source, s: U16)
    requires Sound(m) && Roomy(m)
    ensures var n := Input(m, s);
            && (Restarts(m, s) ==> n.packets - n.packets0 == 1 && n.cycles + n.seqNo - n.base + 1 - n.expected0 == 1)
            && (!Restarts(m, s) ==>
                  && n.packets0 == m.packets0 && n.expected0 == m.expected0 && n.base == m.base
                  && n.packets == m.packets + (if Update(m, s).1 then 1 else 0)
                  && (m.packets > 0 ==> n.cycles + n.seqNo - (m.cycles + m.seqNo) == StepOf(m, s))
                  && (m.packets == 0 ==> n.packets == 0))
  {
    if m.probation == 0 && Delta(m, s) < DROPOUT {
      assert s < m.seqNo ==> Delta(m, s) as int == s - m.seqNo + SEQ_MOD;
      assert s >= m.seqNo ==> Delta(m, s) as int == s - m.seqNo;
    }
  }

  /** The fraction a report states is the share of the packets expected in the interval that did not come, in
      256ths and rounded down; none, if more came than were expected. */
  lemma {:induction false} FractionIsShare(es: seq<Event>)
    requires NeverWraps(es) && Run(es).packets > 0 && Advanced(es) < 0x80_0000 && Since(es) <= 0x8000_0000
    ensures var f, lost := Fraction(Run(es)), Advanced(es) - Since(es);
            if lost <= 0 || Advanced(es) == 0 then f == 0
            else f * Advanced(es) <= 256 * lost < (f + 1) * Advanced(es)
  {
    IntervalIs(es);
    var m := Run(es);
    hide Run, Since, Advanced, NeverWraps, ExpectedInterval, ReceivedInterval, Quotient;
    ShareIs(ExpectedInterval(m), ReceivedInterval(m));
  }

  lemma ShareIs(e: U32, r: U32)
    requires e < 0x80_0000 && r <= 0x8000_0000
    ensures var f := Share(Signed32(Wrap32(e - r)), e);
            if e <= r || e == 0 then f == 0 else f * e <= 256 * (e - r) < (f + 1) * e
  {
    hide Quotient;
    if e > r {
      assert Signed32(Wrap32(e - r)) == e - r;
      assert Wrap32((e - r) * 0x100) == (e - r) * 0x100;
      QuotientIs(256 * (e - r), e);
    } else if e == r {
      QuotientIs(0, if e == 0 then 1 else e);
    }
  }

  lemma QuotientIs(a: nat, b: nat)
    requires b > 0
    ensures var q := Quotient(a, b); q * b <= a < (q + 1) * b && (a == 0 ==> q == 0)
  {
    var q := Quotient(a, b);
    assert a == q * b + a % b;
  }

  // --- what the numbers mean --------------------------------------------------------------

  /** The highest of some unwrapped sequence numbers. */
  function Top(us: seq<nat>): nat
    requires us != []
  {
    if |us| == 1 then us[0] else Max(Top(us[..|us| - 1]), us[|us| - 1])
  }

  /** Each number is less than 500 ahead of the highest before it, and less than 100 behind. */
  ghost predicate Near(us: seq<nat>) {
    us != [] && forall k :: 0 < k < |us| ==> -100 < us[k] - Top(us[..k]) < 500
  }

  /** A validated source after packets with these unwrapped numbers. */
  function Heard(us: seq<nat>): Source
    requires us != []
  {
    if |us| == 1 then Init(us[0] % SEQ_MOD).(packets := 1)
    else Input(Heard(us[..|us| - 1]), us[|us| - 1] % SEQ_MOD)
  }

  lemma HeardOne(m: Source, first: nat, top: nat, u: nat)
    requires m.probation == 0 && Roomy(m)
    requires m.seqNo == top % SEQ_MOD && m.cycles + m.seqNo - m.base == top - first
    requires -MISORDER < u - top < DROPOUT
    ensures var n := Input(m, u % SEQ_MOD);
            n.probation == 0 && n.packets == m.packets + 1 && n.base == m.base
            && n.seqNo == Max(top, u) % SEQ_MOD
            && n.cycles + n.seqNo - n.base == Max(top, u) - first
  {
    var s: U16 := u % SEQ_MOD;
    assert Delta(m, s) == (u - top) % SEQ_MOD;
    if u >= top {
      assert Delta(m, s) == u - top;
      assert s < m.seqNo ==> s as int == m.seqNo + (u - top) - SEQ_MOD;
      assert s >= m.seqNo ==> s as int == m.seqNo + (u - top);
    } else {
      assert Delta(m, s) as int == u - top + SEQ_MOD;
    }
  }

  /** Through any reordering, duplication and loss within those limits, the packets expected are the
      numbers from the first to the highest, and the packets counted are all that came. */
  lemma {:induction false} ExpectedIsSpan(us: seq<nat>)
    requires Near(us)
    requires Top(us) - us[0] + us[0] % SEQ_MOD < 0xFFFE_0000 && |us| < 0xFFFF_FFFF
    ensures var m := Heard(us);
            m.probation == 0 && m.packets == |us| && m.base == us[0] % SEQ_MOD && m.seqNo == Top(us) % SEQ_MOD
            && m.cycles + m.seqNo - m.base == Top(us) - us[0]
  {
    if |us| > 1 {
      var earlier := us[..|us| - 1];
      forall k | 0 < k < |earlier| ensures -MISORDER < earlier[k] - Top(earlier[..k]) < DROPOUT {
        assert earlier[..k] == us[..k];
      }
      assert Top(earlier) <= Top(us);
      ExpectedIsSpan(earlier);
      hide Input, Top, Heard;
      assert Heard(us) == Input(Heard(earlier), us[|us| - 1] % SEQ_MOD) by { HeardSnoc(us); }
      assert Top(us) == Max(Top(earlier), us[|us| - 1]) by { TopSnoc(us); }
      HeardOne(Heard(earlier), us[0], Top(earlier), us[|us| - 1]);
    }
  }

  lemma {:induction false} HeardSnoc(us: seq<nat>)
    requires |us| > 1
    ensures Heard(us) == Input(Heard(us[..|us| - 1]), us[|us| - 1] % SEQ_MOD)
  {
  }

  lemma {:induction false} TopSnoc(us: seq<nat>)
    requires |us| > 1
    ensures Top(us) == Max(Top(us[..|us| - 1]), us[|us| - 1])
  {
  }

  lemma {:induction false} TopIsNotBelowFirst(us: seq<nat>)
    requires us != []
    ensures us[0] <= Top(us)
  {
    if |us| > 1 {
      TopIsNotBelowFirst(us[..|us| - 1]);
    }
  }

  lemma ReportOfSpan(m: Source, span: nat)
    requires m.cycles + m.seqNo - m.base == span && span + m.base < 0x7FFF_0000 && m.packets < 0x7FFF_0000
    ensures ExtSeq(m) == m.base + span && Expected(m) == span + 1
    ensures var skipped := span + 1 - m.packets;
            Lost(m) == if skipped < 0 then 0 else if skipped > 8388607 then 8388607 else skipped
  {
  }

  /** So a report states the span of the numbers heard less the packets counted, clamped to 24 bits:
      for packets in order, exactly how many numbers were skipped. */
  lemma {:induction false} LostIsSkipped(us: seq<nat>)
    requires Near(us)
    requires Top(us) - us[0] + us[0] % SEQ_MOD < 0x7FFF_0000 && |us| < 0x7FFF_0000
    ensures ExtSeq(Heard(us)) == us[0] % SEQ_MOD + (Top(us) - us[0])
    ensures Expected(Heard(us)) == Top(us) - us[0] + 1
    ensures var skipped := Top(us) - us[0] + 1 - |us|;
            Lost(Heard(us)) == if skipped < 0 then 0 else if skipped > 8388607 then 8388607 else skipped
  {
    TopIsNotBelowFirst(us);
    ExpectedIsSpan(us);
    hide *;
    ReportOfSpan(Heard(us), Top(us) - us[0]);
  }

  // --- admission --------------------------------------------------------------------------

  /** A new source after packets with these numbers. */
  function Fed(ss: seq<U16>): Source {
    if ss == [] then CREATED else Input(Fed(ss[..|ss| - 1]), ss[|ss| - 1])
  }

  /** Number `k` is one more than the one before it; the first is compared with zero. */
  predicate StepUp(ss: seq<U16>, k: nat)
    requires k < |ss|
  {
    ss[k] as int == (if k == 0 then 0 else ss[k - 1] as int) + 1
  }

  ghost predicate TwoSteps(ss: seq<U16>) {
    exists k :: 1 <= k < |ss| && StepUp(ss, k) && StepUp(ss, k - 1)
  }

  lemma TwoStepsSnoc(ss: seq<U16>)
    requires ss != []
    ensures var n := |ss| - 1;
            TwoSteps(ss) <==> TwoSteps(ss[..n]) || (n >= 1 && StepUp(ss, n) && StepUp(ss[..n], n - 1))
  {
    var n := |ss| - 1;
    var front := ss[..n];
    forall k | 0 <= k < n ensures StepUp(ss, k) == StepUp(front, k) {
    }
    if TwoSteps(front) {
      var k :| 1 <= k < n && StepUp(front, k) && StepUp(front, k - 1);
      assert StepUp(ss, k) && StepUp(ss, k - 1);
    }
  }

  /** Exactly when a new source is admitted, over any run of packets: when two numbers in a row have each
      been one more than the one before, counting from zero and without a wrap. */
  lemma {:induction false} AdmittedIff(ss: seq<U16>)
    ensures Fed(ss).probation == 0 <==> TwoSteps(ss)
    ensures Fed(ss).probation > 0 ==>
              && Fed(ss).seqNo == (if ss == [] then 0 else ss[|ss| - 1])
              && Fed(ss).probation == if ss != [] && StepUp(ss, |ss| - 1) then 1 else 2
  {
    if ss != [] {
      var n := |ss| - 1;
      hide TwoSteps, Delta;
      AdmittedIff(ss[..n]);
      TwoStepsSnoc(ss);
    } else {
      assert !TwoSteps([]);
    }
  }

  /** After a far jump to b, a far packet s restarts the source exactly when it is the next number and
      b is not the last one before the wrap; the first far packet itself never counts. */
  lemma RestartIff(m: Source, b: U16, s: U16)
    requires m.probation == 0 && Wrap32(m.bad + 1) != b
    requires DROPOUT <= Delta(m, b) <= SEQ_MOD - MISORDER && DROPOUT <= Delta(m, s) <= SEQ_MOD - MISORDER
    ensures Input(m, b) == m.(bad := b)
    ensures Input(Input(m, b), s) == Init(s).(packets := 1) <==> b < 0xFFFF && s as int == b as int + 1
    ensures !(b < 0xFFFF && s as int == b as int + 1) ==> Input(Input(m, b), s) == m.(bad := s)
  {
    var n := Input(m, b);
    assert Delta(n, s) == Delta(m, s);
    hide Delta;
    if b < 0xFFFF && s as int == b as int + 1 {
    } else {
      assert Input(n, s) == m.(bad := s);
      assert Init(s).bad == NO_BAD;
    }
  }

  // --- the wire ---------------------------------------------------------------------------

  datatype Fields = Fields(ssrc: U32, fraction: Byte, cumulative: int, exthsn: U32, jitter: U32, lsr: U32, dlsr: U32)

  /** A report block as `rtcp_rr_unpack` reads it. */
  function ReadBlock(b: seq<Byte>): Fields
    requires |b| >= 24
  {
    Fields(R32(b, 0), b[4], b[5] as int * 0x1_0000 + b[6] as int * 0x100 + b[7] as int,
           R32(b, 8), R32(b, 12), R32(b, 16), R32(b, 20))
  }

  lemma Octets24Value(l: nat)
    requires l < 0x100_0000
    ensures var o := Octets24(l); o[0] as int * 0x1_0000 + o[1] as int * 0x100 + o[2] as int == l
  {
    assert l / 0x100 / 0x100 == l / 0x1_0000;
  }

  /** The receiver of a report reads back the numbers it was made from. */
  lemma ReportReadsBack(ssrc: U32, m: Source, jitter: U32, lsr: U32, dlsr: U32)
    requires Fraction(m) <= 0xFF
    ensures ReadBlock(Block(ssrc, m, jitter, lsr, dlsr))
         == Fields(ssrc, Fraction(m), Lost(m), ExtSeq(m), jitter, lsr, if lsr == 0 then 0 else dlsr)
  {
    hide R32, W32, Octets24, Fraction, Lost, ExtSeq;
    var mid := [Fraction(m) % 0x100] + Octets24(Lost(m));
    var a, b, c, d, e := W32(ssrc), W32(ExtSeq(m)), W32(jitter), W32(lsr), W32(if lsr == 0 then 0 else dlsr);
    var all := Block(ssrc, m, jitter, lsr, dlsr);
    assert all == [] + a + (mid + b + c + d + e);
    assert all == (a + mid) + b + (c + d + e);
    assert all == (a + mid + b) + c + (d + e);
    assert all == (a + mid + b + c) + d + e;
    assert all == (a + mid + b + c + d) + e + [];
    ReadBack32([], ssrc, mid + b + c + d + e);
    ReadBack32(a + mid, ExtSeq(m), c + d + e);
    ReadBack32(a + mid + b, jitter, d + e);
    ReadBack32(a + mid + b + c, lsr, e);
    ReadBack32(a + mid + b + c + d, if lsr == 0 then 0 else dlsr, []);
    Octets24Value(Lost(m));
    assert all[4] == mid[0] && all[5] == mid[1] && all[6] == mid[2] && all[7] == mid[3];
  }
}
