/** What comes through after losses: once a unit starts behind a gap, or with nothing half done, everything
    that arrives in order from there on comes out whole. */
module H265Recovery {
  import opened Bytes
  import opened RtpPacket
  import opened AnnexB
  import opened H265Pack
  import opened H265Unpack
  import opened H265Integrity
  import opened H265RoundTrip

  /** A packet is missing before number `seqno`. */
  predicate GapBefore(st: Decoder, seqno: U16) { st.flags != -1 && seqno != Mod16(st.seqno + 1) }

  lemma ClearIff(st: Decoder, seqno: U16)
    ensures Clear(st, seqno) <==> GapBefore(st, seqno) || st.buf == []
    ensures KnownFlags(st) ==>
              Track(st, seqno).flags == if GapBefore(st, seqno) || st.flags == PACKET_LOST then PACKET_LOST else 0
  {
  }

  /** After any stream whatever - loss, reordering, foreign and truncated packets, failed allocations -
      an access unit that starts behind a gap, or with no unit half done, comes through byte for byte. Its
      first NAL unit is flagged exactly when a loss is pending or a packet is missing, the others are not. */
  lemma {:induction false} RecoversAfterLoss(before: seq<Arrival>, c: Stream, seqno: U16, nals: seq<seq<Byte>>)
    requires ValidStream(c) && nals != []
    requires forall n :: n in nals ==> Emulated(n) && Carried(c, n)
    requires var st := Run(Fresh, before);
             GapBefore(st, seqno) || st.buf == [] || |nals[0]| + RTP_FIXED_HEADER <= c.size
    ensures var st := Run(Fresh, before);
            var h := Arrivals(PackAll(c, seqno, Units(Join(nals))));
            var lost := Pending(before) || GapBefore(st, seqno);
            && Emitted(Fresh, before + h)
               == Emitted(Fresh, before) + Emissions(nals, c.timestamp, if lost then PACKET_LOST else 0)
            && Expects(Run(Fresh, before + h), Mod16(seqno + |h|))
  {
    hide *;
    var st := Run(Fresh, before);
    SplitJoin(nals);
    ClearIff(st, seqno);
    FlagIsPending(before);
    UnitsRoundTrip(st, c, seqno, nals);
    RunAppend(Fresh, before, Arrivals(PackAll(c, seqno, Units(Join(nals)))));
  }
}
