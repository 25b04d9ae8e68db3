/** The whole packer of lib/librtp/source/rtcp-rtpfb.c (`rtcp_rtpfb_tcc01_pack`) with the count of free
    bytes it keeps. That count starts at the whole buffer although eight bytes are already written. */
module TccPack {
  import opened Bytes
  import opened Tcc
  import opened TccChunks
  import opened TccDeltas

  /** The padding loop: zeros, and a count in the last byte. */
  method Padding(n0: nat, bytes: nat) returns (out: seq<Byte>)
    ensures out == Pad(n0)[..Min(bytes, |Pad(n0)|)]
  {
    var n, k := n0, 0;
    out := [];
    ghost var r := n0 % 4;
    while k < 4 && n % 4 != 0 && k < bytes
      invariant 0 <= k <= 4 && n == n0 + k && |out| == k <= bytes
      invariant (n % 4 == 0 <==> r + k == 4 || r + k == 0) && r + k <= 4 && (k > 0 ==> r > 0)
      invariant forall j :: 0 <= j < k ==> out[j] == if j == 3 - r then j + 1 else 0
      decreases 4 - k
    {
      assert (n + 1) % 4 == 0 <==> r + k == 3;
      out := out + [if (n + 1) % 4 == 0 then k + 1 else 0];
      n := n + 1;
      k := k + 1;
    }
  }

  function Clipped(b: seq<Byte>, n: int): (c: seq<Byte>)
    ensures 0 <= n ==> c == b[..Min(n, |b|)]
  {
    if n < 0 then [] else b[..Min(n, |b|)]
  }

  /** `rtcp_rtpfb_tcc01_pack` with a buffer of `bytes` bytes: how it ends, and everything it has written by
      then. `memory` is what the second pass would read as chunks behind those it wrote. */
  function Packed(begin: U16, s: seq<Status>, timestamp: U32, cc: Byte, memory: seq<int>, bytes: nat): Outcome {
    if bytes < 8 || |s| < 1 then Outcome(Refused, [])
    else
      var cs := Firsts(s, bytes);
      var second := SecondPass(s, 0, cs + memory, bytes - 2 * |cs|);
      var body := HeaderBytes(begin, |s|, timestamp, cc) + ChunkBytes(cs) + second.b;
      if !second.end.Done? then Outcome(second.end, body)
      else Outcome(Done, body + Clipped(Pad(|body|), bytes + 8 - |body|))
  }

  method Pack(begin: U16, s: seq<Status>, timestamp: U32, cc: Byte, memory: seq<int>, bytes: nat)
    returns (r: Outcome)
    requires Contiguous(begin, s)
    ensures r == Packed(begin, s, timestamp, cc, memory, bytes)
  {
    if bytes < 8 || |s| < 1 {
      return Outcome(Refused, []);
    }
    hide ChunkBytes, Pad, HeaderBytes, SecondPass, Firsts;
    var chunks, left := AllChunks(s, bytes);
    var second := AllDeltas(begin, s, chunks, memory, left);
    var body := HeaderBytes(begin, |s|, timestamp, cc) + ChunkBytes(chunks) + second.b;
    if !second.end.Done? {
      return Outcome(second.end, body);
    }
    var padding := Padding(|body|, bytes + 8 - |body|);
    return Outcome(Done, body + padding);
  }

  // ---------------------------------------------------------------- the buffer

  /** All that the two passes call for: the padding too, if the walk reaches the last status. */
  function Whole(begin: U16, s: seq<Status>, timestamp: U32, cc: Byte, memory: seq<int>): Outcome {
    var w := Second(s, 0, Chunks(s, 0) + memory);
    var body := HeaderBytes(begin, |s|, timestamp, cc) + ChunkBytes(Chunks(s, 0)) + w.out;
    if w.i == |s| then Outcome(Done, body + Pad(|body|)) else Outcome(Stray, body)
  }

  lemma {:induction false} FirstsAre(s: seq<Status>, bytes: nat)
    ensures var cs := Firsts(s, bytes);
            && (bytes >= 2 * |Chunks(s, 0)| ==> cs == Chunks(s, 0))
            && (bytes < 2 * |Chunks(s, 0)| ==> bytes - 2 * |cs| <= 1)
  {
    hide Chunks;
    assert Chunks(s, 0)[..|Chunks(s, 0)|] == Chunks(s, 0);
  }

  /** Written are all the bytes called for; or the count of free ones is down to one, and they are seven
      or eight more than the buffer has. */
  lemma WrittenTight(begin: U16, s: seq<Status>, timestamp: U32, cc: Byte, memory: seq<int>,
                     bytes: nat)
    requires bytes >= 8 && |s| >= 1
    ensures var p, w := Packed(begin, s, timestamp, cc, memory, bytes), Whole(begin, s, timestamp, cc, memory);
            || p == w
            || (bytes + 7 <= |p.b| <= bytes + 8 && bytes + 6 < |w.b|)
  {
    hide SecondPass, Second, ChunkBytes, HeaderBytes, Pad, Chunks, Firsts;
    FirstsAre(s, bytes);
    var cs := Firsts(s, bytes);
    var left := bytes - 2 * |cs|;
    PassTight(s, 0, cs + memory, left);
    var second := SecondPass(s, 0, cs + memory, left);
    var body := HeaderBytes(begin, |s|, timestamp, cc) + ChunkBytes(cs) + second.b;
    assert |body| == 8 + bytes - left + |second.b|;
    PadSize(|body|);
    if cs == Chunks(s, 0) {
      var w := Second(s, 0, cs + memory);
      if second == Outcome(if w.i == |s| then Done else Stray, w.out) {
        assert Pad(|body|)[..|Pad(|body|)|] == Pad(|body|);
      }
    }
  }

  lemma PadSize(n: nat)
    ensures |Pad(n)| <= 3
  {
  }

  /** Never more than eight bytes over the size, on any path. */
  lemma WrittenBound(begin: U16, s: seq<Status>, timestamp: U32, cc: Byte, memory: seq<int>,
                     bytes: nat)
    ensures |Packed(begin, s, timestamp, cc, memory, bytes).b| <= bytes + 8
    ensures bytes < 8 ==> Packed(begin, s, timestamp, cc, memory, bytes).b == []
  {
    hide SecondPass, ChunkBytes, HeaderBytes, Pad, Chunks, Firsts;
    if bytes >= 8 && |s| >= 1 {
      var cs := Firsts(s, bytes);
      PassTight(s, 0, cs + memory, bytes - 2 * |cs|);
    }
  }

  /** Exactly when the packer stays inside its buffer, for every list and whatever it reads: when the buffer
      has room for all that the two passes call for. A buffer up to six bytes too small still gets all of
      it; a smaller one gets seven or eight bytes more than it has. */
  lemma InsideIff(begin: U16, s: seq<Status>, timestamp: U32, cc: Byte, memory: seq<int>,
                  bytes: nat)
    requires bytes >= 8 && |s| >= 1
    ensures var p, w := Packed(begin, s, timestamp, cc, memory, bytes), Whole(begin, s, timestamp, cc, memory);
            && (|p.b| <= bytes <==> bytes >= |w.b|)
            && (bytes + 6 >= |w.b| ==> p == w)
  {
    hide Packed, Whole;
    WrittenTight(begin, s, timestamp, cc, memory, bytes);
  }

  /** What is called for: the message, on chunks that keep the second pass in step; a walk off the chunks,
      where a run does not fit and nothing that reads as chunks lies behind them. */
  lemma {:induction false} WholeIs(begin: U16, s: seq<Status>, timestamp: U32, cc: Byte, memory: seq<int>)
    requires |s| <= 0x1_0000
    ensures CutsFit(s, 0) && CutsStraight(s, 0) ==>
              Whole(begin, s, timestamp, cc, memory) == Outcome(Done, Message(begin, s, timestamp, cc))
    ensures !CutsFit(s, 0) && memory == [] ==> Whole(begin, s, timestamp, cc, memory).end == Stray
  {
    hide Chunks, Symbols, ChunkBytes, Deltas, HeaderBytes, Pad, CutsFit, CutsStraight, Second;
    if CutsFit(s, 0) && CutsStraight(s, 0) {
      SecondIsDeltas(s, 0, memory);
    }
    WalkBound(s, 0, 0);
    assert Chunks(s, 0) + [] == Chunks(s, 0);
  }

  /** For lists that keep the passes in step: inside the buffer iff the buffer holds the message. */
  lemma {:induction false} MessageInsideIff(begin: U16, s: seq<Status>, timestamp: U32, cc: Byte,
                                            memory: seq<int>, bytes: nat)
    requires bytes >= 8 && 1 <= |s| <= 0x1_0000 && CutsFit(s, 0) && CutsStraight(s, 0)
    ensures |Packed(begin, s, timestamp, cc, memory, bytes).b| <= bytes
            <==> bytes >= |Message(begin, s, timestamp, cc)|
  {
    hide Packed, Whole, CutsFit, CutsStraight, Message;
    InsideIff(begin, s, timestamp, cc, memory, bytes);
    WholeIs(begin, s, timestamp, cc, memory);
  }

  // ---------------------------------------------------------------- eight bytes over

  /** All the packets arrived, each within a byte of the one before. */
  ghost predicate AllSmall(s: seq<Status>) { forall i :: 0 <= i < |s| ==> s[i].received && !Large(s[i]) }

  lemma {:induction false} SmallRun(s: seq<Status>, i: nat)
    requires AllSmall(s) && i < |s|
    ensures RunLen(s, i) == |s| - i
    decreases |s| - i
  {
    hide Large;
    if i + 1 < |s| { SmallRun(s, i + 1); }
  }

  /** One status vector stands for all of them. */
  lemma {:induction false} SmallChunk(s: seq<Status>)
    requires AllSmall(s) && 8 <= |s| <= 14
    ensures var r := CutAt(s, 0);
            && r.k == |s| && Chunks(s, 0) == [r.chunk]
            && r.chunk >= 0x8000 && r.chunk / 0x4000 % 2 == 0 && r.chunk < 0x1_0000
            && forall j :: 0 <= j < |s| ==> r.syms[j] == 1
  {
    SmallRun(s, 0);
    assert !AnyLarge(s, 0, |s|);
    SmallSyms(s, 0, |s|);
    VectorDecodes(Syms(s, 0, |s|), 1);
    hide RunLen, AnyLarge, VectorChunk, Large, Repeat;
    UnfoldCuts(s, 0);
    UnfoldCuts(s, |s|);
  }

  lemma {:induction false} OnesFit(e: seq<int>, s: seq<Status>, k: nat)
    requires |e| == |s| && k <= |e| && forall j :: 0 <= j < |e| ==> e[j] == 1
    ensures |Deltas(e[..k], s, 0)| == k && StopsAt(e, s, 0, |e|, 1, k) == |e|
    decreases |e| - k
  {
    hide Delta;
    OnesSize(e[..k], s);
    if k < |e| { OnesFit(e, s, k + 1); }
  }

  lemma {:induction false} OnesSize(e: seq<int>, s: seq<Status>)
    requires |e| <= |s| && forall j :: 0 <= j < |e| ==> e[j] == 1
    ensures |Deltas(e, s, 0)| == |e|
  {
    if e != [] { OnesSize(e[..|e| - 1], s); }
  }

  lemma OnesActs(s: seq<Status>)
    requires AllSmall(s) && 8 <= |s| <= 14
    ensures var e := AllActs(CutAt(s, 0).chunk % 0x1_0000, s, 0);
            |e| == |s| && forall j :: 0 <= j < |e| ==> e[j] == 1
  {
    hide CutAt, Chunks, AllActs, RunLen, AllSmall;
    SmallChunk(s);
    SmallRun(s, 0);
    CutActs(s, 0);
  }

  lemma OnesPart(s: seq<Status>)
    requires AllSmall(s) && 8 <= |s| <= 14
    ensures var part := ChunkPart(CutAt(s, 0).chunk % 0x1_0000, s, 0, |s|);
            part.ok && |part.out| == |s| && part.next == |s|
  {
    hide CutAt, Chunks, Deltas, AllActs, StopsAt, AllSmall;
    SmallChunk(s);
    OnesActs(s);
    var e := AllActs(CutAt(s, 0).chunk % 0x1_0000, s, 0);
    assert e[..0] == [] && e[..|e|] == e;
    OnesFit(e, s, 0);
    OnesFit(e, s, |e|);
  }

  lemma OnesPass(s: seq<Status>, memory: seq<int>)
    requires AllSmall(s) && 8 <= |s| <= 14
    ensures var p := SecondPass(s, 0, Firsts(s, |s| + 2) + memory, |s|); p.end == Done && |p.b| == |s|
    ensures |Firsts(s, |s| + 2)| == 1
  {
    SmallChunk(s);
    OnesPart(s);
    hide SecondPass, ChunkPart, CutAt, Chunks;
    var cs := Firsts(s, |s| + 2) + memory;
    assert cs[0..] == cs;
    UnfoldPass(s, 0, cs, 0, |s|);
    UnfoldPass(s, |s|, cs, 1, 0);
  }

  /** Eight to fourteen such packets, and a buffer of two bytes more than that: the passes find the bytes
      they want, and leave off eight bytes behind the end of the buffer. */
  lemma EightOver(begin: U16, s: seq<Status>, timestamp: U32, cc: Byte, memory: seq<int>)
    requires AllSmall(s) && 8 <= |s| <= 14
    ensures var p := Packed(begin, s, timestamp, cc, memory, |s| + 2);
            p.end == Done && |p.b| == |s| + 10
  {
    hide SecondPass, Firsts, HeaderBytes, ChunkBytes, Pad, AllSmall;
    OnesPass(s, memory);
  }
}
