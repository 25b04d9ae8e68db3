/** Feedback packed and unpacked again: exactly which statuses come back. */
module TccRoundTrip {
  import opened Bytes
  import opened Tcc
  import opened TccChunks
  import opened TccDeltas
  import opened TccPack
  import opened TccStray

  lemma {:induction false} ChunksCount(s: seq<Status>, i: nat)
    requires i <= |s|
    ensures |Chunks(s, i)| <= |s| - i
    decreases |s| - i
  {
    hide CutAt, Chunks;
    UnfoldCuts(s, i);
    if i < |s| {
      ChunksCount(s, i + CutAt(s, i).k);
    }
  }

  lemma {:induction false} MessageSize(begin: U16, s: seq<Status>, timestamp: U32, cc: Byte)
    requires CutsFit(s, 0)
    ensures |Message(begin, s, timestamp, cc)| <= 11 + 4 * |s|
  {
    hide Chunks, Symbols, ChunkBytes, Deltas, HeaderBytes, CutsFit;
    DeltasSize(Symbols(s, 0), s, 0);
    ChunksCount(s, 0);
  }

  /** Packed and unpacked again, over any buffer of eight bytes and four for each status, and whatever lies
      in memory behind the chunks: the very same statuses come back iff every run that starts a chunk fits
      its field and every offset fits its own. No run may straddle the wrap of the numbers. */
  method ThereAndBack(begin: U16, s: seq<Status>, timestamp: U32, cc: Byte, memory: seq<int>, bytes: nat)
    returns (back: Option<seq<Status>>)
    requires Contiguous(begin, s) && 1 <= |s| < 0x1_0000 && bytes >= 8 + 4 * |s| && CutsStraight(s, 0)
    ensures back == Some(s) <==> CutsFit(s, 0) && OffsetsFit(s)
  {
    hide Chunks, Message, Unpack, CutsFit, CutsStraight, OffsetsFit, Packed, Whole;
    ChunksCount(s, 0);
    var sent := Pack(begin, s, timestamp, cc, memory, bytes);
    if CutsFit(s, 0) {
      MessageSize(begin, s, timestamp, cc);
      InsideIff(begin, s, timestamp, cc, memory, bytes);
      WholeIs(begin, s, timestamp, cc, memory);
      RestoredExactly(begin, s, timestamp, cc);
    } else if sent.end.Done? {
      NeverComesBack(begin, s, timestamp, cc, memory, bytes);
    }
    if !sent.end.Done? {
      return None;
    }
    var got := UnpackMessage(sent.b, true);
    back := if got.Some? then Some(got.value.statuses) else None;
  }

  // ---------------------------------------------------------------- runs across the wrap

  /** A run of losses across the wrap: the second pass stops at the wrap and walks off the one chunk. */
  lemma {:induction false} StraddlingRunStrays(begin: U16, s: seq<Status>, timestamp: U32, cc: Byte)
    requires Contiguous(begin, s) && 15 <= |s| < 0x2000 && begin + |s| > 0x1_0000
    requires forall i :: 0 <= i < |s| ==> !s[i].received
    ensures CutsFit(s, 0) && !CutsStraight(s, 0)
    ensures Whole(begin, s, timestamp, cc, []).end == Stray
  {
    OneChunk(begin, s);
    RunActs(|s|, s, 0);
    hide Chunks, CutsFit, CutsStraight, CutAt, RunLen, ChunkBytes, HeaderBytes, Second, AllActs, Deltas;
    var cs := Chunks(s, 0) + [];
    assert cs == [|s|] && cs[0..] == cs && cs[1..] == [];
    UnfoldSecond(s, 0, cs, 0);
    UnfoldSecond(s, |AllActs(|s|, s, 0)|, cs, 1);
  }

  lemma {:induction false} OneChunk(begin: U16, s: seq<Status>)
    requires Contiguous(begin, s) && 15 <= |s| < 0x2000 && begin + |s| > 0x1_0000
    requires forall i :: 0 <= i < |s| ==> !s[i].received
    ensures CutsFit(s, 0) && !CutsStraight(s, 0) && Chunks(s, 0) == [|s|]
  {
    OneRun(s);
    UnfoldCuts(s, 0);
    UnfoldCuts(s, |s|);
    UnfoldStraight(s, 0);
    hide Chunks, CutsFit, CutsStraight, CutAt, RunLen;
    assert [|s|] + [] == [|s|];
  }

  lemma {:induction false} OneRun(s: seq<Status>)
    requires 15 <= |s| < 0x2000 && forall i :: 0 <= i < |s| ==> !s[i].received
    ensures RunLen(s, 0) == |s| && CutAt(s, 0).k == |s| && CutAt(s, 0).chunk == |s|
  {
    LostRun(s, 0);
    assert !AnyLarge(s, 0, |s|);
    hide RunLen, AnyLarge, Repeat;
  }

  // ---------------------------------------------------------------- a straddle that goes unnoticed

  /** Fifteen losses, the last of them behind the wrap, and then one packet with no offset. */
  ghost predicate Late(begin: U16, s: seq<Status>) {
    && Contiguous(begin, s) && |s| == 16 && begin == 0x1_0000 - 14
    && (forall i :: 0 <= i < 15 ==> !s[i].received && s[i].ato == 0)
    && s[15].received && s[15].ato == 0
  }

  /** A vector of two-bit symbols that begins with one, small, and has nothing more. */
  const ONE_THEN_NONE: U16 := 0xD000

  lemma Thirteen()
    ensures Shl(13, 12) == ONE_THEN_NONE
  {
    assert Shl(13, 3) == 13 * 8;
    assert Shl(13, 6) == 13 * 64;
    assert Shl(13, 9) == 13 * 512;
  }

  lemma OneThenNone()
    ensures VectorChunk([1], 2) == ONE_THEN_NONE && DecodeChunk(ONE_THEN_NONE, 2) == [1, 0]
  {
    var d, f := [1], [1, 0];
    Thirteen();
    assert Horner(d, 1, 2) == 13 == Horner(f, 1, 2) by { assert Shl(3, 2) == 12; }
    assert Horner(f, 2, 2) == Shl(13, 2);
    ShlAdd(13, 2, 10);
    hide Horner, Shl;
    assert VectorChunk(f, 2) == VectorChunk(d, 2);
    VectorDecodes(f, 2);
    hide VectorChunk, Digits;
    assert Min(7, 2) == 2;
  }

  lemma {:induction false} LateCuts(begin: U16, s: seq<Status>)
    requires Late(begin, s)
    ensures CutAt(s, 0).k == 15 && CutAt(s, 0).chunk == 15 && CutAt(s, 0).syms == Repeat(0, 15)
    ensures CutAt(s, 15).k == 1 && CutAt(s, 15).chunk == ONE_THEN_NONE && CutAt(s, 15).syms == [1]
    ensures RunLen(s, 0) == 15 && RunLen(s, 15) == 1
  {
    LateRun(s, 0);
    OneThenNone();
    assert RunLen(s, 15) == 1;
    assert !AnyLarge(s, 0, 15) && !AnyLarge(s, 15, 1);
    assert Syms(s, 15, 1) == [1];
    hide RunLen, AnyLarge, Syms, VectorChunk, Repeat;
  }

  lemma {:induction false} LateRun(s: seq<Status>, i: nat)
    requires |s| == 16 && i < 15 && s[15].received && forall j :: 0 <= j < 15 ==> !s[j].received
    ensures RunLen(s, i) == 15 - i
    decreases 15 - i
  {
    if i < 14 { LateRun(s, i + 1); }
  }

  lemma {:induction false} LateChunks(begin: U16, s: seq<Status>)
    requires Late(begin, s)
    ensures Chunks(s, 0) == [15, ONE_THEN_NONE] && Symbols(s, 0) == Repeat(0, 15) + [1]
    ensures CutsFit(s, 0) && !CutsStraight(s, 0)
  {
    LateCuts(begin, s);
    hide CutAt, Chunks, Symbols, CutsFit, CutsStraight, RunLen, Repeat;
    UnfoldCuts(s, 0);
    UnfoldCuts(s, 15);
    UnfoldCuts(s, 16);
    UnfoldStraight(s, 0);
    UnfoldSymbols(s, 0);
    UnfoldSymbols(s, 15);
    UnfoldSymbols(s, 16);
  }

  lemma {:induction false} ZeroDeltas(e: seq<int>, s: seq<Status>, i: nat)
    requires i + |e| <= |s| && forall j :: 0 <= j < |e| ==> e[j] == 0
    ensures Deltas(e, s, i) == []
  {
    if e != [] { ZeroDeltas(e[..|e| - 1], s, i); }
  }

  /** What the two chunks make the second pass act on: the run up to the wrap, and then the vector one status
      too early. */
  lemma {:induction false} LateActs(begin: U16, s: seq<Status>)
    requires Late(begin, s)
    ensures |AllActs(15, s, 0)| == 14 && Deltas(AllActs(15, s, 0), s, 0) == []
    ensures AllActs(ONE_THEN_NONE, s, 14) == [0, 2]
  {
    hide AllActs, DecodeChunk, Deltas;
    RunActs(15, s, 0);
    ZeroDeltas(AllActs(15, s, 0), s, 0);
    LateVector(begin, s);
  }

  lemma LateVector(begin: U16, s: seq<Status>)
    requires Late(begin, s)
    ensures AllActs(ONE_THEN_NONE, s, 14) == [0, 2]
  {
    hide DecodeChunk, Acts;
    OneThenNone();
    ActAt(ONE_THEN_NONE, s, 14, 2, 0);
    ActAt(ONE_THEN_NONE, s, 14, 2, 1);
  }

  lemma {:induction false} LateDeltas(begin: U16, s: seq<Status>)
    requires Late(begin, s)
    ensures Deltas([0, 2], s, 14) == [0, 0] && Deltas(Repeat(0, 15) + [1], s, 0) == [0]
  {
    hide Deltas, Repeat;
    ZeroDeltas([0], s, 14);
    DeltasAppend([0], [2], s, 14);
    assert [0] + [2] == [0, 2];
    ZeroDeltas(Repeat(0, 15), s, 0);
    DeltasAppend(Repeat(0, 15), [1], s, 0);
    OneDelta(s, 15, 2);
    OneDelta(s, 15, 1);
  }

  lemma {:induction false} OneDelta(s: seq<Status>, i: nat, x: int)
    requires i < |s| && s[i].ato == 0 && 1 <= x <= 2
    ensures Deltas([x], s, i) == if x == 1 then [0] else [0, 0]
  {
    assert [x][..0] == [];
    NoDeltasAt(s, i);
  }

  lemma {:induction false} LateWalk(begin: U16, s: seq<Status>, memory: seq<int>)
    requires Late(begin, s)
    ensures Second(s, 0, Chunks(s, 0) + memory) == Walk([0, 0], 16)
  {
    hide *;
    LateIsLong(begin, s);
    LateChunks(begin, s);
    LateActs(begin, s);
    LateDeltas(begin, s);
    var cs := [15, ONE_THEN_NONE as int] + memory;
    TwoSteps(s, cs, 14);
  }

  lemma {:induction false} TwoSteps(s: seq<Status>, cs: seq<int>, i: nat)
    requires |cs| >= 2 && 0 < i < |s| && |AllActs(cs[0] % 0x1_0000, s, 0)| == i
    requires i + |AllActs(cs[1] % 0x1_0000, s, i)| == |s|
    ensures Second(s, 0, cs) == Walk(Deltas(AllActs(cs[0] % 0x1_0000, s, 0), s, 0)
                                     + Deltas(AllActs(cs[1] % 0x1_0000, s, i), s, i), |s|)
  {
    hide *;
    assert cs[0..] == cs;
    UnfoldSecond(s, 0, cs, 0);
    UnfoldSecond(s, i, cs, 1);
    UnfoldSecond(s, |s|, cs, 2);
    assert Deltas(AllActs(cs[1] % 0x1_0000, s, i), s, i) + [] == Deltas(AllActs(cs[1] % 0x1_0000, s, i), s, i);
  }

  lemma {:induction false} LateWhole(begin: U16, s: seq<Status>, timestamp: U32, cc: Byte, memory: seq<int>)
    requires Late(begin, s)
    ensures var w := Whole(begin, s, timestamp, cc, memory);
            && w.end == Done && |w.b| == 16
            && w.b[..8] == HeaderBytes(begin, 16, timestamp, cc)
            && w.b[8..12] == ChunkBytes(Chunks(s, 0)) && w.b[12..13] == [0]
  {
    hide Chunks, ChunkBytes, HeaderBytes, Second, Pad, Late;
    LateIsLong(begin, s);
    LateWalk(begin, s, memory);
    LateChunks(begin, s);
    PadOf14();
    var h, c := HeaderBytes(begin, 16, timestamp, cc), ChunkBytes(Chunks(s, 0));
    var b := h + c + [0, 0] + Pad(14);
    assert b[..8] == h && b[8..12] == c && b[12..13] == [0];
  }

  lemma LateIsLong(begin: U16, s: seq<Status>)
    requires Late(begin, s)
    ensures |s| == 16
  {
  }

  lemma PadOf14()
    ensures |Pad(14)| == 2
  {
  }

  /** It takes such a list for a straddling run to go unnoticed: the last vector has places to spare, the walk
      falls one status behind, and writes two zero bytes where one was called for. */
  lemma {:induction false} StraddleUnnoticed(begin: U16, s: seq<Status>, timestamp: U32, cc: Byte,
                                             memory: seq<int>, bytes: nat)
    requires Late(begin, s) && bytes >= 16
    ensures !CutsStraight(s, 0)
    ensures var p := Packed(begin, s, timestamp, cc, memory, bytes);
            p.end == Done && Unpack(p.b).Some? && Unpack(p.b).value.statuses == s
  {
    LateNormal(begin, s);
    hide *;
    var w := Whole(begin, s, timestamp, cc, memory);
    LateChunks(begin, s);
    LateDeltas(begin, s);
    LateWhole(begin, s, timestamp, cc, memory);
    InsideIff(begin, s, timestamp, cc, memory, bytes);
    StartReads(begin, s, timestamp, cc, w.b);
  }

  lemma {:induction false} LateNormal(begin: U16, s: seq<Status>)
    requires Late(begin, s)
    ensures NormalAll(s) == s && Contiguous(begin, s) && |s| == 16
  {
    hide Normal, NormalAll;
    assert OffsetsFit(s);
    OffsetsFitIff(s);
    NormalAllIs(s);
  }
}
