/** Feedback on the wire: how compact it is, and one message of draft-holmer's format spelled out. */
module TccExample {
  import opened Bytes
  import opened Tcc

  // ---------------------------------------------------------------- how much a chunk stands for

  /** No chunk stands for fewer statuses than a vector of two-bit symbols would; without wide deltas ahead none
      for fewer than a vector of one-bit symbols; and a run that a vector cannot hold goes into one chunk as a
      whole. */
  lemma {:induction false} ChunkCovers(s: seq<Status>, i: nat)
    requires i < |s|
    ensures var r, left := CutAt(s, i), |s| - i;
            && r.k >= Min(7, left)
            && (!AnyLarge(s, i, Min(14, left)) ==> r.k >= Min(14, left))
            && (RunLen(s, i) > 14 ==> r.k == RunLen(s, i) && (r.k < 0x2000 ==> r.chunk < 0x8000))
            && (r.chunk < 0x8000 && RunLen(s, i) < 0x2000 ==> r.k == RunLen(s, i))
  {
    hide Large, RunChunk, Horner, Shl;
    var rem := |s| - i;
    if AnyLarge(s, i, Min(14, rem)) {
      var n := Min(7, rem);
      VectorDecodes(Syms(s, i, n), 2);
    } else if rem <= 7 {
      VectorDecodes(Syms(s, i, rem), 2);
    } else {
      SmallSyms(s, i, Min(14, rem));
      VectorDecodes(Syms(s, i, Min(14, rem)), 1);
    }
    RunIsRun(s[i].received, AnyLarge(s, i, RunLen(s, i)), RunLen(s, i));
    hide VectorChunk;
  }

  lemma RunIsRun(received: bool, wide: bool, k: nat)
    ensures k < 0x2000 ==> RunChunk(received, wide, k) < 0x8000
  {
  }

  /** So a list of n statuses takes at most n / 7 chunks, rounded up. */
  lemma {:induction false} FewChunks(s: seq<Status>, i: nat)
    requires i <= |s|
    ensures 7 * |Chunks(s, i)| <= |s| - i + 6
    decreases |s| - i
  {
    hide CutAt, Chunks;
    UnfoldCuts(s, i);
    if i < |s| {
      ChunkCovers(s, i);
      FewChunks(s, i + CutAt(s, i).k);
    }
  }

  // ---------------------------------------------------------------- one message

  /** Seven packets of which the first, third, fourth and last arrived, 0, 128, 64 and 256 ticks apart. */
  function Seven(): seq<Status> {
    [Status(5, true, 0), Status(6, false, 0), Status(7, true, 128), Status(8, true, 64), Status(9, false, 0),
     Status(10, false, 0), Status(11, true, 256)]
  }

  /** They go out as one two-bit vector, one one-byte delta and three two-byte ones, and three bytes of
      padding. */
  lemma SevenOnWire()
    ensures CutsFit(Seven(), 0)
    ensures Message(5, Seven(), 5, 0)
         == [0x00, 0x05, 0x00, 0x07, 0x00, 0x00, 0x05, 0x00, 0xD2, 0x82,
             0x00, 0x02, 0x00, 0x01, 0x00, 0x04, 0x00, 0x00, 0x00, 0x03]
  {
    var s := Seven();
    hide *;
    SevenSize();
    ShortListsFit(s, 0);
    SevenCut();
    UnfoldCuts(s, 0);
    UnfoldCuts(s, 7);
    UnfoldSymbols(s, 0);
    UnfoldSymbols(s, 7);
    assert [0xD282] + [] == [0xD282] && [1, 0, 2, 2, 0, 0, 2] + [] == [1, 0, 2, 2, 0, 0, 2];
    SevenDeltas();
    SevenParts();
  }

  /** The first chunk takes all seven. */
  lemma SevenCut()
    ensures var r := CutAt(Seven(), 0);
            r.k == 7 && r.chunk == 0xD282 && r.syms == [1, 0, 2, 2, 0, 0, 2] && RunLen(Seven(), 0) == 1
  {
    var s := Seven();
    assert RunLen(s, 0) == 1;
    assert Scaled(s[0]) == 0 && !AnyLarge(s, 0, 1);
    assert Large(s[2]);
    assert AnyLarge(s, 0, 7);
    var e := Syms(s, 0, 7);
    assert e == [1, 0, 2, 2, 0, 0, 2];
    hide Syms, AnyLarge, Large, RunLen, Sym, Scaled;
    SevenDigits(e);
  }

  lemma SevenDigits(e: seq<int>)
    requires e == [1, 0, 2, 2, 0, 0, 2]
    ensures VectorChunk(e, 2) == 0xD282
  {
    ShiftTwo(3); ShiftTwo(13); ShiftTwo(52); ShiftTwo(210); ShiftTwo(842); ShiftTwo(3368); ShiftTwo(13472);
    hide Shl;
    assert Horner(e, 0, 2) == 3;
    assert Horner(e, 1, 2) == 13;
    assert Horner(e, 2, 2) == 52;
    assert Horner(e, 3, 2) == 210;
    assert Horner(e, 4, 2) == 842;
    assert Horner(e, 5, 2) == 3368;
    assert Horner(e, 6, 2) == 13472;
    assert Horner(e, 7, 2) == 53890;
    NoShift(53890);
  }

  lemma {:induction false} ShiftTwo(v: nat)
    ensures Shl(v, 2) == 4 * v
  {
    assert Shl(v, 1) == 2 * Shl(v, 0);
  }

  lemma {:induction false} NoShift(v: nat)
    ensures Shl(v, 0) == v
  {
  }

  lemma SevenDeltas()
    ensures Deltas([1, 0, 2, 2, 0, 0, 2], Seven(), 0) == [0x00, 0x02, 0x00, 0x01, 0x00, 0x04, 0x00]
  {
    var s := Seven();
    var e := [1, 0, 2, 2, 0, 0, 2];
    assert Delta(1, s[0]) == [0] && Delta(0, s[1]) == [];
    assert Delta(2, s[2]) == [2, 0] && Delta(2, s[3]) == [1, 0] && Delta(2, s[6]) == [4, 0];
    assert Delta(0, s[4]) == [] && Delta(0, s[5]) == [];
    hide Delta;
    assert e[..7] == e && e[..7][..6] == e[..6] && e[..6][..5] == e[..5] && e[..5][..4] == e[..4];
    assert e[..4][..3] == e[..3] && e[..3][..2] == e[..2] && e[..2][..1] == e[..1] && e[..1][..0] == [];
    assert Deltas(e[..1], s, 0) == Deltas([], s, 0) + Delta(1, s[0]);
    assert Deltas(e[..2], s, 0) == Deltas(e[..1], s, 0) + Delta(0, s[1]);
    assert Deltas(e[..3], s, 0) == Deltas(e[..2], s, 0) + Delta(2, s[2]);
    assert Deltas(e[..4], s, 0) == Deltas(e[..3], s, 0) + Delta(2, s[3]);
    assert Deltas(e[..5], s, 0) == Deltas(e[..4], s, 0) + Delta(0, s[4]);
    assert Deltas(e[..6], s, 0) == Deltas(e[..5], s, 0) + Delta(0, s[5]);
    assert Deltas(e[..7], s, 0) == Deltas(e[..6], s, 0) + Delta(2, s[6]);
  }

  lemma SevenParts()
    requires CutsFit(Seven(), 0) && Chunks(Seven(), 0) == [0xD282] && Symbols(Seven(), 0) == [1, 0, 2, 2, 0, 0, 2]
    requires Deltas([1, 0, 2, 2, 0, 0, 2], Seven(), 0) == [0x00, 0x02, 0x00, 0x01, 0x00, 0x04, 0x00]
    ensures Message(5, Seven(), 5, 0)
         == [0x00, 0x05, 0x00, 0x07, 0x00, 0x00, 0x05, 0x00, 0xD2, 0x82,
             0x00, 0x02, 0x00, 0x01, 0x00, 0x04, 0x00, 0x00, 0x00, 0x03]
  {
    hide Chunks, Symbols, Deltas, CutsFit, Seven;
    assert |Seven()| == 7 by { SevenSize(); }
    assert HeaderBytes(5, 7, 5, 0) == [0x00, 0x05, 0x00, 0x07, 0x00, 0x00, 0x05, 0x00];
    assert [0xD282][1..] == [];
    assert ChunkBytes([0xD282]) == [0xD2, 0x82] + ChunkBytes([]);
    assert Pad(17) == [0, 0, 3];
    hide HeaderBytes, ChunkBytes, Pad;
  }

  lemma SevenSize()
    ensures |Seven()| == 7
  {
  }
}
