/** What a receiver can make of a message whose chunks do not stand for all statuses, whatever memory the
    packer's second pass went on to read as chunks: never the statuses that were packed. The deltas hold no
    more nonzero bytes than the statuses call for, and the receiver spends one of them on a chunk. */
module TccStray {
  import opened Bytes
  import opened Tcc
  import opened TccDeltas
  import opened TccPack

  // ---------------------------------------------------------------- nonzero bytes

  function One(b: Byte): nat { if b == 0 then 0 else 1 }

  /** The nonzero bytes of `b` from position `i` up to `j`. */
  function NonZero(b: seq<Byte>, i: nat, j: nat): nat
    requires j <= |b|
    decreases j
  {
    if i >= j then 0 else NonZero(b, i, j - 1) + One(b[j - 1])
  }

  lemma {:induction false} NonZeroSplit(b: seq<Byte>, i: nat, k: nat, j: nat)
    requires i <= k <= j <= |b|
    ensures NonZero(b, i, j) == NonZero(b, i, k) + NonZero(b, k, j)
    decreases j
  {
    if k < j { NonZeroSplit(b, i, k, j - 1); }
  }

  lemma {:induction false} NonZeroShift(b: seq<Byte>, c: seq<Byte>, at: nat, i: nat, j: nat)
    requires i <= j <= |c| && at + j <= |b| && b[at + i..at + j] == c[i..j]
    ensures NonZero(b, at + i, at + j) == NonZero(c, i, j)
    decreases j
  {
    if i < j {
      assert b[at + i..at + j][j - 1 - i] == c[i..j][j - 1 - i];
      assert b[at + i..at + (j - 1)] == b[at + i..at + j][..j - 1 - i];
      assert c[i..j - 1] == c[i..j][..j - 1 - i];
      NonZeroShift(b, c, at, i, j - 1);
    }
  }

  lemma {:induction false} NonZeroAt(b: seq<Byte>, i: nat, j: nat, k: nat)
    requires i <= k < j <= |b| && b[k] != 0
    ensures NonZero(b, i, j) >= 1
    decreases j
  {
    if k < j - 1 { NonZeroAt(b, i, j - 1, k); }
  }

  function NonZeros(c: seq<Byte>): nat { NonZero(c, 0, |c|) }

  lemma NonZerosAppend(a: seq<Byte>, b: seq<Byte>)
    ensures NonZeros(a + b) == NonZeros(a) + NonZeros(b)
  {
    var c := a + b;
    NonZeroSplit(c, 0, |a|, |c|);
    assert c[0..|a|] == a[0..|a|] && c[|a|..|a| + |b|] == b[0..|b|];
    NonZeroShift(c, a, 0, 0, |a|);
    NonZeroShift(c, b, |a|, 0, |b|);
  }

  // ---------------------------------------------------------------- what the statuses call for

  /** The nonzero bytes that the offset of a status needs on the wire. */
  function Weight(st: Status): nat {
    if st.received then One(Scaled(st) / 0x100) + One(Scaled(st) % 0x100) else 0
  }

  function Weights(s: seq<Status>, i: nat, j: nat): nat
    requires j <= |s|
    decreases j
  {
    if i >= j then 0 else Weights(s, i, j - 1) + Weight(s[j - 1])
  }

  lemma {:induction false} WeightsSplit(s: seq<Status>, i: nat, k: nat, j: nat)
    requires i <= k <= j <= |s|
    ensures Weights(s, i, j) == Weights(s, i, k) + Weights(s, k, j)
    decreases j
  {
    hide Weight;
    if k < j { WeightsSplit(s, i, k, j - 1); }
  }

  /** Whatever symbol it is written under, a delta has no more nonzero bytes than its status calls for. */
  lemma DeltaWeight(e: int, st: Status)
    requires !st.received ==> st.ato == 0
    ensures NonZeros(Delta(e, st)) <= Weight(st)
  {
    var d := Delta(e, st);
    if |d| == 2 {
      assert NonZero(d, 0, 2) == NonZero(d, 0, 1) + One(d[1]) && NonZero(d, 0, 1) == NonZero(d, 0, 0) + One(d[0]);
    } else if |d| == 1 {
      assert NonZero(d, 0, 1) == NonZero(d, 0, 0) + One(d[0]);
    }
  }

  lemma {:induction false} DeltasWeight(e: seq<int>, s: seq<Status>, i: nat)
    requires i + |e| <= |s| && OffsetsFit(s)
    ensures NonZeros(Deltas(e, s, i)) <= Weights(s, i, i + |e|)
  {
    hide Delta, Weight, NonZeros;
    if e == [] {
      assert NonZeros([]) == 0 by { NoBytes(); }
    } else {
      var n := |e| - 1;
      DeltasWeight(e[..n], s, i);
      DeltaWeight(e[n], s[i + n]);
      NonZerosAppend(Deltas(e[..n], s, i), Delta(e[n], s[i + n]));
    }
  }

  lemma NoBytes()
    ensures NonZeros([]) == 0
  {
  }

  /** Every status is passed at most once, in step or not. */
  lemma {:induction false} PassWeight(s: seq<Status>, i: nat, cs: seq<int>, bytes: nat)
    requires i <= |s| && OffsetsFit(s)
    ensures NonZeros(SecondPass(s, i, cs, bytes).b) <= Weights(s, i, |s|)
    decreases |cs|
  {
    hide SecondPass, ChunkPart, NonZeros, Weights, OffsetsFit, StopsAt, AllActs;
    NoBytes();
    assert cs[0..] == cs;
    UnfoldPass(s, i, cs, 0, bytes);
    if i < |s| && bytes > 0 && cs != [] {
      var p := ChunkPart(cs[0] % 0x1_0000, s, i, bytes);
      PartWeight(cs[0] % 0x1_0000, s, i, bytes);
      WeightsSplit(s, i, p.next, |s|);
      if p.ok {
        var left := if |p.out| <= bytes then bytes - |p.out| else 0;
        PassWeight(s, p.next, cs[1..], left);
        NonZerosAppend(p.out, SecondPass(s, p.next, cs[1..], left).b);
      }
    }
  }

  lemma {:induction false} PartWeight(c: U16, s: seq<Status>, i: nat, bytes: nat)
    requires i <= |s| && OffsetsFit(s)
    ensures var p := ChunkPart(c, s, i, bytes); NonZeros(p.out) <= Weights(s, i, p.next)
  {
    hide AllActs, StopsAt, NonZeros, Weights, Deltas;
    var e := AllActs(c, s, i);
    DeltasWeight(e[..StopsAt(e, s, i, bytes, Width(c), 0)], s, i);
  }

  // ---------------------------------------------------------------- what the receiver spends

  /** From `end` on there is only padding: zeros, and a last byte of at most three. */
  ghost predicate PaddedFrom(b: seq<Byte>, end: nat) {
    end <= |b| && (forall j :: end <= j < |b| - 1 ==> b[j] == 0) && (end < |b| ==> b[|b| - 1] <= 3)
  }

  /** The deltas the receiver reads for statuses with these offsets hold a nonzero byte, ahead of the
      padding, for each that the offsets call for. */
  lemma {:induction false} DeltasSpend(e: seq<int>, s: seq<Status>, b: seq<Byte>, at: nat, end: nat, n: nat)
    requires n <= |e| && n <= |s| && at <= |b| && PaddedFrom(b, end) && OffsetsFit(s)
    requires forall j :: 0 <= j < n ==> ReadDeltas(e, b, at, n).atos[j] == s[j].ato
    ensures var r := ReadDeltas(e, b, at, n); Weights(s, 0, n) <= NonZero(b, at, Min(r.at, end))
  {
    hide Weight, Signed16, R16;
    if n > 0 {
      var r0, r := ReadDeltas(e, b, at, n - 1), ReadDeltas(e, b, at, n);
      forall j | 0 <= j < n - 1 ensures r0.atos[j] == s[j].ato {
        assert r.atos[j] == r0.atos[j];
      }
      DeltasSpend(e, s, b, at, end, n - 1);
      assert r.atos[n - 1] == s[n - 1].ato;
      OneSpends(e[n - 1], s[n - 1], b, r0, end);
      SpentMore(b, at, r0.at, r.at, end);
    }
  }

  lemma {:induction false} SpentMore(b: seq<Byte>, at: nat, mid: nat, to: nat, end: nat)
    requires at <= mid <= to <= |b| && end <= |b|
    ensures NonZero(b, at, Min(to, end)) == NonZero(b, at, Min(mid, end)) + NonZero(b, mid, Min(to, end))
  {
    if mid <= end {
      if at <= Min(to, end) { NonZeroSplit(b, at, mid, Min(to, end)); }
    } else {
      assert Min(to, end) == Min(mid, end);
    }
  }

  /** One step of the delta loop. */
  function StepTo(x: int, b: seq<Byte>, r: Reader): (int, nat)
    requires r.at <= |b|
  {
    if !r.ok || r.at >= |b| || x == 0 then (0, r.at)
    else if x == 1 then (b[r.at] / 4, r.at + 1)
    else if |b| - r.at < 2 then (0, r.at)
    else (Signed16(R16(b, r.at)) / 4, r.at + 2)
  }

  lemma {:induction false} OneSpends(x: int, st: Status, b: seq<Byte>, r: Reader, end: nat)
    requires r.at <= |b| && PaddedFrom(b, end) && StepTo(x, b, r).0 == st.ato
    requires if st.received then -8192 <= st.ato <= 8191 else st.ato == 0
    ensures Weight(st) <= NonZero(b, r.at, Min(StepTo(x, b, r).1, end))
  {
    var at, to := r.at, StepTo(x, b, r).1;
    if to == at + 1 {
      assert Scaled(st) == 4 * st.ato;
      if at < end {
        assert NonZero(b, at, at + 1) == NonZero(b, at, at) + One(b[at]);
      }
    } else if to == at + 2 {
      var h, l := b[at], b[at + 1];
      PairValue(h, l, st);
      assert R16(b, at) == h as int * 0x100 + l as int;
      if at + 1 < end {
        assert NonZero(b, at, at + 2) == NonZero(b, at, at + 1) + One(l);
        assert NonZero(b, at, at + 1) == NonZero(b, at, at) + One(h);
      } else if at < end {
        assert NonZero(b, at, at + 1) == NonZero(b, at, at) + One(h);
      }
    }
  }

  /** The two bytes of a large delta against those its status calls for. */
  lemma PairValue(h: Byte, l: Byte, st: Status)
    requires Signed16(h as int * 0x100 + l as int) / 4 == st.ato
    ensures Scaled(st) / 0x100 == h && Scaled(st) % 0x100 == l as int - l as int % 4
  {
    var v := h as int * 0x100 + l as int;
    FourTimes(v);
    HighLow(h, l);
  }

  lemma FourTimes(v: U16)
    ensures 4 * (Signed16(v) / 4) % 0x1_0000 == v as int - v as int % 4
  {
    var q := v as int / 4;
    assert v as int == 4 * q + v as int % 4;
  }

  lemma HighLow(h: Byte, l: Byte)
    ensures var v := h as int * 0x100 + (l as int - l as int % 4);
            v / 0x100 == h && v % 0x100 == l as int - l as int % 4
    ensures (h as int * 0x100 + l as int) % 4 == l as int % 4
  {
  }

  /** Reading on past chunks that leave statuses open. */
  lemma {:induction false} ChunksThen(cs: seq<int>, b: seq<Byte>, at: nat, left: nat)
    requires at + 2 * |cs| <= |b| && b[at..at + 2 * |cs|] == ChunkBytes(cs) && Covered(cs, left) < left
    ensures var d, rest := DecodeChunks(b, at, left), DecodeChunks(b, at + 2 * |cs|, left - Covered(cs, left));
            |d.syms| == Covered(cs, left) + |rest.syms| && d.at == rest.at
    decreases |cs|
  {
    hide DecodeChunk, DecodeChunks, Covered, R16, W16;
    NothingCovered(left);
    if cs != [] {
      UnfoldChunks(b, at, left);
      var c: U16 := cs[0] % 0x1_0000;
      assert cs == [cs[0]] + cs[1..];
      UnfoldCovered(cs[0], cs[1..], left);
      SplitSlice(b, at, W16(c), ChunkBytes(cs[1..]));
      hide ChunkBytes;
      ReadAt16(b, at, c);
      ChunksThen(cs[1..], b, at + 2, left - |DecodeChunk(c, left)|);
    }
  }

  lemma LowChunk(c: U16, left: nat)
    requires c <= 3
    ensures |DecodeChunk(c, left)| <= c
  {
    hide Repeat, Digits;
  }

  /** Zeros and padding stand for three statuses at most. */
  lemma {:induction false} ZerosCoverLittle(b: seq<Byte>, at: nat, left: nat, end: nat)
    requires at <= |b| && PaddedFrom(b, end)
    requires forall j :: at <= j < DecodeChunks(b, at, left).at && j < end ==> b[j] == 0
    ensures |DecodeChunks(b, at, left).syms| <= 3
    decreases |b| - at
  {
    hide DecodeChunk, DecodeChunks;
    UnfoldChunks(b, at, left);
    if left > 0 && |b| - at >= 2 {
      var c := R16(b, at);
      var n := |DecodeChunk(c, left)|;
      assert DecodeChunks(b, at, left).at >= at + 2;
      assert b[at] == 0 && b[at + 1] <= 3 && (at + 2 < |b| ==> b[at + 1] == 0);
      LowChunk(c, left);
      if at + 2 < |b| {
        ZerosCoverLittle(b, at + 2, left - n, end);
      } else {
        UnfoldChunks(b, at + 2, left - n);
      }
    }
  }

  // ---------------------------------------------------------------- what comes out

  lemma {:induction false} ReadRange(e: seq<int>, b: seq<Byte>, at: nat, n: nat)
    requires n <= |e| && at <= |b|
    ensures var a := ReadDeltas(e, b, at, n).atos;
            forall j :: 0 <= j < n ==> -8192 <= a[j] <= 8191 && (e[j] == 0 ==> a[j] == 0)
  {
    hide R16;
    if n > 0 { ReadRange(e, b, at, n - 1); }
  }

  /** The symbols, the place and the offsets behind an unpacked message. */
  lemma {:induction false} Unpacked(b: seq<Byte>, n: nat)
    requires |b| >= 8 && R16(b, 2) == n && Unpack(b).Some?
    ensures var d := DecodeChunks(b, 8, n);
            var e := d.syms + Repeat(0, n - |d.syms|);
            var s, a := Unpack(b).value.statuses, ReadDeltas(e, b, d.at, n).atos;
            && |s| == n == |e|
            && (forall i :: 0 <= i < n && i < |d.syms| ==> s[i].received == (e[i] != 0) && s[i].ato == a[i])
            && (forall i :: |d.syms| <= i < n ==> s[i] == Status(0, false, 0) && e[i] == 0)
  {
    hide DecodeChunks, ReadDeltas, R16, R32, Extend24;
  }

  /** Whatever is unpacked has offsets in range, and they are those the delta pass read. */
  lemma {:induction false} UnpackedOffsets(b: seq<Byte>, n: nat, s: seq<Status>)
    requires |b| >= 8 && R16(b, 2) == n && Unpack(b).Some? && Unpack(b).value.statuses == s
    ensures OffsetsFit(s)
    ensures var d := DecodeChunks(b, 8, n);
            var e := d.syms + Repeat(0, n - |d.syms|);
            |s| == n && forall j :: 0 <= j < n ==> ReadDeltas(e, b, d.at, n).atos[j] == s[j].ato
  {
    hide DecodeChunks, ReadDeltas, R16, Unpack, Repeat;
    Unpacked(b, n);
    var d := DecodeChunks(b, 8, n);
    var e := d.syms + Repeat(0, n - |d.syms|);
    ReadRange(e, b, d.at, n);
  }

  /** Every status but one at most has come with a symbol, if the numbers are consecutive. */
  lemma {:induction false} UnpackedSymbols(b: seq<Byte>, n: nat, begin: U16, s: seq<Status>)
    requires |b| >= 8 && R16(b, 2) == n && Unpack(b).Some? && Unpack(b).value.statuses == s && Contiguous(begin, s)
    ensures |DecodeChunks(b, 8, n).syms| >= |s| - 1
  {
    hide DecodeChunks, ReadDeltas, R16, Unpack, Repeat;
    Unpacked(b, n);
    if |s| >= 2 {
      NumbersDiffer(begin, |s|);
      assert s[|s| - 2].seqno != s[|s| - 1].seqno;
    }
  }

  lemma NumbersDiffer(begin: U16, n: nat)
    requires n >= 2
    ensures (begin + n - 2) as int % 0x1_0000 != (begin + n - 1) as int % 0x1_0000
  {
  }

  /** The parts of what was sent. */
  lemma SentParts(begin: U16, s: seq<Status>, timestamp: U32, cc: Byte, memory: seq<int>,
                  bytes: nat) returns (d: seq<Byte>)
    requires 1 <= |s| < 0x1_0000 && bytes >= 8 + 2 * |Chunks(s, 0)|
    requires Packed(begin, s, timestamp, cc, memory, bytes).end == Done
    ensures var b, cs := Packed(begin, s, timestamp, cc, memory, bytes).b, Chunks(s, 0);
            var base := 8 + 2 * |cs|;
            && base + |d| <= |b| && R16(b, 2) == |s|
            && b[8..base] == ChunkBytes(cs) && b[base..base + |d|] == d
            && PaddedFrom(b, base + |d|)
    ensures OffsetsFit(s) ==> NonZeros(d) <= Weights(s, 0, |s|)
  {
    hide *;
    var cs, b := Chunks(s, 0), Packed(begin, s, timestamp, cc, memory, bytes).b;
    var h, c := HeaderBytes(begin, |s|, timestamp, cc), ChunkBytes(cs);
    d := SecondPass(s, 0, cs + memory, bytes - 2 * |cs|).b;
    if OffsetsFit(s) { PassWeight(s, 0, cs + memory, bytes - 2 * |cs|); }
    var pad := SentIs(begin, s, timestamp, cc, memory, bytes);
    PartsOf(h, c, d, pad);
    HeaderReads(begin, |s|, timestamp, cc, c + d + pad);
  }

  /** A short count in the last byte, behind zeros. */
  ghost predicate IsPad(pad: seq<Byte>) {
    (forall j :: 0 <= j < |pad| - 1 ==> pad[j] == 0) && (pad != [] ==> pad[|pad| - 1] <= 3)
  }

  lemma SentIs(begin: U16, s: seq<Status>, timestamp: U32, cc: Byte, memory: seq<int>, bytes: nat)
    returns (pad: seq<Byte>)
    requires |s| >= 1 && bytes >= 8 + 2 * |Chunks(s, 0)|
    requires Packed(begin, s, timestamp, cc, memory, bytes).end == Done
    ensures var cs := Chunks(s, 0);
            var d := SecondPass(s, 0, cs + memory, bytes - 2 * |cs|).b;
            Packed(begin, s, timestamp, cc, memory, bytes).b
              == HeaderBytes(begin, |s|, timestamp, cc) + ChunkBytes(cs) + d + pad
    ensures IsPad(pad)
    ensures |ChunkBytes(Chunks(s, 0))| == 2 * |Chunks(s, 0)|
  {
    hide SecondPass, Chunks, ChunkBytes, HeaderBytes, Clipped, Pad;
    FirstsAre(s, bytes);
    var cs := Chunks(s, 0);
    var body := HeaderBytes(begin, |s|, timestamp, cc) + ChunkBytes(cs)
                + SecondPass(s, 0, cs + memory, bytes - 2 * |cs|).b;
    pad := Clipped(Pad(|body|), bytes + 8 - |body|);
    ClippedPads(|body|, bytes + 8 - |body|);
  }

  lemma ClippedPads(n: nat, room: int)
    ensures IsPad(Clipped(Pad(n), room))
  {
  }

  lemma PartsOf(h: seq<Byte>, c: seq<Byte>, d: seq<Byte>, pad: seq<Byte>)
    requires IsPad(pad)
    ensures var b := h + c + d + pad;
            && b == h + (c + d + pad)
            && b[|h|..|h| + |c|] == c && b[|h| + |c|..|h| + |c| + |d|] == d
            && PaddedFrom(b, |h| + |c| + |d|)
  {
    var b := h + c + d + pad;
    assert forall j :: |h| + |c| + |d| <= j < |b| ==> b[j] == pad[j - |h| - |c| - |d|];
  }

  /** A list with a run that does not fit never comes back, whatever memory the packer read as chunks and
      whatever it wrote on its way. */
  lemma {:induction false} NeverComesBack(begin: U16, s: seq<Status>, timestamp: U32, cc: Byte, memory: seq<int>,
                                          bytes: nat)
    requires Contiguous(begin, s) && 1 <= |s| < 0x1_0000 && !CutsFit(s, 0) && bytes >= 8 + 2 * |Chunks(s, 0)|
    requires Packed(begin, s, timestamp, cc, memory, bytes).end == Done
    ensures var got := Unpack(Packed(begin, s, timestamp, cc, memory, bytes).b);
            got.None? || got.value.statuses != s
  {
    hide *;
    var b, cs, n := Packed(begin, s, timestamp, cc, memory, bytes).b, Chunks(s, 0), |s|;
    var base := 8 + 2 * |cs|;
    var d := SentParts(begin, s, timestamp, cc, memory, bytes);
    if Unpack(b).Some? && Unpack(b).value.statuses == s {
      UnpackedOffsets(b, n, s);
      UnpackedSymbols(b, n, begin, s);
      var r := DecodeChunks(b, 8, n);
      CoveredBound(s, 0, n);
      ChunksThen(cs, b, 8, n);
      var j := SpentOnChunk(b, base, n - Covered(cs, n), base + |d|);
      DeltasSpend(r.syms + Repeat(0, n - |r.syms|), s, b, r.at, base + |d|, n);
      SpentTwice(b, base, r.at, ReadDeltas(r.syms + Repeat(0, n - |r.syms|), b, r.at, n).at, base + |d|, j);
      assert b[base + 0..base + |d|] == d[0..|d|];
      NonZeroShift(b, d, base, 0, |d|);
      NonZerosIs(d);
      assert false;
    }
  }

  lemma {:induction false} NonZerosIs(d: seq<Byte>)
    ensures NonZeros(d) == NonZero(d, 0, |d|)
  {
  }

  lemma SpentOnChunk(b: seq<Byte>, at: nat, left: nat, end: nat) returns (j: nat)
    requires at <= |b| && PaddedFrom(b, end) && |DecodeChunks(b, at, left).syms| > 3
    ensures at <= j < DecodeChunks(b, at, left).at && j < end && b[j] != 0
  {
    hide DecodeChunks, PaddedFrom;
    if forall k :: at <= k < DecodeChunks(b, at, left).at && k < end ==> b[k] == 0 {
      ZerosCoverLittle(b, at, left, end);
      assert false;
    }
    j :| at <= j < DecodeChunks(b, at, left).at && j < end && b[j] != 0;
  }

  lemma {:induction false} SpentTwice(b: seq<Byte>, base: nat, mid: nat, to: nat, end: nat, j: nat)
    requires base <= j < mid <= to <= |b| && j < end <= |b| && b[j] != 0
    ensures NonZero(b, base, end) >= 1 + NonZero(b, mid, Min(to, end))
  {
    NonZeroAt(b, base, Min(mid, end), j);
    NonZeroSplit(b, base, Min(mid, end), end);
    if mid < end {
      NonZeroSplit(b, mid, Min(to, end), end);
    }
  }
}
