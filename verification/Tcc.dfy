/** Transport-wide congestion control feedback of lib/librtp/source/rtcp-rtpfb.c: what
    `rtcp_rtpfb_tcc01_pack` writes and `rtcp_rtpfb_tcc01_unpack` reads (section 3.1 of
    draft-holmer-rmcat-transport-wide-cc-extensions-01). */
module Tcc {
  import opened Bytes

  /** `rtcp_ccfb_t`: one packet's arrival status; `ato` is a 16-bit signed offset. */
  datatype Status = Status(seqno: U16, received: bool, ato: int)

  datatype Feedback = Feedback(begin: U16, cc: Byte, timestamp: U32, statuses: seq<Status>)

  // ---------------------------------------------------------------- symbols

  /** The offset in 250 us units as the 16-bit field carries it. */
  function Scaled(s: Status): U16 { 4 * s.ato % 0x1_0000 }

  /** A received packet whose offset does not fit one byte. */
  predicate Large(s: Status) { s.received && Scaled(s) > 0xFF }

  /** The status symbol: 0 not received, 1 small delta, 2 large delta. */
  function Sym(s: Status): (e: int)
    ensures 0 <= e < 3
  {
    if !s.received then 0 else if Scaled(s) > 0xFF then 2 else 1
  }

  /** How many statuses from `i` on share the received flag of status `i`. */
  function RunLen(s: seq<Status>, i: nat): (k: nat)
    requires i < |s|
    ensures 1 <= k && i + k <= |s|
    ensures forall j :: i <= j < i + k ==> s[j].received == s[i].received
    decreases |s| - i
  {
    if i + 1 < |s| && s[i + 1].received == s[i].received then 1 + RunLen(s, i + 1) else 1
  }

  predicate AnyLarge(s: seq<Status>, i: nat, k: nat)
    requires i + k <= |s|
  {
    exists j :: i <= j < i + k && Large(s[j])
  }

  // ---------------------------------------------------------------- chunks

  /** `k | flag` for a one-bit flag. */
  function SetBit(k: U16, flag: int): (r: U16)
    requires flag in {0x2000, 0x4000}
  {
    if k / flag % 2 == 1 then k else k + flag
  }

  function RunChunk(received: bool, wide: bool, k: nat): (c: U16)
  {
    var len := k % 0x1_0000;
    if !received then len else SetBit(len, if wide then 0x4000 else 0x2000)
  }

  /** The C shifts on non-negative values. */
  function Shl(v: nat, n: nat): (r: nat) { if n == 0 then v else 2 * Shl(v, n - 1) }
  function Shr(v: nat, n: nat): (r: nat)
    ensures r <= v
  {
    if n == 0 then v else Shr(v, n - 1) / 2
  }

  /** A status vector of symbols `w` bits wide read as one number, behind its two flag bits
      (binary 10 for one-bit symbols, 11 for two-bit symbols). */
  function Horner(d: seq<int>, n: nat, w: nat): (h: nat)
    requires n <= |d| && 1 <= w <= 2 && forall k :: 0 <= k < |d| ==> 0 <= d[k] < 2 * w
  {
    if n == 0 then w + 1 else
    Shl(Horner(d, n - 1, w), w) + d[n - 1]
  }

  /** The status vector chunk of up to 14 / w symbols; unused low bits are zero. */
  function VectorChunk(d: seq<int>, w: nat): (c: nat)
    requires 1 <= w <= 2 && w * |d| <= 14 && forall k :: 0 <= k < |d| ==> 0 <= d[k] < 2 * w
  {
    Shl(Horner(d, |d|, w), 14 - w * |d|)
  }

  /** The symbols of statuses `i .. i + n`. */
  function Syms(s: seq<Status>, i: nat, n: nat): (e: seq<int>)
    requires i + n <= |s|
    ensures |e| == n
    ensures forall k :: 0 <= k < n ==> e[k] == Sym(s[i + k])
  {
    if n == 0 then [] else Syms(s, i, n - 1) + [Sym(s[i + n - 1])]
  }

  function Repeat(e: int, n: nat): (r: seq<int>)
    ensures |r| == n && forall k :: 0 <= k < n ==> r[k] == e
  {
    if n == 0 then [] else Repeat(e, n - 1) + [e]
  }

  /** The chunk the packer writes at `i`, how many statuses it covers, and the symbols it stands for. */
  datatype Cut = Cut(chunk: int, k: nat, syms: seq<int>)

  function CutAt(s: seq<Status>, i: nat): (r: Cut)
    requires i < |s|
    ensures 1 <= r.k && i + r.k <= |s| && |r.syms| == r.k
  {
    var k := RunLen(s, i);
    var wide := AnyLarge(s, i, k);
    if k > (if wide then 7 else 14) then
      Cut(RunChunk(s[i].received, wide, k), k, Repeat(if !s[i].received then 0 else if wide then 2 else 1, k))
    else VectorAt(s, i)
  }

  lemma {:induction false} SmallSyms(s: seq<Status>, i: nat, n: nat)
    requires i + n <= |s| && !AnyLarge(s, i, n)
    ensures forall k :: 0 <= k < n ==> Syms(s, i, n)[k] < 2
  {
    forall k | 0 <= k < n ensures Syms(s, i, n)[k] < 2 {
      assert !Large(s[i + k]);
    }
  }

  function VectorAt(s: seq<Status>, i: nat): (r: Cut)
    requires i < |s|
    ensures 1 <= r.k && i + r.k <= |s| && |r.syms| == r.k
  {
    var rem := |s| - i;
    if AnyLarge(s, i, Min(14, rem)) then
      var n := Min(7, rem);
      Cut(VectorChunk(Syms(s, i, n), 2), n, Syms(s, i, n))
    else if rem <= 7 then Cut(VectorChunk(Syms(s, i, rem), 2), rem, Syms(s, i, rem))
    else
      var n := Min(14, rem);
      SmallSyms(s, i, n);
      Cut(VectorChunk(Syms(s, i, n), 1), n, Syms(s, i, n))
  }

  /** All the chunks from `i` on, and the symbols they stand for. */
  function Chunks(s: seq<Status>, i: nat): (r: seq<int>)
    requires i <= |s|
    decreases |s| - i
  {
    if i == |s| then [] else [CutAt(s, i).chunk] + Chunks(s, i + CutAt(s, i).k)
  }

  function Symbols(s: seq<Status>, i: nat): (r: seq<int>)
    requires i <= |s|
    ensures |r| == |s| - i
    decreases |s| - i
  {
    if i == |s| then [] else CutAt(s, i).syms + Symbols(s, i + CutAt(s, i).k)
  }

  // ---------------------------------------------------------------- decoding chunks

  /** The symbols the unpacker reads from one chunk when `left` statuses are still open. */
  function DecodeChunk(c: U16, left: nat): (e: seq<int>)
    ensures |e| <= left
  {
    if c < 0x8000 then Repeat(c / 0x2000 % 4, Min(c % 0x2000, left))
    else if c / 0x4000 % 2 == 1 then Digits(c, 2, Min(7, left))
    else Digits(c, 1, Min(14, left))
  }

  function Digits(c: U16, w: nat, n: nat): (e: seq<int>)
    requires 1 <= w <= 2 && w * n <= 14
    ensures |e| == n && forall j :: 0 <= j < n ==> w * (j + 1) <= 14 && e[j] == Shr(c, 14 - w * (j + 1)) % (2 * w)
  {
    if n == 0 then [] else Digits(c, w, n - 1) + [Shr(c, 14 - w * n) % (2 * w)]
  }

  // ---------------------------------------------------------------- shifts

  lemma {:induction false} ShrAdd(v: nat, a: nat, b: nat)
    ensures Shr(v, a + b) == Shr(Shr(v, a), b)
  {
    if b > 0 { ShrAdd(v, a, b - 1); }
  }

  lemma {:induction false} ShrShl(v: nat, n: nat)
    ensures Shr(Shl(v, n), n) == v
  {
    if n > 0 {
      ShrShl(v, n - 1);
      ShrAdd(Shl(v, n), 1, n - 1);
      assert Shr(Shl(v, n), 1) == Shr(Shl(v, n), 0) / 2;
    }
  }

  lemma {:induction false} ShlMono(u: nat, v: nat, n: nat)
    requires u < v
    ensures Shl(u, n) < Shl(v, n)
  {
    if n > 0 { ShlMono(u, v, n - 1); }
  }

  lemma {:induction false} ShlAdd(v: nat, a: nat, b: nat)
    ensures Shl(Shl(v, a), b) == Shl(v, a + b)
  {
    if b > 0 { ShlAdd(v, a, b - 1); }
  }

  /** Shifting out the last digit leaves the digits before it. */
  lemma HornerDrop(d: seq<int>, n: nat, w: nat)
    requires 0 < n <= |d| && 1 <= w <= 2 && forall k :: 0 <= k < |d| ==> 0 <= d[k] < 2 * w
    ensures Shr(Horner(d, n, w), w) == Horner(d, n - 1, w)
  {
    var h, v := Horner(d, n - 1, w), Horner(d, n, w);
    assert Shl(h, 1) == 2 * Shl(h, 0) && Shl(h, 2) == 2 * Shl(h, 1);
    assert v == 2 * w * h + d[n - 1];
    assert Shr(v, 1) == Shr(v, 0) / 2 && Shr(v, 2) == Shr(v, 1) / 2;
  }

  /** Dropping the low symbols leaves the number the high ones spell. */
  lemma {:induction false} HornerPrefix(d: seq<int>, n: nat, w: nat, j: nat)
    requires j <= n <= |d| && 1 <= w <= 2 && forall k :: 0 <= k < |d| ==> 0 <= d[k] < 2 * w
    ensures Shr(Horner(d, n, w), w * (n - j)) == Horner(d, j, w)
    decreases n
  {
    if j < n {
      hide Shr, Horner;
      HornerPrefix(d, n - 1, w, j);
      HornerDrop(d, n, w);
      assert w * (n - j) == w + w * (n - 1 - j);
      ShrAdd(Horner(d, n, w), w, w * (n - 1 - j));
    }
  }

  lemma {:induction false} HornerBound(d: seq<int>, n: nat, w: nat)
    requires n <= |d| && 1 <= w <= 2 && forall k :: 0 <= k < |d| ==> 0 <= d[k] < 2 * w
    ensures Horner(d, n, w) < Shl(w + 2, w * n)
  {
    if n > 0 {
      HornerBound(d, n - 1, w);
      var h, x := Horner(d, n - 1, w), Shl(w + 2, w * (n - 1));
      assert Shl(h, 1) == 2 * Shl(h, 0) && Shl(h, 2) == 2 * Shl(h, 1);
      ShlAdd(w + 2, w * (n - 1), w);
      assert w * (n - 1) + w == w * n;
      assert Shl(x, 1) == 2 * Shl(x, 0) && Shl(x, 2) == 2 * Shl(x, 1);
    }
  }

  lemma {:induction false} Shr14(c: nat)
    ensures Shr(c, 14) == c / 0x4000
  {
    assert Shr(c, 1) == c / 2;
    assert Shr(c, 2) == c / 4;
    assert Shr(c, 3) == c / 8;
    assert Shr(c, 4) == c / 16;
    assert Shr(c, 5) == c / 32;
    assert Shr(c, 6) == c / 64;
    assert Shr(c, 7) == c / 128;
    assert Shr(c, 8) == c / 256;
    assert Shr(c, 9) == c / 512;
    assert Shr(c, 10) == c / 1024;
    assert Shr(c, 11) == c / 2048;
    assert Shr(c, 12) == c / 4096;
    assert Shr(c, 13) == c / 8192;
  }

  lemma {:induction false} Shl14(v: nat)
    ensures Shl(v, 14) == v * 0x4000
  {
    assert Shl(v, 1) == v * 2;
    assert Shl(v, 2) == v * 4;
    assert Shl(v, 3) == v * 8;
    assert Shl(v, 4) == v * 16;
    assert Shl(v, 5) == v * 32;
    assert Shl(v, 6) == v * 64;
    assert Shl(v, 7) == v * 128;
    assert Shl(v, 8) == v * 256;
    assert Shl(v, 9) == v * 512;
    assert Shl(v, 10) == v * 1024;
    assert Shl(v, 11) == v * 2048;
    assert Shl(v, 12) == v * 4096;
    assert Shl(v, 13) == v * 8192;
  }

  /** A status vector chunk decodes to its symbols. */
  lemma {:induction false} VectorDecodes(d: seq<int>, w: nat)
    requires 1 <= w <= 2 && w * |d| <= 14 && forall k :: 0 <= k < |d| ==> 0 <= d[k] < 2 * w
    ensures var c := VectorChunk(d, w);
            0x8000 <= c < 0x1_0000 && (c / 0x4000 % 2 == 1) == (w == 2) && Digits(c, w, |d|) == d
  {
    hide Horner, Shl, Shr, Digits;
    var n := |d|;
    var h, c := Horner(d, n, w), VectorChunk(d, w);
    HornerBound(d, n, w);
    ShlMono(h, Shl(w + 2, w * n), 14 - w * n);
    ShlAdd(w + 2, w * n, 14 - w * n);
    Shl14(w + 2);
    assert c < 0x1_0000;
    VectorPrefix(d, w, 0);
    Shr14(c);
    HornerZero(d, w);
    forall j | 0 <= j < n ensures Digits(c, w, n)[j] == d[j] {
      VectorPrefix(d, w, j + 1);
      HornerLast(d, j + 1, w);
    }
  }

  lemma {:induction false} HornerZero(d: seq<int>, w: nat)
    requires 1 <= w <= 2 && forall k :: 0 <= k < |d| ==> 0 <= d[k] < 2 * w
    ensures Horner(d, 0, w) == w + 1
  {
  }

  lemma {:induction false} HornerLast(d: seq<int>, n: nat, w: nat)
    requires 1 <= n <= |d| && 1 <= w <= 2 && forall k :: 0 <= k < |d| ==> 0 <= d[k] < 2 * w
    ensures Horner(d, n, w) % (2 * w) == d[n - 1]
  {
    var h := Horner(d, n - 1, w);
    assert Shl(h, 1) == 2 * Shl(h, 0) && Shl(h, 2) == 2 * Shl(h, 1);
    assert Horner(d, n, w) == 2 * w * h + d[n - 1];
  }

  lemma {:induction false} VectorPrefix(d: seq<int>, w: nat, j: nat)
    requires 1 <= w <= 2 && w * |d| <= 14 && j <= |d| && forall k :: 0 <= k < |d| ==> 0 <= d[k] < 2 * w
    ensures w * j <= 14 && Shr(VectorChunk(d, w), 14 - w * j) == Horner(d, j, w)
  {
    hide Horner, Shl, Shr;
    var n := |d|;
    assert w * n == w * j + w * (n - j);
    ShrAdd(VectorChunk(d, w), 14 - w * n, w * (n - j));
    ShrShl(Horner(d, n, w), 14 - w * n);
    HornerPrefix(d, n, w, j);
  }

  // ---------------------------------------------------------------- chunks decode

  /** No run that the packer puts into one chunk from `i` on exceeds the 13-bit length field. Only the
      runs that start where a chunk starts matter: a status vector may take the head of a longer one. */
  ghost predicate CutsFit(s: seq<Status>, i: nat)
    requires i <= |s|
    decreases |s| - i
  {
    i == |s| || (RunLen(s, i) < 0x2000 && CutsFit(s, i + CutAt(s, i).k))
  }

  lemma {:induction false} RunDecodes(received: bool, wide: bool, k: nat, left: nat)
    requires 1 <= k < 0x2000 && k <= left
    ensures DecodeChunk(RunChunk(received, wide, k), left) == Repeat(if !received then 0 else if wide then 2 else 1, k)
  {
    hide Repeat, Digits;
  }

  /** A chunk stands for the statuses it covers exactly when the run behind it fits the 13-bit field:
      a longer run is read as fewer symbols. */
  lemma {:induction false} CutDecodesIff(s: seq<Status>, i: nat)
    requires i < |s|
    ensures var r := CutAt(s, i);
            0 <= r.chunk < 0x1_0000 && (DecodeChunk(r.chunk, |s| - i) == r.syms <==> RunLen(s, i) < 0x2000)
  {
    if RunLen(s, i) < 0x2000 {
      CutDecodes(s, i);
    } else {
      LongRunReadsShort(CutAt(s, i).chunk, |s| - i);
    }
  }

  lemma LongRunReadsShort(c: U16, left: nat)
    ensures |DecodeChunk(c, left)| < 0x2000
  {
    hide Repeat, Digits;
  }

  lemma VectorAtDecodes(s: seq<Status>, i: nat)
    requires i < |s|
    ensures var r := VectorAt(s, i);
            0 <= r.chunk < 0x1_0000 && DecodeChunk(r.chunk, |s| - i) == r.syms
  {
    hide Digits, VectorChunk, AnyLarge;
    var rem := |s| - i;
    if AnyLarge(s, i, Min(14, rem)) {
      VectorDecodes(Syms(s, i, Min(7, rem)), 2);
    } else if rem <= 7 {
      VectorDecodes(Syms(s, i, rem), 2);
    } else {
      SmallSyms(s, i, Min(14, rem));
      VectorDecodes(Syms(s, i, Min(14, rem)), 1);
    }
  }

  /** The receiver reads from a chunk the symbols the sender meant. */
  lemma {:induction false} CutDecodes(s: seq<Status>, i: nat)
    requires i < |s| && RunLen(s, i) < 0x2000
    ensures var r := CutAt(s, i);
            0 <= r.chunk < 0x1_0000 && DecodeChunk(r.chunk, |s| - i) == r.syms
  {
    hide DecodeChunk, VectorAt, AnyLarge, RunLen, Repeat;
    var k := RunLen(s, i);
    RunDecodes(s[i].received, AnyLarge(s, i, k), k, |s| - i);
    VectorAtDecodes(s, i);
  }

  /** Symbols fit the statuses they stand for: zero exactly for the packets that did not arrive, and
      one only where the delta fits a byte. */
  predicate Fits(e: int, s: Status) {
    0 <= e < 3 && (e == 0 <==> !s.received) && (e == 1 ==> !Large(s))
  }

  lemma CutFits(s: seq<Status>, i: nat, j: nat)
    requires i < |s| && j < CutAt(s, i).k
    ensures Fits(CutAt(s, i).syms[j], s[i + j])
  {
    var k := RunLen(s, i);
    hide VectorChunk, RunChunk;
    if k > (if AnyLarge(s, i, k) then 7 else 14) {
      assert s[i + j].received == s[i].received;
      assert !AnyLarge(s, i, k) ==> !Large(s[i + j]);
    }
  }

  lemma {:induction false} SymbolsFit(s: seq<Status>, i: nat, j: nat)
    requires i <= |s| && j < |s| - i
    ensures Fits(Symbols(s, i)[j], s[i + j])
    decreases |s| - i
  {
    hide CutAt, Fits;
    var k := CutAt(s, i).k;
    if j < k {
      CutFits(s, i, j);
    } else {
      SymbolsFit(s, i + k, j - k);
    }
  }

  function ChunkBytes(c: seq<int>): (b: seq<Byte>)
    ensures |b| == 2 * |c|
  {
    if c == [] then [] else W16(c[0] % 0x1_0000) + ChunkBytes(c[1..])
  }

  /** The unpacker's first pass: symbols read and where it stopped. */
  datatype Decoded = Decoded(syms: seq<int>, at: nat)

  function DecodeChunks(b: seq<Byte>, at: nat, left: nat): (r: Decoded)
    requires at <= |b|
    ensures |r.syms| <= left && at <= r.at <= |b|
    decreases |b| - at
  {
    if left == 0 || |b| - at < 2 then Decoded([], at)
    else
      var e := DecodeChunk(R16(b, at), left);
      var rest := DecodeChunks(b, at + 2, left - |e|);
      Decoded(e + rest.syms, rest.at)
  }

  lemma {:induction false} ChunksDecode(s: seq<Status>, i: nat, b: seq<Byte>, at: nat)
    requires i <= |s| && CutsFit(s, i)
    requires at + 2 * |Chunks(s, i)| <= |b| && b[at..at + 2 * |Chunks(s, i)|] == ChunkBytes(Chunks(s, i))
    ensures DecodeChunks(b, at, |s| - i) == Decoded(Symbols(s, i), at + 2 * |Chunks(s, i)|)
    decreases |s| - i
  {
    hide CutAt, DecodeChunk, DecodeChunks, W16, R16, RunLen, Symbols;
    UnfoldChunks(b, at, |s| - i);
    UnfoldSymbols(s, i);
    if i < |s| {
      var r := CutAt(s, i);
      CutDecodes(s, i);
      var rest := Chunks(s, i + r.k);
      assert ([r.chunk] + rest)[1..] == rest;
      hide Chunks;
      SplitSlice(b, at, W16(r.chunk), ChunkBytes(rest));
      hide ChunkBytes;
      ReadAt16(b, at, r.chunk);
      ChunksDecode(s, i + r.k, b, at + 2);
    }
  }

  lemma UnfoldSymbols(s: seq<Status>, i: nat)
    requires i <= |s|
    ensures Symbols(s, i) == if i == |s| then [] else CutAt(s, i).syms + Symbols(s, i + CutAt(s, i).k)
  {
    hide CutAt;
  }

  // ---------------------------------------------------------------- deltas

  function Delta(e: int, s: Status): (b: seq<Byte>)
  {
    if e == 0 then [] else if e == 1 then [Scaled(s) % 0x100] else W16(Scaled(s))
  }

  /** The receive deltas of statuses `i .. i + |e|` under the symbols `e`. */
  function Deltas(e: seq<int>, s: seq<Status>, i: nat): (b: seq<Byte>)
    requires i + |e| <= |s|
  {
    if e == [] then [] else Deltas(e[..|e| - 1], s, i) + Delta(e[|e| - 1], s[i + |e| - 1])
  }

  lemma {:induction false} DeltasAppend(a: seq<int>, b: seq<int>, s: seq<Status>, i: nat)
    requires i + |a| + |b| <= |s|
    ensures Deltas(a + b, s, i) == Deltas(a, s, i) + Deltas(b, s, i + |a|)
    decreases |b|
  {
    hide Delta;
    if b == [] {
      assert a + b == a;
    } else {
      var n := |b| - 1;
      assert (a + b)[..|a| + n] == a + b[..n];
      DeltasAppend(a, b[..n], s, i);
      Regroup(Deltas(a, s, i), Deltas(b[..n], s, i + |a|), Delta(b[n], s[i + |a| + n]));
    }
  }

  function Signed16(v: U16): int { if v >= 0x8000 then v as int - 0x1_0000 else v }

  /** The unpacker's second pass after `n` statuses: where it is, the offsets so far, and whether it
      has failed on a delta cut short. */
  datatype Reader = Reader(at: nat, atos: seq<int>, ok: bool)

  function ReadDeltas(e: seq<int>, b: seq<Byte>, at: nat, n: nat): (r: Reader)
    requires n <= |e| && at <= |b|
    ensures at <= r.at <= |b| && |r.atos| == n
  {
    if n == 0 then Reader(at, [], true)
    else
      var r := ReadDeltas(e, b, at, n - 1);
      var x := e[n - 1];
      if !r.ok || r.at >= |b| || x == 0 then r.(atos := r.atos + [0])
      else if x == 1 then Reader(r.at + 1, r.atos + [b[r.at] / 4], true)
      else if |b| - r.at < 2 then Reader(r.at, r.atos + [0], false)
      else Reader(r.at + 2, r.atos + [Signed16(R16(b, r.at)) / 4], true)
  }

  /** What survives the trip: the 14-bit offset of a received packet. */
  function Normal(s: Status): (r: Status) {
    s.(ato := if s.received then Signed16(Scaled(s)) / 4 else 0)
  }

  /** Exactly the statuses with an offset in range, and none on lost packets, survive unchanged. */
  lemma NormalIsIdentity(s: Status)
    ensures Normal(s) == s <==> (if s.received then -8192 <= s.ato <= 8191 else s.ato == 0)
  {
  }

  lemma {:induction false} DeltasRead(e: seq<int>, s: seq<Status>, n: nat, b: seq<Byte>, at: nat)
    requires n <= |e| == |s| && (forall j :: 0 <= j < |e| ==> Fits(e[j], s[j]))
    requires at + |Deltas(e[..n], s, 0)| <= |b| && b[at..at + |Deltas(e[..n], s, 0)|] == Deltas(e[..n], s, 0)
    ensures var r := ReadDeltas(e, b, at, n);
            && r.ok && r.at == at + |Deltas(e[..n], s, 0)|
            && forall j :: 0 <= j < n ==> r.atos[j] == Normal(s[j]).ato
  {
    hide Delta, Fits, Normal, Signed16, W16, R16;
    if n > 0 {
      var d0, d1 := Deltas(e[..n - 1], s, 0), Delta(e[n - 1], s[n - 1]);
      assert e[..n][..n - 1] == e[..n - 1];
      assert Deltas(e[..n], s, 0) == d0 + d1;
      hide Deltas, ReadDeltas;
      SplitSlice(b, at, d0, d1);
      DeltasRead(e, s, n - 1, b, at);
      var r := ReadDeltas(e, b, at, n - 1);
      DeltaRead(e[n - 1], s[n - 1], b, r.at);
      UnfoldReader(e, b, at, n);
    }
  }

  lemma UnfoldReader(e: seq<int>, b: seq<Byte>, at: nat, n: nat)
    requires 0 < n <= |e| && at <= |b| && ReadDeltas(e, b, at, n - 1).ok
    ensures var r, x := ReadDeltas(e, b, at, n - 1), e[n - 1];
            && ((r.at >= |b| || x == 0) ==> ReadDeltas(e, b, at, n) == r.(atos := r.atos + [0]))
            && (x == 1 && r.at < |b| ==>
                  ReadDeltas(e, b, at, n) == Reader(r.at + 1, r.atos + [b[r.at] / 4], true))
            && (x != 0 && x != 1 && |b| - r.at >= 2 ==>
                  ReadDeltas(e, b, at, n) == Reader(r.at + 2, r.atos + [Signed16(R16(b, r.at)) / 4], true))
  {
    hide Signed16, R16;
  }

  /** Reading back one delta. */
  lemma DeltaRead(e: int, s: Status, b: seq<Byte>, at: nat)
    requires Fits(e, s) && at + |Delta(e, s)| <= |b| && b[at..at + |Delta(e, s)|] == Delta(e, s)
    ensures e == 0 ==> |Delta(e, s)| == 0 && Normal(s).ato == 0
    ensures e == 1 ==> |Delta(e, s)| == 1 && at < |b| && b[at] / 4 == Normal(s).ato
    ensures e == 0 || e == 1 || (|Delta(e, s)| == 2 && |b| - at >= 2 && Signed16(R16(b, at)) / 4 == Normal(s).ato)
  {
    if e == 1 {
      assert b[at] == b[at..at + 1][0];
    } else if e == 2 {
      hide W16, R16, Signed16;
      ReadBack16(b[..at], Scaled(s), b[at + 2..]);
      assert b == b[..at] + W16(Scaled(s)) + b[at + 2..];
    }
  }

  // ---------------------------------------------------------------- the whole message

  function Pad(n: nat): (b: seq<Byte>)
    ensures (n + |b|) % 4 == 0
  {
    match n % 4
    case 0 => []
    case 1 => [0, 0, 3]
    case 2 => [0, 2]
    case _ => [1]
  }

  function HeaderBytes(begin: U16, count: nat, timestamp: U32, cc: Byte): (b: seq<Byte>)
    ensures |b| == 8
  {
    W16(begin) + W16(count % 0x1_0000) + W32(timestamp % 0x100_0000 * 0x100 + cc)
  }

  /** What the packer writes when its buffer is large enough. */
  ghost function Message(begin: U16, s: seq<Status>, timestamp: U32, cc: Byte): (b: seq<Byte>)
    requires CutsFit(s, 0)
  {
    var body := HeaderBytes(begin, |s|, timestamp, cc) + ChunkBytes(Chunks(s, 0)) + Deltas(Symbols(s, 0), s, 0);
    body + Pad(|body|)
  }

  /** The unpacked statuses: sequence numbers count up from the first, and statuses no chunk reached
      stay zeroed. */
  function Statuses(begin: U16, syms: seq<int>, atos: seq<int>, n: nat): (r: seq<Status>)
    requires |syms| <= |atos| && n <= |atos|
    ensures |r| == n
    ensures forall i :: 0 <= i < n ==>
              r[i] == if i < |syms| then Status((begin + i) % 0x1_0000, syms[i] != 0, atos[i]) else Status(0, false, 0)
  {
    if n == 0 then [] else
    Statuses(begin, syms, atos, n - 1)
    + [if n - 1 < |syms| then Status((begin + n - 1) as int % 0x1_0000, syms[n - 1] != 0, atos[n - 1])
       else Status(0, false, 0)]
  }

  /** Sign extension of the 24-bit reference time. */
  function Extend24(t: U32): U32
    requires t < 0x100_0000
  {
    if t >= 0x80_0000 then t + 0xFF00_0000 else t
  }

  /** A 32-bit pattern as a signed integer. */
  function Signed32(x: U32): int { if x < 0x8000_0000 then x else x - 0x1_0000_0000 }

  /** The reference time comes back as sent exactly when it fits 24 bits with its sign; in any case as the
      number of 24 bits that agrees with it. */
  lemma ReferenceTime(timestamp: U32)
    ensures var t := Signed32(Extend24(timestamp % 0x100_0000));
            && -0x80_0000 <= t < 0x80_0000 && t % 0x100_0000 == timestamp as int % 0x100_0000
            && (t == Signed32(timestamp) <==> -0x80_0000 <= Signed32(timestamp) < 0x80_0000)
  {
  }

  /** `rtcp_rtpfb_tcc01_unpack`: None on the paths that return -1. */
  function Unpack(b: seq<Byte>): (r: Option<Feedback>)
  {
    if |b| < 8 then None else
    var num := R16(b, 2) as int;
    var d := DecodeChunks(b, 8, num);
    var e := d.syms + Repeat(0, num - |d.syms|);
    var deltas := ReadDeltas(e, b, d.at, num);
    if !deltas.ok then None else
    Some(Feedback(R16(b, 0), b[7], Extend24(R32(b, 4) / 0x100), Statuses(R16(b, 0), d.syms, deltas.atos, num)))
  }

  /** Consecutive 16-bit sequence numbers. */
  predicate Contiguous(begin: U16, s: seq<Status>) {
    |s| <= 0x1_0000 && forall i :: 0 <= i < |s| ==> s[i].seqno == (begin + i) % 0x1_0000
  }

  function NormalAll(s: seq<Status>): (r: seq<Status>)
    ensures |r| == |s| && forall i :: 0 <= i < |s| ==> r[i] == Normal(s[i])
  {
    if s == [] then [] else NormalAll(s[..|s| - 1]) + [Normal(s[|s| - 1])]
  }

  lemma HeaderReads(begin: U16, count: U16, timestamp: U32, cc: Byte, tail: seq<Byte>)
    ensures var b := HeaderBytes(begin, count, timestamp, cc) + tail;
            R16(b, 0) == begin && R16(b, 2) == count && b[7] == cc && R32(b, 4) / 0x100 == timestamp % 0x100_0000
  {
    var t := timestamp % 0x100_0000 * 0x100 + cc;
    var b := HeaderBytes(begin, count, timestamp, cc) + tail;
    assert b[7] == t % 0x100 by {
      hide W16, R32;
      assert W32(t) == W16(t / 0x1_0000) + W16(t % 0x1_0000);
      LowByte(t % 0x1_0000);
    }
    LowBits(timestamp % 0x100_0000, cc);
    hide R16, R32, W16, W32;
    assert R16(b, 0) == begin && R16(b, 2) == count && R32(b, 4) == t by {
      hide R16, W16, R32, W32;
      ReadBack16([], begin, W16(count) + W32(t) + tail);
      assert b == [] + W16(begin) + (W16(count) + W32(t) + tail);
      ReadBack16(W16(begin), count, W32(t) + tail);
      assert b == W16(begin) + W16(count) + (W32(t) + tail);
      ReadBack32(W16(begin) + W16(count), t, tail);
      assert b == (W16(begin) + W16(count)) + W32(t) + tail;
    }
  }

  lemma LowBits(x: nat, cc: Byte)
    ensures (x * 0x100 + cc) / 0x100 == x && (x * 0x100 + cc) % 0x100 == cc
  {
  }

  lemma LowByte(v: U16)
    ensures W16(v)[1] == v % 0x100
  {
  }

  lemma {:induction false} StatusesAre(begin: U16, e: seq<int>, s: seq<Status>, atos: seq<int>)
    requires |e| == |s| == |atos| && Contiguous(begin, s)
    requires forall j :: 0 <= j < |s| ==> Fits(e[j], s[j]) && atos[j] == Normal(s[j]).ato
    ensures Statuses(begin, e, atos, |s|) == NormalAll(s)
  {
    hide Fits, Normal, Statuses, NormalAll;
    forall j | 0 <= j < |s| ensures Statuses(begin, e, atos, |s|)[j] == NormalAll(s)[j] {
      StatusIs(begin, j, e[j], s[j], atos[j]);
    }
  }

  lemma StatusIs(begin: U16, j: nat, e: int, s: Status, ato: int)
    requires s.seqno == (begin + j) % 0x1_0000 && Fits(e, s) && ato == Normal(s).ato
    ensures Status((begin + j) % 0x1_0000, e != 0, ato) == Normal(s)
  {
    hide Scaled, Signed16;
  }

  /** Any bytes that start as the message does, up to its last delta, read as its statuses. */
  lemma {:induction false} StartReads(begin: U16, s: seq<Status>, timestamp: U32, cc: Byte, b: seq<Byte>)
    requires 1 <= |s| < 0x1_0000 && Contiguous(begin, s) && CutsFit(s, 0)
    requires var cs, e := Chunks(s, 0), Symbols(s, 0);
             var m := 8 + 2 * |cs|;
             && |ChunkBytes(cs)| == 2 * |cs|
             && m + |Deltas(e, s, 0)| <= |b|
             && b[..8] == HeaderBytes(begin, |s|, timestamp, cc)
             && b[8..m] == ChunkBytes(cs)
             && b[m..m + |Deltas(e, s, 0)|] == Deltas(e, s, 0)
    ensures Unpack(b) == Some(Feedback(begin, cc, Extend24(timestamp % 0x100_0000), NormalAll(s)))
  {
    hide *;
    var n := |s|;
    var cs, e := Chunks(s, 0), Symbols(s, 0);
    var tail := b[8..];
    HeaderReads(begin, n, timestamp, cc, tail);
    assert b == HeaderBytes(begin, n, timestamp, cc) + tail;
    ChunksDecode(s, 0, b, 8);
    SymbolsSize(s);
    forall j | 0 <= j < n ensures Fits(e[j], s[j]) { SymbolsFit(s, 0, j); }
    var at := 8 + 2 * |cs|;
    assert e[..n] == e;
    DeltasRead(e, s, n, b, at);
    var r := ReadDeltas(e, b, at, n);
    StatusesAre(begin, e, s, r.atos);
    UnpackIs(b, n, e, at);
  }

  lemma {:induction false} SymbolsSize(s: seq<Status>)
    ensures |Symbols(s, 0)| == |s|
  {
  }

  /** The feedback round trip: whatever mix of run-length, one-bit and two-bit chunks the statuses
      call for, the receiver gets back every sequence number, every received flag and every offset
      (as far as 14 bits carry it), together with the header fields. */
  lemma {:induction false} FeedbackRoundTrip(begin: U16, s: seq<Status>, timestamp: U32, cc: Byte)
    requires 1 <= |s| < 0x1_0000 && Contiguous(begin, s) && CutsFit(s, 0)
    ensures Unpack(Message(begin, s, timestamp, cc))
            == Some(Feedback(begin, cc, Extend24(timestamp % 0x100_0000), NormalAll(s)))
  {
    hide *;
    MessageParts(begin, s, timestamp, cc);
    StartReads(begin, s, timestamp, cc, Message(begin, s, timestamp, cc));
  }

  lemma {:induction false} MessageParts(begin: U16, s: seq<Status>, timestamp: U32, cc: Byte)
    requires CutsFit(s, 0)
    ensures var b := Message(begin, s, timestamp, cc);
            var cs, e := Chunks(s, 0), Symbols(s, 0);
            var m := 8 + 2 * |cs|;
            && |e| == |s| && |ChunkBytes(cs)| == 2 * |cs|
            && m + |Deltas(e, s, 0)| <= |b|
            && b[..8] == HeaderBytes(begin, |s|, timestamp, cc)
            && b[8..m] == ChunkBytes(cs)
            && b[m..m + |Deltas(e, s, 0)|] == Deltas(e, s, 0)
  {
    hide Chunks, ChunkBytes, Symbols, Deltas, HeaderBytes, Pad;
    var h, c, d := HeaderBytes(begin, |s|, timestamp, cc), ChunkBytes(Chunks(s, 0)), Deltas(Symbols(s, 0), s, 0);
    var b := Message(begin, s, timestamp, cc);
    assert b == h + c + d + Pad(|h + c + d|);
    assert b[8..8 + |c|] == c;
    assert b[8 + |c|..8 + |c| + |d|] == d;
  }

  lemma {:induction false} UnpackIs(b: seq<Byte>, n: nat, e: seq<int>, at: nat)
    requires 8 <= at <= |b| && |e| == n && R16(b, 2) == n
    requires DecodeChunks(b, 8, n) == Decoded(e, at)
    requires ReadDeltas(e, b, at, n).ok
    ensures Unpack(b) == Some(Feedback(R16(b, 0), b[7], Extend24(R32(b, 4) / 0x100),
                                       Statuses(R16(b, 0), e, ReadDeltas(e, b, at, n).atos, n)))
  {
    hide DecodeChunks, ReadDeltas, Statuses, R16, R32, Extend24;
    assert e + Repeat(0, 0) == e;
  }

  /** The offsets a 16-bit field of quarter units carries; none for a packet that did not arrive. */
  ghost predicate OffsetsFit(s: seq<Status>) {
    forall i :: 0 <= i < |s| ==> (if s[i].received then -8192 <= s[i].ato <= 8191 else s[i].ato == 0)
  }

  /** The statuses come back unchanged exactly when every offset fits. */
  lemma {:induction false} RestoredExactly(begin: U16, s: seq<Status>, timestamp: U32, cc: Byte)
    requires 1 <= |s| < 0x1_0000 && Contiguous(begin, s) && CutsFit(s, 0)
    ensures Unpack(Message(begin, s, timestamp, cc)).Some?
    ensures Unpack(Message(begin, s, timestamp, cc)).value.statuses == s <==> OffsetsFit(s)
  {
    FeedbackRoundTrip(begin, s, timestamp, cc);
    hide *;
    NormalAllIs(s);
    OffsetsFitIff(s);
  }

  lemma OffsetsFitIff(s: seq<Status>)
    ensures OffsetsFit(s) <==> forall i :: 0 <= i < |s| ==> Normal(s[i]) == s[i]
  {
    hide Normal;
    forall i | 0 <= i < |s|
      ensures Normal(s[i]) == s[i] <==> (if s[i].received then -8192 <= s[i].ato <= 8191 else s[i].ato == 0)
    {
      NormalIsIdentity(s[i]);
    }
  }

  lemma {:induction false} NormalAllIs(s: seq<Status>)
    ensures NormalAll(s) == s <==> forall i :: 0 <= i < |s| ==> Normal(s[i]) == s[i]
  {
    hide Normal;
  }

  /** Over up to 8191 statuses no run can overflow its chunk. */
  lemma {:induction false} ShortListsFit(s: seq<Status>, i: nat)
    requires i <= |s| && |s| - i < 0x2000
    ensures CutsFit(s, i)
    decreases |s| - i
  {
    hide CutAt;
    if i < |s| {
      ShortListsFit(s, i + CutAt(s, i).k);
    }
  }

  // ---------------------------------------------------------------- runs that do not fit

  /** How many of `left` open statuses the chunks `cs` stand for. Both the packer's second pass and the
      unpacker's first pass walk the chunks by this count. */
  function Covered(cs: seq<int>, left: nat): (n: nat)
    ensures n <= left
  {
    if cs == [] || left == 0 then 0
    else
      var n := |DecodeChunk(cs[0] % 0x1_0000, left)|;
      n + Covered(cs[1..], left - n)
  }

  lemma RunBits(received: bool, wide: bool, k: nat)
    requires k <= 0x1_0000
    ensures var c := RunChunk(received, wide, k);
            (if c < 0x8000 then c % 0x2000 else 14) <= (if k >= 0x2000 then k - 0x2000 else k)
  {
    var len := k % 0x1_0000;
    assert k < 0x1_0000 ==> len == k;
    if received {
      var flag := if wide then 0x4000 else 0x2000;
      assert flag % 0x2000 == 0 && (len + flag) % 0x2000 == len % 0x2000;
    }
  }

  lemma DecodeWidth(c: U16, left: nat)
    ensures |DecodeChunk(c, left)| <= if c < 0x8000 then c % 0x2000 else 14
  {
    hide Repeat, Digits;
  }

  /** A run too long for its field stands for at least 8192 statuses too few. */
  lemma RunWidth(received: bool, wide: bool, k: nat, left: nat)
    requires k <= 0x1_0000
    ensures |DecodeChunk(RunChunk(received, wide, k), left)| <= if k >= 0x2000 then k - 0x2000 else k
  {
    hide DecodeChunk, RunChunk;
    RunBits(received, wide, k);
    DecodeWidth(RunChunk(received, wide, k), left);
  }

  lemma VectorWidth(s: seq<Status>, i: nat, left: nat)
    requires i < |s|
    ensures var r := VectorAt(s, i);
            0 <= r.chunk < 0x1_0000 && |DecodeChunk(r.chunk, left)| <= 14
            && (i + r.k < |s| ==> |DecodeChunk(r.chunk, left)| <= r.k)
  {
    hide Digits, VectorChunk, AnyLarge;
    var rem := |s| - i;
    if AnyLarge(s, i, Min(14, rem)) {
      VectorDecodes(Syms(s, i, Min(7, rem)), 2);
    } else if rem <= 7 {
      VectorDecodes(Syms(s, i, rem), 2);
    } else {
      SmallSyms(s, i, Min(14, rem));
      VectorDecodes(Syms(s, i, Min(14, rem)), 1);
    }
  }

  /** A chunk never stands for more statuses than it covers, except that the last one may be a vector
      with places to spare; and one behind a run that does not fit stands for 8192 fewer. */
  lemma {:induction false} CutWidth(s: seq<Status>, i: nat, left: nat)
    requires i < |s| <= 0x1_0000
    ensures var r := CutAt(s, i);
            var n := |DecodeChunk(r.chunk % 0x1_0000, left)|;
            && n <= r.k + 13
            && (i + r.k < |s| ==> n <= r.k)
            && (RunLen(s, i) >= 0x2000 ==> n <= r.k - 0x2000)
  {
    hide DecodeChunk, RunLen, AnyLarge, VectorAt, RunChunk, Repeat;
    var k := RunLen(s, i);
    VectorWidth(s, i, left);
    RunWidth(s[i].received, AnyLarge(s, i, k), k, left);
  }

  lemma {:induction false} UnfoldCovered(c: int, rest: seq<int>, left: nat)
    ensures Covered([c] + rest, left)
         == if left == 0 then 0
            else var n := |DecodeChunk(c % 0x1_0000, left)|; n + Covered(rest, left - n)
  {
    hide DecodeChunk;
    assert ([c] + rest)[1..] == rest;
  }

  lemma UnfoldCuts(s: seq<Status>, i: nat)
    requires i <= |s|
    ensures i == |s| ==> Chunks(s, i) == [] && CutsFit(s, i)
    ensures i < |s| ==>
              var r := CutAt(s, i);
              && Chunks(s, i) == [r.chunk] + Chunks(s, i + r.k)
              && (CutsFit(s, i) <==> RunLen(s, i) < 0x2000 && CutsFit(s, i + r.k))
  {
    hide CutAt, RunLen;
  }

  /** All the chunks from `i` on gain at most the spare places of the last one, and stand for 8192 statuses
      fewer if a run among them does not fit. */
  lemma {:induction false} CoveredBound(s: seq<Status>, i: nat, left: nat)
    requires i <= |s| <= 0x1_0000
    ensures Covered(Chunks(s, i), left) <= |s| - i + 13
    ensures !CutsFit(s, i) ==> Covered(Chunks(s, i), left) <= |s| - i + 13 - 0x2000
    decreases |s| - i
  {
    hide *;
    UnfoldCuts(s, i);
    NothingCovered(left);
    if i < |s| {
      var r := CutAt(s, i);
      var n := |DecodeChunk(r.chunk % 0x1_0000, left)|;
      CutWidth(s, i, left);
      UnfoldCovered(r.chunk, Chunks(s, i + r.k), left);
      if left > 0 {
        UnfoldCuts(s, i + r.k);
        NothingCovered(left - n);
        CoveredBound(s, i + r.k, left - n);
      } else if |s| - i < 0x2000 {
        ShortListsFit(s, i);
      }
    }
  }

  lemma {:induction false} NothingCovered(left: nat)
    ensures Covered([], left) == 0
  {
  }

  /** The exact condition: the chunks of a list stand for all of its statuses iff no run that starts a
      chunk is longer than its field. A run that does not fit leaves 8192 statuses or more without a
      chunk, and the last vector makes up for at most 13 of them. */
  lemma {:induction false} CoveredIff(s: seq<Status>, i: nat)
    requires i <= |s| <= 0x1_0000
    ensures Covered(Chunks(s, i), |s| - i) == |s| - i <==> CutsFit(s, i)
    decreases |s| - i
  {
    hide *;
    UnfoldCuts(s, i);
    NothingCovered(0);
    if i < |s| {
      var r, left := CutAt(s, i), |s| - i;
      CutWidth(s, i, left);
      UnfoldCovered(r.chunk, Chunks(s, i + r.k), left);
      CoveredBound(s, i + r.k, left - |DecodeChunk(r.chunk % 0x1_0000, left)|);
      if RunLen(s, i) < 0x2000 {
        CutDecodes(s, i);
        CoveredIff(s, i + r.k);
      }
    }
  }

  /** What the receiver makes of the chunks, whatever bytes follow them: it stops behind the last one
      with every status read iff the runs fit. */
  lemma {:induction false} ChunksDecodeIff(s: seq<Status>, b: seq<Byte>, at: nat)
    requires 0 < |s| <= 0x1_0000
    requires at + 2 * |Chunks(s, 0)| <= |b| && b[at..at + 2 * |Chunks(s, 0)|] == ChunkBytes(Chunks(s, 0))
    ensures DecodeChunks(b, at, |s|) == Decoded(Symbols(s, 0), at + 2 * |Chunks(s, 0)|) <==> CutsFit(s, 0)
  {
    hide *;
    CoveredIff(s, 0);
    if CutsFit(s, 0) {
      ChunksDecode(s, 0, b, at);
    } else {
      WalkedCovers(Chunks(s, 0), b, at, |s|);
      assert |Symbols(s, 0)| == |s|;
    }
  }

  /** The unpacker's first pass takes no more from the chunks than they stand for. */
  lemma {:induction false} WalkedCovers(cs: seq<int>, b: seq<Byte>, at: nat, left: nat)
    requires at + 2 * |cs| <= |b| && b[at..at + 2 * |cs|] == ChunkBytes(cs)
    ensures DecodeChunks(b, at, left).at <= at + 2 * |cs| ==> |DecodeChunks(b, at, left).syms| == Covered(cs, left)
    decreases |cs|
  {
    hide DecodeChunk, DecodeChunks, Covered, R16, W16;
    UnfoldChunks(b, at, left);
    NothingCovered(left);
    if cs != [] {
      var c: U16 := cs[0] % 0x1_0000;
      assert cs == [cs[0]] + cs[1..];
      UnfoldCovered(cs[0], cs[1..], left);
      SplitSlice(b, at, W16(c), ChunkBytes(cs[1..]));
      hide ChunkBytes;
      ReadAt16(b, at, c);
      if left > 0 {
        WalkedCovers(cs[1..], b, at + 2, left - |DecodeChunk(c, left)|);
      }
    }
  }

  // ---------------------------------------------------------------- two long runs

  function Lost(n: nat): (s: seq<Status>)
    requires n <= 0x1_0000
    ensures |s| == n && forall i :: 0 <= i < n ==> s[i] == Status(i, false, 0)
  {
    if n == 0 then [] else Lost(n - 1) + [Status(n - 1, false, 0)]
  }

  lemma {:induction false} LostRun(s: seq<Status>, i: nat)
    requires i < |s| && forall j :: i <= j < |s| ==> !s[j].received
    ensures RunLen(s, i) == |s| - i
    decreases |s| - i
  {
    if i + 1 < |s| { LostRun(s, i + 1); }
  }

  /** 8192 losses in a row: the one chunk the packer writes reads as a run of length zero, so its
      chunks leave every status open and both passes walk off their end. */
  lemma {:induction false} LongRunIsUncovered(n: nat)
    requires n == 0x2000
    ensures var s := Lost(n);
            Contiguous(0, s) && Chunks(s, 0) == [0x2000] && Covered(Chunks(s, 0), n) == 0 && !CutsFit(s, 0)
  {
    var s := Lost(n);
    LostRun(s, 0);
    UnfoldCuts(s, 0);
    hide RunLen, Repeat, Lost;
    assert CutAt(s, 0).chunk == 0x2000 && CutAt(s, 0).k == n;
    UnfoldCuts(s, n);
    hide CutAt, Chunks, CutsFit;
    UnfoldCovered(0x2000, [], n);
    assert [0x2000] + [] == [0x2000];
    NothingCovered(n);
    assert DecodeChunk(0x2000, n) == [];
  }

  /** The same run and more, behind one packet that arrived: a status vector takes the head of the run
      and the rest of it fits. */
  lemma {:induction false} LongRunBehindAVectorFits(s: seq<Status>)
    requires 0x2001 <= |s| <= 0x200D && s[0] == Status(0, true, 0)
    requires forall i :: 1 <= i < |s| ==> s[i] == Status(i, false, 0)
    ensures RunLen(s, 1) >= 0x2000 && CutsFit(s, 0)
  {
    LostRun(s, 1);
    LostRun(s, 14);
    HeadTaken(s);
    hide *;
    UnfoldCuts(s, 0);
    UnfoldCuts(s, 14);
    UnfoldCuts(s, |s|);
  }

  lemma {:induction false} HeadTaken(s: seq<Status>)
    requires 0x2001 <= |s| <= 0x200D && s[0] == Status(0, true, 0)
    requires forall i :: 1 <= i < |s| ==> s[i] == Status(i, false, 0)
    requires RunLen(s, 14) == |s| - 14
    ensures RunLen(s, 0) == 1 && CutAt(s, 0).k == 14 && CutAt(s, 14).k == |s| - 14
  {
    assert RunLen(s, 0) == 1 by { assert s[1].received != s[0].received; }
    assert !AnyLarge(s, 0, 14) && !AnyLarge(s, 0, 1) && !AnyLarge(s, 14, |s| - 14);
    hide RunLen, AnyLarge, VectorChunk, Repeat, RunChunk;
  }

  // ---------------------------------------------------------------- the unpacker's loops

  /** The first pass: chunks until every status has a symbol or the bytes run out. */
  method ReadChunks(b: seq<Byte>, num: nat) returns (syms: seq<int>, at: nat)
    requires |b| >= 8
    ensures Decoded(syms, at) == DecodeChunks(b, 8, num)
  {
    hide DecodeChunk, R16, DecodeChunks;
    syms, at := [], 8;
    while |b| - at >= 2 && |syms| < num
      invariant 8 <= at <= |b| && |syms| <= num
      invariant var rest := DecodeChunks(b, at, num - |syms|);
                DecodeChunks(b, 8, num) == Decoded(syms + rest.syms, rest.at)
      decreases |b| - at
    {
      UnfoldChunks(b, at, num - |syms|);
      var chunk := R16(b, at);
      var e := ReadChunk(chunk, num - |syms|);
      Regroup(syms, e, DecodeChunks(b, at + 2, num - |syms| - |e|).syms);
      syms := syms + e;
      at := at + 2;
    }
    UnfoldChunks(b, at, num - |syms|);
  }

  lemma UnfoldChunks(b: seq<Byte>, at: nat, left: nat)
    requires at <= |b|
    ensures if left == 0 || |b| - at < 2 then DecodeChunks(b, at, left) == Decoded([], at)
            else var e := DecodeChunk(R16(b, at), left);
                 var rest := DecodeChunks(b, at + 2, left - |e|);
                 DecodeChunks(b, at, left) == Decoded(e + rest.syms, rest.at)
  {
    hide DecodeChunk, R16;
  }

  /** The symbols of one chunk, one at a time. */
  method ReadChunk(chunk: U16, left: nat) returns (e: seq<int>)
    ensures e == DecodeChunk(chunk, left)
  {
    hide Shr;
    e := [];
    var j := 0;
    if chunk < 0x8000 {
      while j < chunk % 0x2000 && j < left
        invariant 0 <= j <= Min(chunk % 0x2000, left) && e == Repeat(chunk / 0x2000 % 4, j)
      {
        e := e + [chunk / 0x2000 % 4];
        j := j + 1;
      }
    } else if chunk / 0x4000 % 2 == 1 {
      while j < 7 && j < left
        invariant 0 <= j <= Min(7, left) && e == Digits(chunk, 2, j)
      {
        e := e + [Shr(chunk, 2 * (6 - j)) % 4];
        j := j + 1;
      }
    } else {
      while j < 14 && j < left
        invariant 0 <= j <= Min(14, left) && e == Digits(chunk, 1, j)
      {
        e := e + [Shr(chunk, 13 - j) % 2];
        j := j + 1;
      }
    }
  }

  /** `rtcp_rtpfb_tcc01_unpack`. */
  method UnpackMessage(b: seq<Byte>, allocOk: bool) returns (r: Option<Feedback>)
    ensures r == if |b| >= 8 && R16(b, 2) > 32 && !allocOk then None else Unpack(b)
  {
    hide R16, R32, DecodeChunks, Statuses, ReadDeltas, Extend24;
    if |b| < 8 {
      return None;
    }
    var num := R16(b, 2) as int;
    if num > 32 && !allocOk {       // the statuses of a longer list are allocated
      return None;
    }
    var syms, at := ReadChunks(b, num);
    var e := syms + Repeat(0, num - |syms|);
    var reader := ReadAll(e, b, at);
    if !reader.ok {
      return None;
    }
    r := Some(Feedback(R16(b, 0), b[7], Extend24(R32(b, 4) / 0x100), Statuses(R16(b, 0), syms, reader.atos, num)));
  }

  /** The delta loop: it ends early on a delta cut short, and leaves offsets at zero once the bytes
      are used up. */
  method ReadAll(e: seq<int>, b: seq<Byte>, at0: nat) returns (r: Reader)
    requires at0 <= |b|
    ensures r == ReadDeltas(e, b, at0, |e|)
  {
    hide R16, Signed16;
    r := Reader(at0, [], true);
    for i := 0 to |e|
      invariant r == ReadDeltas(e, b, at0, i)
    {
      if !r.ok || r.at >= |b| || e[i] == 0 {
        r := r.(atos := r.atos + [0]);
      } else if e[i] == 1 {
        r := Reader(r.at + 1, r.atos + [b[r.at] / 4], true);
      } else if |b| - r.at < 2 {
        r := Reader(r.at, r.atos + [0], false);
      } else {
        r := Reader(r.at + 2, r.atos + [Signed16(R16(b, r.at)) / 4], true);
      }
    }
  }
}
