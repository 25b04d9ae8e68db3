/** The first pass of the packer of lib/librtp/source/rtcp-rtpfb.c: statuses to chunks. */
module TccChunks {
  import opened Bytes
  import opened Tcc

  /** The first pass at status `i`: try a run, else a status vector. */
  method ChooseChunk(s: seq<Status>, i: nat) returns (chunk: int, k: nat)
    requires i < |s|
    ensures chunk == CutAt(s, i).chunk && k == CutAt(s, i).k
  {
    hide Large, RunChunk, VectorAt, Repeat;
    var wide := Large(s[i]);
    k := 1;
    while i + k < |s| && s[i + k].received == s[i].received
      invariant 1 <= k && i + k <= |s|
      invariant s[i + k - 1].received == s[i].received
      invariant RunLen(s, i) == k - 1 + RunLen(s, i + k - 1)
      invariant wide == AnyLarge(s, i, k)
    {
      wide := Large(s[i + k]) || wide;
      k := k + 1;
    }
    if k > (if wide then 7 else 14) {
      chunk := RunChunk(s[i].received, wide, k);
    } else {
      chunk, k := ChooseVector(s, i);
    }
  }

  /** The status vector branch: re-detect the symbol width, then place the symbols. */
  method ChooseVector(s: seq<Status>, i: nat) returns (chunk: int, k: nat)
    requires i < |s|
    ensures chunk == VectorAt(s, i).chunk && k == VectorAt(s, i).k
  {
    hide Large, VectorChunk, Syms;
    var rem := |s| - i;
    var two := 1;
    k := 0;
    while k < 14 / two && i + k < |s|
      invariant 0 <= k <= Min(14, rem)
      invariant two == (if AnyLarge(s, i, k) then 2 else 1)
    {
      if Large(s[i + k]) {
        two := 2;
      }
      k := k + 1;
    }
    DetectedWidth(s, i, k);
    var n := Min(14 / two, rem);
    if two == 2 || k <= 7 {
      chunk := PlaceSymbols(s, i, n, 2);
    } else {
      SmallSyms(s, i, n);
      chunk := PlaceSymbols(s, i, n, 1);
    }
    k := n;
  }

  /** Looking at up to 14 statuses, and stopping after the seventh once a large delta is seen, decides
      as if all of them had been looked at. */
  lemma DetectedWidth(s: seq<Status>, i: nat, k: nat)
    requires i < |s| && k <= Min(14, |s| - i)
    requires k >= (if AnyLarge(s, i, k) then 7 else 14) || i + k == |s|
    ensures AnyLarge(s, i, Min(14, |s| - i)) == AnyLarge(s, i, k)
  {
  }

  method PlaceSymbols(s: seq<Status>, i: nat, n: nat, w: nat) returns (chunk: nat)
    requires 1 <= w <= 2 && w * n <= 14 && i + n <= |s|
    requires forall k :: 0 <= k < n ==> 0 <= Syms(s, i, n)[k] < 2 * w
    ensures chunk == VectorChunk(Syms(s, i, n), w)
  {
    hide Horner, Shl, Syms;
    ghost var d := Syms(s, i, n);
    HornerZero(d, w);
    Shl14(w + 1);
    chunk := if w == 2 then 0xC000 else 0x8000;
    for k := 0 to n
      invariant w * k <= 14
      invariant chunk == Shl(Horner(d, k, w), 14 - w * k)
    {
      assert w * (k + 1) <= w * n;
      var shift := 14 - w * (k + 1);
      PlaceStep(d, k, w);
      ShlZero(shift);
      if s[i + k].received {
        chunk := chunk + Shl(if Scaled(s[i + k]) > 0xFF then 2 else 1, shift);
      }
    }
  }

  lemma {:induction false} ShlZero(n: nat)
    ensures Shl(0, n) == 0
  {
    if n > 0 { ShlZero(n - 1); }
  }

  lemma {:induction false} ShlSum(a: nat, b: nat, n: nat)
    ensures Shl(a, n) + Shl(b, n) == Shl(a + b, n)
  {
    if n > 0 { ShlSum(a, b, n - 1); }
  }

  lemma PlaceStep(d: seq<int>, k: nat, w: nat)
    requires k < |d| && 1 <= w <= 2 && w * (k + 1) <= 14 && forall j :: 0 <= j < |d| ==> 0 <= d[j] < 2 * w
    ensures Shl(Horner(d, k + 1, w), 14 - w * (k + 1))
            == Shl(Horner(d, k, w), 14 - w * k) + Shl(d[k], 14 - w * (k + 1))
  {
    var shift := 14 - w * (k + 1);
    hide Shl;
    ShlSum(Shl(Horner(d, k, w), w), d[k], shift);
    ShlAdd(Horner(d, k, w), w, shift);
    assert w + shift == 14 - w * k;
  }

  /** The first pass over the whole list, two bytes a chunk, as long as two bytes are counted free. */
  method AllChunks(s: seq<Status>, bytes: nat) returns (chunks: seq<int>, left: nat)
    ensures chunks == Firsts(s, bytes) && left == bytes - 2 * |chunks|
  {
    hide CutAt, Chunks;
    chunks, left := [], bytes;
    var i := 0;
    UnfoldCuts(s, |s|);
    while i < |s| && left >= 2
      invariant 0 <= i <= |s| && 2 * |chunks| + left == bytes
      invariant Chunks(s, 0) == chunks + Chunks(s, i)
      decreases |s| - i
    {
      UnfoldCuts(s, i);
      var c, k := ChooseChunk(s, i);
      Regroup(chunks, [c], Chunks(s, i + k));
      chunks := chunks + [c];
      left := left - 2;
      i := i + k;
    }
    UnfoldCuts(s, i);
    assert i == |s| ==> chunks + [] == chunks;
  }

  /** The chunks there is room for by the count of free bytes. */
  function Firsts(s: seq<Status>, bytes: nat): (cs: seq<int>)
    ensures 2 * |cs| <= bytes
  {
    Chunks(s, 0)[..Min(bytes / 2, |Chunks(s, 0)|)]
  }
}
