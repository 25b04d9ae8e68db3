/** The byte-stream splitter of lib/librtp/payload/rtp-h264-bitstream.c: Annex-B start codes, with
    detection of the length-prefixed (AVCC) layout. */
module AnnexB {
  import opened Bytes

  /** One call of the splitter's handler: a NAL unit and the `last` argument. */
  datatype Nalu = Nalu(data: seq<Byte>, last: bool)

  // ---------------------------------------------------------------- start codes

  /** Position `q` of `d` is just behind a 00 00 01. */
  predicate StartsNal(d: seq<Byte>, q: nat) {
    3 <= q < |d| && d[q - 3] == 0 && d[q - 2] == 0 && d[q - 1] == 1
  }

  /** The least position from `q` on that is just behind a start code. */
  function ScanFrom(d: seq<Byte>, q: nat): (r: Option<nat>)
    ensures r.Some? ==> q <= r.value < |d| && StartsNal(d, r.value)
    ensures forall k: nat :: q <= k < (if r.Some? then r.value else |d|) ==> !StartsNal(d, k)
    decreases |d| - q
  {
    if q >= |d| then None else if StartsNal(d, q) then Some(q) else ScanFrom(d, q + 1)
  }

  /** `h264_startcode` called on the suffix of `d` at `p`. */
  method FindStartCode(d: seq<Byte>, p: nat) returns (r: Option<nat>)
    requires p <= |d|
    ensures r == ScanFrom(d, p + 3)
  {
    var i := 2;
    var bytes := |d| - p;
    while i + 1 < bytes
      invariant 2 <= i
      invariant ScanFrom(d, p + i + 1) == ScanFrom(d, p + 3)
    {
      if d[p + i] == 1 && d[p + i - 1] == 0 && d[p + i - 2] == 0 {
        return Some(p + i + 1);
      }
      i := i + 1;
    }
    return None;
  }

  /** The end of `d[p..e]` once trailing zero bytes are filtered. */
  function TrimEnd(d: seq<Byte>, p: nat, e: nat): (n: nat)
    requires p <= e <= |d|
    ensures p <= n <= e
    ensures n > p ==> d[n - 1] != 0
    ensures forall k :: n <= k < e ==> d[k] == 0
  {
    if e > p && d[e - 1] == 0 then TrimEnd(d, p, e - 1) else e
  }

  /** The NAL units the splitter finds from `p`, a position just behind a start code. */
  function UnitsFrom(d: seq<Byte>, p: nat): (r: seq<Nalu>)
    requires p <= |d|
    decreases |d| - p
  {
    var next := ScanFrom(d, p + 3);
    var e := if next.Some? then next.value - 3 else |d|;
    var n := TrimEnd(d, p, e);
    var here := if n > p then [Nalu(d[p..n], next.None?)] else [];
    here + (if next.Some? then UnitsFrom(d, next.value) else [])
  }

  function AnnexBUnits(d: seq<Byte>): (r: seq<Nalu>)
  {
    var first := ScanFrom(d, 3);
    if first.Some? then UnitsFrom(d, first.value) else []
  }

  // ---------------------------------------------------------------- AVCC detection

  /** `h264_avcc_length`: the big-endian length prefix at `p` as a signed int, -1 when it runs out. */
  function AvccLength(d: seq<Byte>, p: nat, avcc: nat): (n: int)
    requires p <= |d| && 3 <= avcc <= 4
  {
    if avcc >= |d| - p then -1 else
    var hi := if avcc == 4 then d[p] as int * 0x100_0000 else 0;
    var q := p + avcc - 3;
    var v := hi + d[q] as int * 0x1_0000 + d[q + 1] as int * 0x100 + d[q + 2] as int;
    if v >= 0x8000_0000 then v - 0x1_0000_0000 else v
  }

  /** `h264_avcc_bitstream_valid`. */
  predicate AvccValid(d: seq<Byte>, p: nat, avcc: nat)
    requires p <= |d| && 3 <= avcc <= 4
    decreases |d| - p
  {
    if avcc + 1 < |d| - p then
      var n := AvccLength(d, p, avcc);
      if n < 0 || n + avcc > |d| - p then false else AvccValid(d, p + n + avcc, avcc)
    else p == |d|
  }

  /** `h264_bitstream_format`: 0 Annex-B, 3 or 4 AVCC, -1 neither. */
  function BitstreamFormat(d: seq<Byte>): (r: int)
    ensures r in {-1, 0, 3, 4}
  {
    if |d| < 4 then -1
    else if d[0] == 0 && d[1] == 0 && d[2] == 0 && d[3] <= 1 then 0
    else if d[0] == 0 && d[1] == 0 && d[2] == 1 then (if AvccValid(d, 0, 4) then 4 else 0)
    else if AvccValid(d, 0, 4) then 4
    else if AvccValid(d, 0, 3) then 3 else -1
  }

  /** `h264_avcc_nalu`: a length below 0 converts to a huge unsigned one and ends the walk. */
  function AvccUnits(d: seq<Byte>, p: nat, avcc: nat): (r: seq<Nalu>)
    requires p <= |d| && 3 <= avcc <= 4
    decreases |d| - p
  {
    var n := AvccLength(d, p, avcc);
    if n < 0 || p + n + avcc > |d| then [] else
    var q := p + avcc;
    (if n > 0 then [Nalu(d[q..q + n], q + n >= |d|)] else []) + AvccUnits(d, q + n, avcc)
  }

  /** `rtp_h264_annexb_nalu`: the handler calls made when every one succeeds. */
  function Units(d: seq<Byte>): (r: seq<Nalu>)
  {
    var format := BitstreamFormat(d);
    if format > 0 then AvccUnits(d, 0, format) else AnnexBUnits(d)
  }

  /** The loop that filters trailing zero bytes. */
  method FilterTail(d: seq<Byte>, p: nat, e: nat) returns (n: nat)
    requires p <= e <= |d|
    ensures n == TrimEnd(d, p, e)
  {
    n := e;
    while n > p && d[n - 1] == 0
      invariant p <= n <= e
      invariant TrimEnd(d, p, n) == TrimEnd(d, p, e)
    {
      n := n - 1;
    }
  }

  /** The units handed over when handler call number `stop` is the one that fails, if any. */
  function Handed(units: seq<Nalu>, stop: Option<nat>): (r: seq<Nalu>) {
    if Fails(units, stop) then units[..stop.value + 1] else units
  }

  predicate Fails(units: seq<Nalu>, stop: Option<nat>) { stop.Some? && stop.value < |units| }

  /** Where a splitting loop stands: the units handed over, and those still to come unless it failed. */
  ghost predicate Progress(all: seq<Nalu>, units: seq<Nalu>, rest: seq<Nalu>, stop: Option<nat>, failed: bool) {
    if failed then stop.Some? && units <= all && |units| == stop.value + 1
    else all == units + rest && (stop.Some? ==> |units| <= stop.value)
  }

  lemma ProgressStep(all: seq<Nalu>, units: seq<Nalu>, here: seq<Nalu>, rest: seq<Nalu>, stop: Option<nat>)
    requires Progress(all, units, here + rest, stop, false) && |here| <= 1
    ensures Progress(all, units + here, rest, stop, |here| == 1 && stop == Some(|units|))
  {
    Regroup(units, here, rest);
  }

  lemma ProgressEnd(all: seq<Nalu>, units: seq<Nalu>, stop: Option<nat>, failed: bool)
    requires Progress(all, units, [], stop, failed)
    ensures units == Handed(all, stop) && failed == Fails(all, stop)
  {
    if !failed {
      assert all == units;
    }
  }

  /** The splitting loop over start codes; it ends at the first handler call that fails. */
  method SplitAnnexB(d: seq<Byte>, stop: Option<nat>) returns (units: seq<Nalu>, failed: bool)
    ensures units == Handed(AnnexBUnits(d), stop) && failed == Fails(AnnexBUnits(d), stop)
  {
    hide ScanFrom, StartsNal, UnitsFrom, TrimEnd, Progress, Handed, Fails;
    units, failed := [], false;
    var p := FindStartCode(d, 0);
    ghost var all := AnnexBUnits(d);
    ghost var rest := all;
    ProgressStart(all, stop);
    while p.Some? && !failed
      invariant p.Some? ==> p.value <= |d|
      invariant !failed ==> rest == if p.Some? then UnitsFrom(d, p.value) else []
      invariant Progress(all, units, rest, stop, failed)
      decreases if p.Some? then |d| - p.value + 1 else 0
    {
      var at := p.value;
      var next := FindStartCode(d, at);
      var n := FilterTail(d, at, if next.Some? then next.value - 3 else |d|);
      UnfoldUnits(d, at);
      var here := if n > at then [Nalu(d[at..n], next.None?)] else [];
      rest := if next.Some? then UnitsFrom(d, next.value) else [];
      ProgressStep(all, units, here, rest, stop);
      failed := n > at && stop == Some(|units|);
      units := units + here;
      p := next;
    }
    ProgressFailed(all, units, rest, stop, failed);
    ProgressEnd(all, units, stop, failed);
  }

  lemma ProgressStart(all: seq<Nalu>, stop: Option<nat>)
    ensures Progress(all, [], all, stop, false)
  {
    assert [] + all == all;
  }

  lemma ProgressFailed(all: seq<Nalu>, units: seq<Nalu>, rest: seq<Nalu>, stop: Option<nat>, failed: bool)
    requires Progress(all, units, rest, stop, failed) && (failed || rest == [])
    ensures Progress(all, units, [], stop, failed)
  {
  }

  lemma UnfoldUnits(d: seq<Byte>, p: nat)
    requires p <= |d|
    ensures var next := ScanFrom(d, p + 3);
            var n := TrimEnd(d, p, if next.Some? then next.value - 3 else |d|);
            UnitsFrom(d, p) == (if n > p then [Nalu(d[p..n], next.None?)] else [])
                               + (if next.Some? then UnitsFrom(d, next.value) else [])
  {
    hide ScanFrom, StartsNal, TrimEnd;
  }

  lemma UnfoldAvcc(d: seq<Byte>, p: nat, avcc: nat)
    requires p <= |d| && 3 <= avcc <= 4
    ensures var n := AvccLength(d, p, avcc);
            AvccUnits(d, p, avcc)
            == if n < 0 || p + n + avcc > |d| then [] else
               (if n > 0 then [Nalu(d[p + avcc..p + avcc + n], p + avcc + n >= |d|)] else [])
               + AvccUnits(d, p + avcc + n, avcc)
  {
    hide AvccLength;
  }

  /** The loop of `h264_avcc_nalu`. */
  method SplitAvcc(d: seq<Byte>, avcc: nat, stop: Option<nat>) returns (units: seq<Nalu>, failed: bool)
    requires 3 <= avcc <= 4
    ensures units == Handed(AvccUnits(d, 0, avcc), stop) && failed == Fails(AvccUnits(d, 0, avcc), stop)
  {
    hide AvccLength, AvccUnits, Progress, Handed, Fails;
    units, failed := [], false;
    var p := 0;
    var n := AvccLength(d, p, avcc);
    ghost var all := AvccUnits(d, 0, avcc);
    ProgressStart(all, stop);
    while !failed && 0 <= n && p + n + avcc <= |d|
      invariant p <= |d| && n == AvccLength(d, p, avcc)
      invariant Progress(all, units, AvccUnits(d, p, avcc), stop, failed)
      decreases |d| - p
    {
      UnfoldAvcc(d, p, avcc);
      var here := if n > 0 then [Nalu(d[p + avcc..p + avcc + n], p + avcc + n >= |d|)] else [];
      ProgressStep(all, units, here, AvccUnits(d, p + avcc + n, avcc), stop);
      failed := n > 0 && stop == Some(|units|);
      units := units + here;
      p := p + avcc + n;
      n := AvccLength(d, p, avcc);
    }
    UnfoldAvcc(d, p, avcc);
    ProgressFailed(all, units, AvccUnits(d, p, avcc), stop, failed);
    ProgressEnd(all, units, stop, failed);
  }

  /** `rtp_h264_annexb_nalu`. */
  method Split(d: seq<Byte>, stop: Option<nat>) returns (units: seq<Nalu>, failed: bool)
    ensures units == Handed(Units(d), stop) && failed == Fails(Units(d), stop)
  {
    var format := BitstreamFormat(d);
    if format > 0 {
      units, failed := SplitAvcc(d, format, stop);
    } else {
      units, failed := SplitAnnexB(d, stop);
    }
  }

  // ---------------------------------------------------------------- joining

  const START_CODE: seq<Byte> := [0, 0, 0, 1]

  function Join(nals: seq<seq<Byte>>): (d: seq<Byte>)
  {
    if nals == [] then [] else START_CODE + nals[0] + Join(nals[1..])
  }

  /** A NAL unit an encoder may emit: start-code emulation prevented, a nonzero last byte. */
  predicate Emulated(n: seq<Byte>) {
    && |n| > 0
    && n[|n| - 1] != 0
    && forall i :: 0 <= i <= |n| - 3 ==> !(n[i] == 0 && n[i + 1] == 0 && n[i + 2] == 1)
  }

  function Marked(nals: seq<seq<Byte>>): (r: seq<Nalu>)
    ensures |r| == |nals|
  {
    if nals == [] then [] else [Nalu(nals[0], |nals| == 1)] + Marked(nals[1..])
  }

  /** Inside `n`, and in the first three bytes of what follows it, no start code is complete. */
  lemma NoCodeInside(d: seq<Byte>, p: nat, n: seq<Byte>, q: nat)
    requires Emulated(n) && p + |n| <= |d| && d[p..p + |n|] == n
    requires p + 3 <= q <= p + |n|
    ensures !StartsNal(d, q)
  {
    var i := q - p - 3;
    assert d[q - 3] == d[p..p + |n|][i] == n[i];
    assert d[q - 2] == d[p..p + |n|][i + 1] == n[i + 1];
    assert d[q - 1] == d[p..p + |n|][i + 2] == n[i + 2];
  }

  /** The last unit runs to the end of the stream. */
  lemma {:induction false} LastUnit(d: seq<Byte>, p: nat, n: seq<Byte>)
    requires p <= |d| && Emulated(n) && d[p..] == n
    ensures ScanFrom(d, p + 3) == None
    ensures TrimEnd(d, p, |d|) == |d|
  {
    hide ScanFrom;
    assert d[p..p + |n|] == n;
    forall q: nat | p + 3 <= q < |d| ensures !StartsNal(d, q) { NoCodeInside(d, p, n, q); }
    assert d[|d| - 1] == d[p..][|n| - 1];
  }

  /** In front of another unit, the next start code is that unit's, and its leading zero is trimmed. */
  lemma InnerUnit(d: seq<Byte>, p: nat, n: seq<Byte>)
    requires Emulated(n) && p + |n| + 4 < |d|
    requires d[p..p + |n|] == n
    requires var s := p + |n|; d[s] == 0 && d[s + 1] == 0 && d[s + 2] == 0 && d[s + 3] == 1
    ensures ScanFrom(d, p + 3) == Some(p + |n| + 4)
    ensures TrimEnd(d, p, p + |n| + 1) == p + |n|
  {
    hide ScanFrom;
    var s := p + |n|;
    assert d[s - 1] != 0 by { assert d[s - 1] == d[p..s][|n| - 1]; }
    hide Emulated;
    assert StartsNal(d, s + 4);
    forall q: nat | p + 3 <= q < s + 4
      ensures !StartsNal(d, q)
    {
      if q <= s { NoCodeInside(d, p, n, q); }
    }
  }

  lemma EmulatedEnd(n: seq<Byte>)
    requires Emulated(n)
    ensures |n| > 0 && n[|n| - 1] != 0
  {
  }

  lemma Behind(d: seq<Byte>, p: nat, n: seq<Byte>, tail: seq<Byte>)
    requires p <= |d| && d[p..] == n + START_CODE + tail
    ensures |d| == p + |n| + 4 + |tail|
    ensures d[p..p + |n|] == n && d[p + |n| + 4..] == tail
    ensures var s := p + |n|; d[s] == 0 && d[s + 1] == 0 && d[s + 2] == 0 && d[s + 3] == 1
  {
    var s, f := p + |n|, d[p..];
    assert d[s] == f[|n|] && d[s + 1] == f[|n| + 1] && d[s + 2] == f[|n| + 2] && d[s + 3] == f[|n| + 3];
  }

  lemma {:induction false} UnitsStep(d: seq<Byte>, p: nat, n: seq<Byte>, q: nat)
    requires n != [] && p + |n| + 4 == q <= |d| && d[p..p + |n|] == n
    requires ScanFrom(d, p + 3) == Some(q) && TrimEnd(d, p, q - 3) == p + |n|
    ensures UnitsFrom(d, p) == [Nalu(n, false)] + UnitsFrom(d, q)
  {
    hide ScanFrom, TrimEnd, StartsNal;
  }

  lemma {:induction false} UnitsEnd(d: seq<Byte>, p: nat, n: seq<Byte>)
    requires n != [] && p + |n| == |d| && d[p..p + |n|] == n
    requires ScanFrom(d, p + 3) == None && TrimEnd(d, p, |d|) == |d|
    ensures UnitsFrom(d, p) == [Nalu(n, true)]
  {
    hide ScanFrom, TrimEnd, StartsNal;
  }

  lemma {:induction false} SplitFrom(d: seq<Byte>, p: nat, nals: seq<seq<Byte>>)
    requires p <= |d| && nals != []
    requires forall n :: n in nals ==> Emulated(n)
    requires d[p..] == nals[0] + Join(nals[1..])
    ensures UnitsFrom(d, p) == Marked(nals)
    decreases |nals|
  {
    hide ScanFrom, TrimEnd, Emulated, StartsNal, UnitsFrom;
    var n, rest := nals[0], nals[1..];
    assert n in nals;
    EmulatedEnd(n);
    assert d[p..p + |n|] == d[p..][..|n|] == n;
    if rest == [] {
      LastUnit(d, p, n);
      UnitsEnd(d, p, n);
    } else {
      var q := p + |n| + 4;
      var tail := rest[0] + Join(rest[1..]);
      assert rest[0] in nals;
      EmulatedEnd(rest[0]);
      assert d[p..] == n + START_CODE + tail;
      Behind(d, p, n, tail);
      InnerUnit(d, p, n);
      SplitFrom(d, q, rest);
      UnitsStep(d, p, n, q);
    }
  }

  /** Splitting undoes joining: every NAL unit comes back, in order, and only the last is marked. */
  lemma {:induction false} SplitJoin(nals: seq<seq<Byte>>)
    requires forall n :: n in nals ==> Emulated(n)
    ensures Units(Join(nals)) == Marked(nals)
  {
    hide UnitsFrom, Emulated, ScanFrom, AvccValid, Marked;
    var d := Join(nals);
    if nals != [] {
      assert nals[0] in nals;
      EmulatedEnd(nals[0]);
      assert d[..4] == START_CODE;
      assert d[0] == d[..4][0] && d[1] == d[..4][1] && d[2] == d[..4][2] && d[3] == d[..4][3];
      assert !StartsNal(d, 3) && StartsNal(d, 4);
      assert d[4..] == nals[0] + Join(nals[1..]);
      SplitFrom(d, 4, nals);
    }
  }
}
