/** The length-prefixed layout: lib/librtp/payload/rtp-h264-bitstream.c tells it from start codes by walking
    the lengths, and splits it back into its units. */
module Avcc {
  import opened Bytes
  import opened AnnexB

  /** Units behind their 32-bit lengths. */
  function Prefix(nals: seq<seq<Byte>>): (d: seq<Byte>)
    requires forall n :: n in nals ==> |n| < 0x8000_0000
  {
    if nals == [] then [] else W32(|nals[0]|) + nals[0] + Prefix(nals[1..])
  }

  /** No unit is empty, and every length is a positive `int`. */
  ghost predicate Plain(nals: seq<seq<Byte>>) { forall n :: n in nals ==> 0 < |n| < 0x8000_0000 }

  /** The walk over the lengths stops in front of the last five bytes. */
  predicate EndsLong(nals: seq<seq<Byte>>) { nals != [] ==> |nals[|nals| - 1]| >= 2 }

  lemma LengthReads(d: seq<Byte>, p: nat, n: nat, rest: seq<Byte>)
    requires p <= |d| && n < 0x8000_0000 && rest != [] && d[p..] == W32(n) + rest
    ensures AvccLength(d, p, 4) == n
  {
    var w := W32(n);
    assert d[p] == d[p..][0] == w[0] && d[p + 1] == d[p..][1] == w[1];
    assert d[p + 2] == d[p..][2] == w[2] && d[p + 3] == d[p..][3] == w[3];
    WordValue(n);
    hide W32;
  }

  lemma WordValue(n: U32)
    ensures |W32(n)| == 4
    ensures W32(n)[0] as int * 0x100_0000 + W32(n)[1] as int * 0x1_0000 + W32(n)[2] as int * 0x100
            + W32(n)[3] as int == n
  {
    HalfValue(n / 0x1_0000);
    HalfValue(n % 0x1_0000);
    hide W16;
  }

  lemma HalfValue(v: U16)
    ensures |W16(v)| == 2 && W16(v)[0] as int * 0x100 + W16(v)[1] as int == v
  {
  }

  lemma PlainRest(nals: seq<seq<Byte>>)
    requires Plain(nals) && nals != []
    ensures Plain(nals[1..]) && 0 < |nals[0]| < 0x8000_0000
    ensures EndsLong(nals) == if |nals| == 1 then |nals[0]| >= 2 else EndsLong(nals[1..])
  {
    assert nals[0] in nals;
    if nals[1..] != [] { assert nals[1..][|nals| - 2] == nals[|nals| - 1]; }
  }

  lemma {:induction false} PrefixStep(nals: seq<seq<Byte>>)
    requires Plain(nals) && nals != []
    ensures Plain(nals[1..])
    ensures Prefix(nals) == W32(|nals[0]|) + (nals[0] + Prefix(nals[1..]))
    ensures Prefix(nals[1..]) == [] <==> nals[1..] == []
    ensures nals[1..] != [] ==> |Prefix(nals[1..])| >= 5
  {
    hide W32;
    PlainRest(nals);
    assert nals[0] in nals;
    Regroup(W32(|nals[0]|), nals[0], Prefix(nals[1..]));
    if nals[1..] != [] {
      PlainRest(nals[1..]);
      assert |W32(|nals[1]|)| == 4;
    }
  }

  /** The walk over the lengths ends at the end of the data, and hands over every unit on its way. */
  lemma {:induction false} WalkFinds(d: seq<Byte>, p: nat, nals: seq<seq<Byte>>)
    requires p <= |d| && Plain(nals) && d[p..] == Prefix(nals)
    ensures AvccValid(d, p, 4) == EndsLong(nals)
    ensures AvccUnits(d, p, 4) == Marked(nals)
    decreases |nals|
  {
    hide AvccLength, W32, Prefix, Marked, EndsLong;
    NothingPrefixed();
    EndsNone();
    if nals == [] {
      assert |d[p..]| == 0;
      NoLength(d, p);
    } else {
      var n, rest := nals[0], nals[1..];
      PlainRest(nals);
      PrefixStep(nals);
      WordSize(|n|);
      LengthReads(d, p, |n|, n + Prefix(rest));
      var q := p + 4 + |n|;
      Between(d, p, W32(|n|), n, Prefix(rest));
      WalkFinds(d, q, rest);
      MarkedIs(nals);
    }
  }

  lemma Between(d: seq<Byte>, p: nat, w: seq<Byte>, n: seq<Byte>, tail: seq<Byte>)
    requires p <= |d| && |w| == 4 && d[p..] == w + (n + tail)
    ensures |d| == p + 4 + |n| + |tail| && d[p + 4..p + 4 + |n|] == n && d[p + 4 + |n|..] == tail
  {
    var f := d[p..];
    assert |f| == |d| - p && |f| == 4 + |n| + |tail|;
    assert f[4..4 + |n|] == n;
    assert f[4 + |n|..] == tail;
    SliceOfRest(d, p, 4, 4 + |n|);
    SliceOfRest(d, p, 4 + |n|, |f|);
    assert d[p + 4 + |n|..] == d[p + 4 + |n|..|d|] && f[4 + |n|..] == f[4 + |n|..|f|];
  }

  lemma SliceOfRest(d: seq<Byte>, p: nat, a: nat, b: nat)
    requires p <= |d| && a <= b <= |d| - p
    ensures d[p..][a..b] == d[p + a..p + b]
  {
  }

  lemma NothingPrefixed()
    ensures Prefix([]) == []
  {
  }

  lemma EndsNone()
    ensures EndsLong([])
  {
  }

  lemma WordSize(n: U32)
    ensures |W32(n)| == 4
  {
  }

  lemma NoLength(d: seq<Byte>, p: nat)
    requires p == |d|
    ensures AvccLength(d, p, 4) == -1
  {
  }

  lemma {:induction false} MarkedIs(nals: seq<seq<Byte>>)
    ensures Marked([]) == []
    ensures nals != [] ==> Marked(nals) == [Nalu(nals[0], |nals| == 1)] + Marked(nals[1..])
  {
  }

  /** What is joined with lengths is taken for that exactly when the first unit and the last one have at least
      two bytes: a first length of one looks like a start code, and the walk stops in front of the last five
      bytes. Then it is split back unit by unit, the last one marked. */
  lemma {:induction false} SplitPrefixed(nals: seq<seq<Byte>>)
    requires Plain(nals)
    ensures BitstreamFormat(Prefix(nals)) == 4 <==> nals != [] && |nals[0]| >= 2 && EndsLong(nals)
    ensures nals == [] || (|nals[0]| >= 2 && EndsLong(nals)) ==> Units(Prefix(nals)) == Marked(nals)
  {
    var d := Prefix(nals);
    assert d[0..] == d;
    WalkFinds(d, 0, nals);
    MarkedIs(nals);
    if nals == [] {
      NoStartCode(d);
    } else {
      PlainRest(nals);
      PrefixStep(nals);
      WordSize(|nals[0]|);
      WordValue(|nals[0]|);
      hide W32, Prefix, AvccValid, AvccUnits, AnnexBUnits, Marked, Plain, EndsLong, BitstreamFormat;
      assert d[..4] == W32(|nals[0]|);
      FormatIs(d, |nals[0]|);
    }
  }

  /** Only a first length below two looks like a start code. */
  lemma {:induction false} FormatIs(d: seq<Byte>, n: nat)
    requires |d| >= 4 && 0 < n < 0x8000_0000 && d[..4] == W32(n)
    ensures BitstreamFormat(d) == 4 <==> n >= 2 && AvccValid(d, 0, 4)
  {
    WordValue(n);
    hide W32, AvccValid;
    var w := d[..4];
    assert d[0] == w[0] && d[1] == w[1] && d[2] == w[2] && d[3] == w[3];
  }

  lemma NoStartCode(d: seq<Byte>)
    requires d == []
    ensures AnnexBUnits(d) == []
  {
  }
}
