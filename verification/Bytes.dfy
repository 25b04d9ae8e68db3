/** Octets, big-endian fields and byte-string plumbing shared by the protocol modules. */
module Bytes {

  type Byte = x: int | 0 <= x < 0x100
  type U16 = x: int | 0 <= x < 0x1_0000
  type U32 = x: int | 0 <= x < 0x1_0000_0000

  function Min(a: int, b: int): (m: int)
    ensures m <= a && m <= b && (m == a || m == b)
  {
    if a < b then a else b
  }

  function Max(a: int, b: int): (m: int)
    ensures m >= a && m >= b && (m == a || m == b)
  {
    if a < b then b else a
  }

  /** A 16-bit unsigned cast. */
  function Mod16(n: int): U16 { n % 0x1_0000 }

  datatype Option<+T> = None | Some(value: T)

  /** `rtp_read_uint16` at offset `at`. */
  function R16(b: seq<Byte>, at: nat): (v: U16)
    requires at + 2 <= |b|
  {
    b[at] as int * 0x100 + b[at + 1] as int
  }

  /** `rtp_write_uint16`: network byte order. */
  function W16(v: U16): (b: seq<Byte>)
    ensures |b| == 2
    ensures R16(b, 0) == v
  {
    [v / 0x100, v % 0x100]
  }

  /** `rtp_read_uint32` at offset `at`. */
  function R32(b: seq<Byte>, at: nat): (v: U32)
    requires at + 4 <= |b|
  {
    R16(b, at) as int * 0x1_0000 + R16(b, at + 2) as int
  }

  /** `rtp_write_uint32`: network byte order. */
  function W32(v: U32): (b: seq<Byte>)
    ensures |b| == 4
  {
    W16(v / 0x1_0000) + W16(v % 0x1_0000)
  }

  /** A field read out of the middle of a string is the field that was written there. */
  lemma ReadBack16(before: seq<Byte>, v: U16, after: seq<Byte>)
    ensures R16(before + W16(v) + after, |before|) == v
  {
    var w, all := W16(v), before + W16(v) + after;
    assert all[|before|] == w[0] && all[|before| + 1] == w[1];
    assert R16(w, 0) == v;
  }

  lemma ReadBack32(before: seq<Byte>, v: U32, after: seq<Byte>)
    ensures R32(before + W32(v) + after, |before|) == v
  {
    hide W16, R16;
    var hi, lo := v / 0x1_0000, v % 0x1_0000;
    var all := before + W32(v) + after;
    ReadBack16(before, hi, W16(lo) + after);
    assert all == before + W16(hi) + (W16(lo) + after);
    ReadBack16(before + W16(hi), lo, after);
    assert all == (before + W16(hi)) + W16(lo) + after;
  }

  /** The concatenation of a list of strings. */
  function Concat<T>(parts: seq<seq<T>>): (all: seq<T>)
  {
    if parts == [] then [] else parts[0] + Concat(parts[1..])
  }

  lemma {:induction false} ConcatAppend<T>(a: seq<seq<T>>, b: seq<seq<T>>)
    ensures Concat(a + b) == Concat(a) + Concat(b)
  {
    if a == [] {
      assert a + b == b;
    } else {
      assert (a + b)[1..] == a[1..] + b;
      ConcatAppend(a[1..], b);
    }
  }

  /** A string found at `at` is found part by part. */
  lemma SplitSlice<T>(b: seq<T>, at: nat, x: seq<T>, y: seq<T>)
    requires at + |x| + |y| <= |b| && b[at..at + |x| + |y|] == x + y
    ensures b[at..at + |x|] == x && b[at + |x|..at + |x| + |y|] == y
  {
    var img := b[at..at + |x| + |y|];
    assert b[at..at + |x|] == img[..|x|];
    assert b[at + |x|..at + |x| + |y|] == img[|x|..];
  }

  lemma ReadAt16(b: seq<Byte>, at: nat, v: U16)
    requires at + 2 <= |b| && b[at..at + 2] == W16(v)
    ensures R16(b, at) == v
  {
    hide W16, R16;
    ReadBack16(b[..at], v, b[at + 2..]);
    assert b[..at] + W16(v) + b[at + 2..] == b;
  }

  lemma Regroup<T>(a: seq<T>, b: seq<T>, c: seq<T>)
    ensures (a + b) + c == a + (b + c)
  {
  }

  lemma ConcatOne<T>(a: seq<T>)
    ensures Concat([a]) == a
  {
    assert [a][1..] == [];
  }

  lemma {:induction false} ConcatSnoc<T>(a: seq<seq<T>>, x: seq<T>)
    ensures Concat(a + [x]) == Concat(a) + x
  {
    ConcatAppend(a, [x]);
    ConcatOne(x);
  }
}
