/** CRC-32/MPEG-2 as src/dvr/ts_writer.cpp computes it (`crc32_mpeg`), and its residue. */
module Crc32 {
  import opened Bytes

  const INIT: bv32 := 0xFFFF_FFFF
  const POLYNOMIAL: bv32 := 0x04C1_1DB7

  /** One bit: shift out the top, and xor the polynomial in when it was set. */
  function Bit(crc: bv32): bv32 {
    if crc & 0x8000_0000 != 0 then (crc << 1) ^ POLYNOMIAL else crc << 1
  }

  function Bits(crc: bv32, n: nat): bv32 {
    if n == 0 then crc else Bit(Bits(crc, n - 1))
  }

  /** A byte xored into the top of the register. */
  function Mix(crc: bv32, b: bv32): bv32 { crc ^ High(b) }

  function High(b: bv32): bv32 { b << 24 }

  /** One byte into the top of the register, then eight bits. */
  function Feed(crc: bv32, b: bv32): bv32 { Bits(Mix(crc, b), 8) }

  /** The register after `data`, starting from `INIT`. */
  function Crc(data: seq<Byte>): bv32 {
    if data == [] then INIT else Feed(Crc(data[..|data| - 1]), Widen(data[|data| - 1]))
  }

  // --- octets to and from register bits -------------------------------------------------

  function Flag(v: bv32, mask: bv32): int { if v & mask != 0 then 1 else 0 }
  function Mask(b: int, mask: bv32): bv32 { if b % 2 == 1 then mask else 0 }

  /** The low eight bits of a register as an octet. */
  function Narrow(v: bv32): Byte {
    var a := 2 * Flag(v, 0x80) + Flag(v, 0x40);
    var b := 2 * (2 * a + Flag(v, 0x20)) + Flag(v, 0x10);
    var c := 2 * (2 * b + Flag(v, 0x08)) + Flag(v, 0x04);
    2 * (2 * c + Flag(v, 0x02)) + Flag(v, 0x01)
  }

  /** An octet as register bits. */
  function Widen(b: Byte): bv32 {
    var b1 := b as int / 2; var b2 := b1 / 2; var b3 := b2 / 2;
    var b4 := b3 / 2; var b5 := b4 / 2; var b6 := b5 / 2; var b7 := b6 / 2;
    Mask(b, 0x01) | Mask(b1, 0x02) | Mask(b2, 0x04) | Mask(b3, 0x08)
    | Mask(b4, 0x10) | Mask(b5, 0x20) | Mask(b6, 0x40) | Mask(b7, 0x80)
  }

  function Keep(v: bv32, mask: bv32): bv32 { if v & mask != 0 then mask else 0 }

  lemma HalfOf(h: int, v: bv32, mask: bv32)
    ensures (2 * h + Flag(v, mask)) / 2 == h
    ensures Mask(2 * h + Flag(v, mask), mask) == Keep(v, mask)
  {
  }

  lemma SumOfBits(v: bv32)
    ensures Keep(v, 0x01) | Keep(v, 0x02) | Keep(v, 0x04) | Keep(v, 0x08)
         | Keep(v, 0x10) | Keep(v, 0x20) | Keep(v, 0x40) | Keep(v, 0x80) == v & 0xFF
  {
  }

  lemma WidenNarrow(v: bv32)
    ensures Widen(Narrow(v)) == v & 0xFF
  {
    hide Flag, Mask, Keep;
    var c7 := 2 * 0 + Flag(v, 0x80);
    var c6 := 2 * c7 + Flag(v, 0x40);
    var c5 := 2 * c6 + Flag(v, 0x20);
    var c4 := 2 * c5 + Flag(v, 0x10);
    var c3 := 2 * c4 + Flag(v, 0x08);
    var c2 := 2 * c3 + Flag(v, 0x04);
    var c1 := 2 * c2 + Flag(v, 0x02);
    assert Narrow(v) == 2 * c1 + Flag(v, 0x01);
    hide Narrow;
    HalfOf(c1, v, 0x01); HalfOf(c2, v, 0x02); HalfOf(c3, v, 0x04); HalfOf(c4, v, 0x08);
    HalfOf(c5, v, 0x10); HalfOf(c6, v, 0x20); HalfOf(c7, v, 0x40); HalfOf(0, v, 0x80);
    SumOfBits(v);
  }

  // --- the loop ---------------------------------------------------------------------------

  method FeedByte(crc: bv32, b: Byte) returns (next: bv32)
    ensures next == Feed(crc, Widen(b))
  {
    hide Widen;
    hide Bits, Bit, Mix;
    var start := Mix(crc, Widen(b));
    next := start;
    BitsNone(start);
    for bit := 0 to 8
      invariant next == Bits(start, bit)
    {
      UnfoldBits(start, bit + 1);
      next := Bit(next);
    }
  }

  lemma UnfoldBits(crc: bv32, n: nat)
    requires n > 0
    ensures Bits(crc, n) == Bit(Bits(crc, n - 1))
  {
  }

  /** `crc32_mpeg`: the register runs over the whole string. */
  method Compute(data: seq<Byte>) returns (crc: bv32)
    ensures crc == Crc(data)
  {
    hide Feed, Widen;
    crc := INIT;
    for i := 0 to |data|
      invariant crc == Crc(data[..i])
    {
      assert data[..i + 1][..i] == data[..i];
      crc := FeedByte(crc, data[i]);
    }
    assert data[..|data|] == data;
  }

  // --- the residue ------------------------------------------------------------------------

  /** The four bytes a section carries, most significant first. */
  function Tail(crc: bv32): (b: seq<Byte>)
    ensures |b| == 4
  {
    [Narrow(crc >> 24), Narrow(crc >> 16), Narrow(crc >> 8), Narrow(crc)]
  }

  function Top(x: bv32): bv32 { (x >> 24) & 0xFF }
  function ByteUp(x: bv32): bv32 { x << 8 }

  lemma {:induction false} BitsNone(x: bv32)
    ensures Bits(x, 0) == x
  {
  }

  /** A clear top byte shifts out without touching the polynomial. */
  lemma {:induction false} ShiftOut(x: bv32)
    requires Top(x) == 0
    ensures Bits(x, 8) == ByteUp(x)
  {
    hide Bits;
    UnfoldBits(x, 1); UnfoldBits(x, 2); UnfoldBits(x, 3); UnfoldBits(x, 4);
    UnfoldBits(x, 5); UnfoldBits(x, 6); UnfoldBits(x, 7); UnfoldBits(x, 8);
    BitsNone(x);
    assert Bit(x) == x << 1;
    assert Bit(x << 1) == x << 2;
    assert Bit(x << 2) == x << 3;
    assert Bit(x << 3) == x << 4;
    assert Bit(x << 4) == x << 5;
    assert Bit(x << 5) == x << 6;
    assert Bit(x << 6) == x << 7;
    assert Bit(x << 7) == x << 8;
  }

  lemma MixOwnTop(crc: bv32)
    ensures Top(Mix(crc, Top(crc))) == 0
    ensures ByteUp(Mix(crc, Top(crc))) == ByteUp(crc)
  {
  }

  /** Feeding the register its own top byte shifts it by a byte, whatever the polynomial. */
  lemma FeedOwnTop(crc: bv32)
    ensures Feed(crc, Top(crc)) == ByteUp(crc)
  {
    hide Bits, Mix, Top, ByteUp;
    MixOwnTop(crc);
    ShiftOut(Mix(crc, Top(crc)));
  }

  lemma {:induction false} PushTop(data: seq<Byte>, b: Byte)
    requires Widen(b) == Top(Crc(data))
    ensures Crc(data + [b]) == ByteUp(Crc(data))
  {
    hide Feed, Widen, Top, ByteUp;
    assert (data + [b])[..|data|] == data;
    FeedOwnTop(Crc(data));
  }

  /** Each tail byte is the register's top byte once the earlier ones are in. */
  lemma TailBytes(c: bv32)
    ensures Widen(Tail(c)[0]) == Top(c)
    ensures Widen(Tail(c)[1]) == Top(ByteUp(c))
    ensures Widen(Tail(c)[2]) == Top(ByteUp(ByteUp(c)))
    ensures Widen(Tail(c)[3]) == Top(ByteUp(ByteUp(ByteUp(c))))
  {
    hide Widen, Narrow;
    WidenNarrow(c >> 24); WidenNarrow(c >> 16); WidenNarrow(c >> 8); WidenNarrow(c);
  }

  lemma FourUp(c: bv32)
    ensures ByteUp(ByteUp(ByteUp(ByteUp(c)))) == 0
  {
  }

  lemma PushFour(data: seq<Byte>, t: seq<Byte>)
    requires |t| == 4
    ensures data + t == data + [t[0]] + [t[1]] + [t[2]] + [t[3]]
  {
  }

  /** A receiver that runs the CRC over a section and the tail it carries always ends at zero. */
  lemma {:induction false} Residue(data: seq<Byte>)
    ensures Crc(data + Tail(Crc(data))) == 0
  {
    hide *;
    var c := Crc(data);
    var t := Tail(c);
    TailBytes(c);
    PushTop(data, t[0]);
    var d1 := data + [t[0]];
    PushTop(d1, t[1]);
    var d2 := d1 + [t[1]];
    PushTop(d2, t[2]);
    PushTop(d2 + [t[2]], t[3]);
    FourUp(c);
    PushFour(data, t);
  }
}
