/** What the CRC of src/dvr/ts_writer.cpp is: the remainder of a long division of polynomials over GF(2), on
    sequences of bits, as Annex A of ISO/IEC 13818-1 asks for. And what a receiver can rely on. */
module CrcDivision {
  import opened Bytes
  import opened Crc32

  // --- polynomials as bits, highest power first ---------------------------------------------

  function Xor(a: seq<bool>, b: seq<bool>): (r: seq<bool>)
    requires |a| == |b|
    ensures |r| == |a|
  {
    seq(|a|, i requires 0 <= i < |a| => a[i] != b[i])
  }

  function Clear(n: nat): (r: seq<bool>)
    ensures |r| == n
  {
    seq(n, _ => false)
  }

  function Set(n: nat): (r: seq<bool>)
    ensures |r| == n
  {
    seq(n, _ => true)
  }

  /** The powers of x in the divisor. */
  const POWERS: set<int> := {32, 26, 23, 22, 16, 12, 11, 10, 8, 7, 5, 4, 2, 1, 0}

  function Divisor(): (r: seq<bool>)
    ensures |r| == 33
  {
    seq(33, i => (32 - i) in POWERS)
  }

  /** Long division: where the leading bit is set, the divisor is subtracted - over GF(2), xored - at that
      place; 32 bits remain. */
  function Remainder(d: seq<bool>): (r: seq<bool>)
    requires |d| >= 32
    ensures |r| == 32
    decreases |d|
  {
    if |d| == 32 then d
    else if d[0] then Remainder(Xor(d[..33], Divisor())[1..] + d[33..])
    else Remainder(d[1..])
  }

  /** The eight bits of a byte, the most significant first. */
  function Octet(b: Byte): (r: seq<bool>)
    ensures |r| == 8
  {
    [b / 128 % 2 == 1, b / 64 % 2 == 1, b / 32 % 2 == 1, b / 16 % 2 == 1,
     b / 8 % 2 == 1, b / 4 % 2 == 1, b / 2 % 2 == 1, b % 2 == 1]
  }

  function Octets(data: seq<Byte>): (r: seq<bool>)
    ensures |r| == 8 * |data|
  {
    if data == [] then [] else Octets(data[..|data| - 1]) + Octet(data[|data| - 1])
  }

  /** What is divided: the bits of the message and 32 zeros, the first 32 of them all inverted. */
  function Dividend(data: seq<Byte>): (r: seq<bool>)
    ensures |r| == 8 * |data| + 32
  {
    Xor(Octets(data) + Clear(32), Set(32) + Clear(8 * |data|))
  }

  // --- the register as bits -----------------------------------------------------------------

  function Lead(v: bv32): bool { v & 0x8000_0000 != 0 }
  function Up(v: bv32): bv32 { v << 1 }
  function Up4(v: bv32): bv32 { v << 4 }
  function Plus(a: bv32, b: bv32): bv32 { a ^ b }

  /** The first `n` bits of a register, the most significant first. */
  function Reg(v: bv32, n: nat): (r: seq<bool>)
    ensures |r| == n
    decreases n
  {
    if n == 0 then [] else [Lead(v)] + Reg(Up(v), n - 1)
  }

  /** The register after `n` single shifts. */
  function Shifted(v: bv32, n: nat): bv32
    decreases n
  {
    if n == 0 then v else Shifted(Up(v), n - 1)
  }

  lemma PlusLead(a: bv32, b: bv32)
    ensures Lead(Plus(a, b)) == (Lead(a) != Lead(b))
  {
  }

  lemma PlusUp(a: bv32, b: bv32)
    ensures Up(Plus(a, b)) == Plus(Up(a), Up(b))
  {
  }

  lemma FourUp(v: bv32)
    ensures Up(Up(Up(Up(v)))) == Up4(v)
    ensures Lead(Up(v)) <==> v & 0x4000_0000 != 0
    ensures Lead(Up(Up(v))) <==> v & 0x2000_0000 != 0
    ensures Lead(Up(Up(Up(v)))) <==> v & 0x1000_0000 != 0
  {
  }

  lemma {:induction false} RegXor(a: bv32, b: bv32, n: nat)
    ensures Reg(Plus(a, b), n) == Xor(Reg(a, n), Reg(b, n))
    decreases n
  {
    hide Lead, Up, Plus;
    if n > 0 {
      PlusLead(a, b);
      PlusUp(a, b);
      RegXor(Up(a), Up(b), n - 1);
    }
  }

  lemma {:induction false} RegZero(n: nat)
    ensures Reg(0, n) == Clear(n)
  {
    assert !Lead(0) && Up(0) == 0;
    hide Lead, Up;
    if n > 0 { RegZero(n - 1); }
  }

  lemma {:induction false} RegStep(v: bv32, n: nat)
    ensures Reg(v, n + 1) == [Lead(v)] + Reg(Up(v), n)
  {
    hide Lead, Up;
  }

  /** Four bits at a time. */
  lemma Nibble(v: bv32, n: nat)
    requires n >= 4
    ensures Reg(v, n) == [Lead(v), Lead(Up(v)), Lead(Up(Up(v))), Lead(Up(Up(Up(v))))] + Reg(Up4(v), n - 4)
  {
    FourUp(v);
    hide Reg, Lead, Up, Up4;
    RegStep(v, n - 1);
    RegStep(Up(v), n - 2);
    RegStep(Up(Up(v)), n - 3);
    RegStep(Up(Up(Up(v))), n - 4);
  }

  lemma {:induction false} RegSplit(v: bv32, n: nat, m: nat)
    ensures Reg(v, n + m) == Reg(v, n) + Reg(Shifted(v, n), m)
    decreases n
  {
    hide Lead, Up;
    if n > 0 {
      RegSplit(Up(v), n - 1, m);
    }
  }

  lemma ShiftedStep(v: bv32, n: nat)
    ensures n > 0 ==> Shifted(v, n) == Shifted(Up(v), n - 1)
    ensures Shifted(v, 0) == v
  {
    hide Up;
  }

  lemma ShiftedFour(v: bv32, n: nat)
    requires n >= 4
    ensures Shifted(v, n) == Shifted(Up4(v), n - 4)
  {
    FourUp(v);
    hide Shifted, Up, Up4;
    ShiftedStep(v, n);
    ShiftedStep(Up(v), n - 1);
    ShiftedStep(Up(Up(v)), n - 2);
    ShiftedStep(Up(Up(Up(v))), n - 3);
  }

  lemma AllOut(v: bv32)
    ensures Up(Up(Up(Up4(Up4(Up4(Up4(Up4(Up4(Up4(Up(v))))))))))) == 0
  {
  }

  /** Thirty-two shifts leave nothing. */
  lemma ShiftedOut(v: bv32)
    ensures Shifted(Up(v), 31) == 0
  {
    AllOut(v);
    hide Shifted, Up, Up4;
    var v0 := Up(v);
    var v1 := Up4(v0); var v2 := Up4(v1); var v3 := Up4(v2); var v4 := Up4(v3);
    var v5 := Up4(v4); var v6 := Up4(v5); var v7 := Up4(v6);
    ShiftedFour(v0, 31);
    ShiftedFour(v1, 27);
    ShiftedFour(v2, 23);
    ShiftedFour(v3, 19);
    ShiftedFour(v4, 15);
    ShiftedFour(v5, 11);
    ShiftedFour(v6, 7);
    ShiftedStep(v7, 3);
    ShiftedStep(Up(v7), 2);
    ShiftedStep(Up(Up(v7)), 1);
    ShiftedStep(Up(Up(Up(v7))), 0);
  }

  lemma {:induction false} RegUp(v: bv32)
    ensures Reg(Up(v), 32) == Reg(v, 32)[1..] + [false]
  {
    hide Reg, Shifted, Up;
    RegStep(v, 31);
    RegSplit(Up(v), 31, 1);
    assert Reg(v, 32)[1..] == Reg(Up(v), 31);
    ShiftedOut(v);
    RegZero(1);
  }

  /** The constant of the program is the divisor without its leading power. */
  lemma ConstantIsDivisor()
    ensures [true] + Reg(POLYNOMIAL, 32) == Divisor()
  {
    var p := POLYNOMIAL;
    var p1 := Up4(p); var p2 := Up4(p1); var p3 := Up4(p2); var p4 := Up4(p3);
    var p5 := Up4(p4); var p6 := Up4(p5); var p7 := Up4(p6);
    ConstantBits();
    hide Reg, Lead, Up, Up4;
    Nibble(p, 32);
    Nibble(p1, 28);
    Nibble(p2, 24);
    Nibble(p3, 20);
    Nibble(p4, 16);
    Nibble(p5, 12);
    Nibble(p6, 8);
    Nibble(p7, 4);
  }

  function FourLeads(v: bv32): (r: seq<bool>) { [Lead(v), Lead(Up(v)), Lead(Up(Up(v))), Lead(Up(Up(Up(v))))] }

  lemma ConstantBits()
    ensures var p := POLYNOMIAL;
            var p1 := Up4(p); var p2 := Up4(p1); var p3 := Up4(p2); var p4 := Up4(p3);
            var p5 := Up4(p4); var p6 := Up4(p5); var p7 := Up4(p6);
            && FourLeads(p) == [false, false, false, false] && FourLeads(p1) == [false, true, false, false]
            && FourLeads(p2) == [true, true, false, false] && FourLeads(p3) == [false, false, false, true]
            && FourLeads(p4) == [false, false, false, true] && FourLeads(p5) == [true, true, false, true]
            && FourLeads(p6) == [true, false, true, true] && FourLeads(p7) == [false, true, true, true]
  {
  }

  // --- the loop divides ---------------------------------------------------------------------

  /** What is still to be divided, with the register folded into its first 32 bits. */
  function Fold(c: bv32, d: seq<bool>): (r: seq<bool>)
    requires |d| >= 32
    ensures |r| == |d|
  {
    Xor(d, Reg(c, 32) + Clear(|d| - 32))
  }

  lemma BitIs(x: bv32)
    ensures Crc32.Bit(x) == if Lead(x) then Plus(Up(x), POLYNOMIAL) else Up(x)
  {
  }

  /** One bit of the register loop is one step of the division. */
  lemma OneBit(x: bv32, rest: seq<bool>)
    requires |rest| >= 32
    ensures Remainder(Fold(x, [false] + rest)) == Remainder(Fold(Crc32.Bit(x), rest))
  {
    hide *;
    BitIs(x);
    RegUp(x);
    ConstantIsDivisor();
    RegXor(Up(x), POLYNOMIAL, 32);
    RegStep(x, 31);
    var d := Fold(x, [false] + rest);
    FoldIs(x, [false] + rest);
    FoldIs(Up(x), rest);
    FoldIs(Plus(Up(x), POLYNOMIAL), rest);
    FoldStep(Reg(x, 32), Reg(Up(x), 32), Reg(POLYNOMIAL, 32), Divisor(), rest);
    DivideStep(d);
  }

  /** One step of the division, on the folded bits. */
  lemma FoldStep(r: seq<bool>, up: seq<bool>, low: seq<bool>, div: seq<bool>, rest: seq<bool>)
    requires |r| == 32 && up == r[1..] + [false] && |low| == 32 && div == [true] + low && |rest| >= 32
    ensures var d := Xor([false] + rest, r + Clear(|rest| - 31));
            && d[0] == r[0]
            && d[1..] == Xor(rest, up + Clear(|rest| - 32))
            && Xor(d[..33], div)[1..] + d[33..] == Xor(rest, Xor(up, low) + Clear(|rest| - 32))
  {
    var d := Xor([false] + rest, r + Clear(|rest| - 31));
    var e := Xor(rest, up + Clear(|rest| - 32));
    forall i | 0 <= i < |rest| ensures d[1 + i] == e[i] {
      if i < 31 { assert up[i] == r[1 + i]; }
    }
    var f, g := Xor(d[..33], div)[1..] + d[33..], Xor(rest, Xor(up, low) + Clear(|rest| - 32));
    forall i | 0 <= i < |rest| ensures f[i] == g[i] {
      if i < 32 {
        assert f[i] == (d[1 + i] != low[i]) && d[1 + i] == e[i];
      } else {
        assert f[i] == d[1 + i];
      }
    }
  }

  lemma {:induction false} DivideStep(d: seq<bool>)
    requires |d| >= 33
    ensures Remainder(d) == if d[0] then Remainder(Xor(d[..33], Divisor())[1..] + d[33..]) else Remainder(d[1..])
  {
    hide Divisor;
  }

  lemma {:induction false} ManyBits(x: bv32, n: nat, rest: seq<bool>)
    requires |rest| >= 32
    ensures Remainder(Fold(x, Clear(n) + rest)) == Remainder(Fold(Bits(x, n), rest))
    decreases n
  {
    hide Fold, Remainder, Bits, Crc32.Bit;
    if n == 0 {
      BitsNone(x);
      assert Clear(0) + rest == rest;
    } else {
      assert Clear(n) + rest == Clear(n - 1) + ([false] + rest);
      ManyBits(x, n - 1, [false] + rest);
      OneBit(Bits(x, n - 1), rest);
      UnfoldBits(x, n);
    }
  }

  // --- bytes --------------------------------------------------------------------------------

  lemma MixIs(c: bv32, b: bv32)
    ensures Mix(c, b) == Plus(c, High(b))
  {
    hide High;
  }

  /** A byte as the top of the register. */
  lemma ByteBits(b: Byte)
    ensures FourLeads(High(Widen(b))) == Octet(b)[..4] && FourLeads(Up4(High(Widen(b)))) == Octet(b)[4..]
    ensures Up4(Up4(High(Widen(b)))) == 0
  {
    hide *;
    var b1 := b as int / 2; var b2 := b1 / 2; var b3 := b2 / 2;
    var b4 := b3 / 2; var b5 := b4 / 2; var b6 := b5 / 2; var b7 := b6 / 2;
    var m0, m1, m2, m3 := Mask(b, 0x01), Mask(b1, 0x02), Mask(b2, 0x04), Mask(b3, 0x08);
    var m4, m5, m6, m7 := Mask(b4, 0x10), Mask(b5, 0x20), Mask(b6, 0x40), Mask(b7, 0x80);
    MaskBounds(b);
    WidenIsMasks(b);
    OctetMasks(b);
    Masks(m0, m1, m2, m3, m4, m5, m6, m7);
    Quarters([m7 != 0, m6 != 0, m5 != 0, m4 != 0], [m3 != 0, m2 != 0, m1 != 0, m0 != 0]);
  }

  lemma Quarters(a: seq<bool>, b: seq<bool>)
    requires |a| == 4
    ensures (a + b)[..4] == a && (a + b)[4..] == b
  {
  }

  lemma MaskBounds(b: Byte)
    ensures var b1 := b as int / 2; var b2 := b1 / 2; var b3 := b2 / 2;
            var b4 := b3 / 2; var b5 := b4 / 2; var b6 := b5 / 2; var b7 := b6 / 2;
            && (Mask(b, 0x01) == 0 || Mask(b, 0x01) == 0x01) && (Mask(b1, 0x02) == 0 || Mask(b1, 0x02) == 0x02)
            && (Mask(b2, 0x04) == 0 || Mask(b2, 0x04) == 0x04) && (Mask(b3, 0x08) == 0 || Mask(b3, 0x08) == 0x08)
            && (Mask(b4, 0x10) == 0 || Mask(b4, 0x10) == 0x10) && (Mask(b5, 0x20) == 0 || Mask(b5, 0x20) == 0x20)
            && (Mask(b6, 0x40) == 0 || Mask(b6, 0x40) == 0x40) && (Mask(b7, 0x80) == 0 || Mask(b7, 0x80) == 0x80)
  {
  }

  lemma OctetMasks(b: Byte)
    ensures var b1 := b as int / 2; var b2 := b1 / 2; var b3 := b2 / 2;
            var b4 := b3 / 2; var b5 := b4 / 2; var b6 := b5 / 2; var b7 := b6 / 2;
            Octet(b) == [Mask(b7, 0x80) != 0, Mask(b6, 0x40) != 0, Mask(b5, 0x20) != 0, Mask(b4, 0x10) != 0]
                        + [Mask(b3, 0x08) != 0, Mask(b2, 0x04) != 0, Mask(b1, 0x02) != 0, Mask(b, 0x01) != 0]
  {
    hide *;
    var b1 := b as int / 2; var b2 := b1 / 2; var b3 := b2 / 2;
    var b4 := b3 / 2; var b5 := b4 / 2; var b6 := b5 / 2; var b7 := b6 / 2;
    MaskIs(b, 0x01); MaskIs(b1, 0x02); MaskIs(b2, 0x04); MaskIs(b3, 0x08);
    MaskIs(b4, 0x10); MaskIs(b5, 0x20); MaskIs(b6, 0x40); MaskIs(b7, 0x80);
    OctetByHalves(b);
  }

  lemma MaskIs(n: int, m: bv32)
    ensures Mask(n, m) == if n % 2 == 1 then m else 0
  {
  }

  lemma WidenIsMasks(b: Byte)
    ensures var b1 := b as int / 2; var b2 := b1 / 2; var b3 := b2 / 2;
            var b4 := b3 / 2; var b5 := b4 / 2; var b6 := b5 / 2; var b7 := b6 / 2;
            Widen(b) == Or8(Mask(b, 0x01), Mask(b1, 0x02), Mask(b2, 0x04), Mask(b3, 0x08),
                            Mask(b4, 0x10), Mask(b5, 0x20), Mask(b6, 0x40), Mask(b7, 0x80))
  {
    hide Mask;
  }

  lemma Halves(b: Byte)
    ensures b / 2 / 2 == b / 4 && b / 2 / 2 / 2 == b / 8 && b / 2 / 2 / 2 / 2 == b / 16
    ensures b / 2 / 2 / 2 / 2 / 2 == b / 32 && b / 2 / 2 / 2 / 2 / 2 / 2 == b / 64
    ensures b / 2 / 2 / 2 / 2 / 2 / 2 / 2 == b / 128
  {
  }

  function Or8(m0: bv32, m1: bv32, m2: bv32, m3: bv32, m4: bv32, m5: bv32, m6: bv32, m7: bv32): bv32 {
    m0 | m1 | m2 | m3 | m4 | m5 | m6 | m7
  }

  lemma Masks(m0: bv32, m1: bv32, m2: bv32, m3: bv32, m4: bv32, m5: bv32, m6: bv32, m7: bv32)
    requires (m0 == 0 || m0 == 0x01) && (m1 == 0 || m1 == 0x02) && (m2 == 0 || m2 == 0x04) && (m3 == 0 || m3 == 0x08)
    requires (m4 == 0 || m4 == 0x10) && (m5 == 0 || m5 == 0x20) && (m6 == 0 || m6 == 0x40) && (m7 == 0 || m7 == 0x80)
    ensures var v := High(Or8(m0, m1, m2, m3, m4, m5, m6, m7));
            && FourLeads(v) == [m7 != 0, m6 != 0, m5 != 0, m4 != 0]
            && FourLeads(Up4(v)) == [m3 != 0, m2 != 0, m1 != 0, m0 != 0] && Up4(Up4(v)) == 0
  {
  }

  lemma ByteReg(b: Byte)
    ensures Reg(High(Widen(b)), 32) == Octet(b) + Clear(24)
  {
    ByteBits(b);
    var v := High(Widen(b));
    hide Reg, Lead, Up, Up4, High, Widen, Octet;
    Nibble(v, 32);
    Nibble(Up4(v), 28);
    RegZero(24);
    assert Octet(b) == Octet(b)[..4] + Octet(b)[4..];
  }

  /** A byte of the message is folded in with the next turn of the loop. */
  lemma FoldByte(c: bv32, b: Byte, rest: seq<bool>)
    requires |rest| >= 32
    ensures Fold(c, Octet(b) + rest) == Fold(Mix(c, Widen(b)), Clear(8) + rest)
  {
    hide *;
    var w := High(Widen(b));
    MixIs(c, Widen(b));
    ByteReg(b);
    RegXor(c, w, 32);
    FoldFront(Reg(c, 32), Octet(b), rest);
    FoldIs(c, Octet(b) + rest);
    FoldIs(Mix(c, Widen(b)), Clear(8) + rest);
  }

  lemma {:induction false} FoldIs(c: bv32, d: seq<bool>)
    requires |d| >= 32
    ensures Fold(c, d) == Xor(d, Reg(c, 32) + Clear(|d| - 32))
  {
    hide Reg;
  }

  lemma FoldFront(r: seq<bool>, o: seq<bool>, rest: seq<bool>)
    requires |r| == 32 && |o| == 8 && |rest| >= 32
    ensures Xor(o + rest, r + Clear(|rest| - 24))
         == Xor(Clear(8) + rest, Xor(r, o + Clear(24)) + Clear(|rest| - 24))
  {
    var x, y := Xor(o + rest, r + Clear(|rest| - 24)), Xor(Clear(8) + rest, Xor(r, o + Clear(24)) + Clear(|rest| - 24));
    forall i | 0 <= i < |x| ensures x[i] == y[i] {
      if i < 8 {
        assert x[i] == (o[i] != r[i]) && y[i] == Xor(r, o + Clear(24))[i];
      } else if i < 32 {
        assert x[i] == (rest[i - 8] != r[i]);
      }
    }
  }

  lemma ByteStep(c: bv32, b: Byte, rest: seq<bool>)
    requires |rest| >= 32
    ensures Remainder(Fold(c, Octet(b) + rest)) == Remainder(Fold(Feed(c, Widen(b)), rest))
  {
    hide Fold, Remainder, Octet, Widen, Mix, Bits;
    FoldByte(c, b, rest);
    ManyBits(Mix(c, Widen(b)), 8, rest);
  }

  lemma {:induction false} OctetsFront(data: seq<Byte>)
    requires data != []
    ensures Octets(data) == Octet(data[0]) + Octets(data[1..])
  {
    hide Octet;
    var last := |data| - 1;
    if last == 0 {
      assert data[..0] == [] && data[1..] == [];
    } else {
      OctetsFront(data[..last]);
      assert data[..last][1..] == data[1..][..last - 1];
    }
  }

  lemma {:induction false} LoopDivides(data: seq<Byte>, i: nat)
    requires i <= |data|
    ensures Remainder(Fold(INIT, Octets(data) + Clear(32)))
         == Remainder(Fold(Crc(data[..i]), Octets(data[i..]) + Clear(32)))
    decreases i
  {
    hide Fold, Remainder, Octet, Octets, Widen, Feed;
    if i == 0 {
      assert data[..0] == [] && data[0..] == data;
    } else {
      LoopDivides(data, i - 1);
      var b := data[i - 1];
      assert data[..i][..i - 1] == data[..i - 1] && data[i - 1..][1..] == data[i..];
      OctetsFront(data[i - 1..]);
      Regroup(Octet(b), Octets(data[i..]), Clear(32));
      ByteStep(Crc(data[..i - 1]), b, Octets(data[i..]) + Clear(32));
    }
  }

  lemma InitIsSet()
    ensures Reg(INIT, 32) == Set(32)
  {
    hide *;
    OnesTop(0xFFFF_FFFF); OnesTop(0xFFFF_FFF0); OnesTop(0xFFFF_FF00); OnesTop(0xFFFF_F000);
    OnesTop(0xFFFF_0000); OnesTop(0xFFF0_0000); OnesTop(0xFF00_0000); OnesTop(0xF000_0000);
    OnesUp();
    NibbleIs(0xFFFF_FFFF, 32); NibbleIs(0xFFFF_FFF0, 28); NibbleIs(0xFFFF_FF00, 24); NibbleIs(0xFFFF_F000, 20);
    NibbleIs(0xFFFF_0000, 16); NibbleIs(0xFFF0_0000, 12); NibbleIs(0xFF00_0000, 8); NibbleIs(0xF000_0000, 4);
    var ones := [true, true, true, true];
    assert Reg(INIT, 32) == ones + (ones + (ones + (ones + (ones + (ones + (ones + (ones + Reg(0, 0))))))));
    AllOnes(Reg(INIT, 32));
  }

  lemma AllOnes(r: seq<bool>)
    requires |r| == 32 && forall i :: 0 <= i < 32 ==> r[i]
    ensures r == Set(32)
  {
  }

  lemma OnesTop(v: bv32)
    requires v & 0xF000_0000 == 0xF000_0000
    ensures FourLeads(v) == [true, true, true, true]
  {
  }

  lemma OnesUp()
    ensures INIT == 0xFFFF_FFFF && Up4(0xFFFF_FFFF) == 0xFFFF_FFF0 && Up4(0xFFFF_FFF0) == 0xFFFF_FF00
    ensures Up4(0xFFFF_FF00) == 0xFFFF_F000 && Up4(0xFFFF_F000) == 0xFFFF_0000 && Up4(0xFFFF_0000) == 0xFFF0_0000
    ensures Up4(0xFFF0_0000) == 0xFF00_0000 && Up4(0xFF00_0000) == 0xF000_0000 && Up4(0xF000_0000) == 0
  {
  }

  /** The register after any message is the remainder of the division. */
  lemma {:induction false} RegisterIsRemainder(data: seq<Byte>)
    ensures Reg(Crc(data), 32) == Remainder(Dividend(data))
  {
    hide Reg, Crc, Octet;
    InitIsSet();
    assert Fold(INIT, Octets(data) + Clear(32)) == Dividend(data);
    LoopDivides(data, |data|);
    assert data[..|data|] == data && data[|data|..] == [];
    assert Octets([]) + Clear(32) == Clear(32);
    var c := Crc(data);
    assert Fold(c, Clear(32)) == Reg(c, 32);
  }

  // --- the bytes of the CRC -----------------------------------------------------------------

  /** Eight flags as a number, and back. */
  function Number(f: seq<int>): (n: int)
    requires |f| == 8
  {
    var a := 2 * f[0] + f[1];
    var b := 2 * (2 * a + f[2]) + f[3];
    var c := 2 * (2 * b + f[4]) + f[5];
    2 * (2 * c + f[6]) + f[7]
  }

  /** The number that the first `n` flags make. */
  function Front(f: seq<int>, n: nat): int
    requires n <= |f|
  {
    if n == 0 then 0 else 2 * Front(f, n - 1) + f[n - 1]
  }

  ghost predicate AllFlags(f: seq<int>) { forall i :: 0 <= i < |f| ==> 0 <= f[i] <= 1 }

  lemma FrontHalf(f: seq<int>, n: nat)
    requires 0 < n <= |f| && AllFlags(f)
    ensures Front(f, n) / 2 == Front(f, n - 1) && Front(f, n) % 2 == f[n - 1]
  {
  }

  lemma {:induction false} NumberIsFront(f: seq<int>)
    requires |f| == 8
    ensures Number(f) == Front(f, 8)
  {
    assert Front(f, 1) == f[0];
    assert Front(f, 2) == 2 * Front(f, 1) + f[1];
    assert Front(f, 3) == 2 * Front(f, 2) + f[2];
    assert Front(f, 4) == 2 * Front(f, 3) + f[3];
    assert Front(f, 5) == 2 * Front(f, 4) + f[4];
    assert Front(f, 6) == 2 * Front(f, 5) + f[5];
    assert Front(f, 7) == 2 * Front(f, 6) + f[6];
    assert Front(f, 8) == 2 * Front(f, 7) + f[7];
  }

  lemma OctetByHalves(n: Byte)
    ensures Octet(n) == [n / 2 / 2 / 2 / 2 / 2 / 2 / 2 % 2 == 1, n / 2 / 2 / 2 / 2 / 2 / 2 % 2 == 1,
                         n / 2 / 2 / 2 / 2 / 2 % 2 == 1, n / 2 / 2 / 2 / 2 % 2 == 1,
                         n / 2 / 2 / 2 % 2 == 1, n / 2 / 2 % 2 == 1, n / 2 % 2 == 1, n % 2 == 1]
  {
    Halves(n);
  }

  lemma {:induction false} FrontBound(f: seq<int>, n: nat)
    requires n <= |f| && AllFlags(f) && n <= 8
    ensures 0 <= Front(f, n) < 256 && (n < 8 ==> Front(f, n) < 128) && (n < 7 ==> Front(f, n) < 64)
            && (n < 6 ==> Front(f, n) < 32) && (n < 5 ==> Front(f, n) < 16) && (n < 4 ==> Front(f, n) < 8)
            && (n < 3 ==> Front(f, n) < 4) && (n < 2 ==> Front(f, n) < 2) && (n < 1 ==> Front(f, n) < 1)
  {
    if n > 0 { FrontBound(f, n - 1); }
  }

  lemma NumberBits(f: seq<int>)
    requires |f| == 8 && AllFlags(f)
    ensures 0 <= Number(f) < 256
    ensures Octet(Number(f)) == seq(8, i requires 0 <= i < 8 => f[i] == 1)
  {
    hide *;
    NumberIsFront(f);
    FrontBound(f, 8);
    FrontHalf(f, 8); FrontHalf(f, 7); FrontHalf(f, 6); FrontHalf(f, 5);
    FrontHalf(f, 4); FrontHalf(f, 3); FrontHalf(f, 2); FrontHalf(f, 1);
    OctetByHalves(Number(f));
  }

  function Flags(v: bv32): (f: seq<int>)
    ensures |f| == 8
  {
    [Flag(v, 0x80), Flag(v, 0x40), Flag(v, 0x20), Flag(v, 0x10),
     Flag(v, 0x08), Flag(v, 0x04), Flag(v, 0x02), Flag(v, 0x01)]
  }

  lemma FlagIs(v: bv32, mask: bv32)
    ensures Flag(v, mask) == if Has(v, mask) then 1 else 0
  {
  }

  function Has(v: bv32, mask: bv32): bool { v & mask != 0 }

  function EightBits(v: bv32): (r: seq<bool>)
    ensures |r| == 8
  {
    [Has(v, 0x80), Has(v, 0x40), Has(v, 0x20), Has(v, 0x10), Has(v, 0x08), Has(v, 0x04), Has(v, 0x02), Has(v, 0x01)]
  }

  lemma FlagsAre(v: bv32)
    ensures forall i :: 0 <= i < 8 ==> Flags(v)[i] == if EightBits(v)[i] then 1 else 0
  {
    FlagIs(v, 0x80); FlagIs(v, 0x40); FlagIs(v, 0x20); FlagIs(v, 0x10);
    FlagIs(v, 0x08); FlagIs(v, 0x04); FlagIs(v, 0x02); FlagIs(v, 0x01);
    hide Flag, Has;
  }

  lemma FlagsBounded(v: bv32)
    ensures AllFlags(Flags(v))
  {
    FlagIs(v, 0x80); FlagIs(v, 0x40); FlagIs(v, 0x20); FlagIs(v, 0x10);
    FlagIs(v, 0x08); FlagIs(v, 0x04); FlagIs(v, 0x02); FlagIs(v, 0x01);
    hide Flag, Has;
  }

  lemma NarrowIs(v: bv32)
    ensures Narrow(v) == Number(Flags(v))
  {
    hide Flag;
  }

  lemma NarrowBits(v: bv32)
    ensures Octet(Narrow(v)) == EightBits(v)
  {
    hide *;
    FlagsAre(v);
    NarrowIs(v);
    FlagsBounded(v);
    NumberBits(Flags(v));
    assert EightBits(v) == seq(8, i requires 0 <= i < 8 => Flags(v)[i] == 1);
  }

  lemma TopByteBits(x: bv32)
    ensures FourLeads(x) + FourLeads(Up4(x)) == EightBits(x >> 24)
  {
    FourUp(x);
    FourUp(Up4(x));
    TopByteMasks(x);
    TopByteLowMasks(x);
    hide Up, Up4, Has, Lead;
  }

  lemma TopByteMasks(x: bv32)
    ensures var y := x >> 24;
            && Lead(x) == Has(y, 0x80) && Lead(Up(x)) == Has(y, 0x40)
            && Lead(Up(Up(x))) == Has(y, 0x20) && Lead(Up(Up(Up(x)))) == Has(y, 0x10)
  {
  }

  lemma TopByteLowMasks(x: bv32)
    ensures var y, z := x >> 24, Up4(x);
            && Lead(z) == Has(y, 0x08) && Lead(Up(z)) == Has(y, 0x04)
            && Lead(Up(Up(z))) == Has(y, 0x02) && Lead(Up(Up(Up(z)))) == Has(y, 0x01)
  {
  }

  function Low(v: bv32): bv32 { v & 0xFF }

  /** The later bytes of a register, shifted to the top. */
  lemma SecondByte(v: bv32)
    ensures Low(Down(Up4(Up4(v)), 24)) == Low(Down(v, 16))
  {
  }

  lemma ThirdByte(v: bv32)
    ensures Low(Down(Up4(Up4(Up4(Up4(v)))), 24)) == Low(Down(v, 8))
  {
  }

  lemma FourthByte(v: bv32)
    ensures Low(Down(Up4(Up4(Up4(Up4(Up4(Up4(v)))))), 24)) == Low(v)
  {
  }

  lemma LowByteBits(a: bv32, b: bv32)
    requires Low(a) == Low(b)
    ensures EightBits(a) == EightBits(b)
  {
    hide Has, Low;
    LowByteMasks(a, b);
  }

  lemma LowByteMasks(a: bv32, b: bv32)
    requires Low(a) == Low(b)
    ensures Has(a, 0x80) == Has(b, 0x80) && Has(a, 0x40) == Has(b, 0x40) && Has(a, 0x20) == Has(b, 0x20)
    ensures Has(a, 0x10) == Has(b, 0x10) && Has(a, 0x08) == Has(b, 0x08) && Has(a, 0x04) == Has(b, 0x04)
    ensures Has(a, 0x02) == Has(b, 0x02) && Has(a, 0x01) == Has(b, 0x01)
  {
  }

  function Down(v: bv32, n: nat): bv32 {
    if n == 24 then v >> 24 else if n == 16 then v >> 16 else if n == 8 then v >> 8 else v
  }

  lemma BytesDown(v: bv32)
    ensures var p2 := Up4(Up4(v)); var p4 := Up4(Up4(p2)); var p6 := Up4(Up4(p4));
            && EightBits(Down(p2, 24)) == EightBits(Down(v, 16)) && EightBits(Down(p4, 24)) == EightBits(Down(v, 8))
            && EightBits(Down(p6, 24)) == EightBits(v)
  {
    hide *;
    SecondByte(v); ThirdByte(v); FourthByte(v);
    var p2 := Up4(Up4(v)); var p4 := Up4(Up4(p2)); var p6 := Up4(Up4(p4));
    LowByteBits(Down(p2, 24), Down(v, 16));
    LowByteBits(Down(p4, 24), Down(v, 8));
    LowByteBits(Down(p6, 24), v);
  }

  lemma TopByteIs(x: bv32)
    ensures FourLeads(x) + FourLeads(Up4(x)) == EightBits(Down(x, 24))
  {
    TopByteBits(x);
  }

  lemma TwoNibbles(v: bv32, n: nat)
    requires n >= 8
    ensures Reg(v, n) == EightBits(Down(v, 24)) + Reg(Up4(Up4(v)), n - 8)
  {
    hide *;
    TopByteIs(v);
    NibbleIs(v, n);
    NibbleIs(Up4(v), n - 4);
    Regroup(FourLeads(v), FourLeads(Up4(v)), Reg(Up4(Up4(v)), n - 8));
  }

  lemma NibbleIs(v: bv32, n: nat)
    requires n >= 4
    ensures Reg(v, n) == FourLeads(v) + Reg(Up4(v), n - 4)
  {
    hide Reg, Lead, Up, Up4;
    Nibble(v, n);
  }

  /** The register, byte by byte. */
  lemma {:induction false} RegBytes(v: bv32)
    ensures Reg(v, 32) == EightBits(Down(v, 24)) + EightBits(Down(v, 16)) + EightBits(Down(v, 8)) + EightBits(v)
  {
    hide *;
    var p2 := Up4(Up4(v)); var p4 := Up4(Up4(p2)); var p6 := Up4(Up4(p4));
    BytesDown(v);
    TwoNibbles(v, 32);
    TwoNibbles(p2, 24);
    TwoNibbles(p4, 16);
    TwoNibbles(p6, 8);
    var l := Reg(Up4(Up4(p6)), 0);
    assert EightBits(v) + l == EightBits(v);
    Regroup(EightBits(Down(v, 24)), EightBits(Down(v, 16)), EightBits(Down(v, 8)) + EightBits(v));
    Regroup(EightBits(Down(v, 24)) + EightBits(Down(v, 16)), EightBits(Down(v, 8)), EightBits(v));
  }

  lemma TailBits(c: bv32)
    ensures Octet(Tail(c)[0]) == EightBits(Down(c, 24)) && Octet(Tail(c)[1]) == EightBits(Down(c, 16))
    ensures Octet(Tail(c)[2]) == EightBits(Down(c, 8)) && Octet(Tail(c)[3]) == EightBits(c)
  {
    hide Octet, Narrow, EightBits;
    NarrowBits(c >> 24); NarrowBits(c >> 16); NarrowBits(c >> 8); NarrowBits(c);
  }

  /** The four bytes behind a section are the remainder of its division, for every section. */
  lemma {:induction false} TailIsRemainder(data: seq<Byte>)
    ensures Octets(Tail(Crc(data))) == Remainder(Dividend(data))
  {
    hide *;
    RegisterIsRemainder(data);
    RegBytes(Crc(data));
    TailBits(Crc(data));
    FourOctets(Tail(Crc(data)));
  }

  lemma {:induction false} FourOctets(t: seq<Byte>)
    requires |t| == 4
    ensures Octets(t) == Octet(t[0]) + Octet(t[1]) + Octet(t[2]) + Octet(t[3])
  {
    hide Octet;
    assert t[..3][..2] == t[..2] && t[..2][..1] == t[..1] && t[..1][..0] == [];
    assert Octets(t[..1]) == Octet(t[0]);
    assert Octets(t[..2]) == Octets(t[..1]) + Octet(t[1]);
    assert Octets(t[..3]) == Octets(t[..2]) + Octet(t[2]);
  }
}
