/** The register loop of the CRC is linear and loses nothing: different words of four bytes leave different
    registers, and registers that differ stay different. */
module CrcLinear {
  import opened Bytes
  import opened Crc32
  import opened CrcDivision

  // --- the register loop is linear and loses nothing ----------------------------------------

  lemma PlusSame(a: bv32, b: bv32)
    ensures Plus(a, b) == 0 <==> a == b
  {
  }

  lemma PlusGroup(a: bv32, b: bv32, c: bv32)
    ensures Plus(Plus(a, b), c) == Plus(a, Plus(b, c))
  {
  }

  lemma BitLinear(a: bv32, b: bv32)
    ensures Crc32.Bit(Plus(a, b)) == Plus(Crc32.Bit(a), Crc32.Bit(b))
  {
    hide *;
    BitIs(a);
    BitIs(b);
    BitIs(Plus(a, b));
    PlusLead(a, b);
    PlusUp(a, b);
    PlusThree(Up(a), Up(b), POLYNOMIAL);
  }

  lemma PlusThree(u: bv32, v: bv32, p: bv32)
    ensures Plus(Plus(u, p), Plus(v, p)) == Plus(u, v)
    ensures Plus(Plus(u, p), v) == Plus(Plus(u, v), p) && Plus(u, Plus(v, p)) == Plus(Plus(u, v), p)
  {
    PlusGroup(u, v, p);
    PlusGroup(u, p, v);
    PlusSwap(v, p);
    PlusGroup(u, p, Plus(v, p));
    PlusGroup(p, v, p);
    PlusBack(v, p);
  }

  lemma PlusSwap(a: bv32, b: bv32)
    ensures Plus(a, b) == Plus(b, a)
  {
  }

  lemma PlusBack(v: bv32, p: bv32)
    ensures Plus(Plus(p, v), p) == v && Plus(p, Plus(v, p)) == v
  {
  }

  lemma BitZero(a: bv32)
    ensures Crc32.Bit(a) == 0 <==> a == 0
  {
  }

  lemma {:induction false} BitsLinear(a: bv32, b: bv32, n: nat)
    ensures Bits(Plus(a, b), n) == Plus(Bits(a, n), Bits(b, n))
    decreases n
  {
    hide Crc32.Bit, Plus;
    if n > 0 {
      BitsLinear(a, b, n - 1);
      BitLinear(Bits(a, n - 1), Bits(b, n - 1));
    }
  }

  lemma {:induction false} BitsZero(a: bv32, n: nat)
    ensures Bits(a, n) == 0 <==> a == 0
    decreases n
  {
    hide Crc32.Bit;
    if n > 0 {
      BitsZero(a, n - 1);
      BitZero(Bits(a, n - 1));
    }
  }

  lemma {:induction false} BitsInjective(a: bv32, b: bv32, n: nat)
    requires Bits(a, n) == Bits(b, n)
    ensures a == b
  {
    hide *;
    PlusSame(Bits(a, n), Bits(b, n));
    BitsLinear(a, b, n);
    BitsZero(Plus(a, b), n);
    PlusSame(a, b);
  }

  lemma {:induction false} BitsAdd(a: bv32, m: nat, n: nat)
    ensures Bits(Bits(a, m), n) == Bits(a, m + n)
    decreases n
  {
    hide Crc32.Bit;
    if n > 0 { BitsAdd(a, m, n - 1); }
  }

  // --- four bytes in a row ------------------------------------------------------------------

  /** A byte in the i-th place of the register. */
  function Place(w: bv32, i: nat): bv32 {
    if i == 0 then High(w) else if i == 1 then w << 16 else if i == 2 then w << 8 else w
  }

  predicate IsByte(w: bv32) { w & 0xFFFF_FF00 == 0 }

  lemma PlaceUp(w: bv32, i: nat)
    requires IsByte(w) && i < 3
    ensures Top(Place(w, i + 1)) == 0 && ByteUp(Place(w, i + 1)) == Place(w, i)
  {
  }

  /** Shifting a byte up to the top, eight bits at a time, does not touch the polynomial. */
  lemma {:induction false} PlaceBits(w: bv32, i: nat)
    requires IsByte(w) && i <= 3
    ensures Bits(Place(w, i), 8 * i) == High(w)
    decreases i
  {
    hide Bits, Place, High, ByteUp, Top, IsByte;
    if i == 0 {
      PlaceZero(w);
      BitsNone(Place(w, 0));
    } else {
      PlaceUp(w, i - 1);
      ShiftOut(Place(w, i));
      BitsAdd(Place(w, i), 8, 8 * (i - 1));
      PlaceBits(w, i - 1);
    }
  }

  lemma PlaceZero(w: bv32)
    ensures Place(w, 0) == High(w)
  {
    hide High;
  }

  /** A byte fed after `i` others might as well have been there from the start. */
  lemma {:induction false} LateByte(z: bv32, w: bv32, i: nat)
    requires IsByte(w) && i <= 3
    ensures Feed(Bits(z, 8 * i), w) == Bits(Plus(z, Place(w, i)), 8 * i + 8)
  {
    hide *;
    FeedIs(Bits(z, 8 * i), w);
    PlaceBits(w, i);
    BitsLinear(z, Place(w, i), 8 * i);
    BitsAdd(Plus(z, Place(w, i)), 8 * i, 8);
  }

  lemma FeedIs(c: bv32, w: bv32)
    ensures Feed(c, w) == Bits(Plus(c, High(w)), 8)
  {
    hide Bits, High;
  }

  /** Four bytes as a word of the register. */
  function Word(w0: bv32, w1: bv32, w2: bv32, w3: bv32): bv32 {
    Plus(Plus(Plus(Place(w0, 0), Place(w1, 1)), Place(w2, 2)), Place(w3, 3))
  }

  lemma FeedFour(c: bv32, w0: bv32, w1: bv32, w2: bv32, w3: bv32)
    requires IsByte(w0) && IsByte(w1) && IsByte(w2) && IsByte(w3)
    ensures Feed(Feed(Feed(Feed(c, w0), w1), w2), w3) == Bits(Plus(c, Word(w0, w1, w2, w3)), 32)
  {
    hide *;
    BitsStart(c);
    LateByte(c, w0, 0);
    var z0 := Plus(c, Place(w0, 0));
    LateByte(z0, w1, 1);
    var z1 := Plus(z0, Place(w1, 1));
    LateByte(z1, w2, 2);
    var z2 := Plus(z1, Place(w2, 2));
    LateByte(z2, w3, 3);
    WordIs(c, w0, w1, w2, w3);
  }

  lemma {:induction false} BitsStart(c: bv32)
    ensures Bits(c, 0) == c
  {
  }

  lemma WordIs(c: bv32, w0: bv32, w1: bv32, w2: bv32, w3: bv32)
    ensures Plus(Plus(Plus(Plus(c, Place(w0, 0)), Place(w1, 1)), Place(w2, 2)), Place(w3, 3))
         == Plus(c, Word(w0, w1, w2, w3))
  {
    hide Place, Plus;
    PlusGroup(c, Place(w0, 0), Place(w1, 1));
    PlusGroup(c, Plus(Place(w0, 0), Place(w1, 1)), Place(w2, 2));
    PlusGroup(c, Plus(Plus(Place(w0, 0), Place(w1, 1)), Place(w2, 2)), Place(w3, 3));
  }

  lemma WordInjective(a0: bv32, a1: bv32, a2: bv32, a3: bv32, b0: bv32, b1: bv32, b2: bv32, b3: bv32)
    requires IsByte(a0) && IsByte(a1) && IsByte(a2) && IsByte(a3)
    requires IsByte(b0) && IsByte(b1) && IsByte(b2) && IsByte(b3)
    requires Word(a0, a1, a2, a3) == Word(b0, b1, b2, b3)
    ensures a0 == b0 && a1 == b1 && a2 == b2 && a3 == b3
  {
    hide *;
    FirstOfWord(a0, a1, a2, a3); SecondOfWord(a0, a1, a2, a3);
    ThirdOfWord(a0, a1, a2, a3); FourthOfWord(a0, a1, a2, a3);
    FirstOfWord(b0, b1, b2, b3); SecondOfWord(b0, b1, b2, b3);
    ThirdOfWord(b0, b1, b2, b3); FourthOfWord(b0, b1, b2, b3);
  }

  lemma FirstOfWord(a0: bv32, a1: bv32, a2: bv32, a3: bv32)
    requires IsByte(a0) && IsByte(a1) && IsByte(a2) && IsByte(a3)
    ensures Low(Down(Word(a0, a1, a2, a3), 24)) == a0
  {
  }

  lemma SecondOfWord(a0: bv32, a1: bv32, a2: bv32, a3: bv32)
    requires IsByte(a0) && IsByte(a1) && IsByte(a2) && IsByte(a3)
    ensures Low(Down(Word(a0, a1, a2, a3), 16)) == a1
  {
  }

  lemma ThirdOfWord(a0: bv32, a1: bv32, a2: bv32, a3: bv32)
    requires IsByte(a0) && IsByte(a1) && IsByte(a2) && IsByte(a3)
    ensures Low(Down(Word(a0, a1, a2, a3), 8)) == a2
  {
  }

  lemma FourthOfWord(a0: bv32, a1: bv32, a2: bv32, a3: bv32)
    requires IsByte(a0) && IsByte(a1) && IsByte(a2) && IsByte(a3)
    ensures Low(Word(a0, a1, a2, a3)) == a3
  {
  }

  // --- whole strings ------------------------------------------------------------------------

  lemma WidenIsByte(b: Byte)
    ensures IsByte(Widen(b))
  {
  }

  lemma WidenInjective(a: Byte, b: Byte)
    requires Widen(a) == Widen(b)
    ensures a == b
  {
    hide *;
    ByteReg(a);
    ByteReg(b);
    assert (Octet(a) + Clear(24))[..8] == Octet(a) && (Octet(b) + Clear(24))[..8] == Octet(b);
    OctetInjective(a, b);
  }

  function Halved(n: nat, i: nat): nat { if i == 0 then n else Halved(n, i - 1) / 2 }

  lemma {:induction false} OctetHalved(n: Byte, i: nat)
    requires i < 8
    ensures Octet(n)[7 - i] == (Halved(n, i) % 2 == 1)
  {
    hide *;
    OctetByHalves(n);
    HalvedFew(n);
    var h1 := n as int / 2; var h2 := h1 / 2; var h3 := h2 / 2;
    var h4 := h3 / 2; var h5 := h4 / 2; var h6 := h5 / 2; var h7 := h6 / 2;
    var o := Octet(n);
    OctetPick(o, h7, h6, h5, h4, h3, h2, h1, n, i);
    match i {
      case 0 => case 1 => case 2 => case 3 => case 4 => case 5 => case 6 => case _ =>
    }
  }

  lemma OctetPick(o: seq<bool>, h7: int, h6: int, h5: int, h4: int, h3: int, h2: int, h1: int, h0: int, i: nat)
    requires o == [h7 % 2 == 1, h6 % 2 == 1, h5 % 2 == 1, h4 % 2 == 1,
                   h3 % 2 == 1, h2 % 2 == 1, h1 % 2 == 1, h0 % 2 == 1]
    requires i < 8
    ensures var h := if i == 0 then h0 else if i == 1 then h1 else if i == 2 then h2 else if i == 3 then h3
                     else if i == 4 then h4 else if i == 5 then h5 else if i == 6 then h6 else h7;
            o[7 - i] == (h % 2 == 1)
  {
  }

  lemma {:induction false} HalvedFew(n: nat)
    ensures Halved(n, 0) == n && Halved(n, 1) == n / 2 && Halved(n, 2) == n / 2 / 2 && Halved(n, 3) == n / 2 / 2 / 2
    ensures Halved(n, 4) == n / 2 / 2 / 2 / 2 && Halved(n, 5) == n / 2 / 2 / 2 / 2 / 2
    ensures Halved(n, 6) == n / 2 / 2 / 2 / 2 / 2 / 2 && Halved(n, 7) == n / 2 / 2 / 2 / 2 / 2 / 2 / 2
  {
    assert Halved(n, 1) == Halved(n, 0) / 2 && Halved(n, 2) == Halved(n, 1) / 2 && Halved(n, 3) == Halved(n, 2) / 2;
    assert Halved(n, 4) == Halved(n, 3) / 2 && Halved(n, 5) == Halved(n, 4) / 2;
    assert Halved(n, 6) == Halved(n, 5) / 2 && Halved(n, 7) == Halved(n, 6) / 2;
  }

  lemma {:induction false} SameBits(a: Byte, b: Byte, i: nat)
    requires i <= 7 && Octet(a) == Octet(b)
    ensures Halved(a, i) == Halved(b, i)
    decreases 8 - i
  {
    hide Octet;
    OctetHalved(a, i);
    OctetHalved(b, i);
    if i < 7 {
      SameBits(a, b, i + 1);
      assert Halved(a, i + 1) == Halved(a, i) / 2 && Halved(b, i + 1) == Halved(b, i) / 2;
    } else {
      HalvedFew(a);
      HalvedFew(b);
      Halves(a);
      Halves(b);
    }
  }

  lemma OctetInjective(a: Byte, b: Byte)
    requires Octet(a) == Octet(b)
    ensures a == b
  {
    SameBits(a, b, 0);
  }

  lemma {:induction false} CrcMore(p: seq<Byte>, b: Byte)
    ensures Crc(p + [b]) == Feed(Crc(p), Widen(b))
  {
    hide Feed, Widen;
    assert (p + [b])[..|p|] == p;
  }

  lemma {:induction false} CrcFour(p: seq<Byte>, t: seq<Byte>)
    requires |t| == 4
    ensures Crc(p + t) == Feed(Feed(Feed(Feed(Crc(p), Widen(t[0])), Widen(t[1])), Widen(t[2])), Widen(t[3]))
  {
    hide *;
    PushFour(p, t);
    CrcMore(p, t[0]);
    CrcMore(p + [t[0]], t[1]);
    CrcMore(p + [t[0]] + [t[1]], t[2]);
    CrcMore(p + [t[0]] + [t[1]] + [t[2]], t[3]);
  }

  /** Different words of four bytes leave different registers. */
  lemma {:induction false} FourDiffer(p: seq<Byte>, s: seq<Byte>, t: seq<Byte>)
    requires |s| == 4 && |t| == 4 && Crc(p + s) == Crc(p + t)
    ensures s == t
  {
    hide *;
    CrcFour(p, s);
    CrcFour(p, t);
    var a0, a1, a2, a3 := Widen(s[0]), Widen(s[1]), Widen(s[2]), Widen(s[3]);
    var b0, b1, b2, b3 := Widen(t[0]), Widen(t[1]), Widen(t[2]), Widen(t[3]);
    WidenIsByte(s[0]); WidenIsByte(s[1]); WidenIsByte(s[2]); WidenIsByte(s[3]);
    WidenIsByte(t[0]); WidenIsByte(t[1]); WidenIsByte(t[2]); WidenIsByte(t[3]);
    FeedFour(Crc(p), a0, a1, a2, a3);
    FeedFour(Crc(p), b0, b1, b2, b3);
    var u, v := Word(a0, a1, a2, a3), Word(b0, b1, b2, b3);
    BitsInjective(Plus(Crc(p), u), Plus(Crc(p), v), 32);
    PlusCancel(Crc(p), u, v);
    WordInjective(a0, a1, a2, a3, b0, b1, b2, b3);
    WidenInjective(s[0], t[0]); WidenInjective(s[1], t[1]); WidenInjective(s[2], t[2]); WidenInjective(s[3], t[3]);
  }

  lemma PlusCancel(c: bv32, u: bv32, v: bv32)
    requires Plus(c, u) == Plus(c, v)
    ensures u == v
  {
  }

  /** Registers that differ stay different, whatever follows. */
  lemma {:induction false} StaysDifferent(p: seq<Byte>, q: seq<Byte>, r: seq<Byte>)
    requires Crc(p) != Crc(q)
    ensures Crc(p + r) != Crc(q + r)
    decreases |r|
  {
    hide *;
    if r == [] {
      assert p + r == p && q + r == q;
    } else {
      var front, b := r[..|r| - 1], r[|r| - 1];
      StaysDifferent(p, q, front);
      assert p + r == (p + front) + [b] && q + r == (q + front) + [b];
      CrcMore(p + front, b);
      CrcMore(q + front, b);
      var x, y, w := Crc(p + front), Crc(q + front), Widen(b);
      if Feed(x, w) == Feed(y, w) {
        FeedIs(x, w);
        FeedIs(y, w);
        BitsInjective(Plus(x, High(w)), Plus(y, High(w)), 8);
        PlusCancelRight(x, y, High(w));
      }
    }
  }

  lemma PlusCancelRight(u: bv32, v: bv32, c: bv32)
    requires Plus(u, c) == Plus(v, c)
    ensures u == v
  {
  }

  /** A string and four bytes behind it pass the check exactly when the bytes are its CRC. */
  lemma {:induction false} OnlyItsTail(data: seq<Byte>, t: seq<Byte>)
    requires |t| == 4
    ensures Crc(data + t) == 0 <==> t == Tail(Crc(data))
  {
    hide *;
    Residue(data);
    if Crc(data + t) == 0 { FourDiffer(data, t, Tail(Crc(data))); }
  }
}
