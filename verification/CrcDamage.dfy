/** What the CRC of a section detects: any change within four consecutive bytes that leaves the length field
    alone, and any single bit wherever it is. */
module CrcDamage {
  import opened Bytes
  import opened Crc32
  import opened CrcDivision
  import opened CrcLinear
  import opened CrcOrbit
  import opened TsPacket
  import opened TsTables

  // --- damage -------------------------------------------------------------------------------

  /** `t` is `s` but for the four bytes from `at` on. */
  ghost predicate DiffersWithin(s: seq<Byte>, t: seq<Byte>, at: nat) {
    |s| == |t| && at + 4 <= |s| && s[..at] == t[..at] && s[at + 4..] == t[at + 4..] && s != t
  }

  lemma {:induction false} DamageShows(s: seq<Byte>, t: seq<Byte>, at: nat)
    requires DiffersWithin(s, t, at)
    ensures Crc(s) != Crc(t)
  {
    var p, a, b, r := s[..at], s[at..at + 4], t[at..at + 4], s[at + 4..];
    assert s == p + a + r && t == p + b + r;
    hide *;
    if Crc(p + a) == Crc(p + b) { FourDiffer(p, a, b); }
    StaysDifferent(p + a, p + b, r);
  }

  /** The bytes of a section and its CRC. */
  function Sealed(section: seq<Byte>): (s: seq<Byte>)
    ensures |s| == |section| + 4
  {
    section + Tail(Crc(section))
  }

  /** The section that states its own length, as the receiver sees it when `t` arrives in its place. */
  function Arriving(t: seq<Byte>): (payload: seq<Byte>)
    requires |t| <= 183
  {
    [0] + (t + Fill(183 - |t|))
  }

  /** The length field is as it was. */
  predicate SameLength(s: seq<Byte>, t: seq<Byte>)
    requires |s| >= 3 && |t| >= 3
  {
    s[1] as int % 16 == t[1] as int % 16 && s[2] == t[2]
  }

  predicate StatesLength(section: seq<Byte>) {
    8 <= |section| <= 179 && section[1] as int % 16 * 0x100 + section[2] as int == |section| + 1
  }

  /** Damage to four consecutive bytes of a section or its CRC, its length field excepted, is noticed. */
  lemma DamageIsNoticed(section: seq<Byte>, t: seq<Byte>, at: nat)
    requires StatesLength(section) && DiffersWithin(Sealed(section), t, at) && SameLength(Sealed(section), t)
    ensures SectionOf(Arriving(t)) == None
  {
    var s := Sealed(section);
    assert s[1] == section[1] && s[2] == section[2];
    Residue(section);
    DamageShows(s, t, at);
    hide Crc, Tail, Sealed;
    var payload := Arriving(t);
    assert payload[1..] == t + Fill(183 - |t|);
    assert payload[1..][..|t|] == t;
  }

  function Power(k: nat): (v: nat)
    ensures v > 0
  {
    if k == 0 then 1 else 2 * Power(k - 1)
  }

  /** A number with its k-th bit changed. */
  function Changed(n: nat, k: nat): (r: nat)
    ensures r == n + Power(k) || r + Power(k) == n
  {
    if k == 0 then (if n % 2 == 1 then n - 1 else n + 1) else 2 * Changed(n / 2, k - 1) + n % 2
  }

  lemma {:induction false} ChangedBound(n: nat, k: nat, m: nat)
    requires k < m && n < Power(m)
    ensures Changed(n, k) < Power(m)
  {
    if k > 0 { ChangedBound(n / 2, k - 1, m - 1); } else { PowerStep(m); }
  }

  lemma PowerStep(m: nat)
    requires m > 0
    ensures Power(m) == 2 * Power(m - 1)
  {
  }

  lemma PowersAre()
    ensures Power(0) == 1 && Power(1) == 2 && Power(2) == 4 && Power(3) == 8 && Power(4) == 16
    ensures Power(5) == 32 && Power(6) == 64 && Power(7) == 128 && Power(8) == 256
  {
    PowerStep(8); PowerStep(7); PowerStep(6); PowerStep(5);
  }

  function Flip(b: Byte, k: nat): (r: Byte)
    requires k < 8
  {
    PowersAre();
    ChangedBound(b, k, 8);
    Changed(b, k)
  }

  lemma {:induction false} FlipIs(b: Byte, k: nat)
    requires k < 8
    ensures var r := Flip(b, k);
            && Amount(Power(k)) && (r == b as int + Power(k) || r == b as int - Power(k))
            && (k >= 4 ==> r as int % 16 == b as int % 16)
  {
    PowersAre();
    hide Changed, Power;
    match k { case 0 => case 1 => case 2 => case 3 => case 4 => case 5 => case 6 => case _ => }
  }

  /** A bit outside the length field. */
  lemma BitElsewhere(section: seq<Byte>, i: nat, k: nat)
    requires StatesLength(section) && i < |section| + 4 && k < 8
    requires i != 2 && (i == 1 ==> k >= 4)
    ensures var s := Sealed(section); SectionOf(Arriving(s[i := Flip(s[i], k)])) == None
  {
    hide *;
    var s := Sealed(section);
    var t := s[i := Flip(s[i], k)];
    var at := if i + 4 <= |s| then i else |s| - 4;
    FlipIs(s[i], k);
    WithinOne(s, i, Flip(s[i], k), at);
    LengthKept(s, i, k);
    SectionSize(section);
    DamageIsNoticed(section, t, at);
  }

  lemma SectionSize(section: seq<Byte>)
    requires StatesLength(section)
    ensures 8 <= |section| <= 179
  {
  }

  lemma LengthKept(s: seq<Byte>, i: nat, k: nat)
    requires 3 <= |s| && i < |s| && k < 8 && i != 2 && (i == 1 ==> k >= 4)
    ensures SameLength(s, s[i := Flip(s[i], k)])
  {
    FlipIs(s[i], k);
    hide Flip;
  }

  lemma WithinOne(s: seq<Byte>, i: nat, b: Byte, at: nat)
    requires i < |s| && b != s[i] && at <= i < at + 4 <= |s|
    ensures DiffersWithin(s, s[i := b], at)
  {
    assert s[i := b][i] != s[i];
  }


  // --- a bit of the length ------------------------------------------------------------------

  function Single(k: nat): bv32
    requires k < 8
  {
    [0x01, 0x02, 0x04, 0x08, 0x10, 0x20, 0x40, 0x80][k]
  }

  /** The i-th bit of a byte as a register mask. */
  function MaskOf(b: Byte, i: nat): bv32
    requires i < 8
  {
    Mask(Halved(b, i), Single(i))
  }

  lemma WidenIs(b: Byte)
    ensures Widen(b) == Or8(MaskOf(b, 0), MaskOf(b, 1), MaskOf(b, 2), MaskOf(b, 3),
                            MaskOf(b, 4), MaskOf(b, 5), MaskOf(b, 6), MaskOf(b, 7))
  {
    HalvedFew(b);
    SinglesAre();
    hide Halved, Mask, Single;
  }

  lemma {:induction false} HalvedNone(n: nat)
    ensures Halved(n, 0) == n
  {
  }

  lemma {:induction false} HalvedFront(n: nat, i: nat)
    requires i > 0
    ensures Halved(n, i) == Halved(n / 2, i - 1)
  {
    HalvedNone(n);
    HalvedNone(n / 2);
    if i > 1 { HalvedFront(n, i - 1); }
  }

  lemma {:induction false} ChangedBits(n: nat, k: nat, i: nat)
    ensures i != k ==> Halved(Changed(n, k), i) % 2 == Halved(n, i) % 2
    ensures i == k ==> Halved(Changed(n, k), i) % 2 != Halved(n, i) % 2
    decreases i
  {
    HalvedNone(n);
    HalvedNone(Changed(n, k));
    ChangedStep(n, k);
    if i > 0 {
      HalvedFront(n, i);
      HalvedFront(Changed(n, k), i);
      if k > 0 { ChangedBits(n / 2, k - 1, i - 1); }
    }
    hide Changed, Halved;
  }

  lemma ChangedStep(n: nat, k: nat)
    ensures var r := Changed(n, k);
            if k == 0 then r / 2 == n / 2 && r % 2 != n % 2 else r / 2 == Changed(n / 2, k - 1) && r % 2 == n % 2
  {
  }

  /** What changing bit k adds to mask i. */
  function Only(k: nat, i: nat): bv32
    requires i < 8
  {
    if i == k then Single(i) else 0
  }

  lemma FlipMask(b: Byte, k: nat, i: nat)
    requires k < 8 && i < 8
    ensures MaskOf(b, i) == 0 || MaskOf(b, i) == Single(i)
    ensures MaskOf(Flip(b, k), i) == Plus(MaskOf(b, i), Only(k, i))
  {
    ChangedBits(b, k, i);
    MaskIs(Halved(b, i), Single(i));
    MaskIs(Halved(Flip(b, k), i), Single(i));
    PlusZero(MaskOf(b, i));
    PlusSame(Single(i), Single(i));
    PlusSwap(0, Single(i));
    PlusZero(Single(i));
    hide Changed, Power, Halved, Single, Mask, Plus;
  }

  /** A mask is its own bit of a register, or nothing. */
  predicate Masks(m0: bv32, m1: bv32, m2: bv32, m3: bv32, m4: bv32, m5: bv32, m6: bv32, m7: bv32) {
    && m0 & 0x01 == m0 && m1 & 0x02 == m1 && m2 & 0x04 == m2 && m3 & 0x08 == m3
    && m4 & 0x10 == m4 && m5 & 0x20 == m5 && m6 & 0x40 == m6 && m7 & 0x80 == m7
  }

  lemma OrPlus(m0: bv32, m1: bv32, m2: bv32, m3: bv32, m4: bv32, m5: bv32, m6: bv32, m7: bv32,
               d0: bv32, d1: bv32, d2: bv32, d3: bv32, d4: bv32, d5: bv32, d6: bv32, d7: bv32)
    requires Masks(m0, m1, m2, m3, m4, m5, m6, m7) && Masks(d0, d1, d2, d3, d4, d5, d6, d7)
    ensures Plus(Or8(m0, m1, m2, m3, m4, m5, m6, m7),
                 Or8(Plus(m0, d0), Plus(m1, d1), Plus(m2, d2), Plus(m3, d3),
                     Plus(m4, d4), Plus(m5, d5), Plus(m6, d6), Plus(m7, d7)))
         == Or8(d0, d1, d2, d3, d4, d5, d6, d7)
  {
  }

  lemma OnlyIs(k: nat)
    requires k < 8
    ensures Or8(Only(k, 0), Only(k, 1), Only(k, 2), Only(k, 3), Only(k, 4), Only(k, 5), Only(k, 6), Only(k, 7))
         == Single(k)
  {
    SinglesAre();
    hide Single;
    match k { case 0 => case 1 => case 2 => case 3 => case 4 => case 5 => case 6 => case _ => }
  }

  lemma InMask(m: bv32, x: bv32)
    requires m == 0 || m == x
    ensures m & x == m
  {
  }

  lemma MasksOf(b: Byte, k: nat)
    requires k < 8
    ensures Masks(MaskOf(b, 0), MaskOf(b, 1), MaskOf(b, 2), MaskOf(b, 3),
                  MaskOf(b, 4), MaskOf(b, 5), MaskOf(b, 6), MaskOf(b, 7))
    ensures Masks(Only(k, 0), Only(k, 1), Only(k, 2), Only(k, 3), Only(k, 4), Only(k, 5), Only(k, 6), Only(k, 7))
  {
    SinglesAre();
    hide Single, MaskOf, Flip;
    FlipMask(b, k, 0); FlipMask(b, k, 1); FlipMask(b, k, 2); FlipMask(b, k, 3);
    FlipMask(b, k, 4); FlipMask(b, k, 5); FlipMask(b, k, 6); FlipMask(b, k, 7);
    InMask(MaskOf(b, 0), 0x01); InMask(MaskOf(b, 1), 0x02); InMask(MaskOf(b, 2), 0x04); InMask(MaskOf(b, 3), 0x08);
    InMask(MaskOf(b, 4), 0x10); InMask(MaskOf(b, 5), 0x20); InMask(MaskOf(b, 6), 0x40); InMask(MaskOf(b, 7), 0x80);
    InMask(Only(k, 0), 0x01); InMask(Only(k, 1), 0x02); InMask(Only(k, 2), 0x04); InMask(Only(k, 3), 0x08);
    InMask(Only(k, 4), 0x10); InMask(Only(k, 5), 0x20); InMask(Only(k, 6), 0x40); InMask(Only(k, 7), 0x80);
  }

  lemma FlipWidens(b: Byte, k: nat)
    requires k < 8
    ensures Plus(Widen(b), Widen(Flip(b, k))) == Single(k)
  {
    hide *;
    WidenIs(b);
    WidenIs(Flip(b, k));
    FlipMask(b, k, 0); FlipMask(b, k, 1); FlipMask(b, k, 2); FlipMask(b, k, 3);
    FlipMask(b, k, 4); FlipMask(b, k, 5); FlipMask(b, k, 6); FlipMask(b, k, 7);
    MasksOf(b, k);
    OrPlus(MaskOf(b, 0), MaskOf(b, 1), MaskOf(b, 2), MaskOf(b, 3),
           MaskOf(b, 4), MaskOf(b, 5), MaskOf(b, 6), MaskOf(b, 7),
           Only(k, 0), Only(k, 1), Only(k, 2), Only(k, 3), Only(k, 4), Only(k, 5), Only(k, 6), Only(k, 7));
    OnlyIs(k);
  }

  lemma SinglesAre()
    ensures Single(0) == 0x01 && Single(1) == 0x02 && Single(2) == 0x04 && Single(3) == 0x08
    ensures Single(4) == 0x10 && Single(5) == 0x20 && Single(6) == 0x40 && Single(7) == 0x80
  {
  }

  lemma HighPlus(a: bv32, b: bv32)
    ensures Plus(High(a), High(b)) == High(Plus(a, b))
  {
  }

  lemma HighSingles()
    ensures High(0x01) == 0x100_0000 && High(0x02) == 0x200_0000 && High(0x04) == 0x400_0000 && High(0x08) == 0x800_0000
    ensures High(0x10) == 0x1000_0000 && High(0x20) == 0x2000_0000
    ensures High(0x40) == 0x4000_0000 && High(0x80) == 0x8000_0000
  {
  }

  /** The k-th bit of a byte, changed, is that bit in the register. */
  lemma {:induction false} FlipBits(b: Byte, k: nat)
    requires k < 8
    ensures Plus(High(Widen(b)), High(Widen(Flip(b, k)))) == Bits(1, 24 + k)
  {
    hide *;
    Singles();
    FlipWidens(b, k);
    HighPlus(Widen(b), Widen(Flip(b, k)));
    SinglesAre();
    HighSingles();
    match k { case 0 => case 1 => case 2 => case 3 => case 4 => case 5 => case 6 => case _ => }
  }

  lemma FrontThird(s: seq<Byte>)
    requires |s| >= 3
    ensures Crc(s[..3]) == Bits(Plus(Crc(s[..2]), High(Widen(s[2]))), 8)
  {
    hide *;
    assert s[..3] == s[..2] + [s[2]];
    CrcMore(s[..2], s[2]);
    FeedIs(Crc(s[..2]), Widen(s[2]));
  }

  /** Two strings that differ in one bit of their third byte: the difference of their registers. */
  lemma {:induction false} ThirdByteDiffers(s: seq<Byte>, k: nat, n: nat)
    requires k < 8 && 3 <= n <= |s|
    ensures var t := s[2 := Flip(s[2], k)];
            Plus(Crc(s[..n]), Crc(t[..n])) == Bits(1, 24 + k + 8 * (n - 2))
    decreases n
  {
    hide *;
    var t := s[2 := Flip(s[2], k)];
    if n == 3 {
      assert t[..2] == s[..2];
      FrontThird(s);
      FrontThird(t);
      var c, x, y := Crc(s[..2]), High(Widen(s[2])), High(Widen(t[2]));
      BitsLinear(Plus(c, x), Plus(c, y), 8);
      PlusMeet(c, x, y);
      FlipBits(s[2], k);
      BitsAdd(1, 24 + k, 8);
    } else {
      ThirdByteDiffers(s, k, n - 1);
      var b := s[n - 1];
      assert s[..n] == s[..n - 1] + [b] && t[..n] == t[..n - 1] + [b];
      CrcMore(s[..n - 1], b);
      CrcMore(t[..n - 1], b);
      var u, v, h := Crc(s[..n - 1]), Crc(t[..n - 1]), High(Widen(b));
      FeedIs(u, Widen(b));
      FeedIs(v, Widen(b));
      BitsLinear(Plus(u, h), Plus(v, h), 8);
      PlusThree(u, v, h);
      BitsAdd(1, 24 + k + 8 * (n - 3), 8);
    }
  }

  lemma PlusMeet(c: bv32, x: bv32, y: bv32)
    ensures Plus(Plus(c, x), Plus(c, y)) == Plus(x, y)
  {
    PlusSwap(c, x);
    PlusSwap(c, y);
    PlusThree(x, y, c);
  }

  lemma {:induction false} CrcStuffed(p: seq<Byte>, n: nat)
    ensures Crc(p + Fill(n)) == Stuffed(Crc(p), n)
  {
    hide *;
    StuffedNone(Crc(p));
    FillIs(n);
    if n == 0 {
      assert p + Fill(0) == p;
    } else {
      CrcStuffed(p, n - 1);
      StuffedStep(Crc(p), n);
      assert p + Fill(n) == (p + Fill(n - 1)) + [0xFF];
      CrcMore(p + Fill(n - 1), 0xFF);
      WidenFF();
    }
  }

  lemma FillIs(n: nat)
    ensures n > 0 ==> Fill(n) == Fill(n - 1) + [0xFF]
    ensures forall b: seq<Byte> :: |b| == n && Stuffing(b) ==> b == Fill(n)
  {
  }

  lemma WidenFF()
    ensures Widen(0xFF) == 0xFF
  {
  }

  /** The receiver looks too far: `j` bytes of stuffing pass for part of the section. */
  lemma {:induction false} TooFar(s: seq<Byte>, k: nat, j: nat)
    requires 12 <= |s| && |s| + j <= 183 && k < 8 && Amount(j) && Crc(s) == 0
    ensures Crc(s[2 := Flip(s[2], k)] + Fill(j)) != 0
  {
    hide *;
    var t := s[2 := Flip(s[2], k)];
    var s1, t1 := s + Fill(j), t + Fill(j);
    assert t1 == s1[2 := Flip(s1[2], k)];
    assert s1[..|s1|] == s1 && t1[..|t1|] == t1;
    ThirdByteDiffers(s1, k, |s1|);
    CrcStuffed(s, j);
    BitIsNotStuffing(24 + k + 8 * (|s1| - 2), j);
    PlusZero(Stuffed(0, j));
  }

  /** Or not far enough: the section seems to end `j` bytes early, in stuffing. */
  lemma {:induction false} TooShort(s: seq<Byte>, k: nat, j: nat)
    requires 3 <= |s| - j && |s| <= 183 && k < 8 && Amount(j) && Crc(s) == 0
    requires Stuffing(s[|s| - j..])
    ensures Crc(s[2 := Flip(s[2], k)][..|s| - j]) != 0
  {
    hide *;
    var n := |s| - j;
    var t := s[2 := Flip(s[2], k)];
    FillIs(j);
    assert s == s[..n] + Fill(j);
    CrcStuffed(s[..n], j);
    StuffedLinear(Crc(s[..n]), j);
    if Crc(t[..n]) == 0 {
      ThirdByteDiffers(s, k, n);
      PlusZero(Crc(s[..n]));
      BitsAdd(1, 24 + k + 8 * (n - 2), 8 * j);
      BitIsNotStuffing(24 + k + 8 * (n - 2) + 8 * j, j);
      PlusSame(Bits(Crc(s[..n]), 8 * j), Stuffed(0, j));
    }
  }

  lemma SectionSpan(payload: seq<Byte>)
    requires |payload| == 184 && payload[0] == 0
    ensures var u := payload[1..];
            var end := 3 + u[1] as int % 16 * 0x100 + u[2] as int;
            SectionOf(payload).Some? ==> 12 <= end <= 183 && Crc(u[..end]) == 0 && Stuffing(u[end..])
  {
    hide Crc, Stuffing;
  }

  /** A changed bit of the low byte of the length. */
  lemma BitOfLength(section: seq<Byte>, k: nat)
    requires StatesLength(section) && k < 8
    ensures var s := Sealed(section); SectionOf(Arriving(s[2 := Flip(s[2], k)])) == None
  {
    hide *;
    var s := Sealed(section);
    var t := s[2 := Flip(s[2], k)];
    var j, n := Power(k), |s|;
    SealedIsZero(section);
    LengthOf(section);
    FlipIs(s[2], k);
    ArrivingIs(t);
    SectionSpan(Arriving(t));
    var u := t + Fill(183 - n);
    if SectionOf(Arriving(t)).Some? {
      var end := 3 + t[2] as int;
      assert u[1] == s[1] && u[2] == t[2];
      if end == n + j {
        FillPrefix(183 - n, j);
        assert u[..end] == t + Fill(183 - n)[..j];
        TooFar(s, k, j);
      } else {
        assert u[..end] == t[..end];
        assert s[end..] == u[end..][..j];
        StuffingPrefix(u[end..], j);
        TooShort(s, k, j);
      }
    }
  }

  lemma SealedIsZero(section: seq<Byte>)
    ensures Crc(Sealed(section)) == 0
  {
    hide Crc, Tail;
    Residue(section);
  }

  lemma ArrivingIs(t: seq<Byte>)
    requires |t| <= 183
    ensures var p := Arriving(t); |p| == 184 && p[0] == 0 && p[1..] == t + Fill(183 - |t|)
  {
    hide Fill;
  }

  lemma LengthOf(section: seq<Byte>)
    requires StatesLength(section)
    ensures var s := Sealed(section);
            12 <= |s| <= 183 && s[1] as int % 16 == 0 && 3 + s[2] as int == |s|
  {
    var s := Sealed(section);
    hide Tail, Crc;
    assert s[1] == section[1] && s[2] == section[2];
  }

  lemma FillPrefix(n: nat, j: nat)
    requires j <= n
    ensures Fill(n)[..j] == Fill(j)
  {
  }

  lemma StuffingPrefix(b: seq<Byte>, j: nat)
    requires Stuffing(b) && j <= |b|
    ensures Stuffing(b[..j])
  {
  }

  /** A changed bit of the high part of the length: the section cannot be that long. */
  lemma BitOfHighLength(section: seq<Byte>, k: nat)
    requires StatesLength(section) && k < 4
    ensures var s := Sealed(section); SectionOf(Arriving(s[1 := Flip(s[1], k)])) == None
  {
    hide *;
    var s := Sealed(section);
    var t := s[1 := Flip(s[1], k)];
    LengthOf(section);
    ArrivingIs(t);
    SectionSpan(Arriving(t));
    FlipLow(s[1], k);
    var u := t + Fill(183 - |s|);
    assert u[1] == t[1] && u[2] == t[2];
  }

  lemma FlipLow(b: Byte, k: nat)
    requires k < 4 && b as int % 16 == 0
    ensures Flip(b, k) as int % 16 > 0
  {
    hide *;
    FlipIs(b, k);
    PowersAre();
    match k { case 0 => case 1 => case 2 => case _ => }
  }

  /** Any single bit that changes in a section or its CRC, wherever it is, is noticed: for every section that
      states its own length. */
  lemma OneBitIsNoticed(section: seq<Byte>, i: nat, k: nat)
    requires StatesLength(section) && i < |section| + 4 && k < 8
    ensures var s := Sealed(section); SectionOf(Arriving(s[i := Flip(s[i], k)])) == None
  {
    hide *;
    SectionSize(section);
    if i == 2 {
      BitOfLength(section, k);
    } else if i == 1 && k < 4 {
      BitOfHighLength(section, k);
    } else {
      BitElsewhere(section, i, k);
    }
  }
}
