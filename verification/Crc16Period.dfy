/**
 Two-bit errors.  Two flipped bits go unnoticed exactly when their distance is a multiple of
 32767, the order of x modulo x^16 + x^12 + x^5 + 1.  The powers of x are computed on bit
 vectors and tied to the shift register of Lfsr.
 */
module Crc16Period {
  import opened BitStrings
  import opened Lfsr
  import opened Crc16

  // ---- powers of x in the register --------------------------------------------------------

  ghost const ONE: Bits := Zeros(15) + [true]

  /** x to the n-th modulo the polynomial. */
  ghost function Power(n: nat): (r: Bits)
    ensures |r| == 16
  {
    Run(POLY, ONE, Zeros(n))
  }

  ghost predicate IsPeriod(n: nat) {
    Power(n) == ONE
  }

  lemma PowerSum(m: nat, n: nat)
    ensures Power(m + n) == Run(POLY, Power(m), Zeros(n))
  {
    hide Run;
    RunConcat(POLY, ONE, Zeros(m), Zeros(n));
    assert Zeros(m) + Zeros(n) == Zeros(m + n);
  }

  /** Zero steps never merge two registers. */
  lemma ZerosInjective(c: Bits, d: Bits, n: nat)
    requires |c| == |d| == 16
    ensures Run(POLY, c, Zeros(n)) == Run(POLY, d, Zeros(n)) <==> c == d
  {
    hide Run;
    PolyFacts();
    var u, v := Run(POLY, c, Zeros(n)), Run(POLY, d, Zeros(n));
    RunLinear(POLY, c, d, Zeros(n), Zeros(n));
    XorSelf(Zeros(n), Zeros(n));
    ZerosKeepNonzero(POLY, Xor(c, d), n);
    XorSelf(c, d);
    XorSelf(u, v);
  }

  lemma XorSelf(a: Bits, b: Bits)
    requires |a| == |b|
    ensures Xor(a, b) == Zeros(|a|) <==> a == b
  {
    if Xor(a, b) == Zeros(|a|) {
      forall i | 0 <= i < |a| ensures a[i] == b[i] {
        assert !Xor(a, b)[i];
      }
    }
  }

  lemma PeriodSum(m: nat, n: nat)
    requires IsPeriod(m)
    ensures IsPeriod(m + n) <==> IsPeriod(n)
  {
    PowerSum(m, n);
  }

  lemma {:induction false} PeriodMultiple(m: nat, k: nat)
    requires IsPeriod(m)
    ensures IsPeriod(m * k)
    decreases k
  {
    if k == 0 {
      assert m * k == 0;
    } else {
      PeriodMultiple(m, k - 1);
      PeriodSum(m, m * (k - 1));
      assert m * k == m + m * (k - 1);
    }
  }

  /** d steps take the polynomial to itself exactly when d is a period of x. */
  lemma PolyPeriod(d: nat)
    ensures Run(POLY, POLY, Zeros(d)) == POLY <==> IsPeriod(d)
  {
    hide Run;
    PolyIsPower();
    PowerSum(16, d);
    PowerSum(d, 16);
    ZerosInjective(Power(d), ONE, 16);
  }

  lemma PolyIsPower()
    ensures Power(16) == POLY
  {
    hide Run, Zeros;
    ShiftOut(POLY, 15, [true]);
    ZeroSplit();
    RunConcat(POLY, ONE, Zeros(15), [false]);
    LastStep();
  }

  lemma ZeroSplit()
    ensures Zeros(16) == Zeros(15) + [false]
  {
  }

  lemma LastStep()
    ensures Run(POLY, [true] + Zeros(15), [false]) == POLY
  {
    assert [false][1..] == [];
    assert ([true] + Zeros(15))[1..] + [false] == Zeros(16);
    assert Xor(Zeros(16), POLY) == POLY;
  }

  // ---- products ---------------------------------------------------------------------------

  /** The product of two residues, by Horner's rule over the bits of a. */
  ghost function Product(a: Bits, b: Bits): (r: Bits)
    requires |b| == 16
    ensures |r| == 16
    decreases |a|
  {
    if a == [] then Zeros(16)
    else
      var r := Shift(POLY, Product(a[..|a| - 1], b), false);
      if a[|a| - 1] then Xor(r, b) else r
  }

  lemma {:induction false} ProductIsRun(a: Bits, n: nat)
    requires |a| <= 16
    ensures Product(a, Power(n)) == Run(POLY, Zeros(16 - |a|) + a, Zeros(n))
    decreases |a|
  {
    hide Run, Xor, Shift;
    if a == [] {
      assert Zeros(16) + a == Zeros(16);
      RunZeros(POLY, n);
    } else {
      var t := a[..|a| - 1];
      ProductIsRun(t, n);
      var c := Zeros(16 - |t|) + t;
      ShiftCommutes(c, n);
      AppendBit(a);
      if a[|a| - 1] {
        ZerosLinear(Shift(POLY, c, false), ONE, n);
      }
    }
  }

  lemma ZerosLinear(c: Bits, d: Bits, n: nat)
    requires |c| == |d| == 16
    ensures Run(POLY, Xor(c, d), Zeros(n)) == Xor(Run(POLY, c, Zeros(n)), Run(POLY, d, Zeros(n)))
  {
    XorSelf(Zeros(n), Zeros(n));
    RunLinear(POLY, c, d, Zeros(n), Zeros(n));
  }

  lemma ShiftCommutes(c: Bits, n: nat)
    requires |c| == 16
    ensures Shift(POLY, Run(POLY, c, Zeros(n)), false) == Run(POLY, Shift(POLY, c, false), Zeros(n))
  {
    assert Zeros(n + 1)[1..] == Zeros(n);
    assert Zeros(n) + [false] == Zeros(n + 1);
    RunConcat(POLY, c, Zeros(n), [false]);
    assert [false][1..] == [];
  }

  lemma AppendBit(a: Bits)
    requires 0 < |a| <= 16
    ensures var t := a[..|a| - 1];
            var s := Shift(POLY, Zeros(16 - |t|) + t, false);
            Zeros(16 - |a|) + a == if a[|a| - 1] then Xor(s, ONE) else s
  {
    var t := a[..|a| - 1];
    var c := Zeros(16 - |t|) + t;
    assert !c[0];
    assert c[1..] + [false] == Zeros(16 - |a|) + t + [false];
  }

  /** The exponents of a product add up. */
  lemma PowerProduct(m: nat, n: nat)
    ensures Product(Power(m), Power(n)) == Power(m + n)
  {
    hide Run;
    ProductIsRun(Power(m), n);
    assert Zeros(0) + Power(m) == Power(m);
    PowerSum(m, n);
  }

  // ---- the same on machine words ----------------------------------------------------------

  function Mask(i: nat): bv16
    requires i < 16
  {
    if i == 0 then 0x8000 else if i == 1 then 0x4000
    else if i == 2 then 0x2000 else if i == 3 then 0x1000
    else if i == 4 then 0x0800 else if i == 5 then 0x0400
    else if i == 6 then 0x0200 else if i == 7 then 0x0100
    else if i == 8 then 0x0080 else if i == 9 then 0x0040
    else if i == 10 then 0x0020 else if i == 11 then 0x0010
    else if i == 12 then 0x0008 else if i == 13 then 0x0004
    else if i == 14 then 0x0002 else 0x0001
  }

  predicate Bit(c: bv16, i: nat)
    requires i < 16
  {
    c & Mask(i) != 0
  }

  ghost function BitsOf(c: bv16): (r: Bits)
    ensures |r| == 16 && forall i :: 0 <= i < 16 ==> r[i] == Bit(c, i)
  {
    seq(16, i requires 0 <= i < 16 => Bit(c, i))
  }

  function Double(c: bv16): bv16 {
    if c & 0x8000 != 0 then (c << 1) ^ 0x1021 else c << 1
  }

  function Horner(r: bv16, bit: bool, b: bv16): bv16 {
    if bit then Double(r) ^ b else Double(r)
  }

  function Horner4(r: bv16, b0: bool, b1: bool, b2: bool, b3: bool, b: bv16): bv16 {
    Horner(Horner(Horner(Horner(r, b0, b), b1, b), b2, b), b3, b)
  }

  /** Horner's rule over the bits of a. */
  function Multiply(a: bv16, b: bv16): bv16 {
    var r0: bv16 := 0;
    var r1 := Horner4(r0, a & 0x8000 != 0, a & 0x4000 != 0, a & 0x2000 != 0, a & 0x1000 != 0, b);
    var r2 := Horner4(r1, a & 0x0800 != 0, a & 0x0400 != 0, a & 0x0200 != 0, a & 0x0100 != 0, b);
    var r3 := Horner4(r2, a & 0x0080 != 0, a & 0x0040 != 0, a & 0x0020 != 0, a & 0x0010 != 0, b);
    var r4 := Horner4(r3, a & 0x0008 != 0, a & 0x0004 != 0, a & 0x0002 != 0, a & 0x0001 != 0, b);
    r4
  }

  lemma MaskFacts(i: nat)
    requires i < 16
    ensures Mask(i) & (Mask(i) - 1) == 0
    ensures i < 15 ==> Mask(i) >> 1 == Mask(i + 1) && Mask(i) & 1 == 0
    ensures i == 15 ==> Mask(i) == 1
  {
  }

  lemma XorMask(a: bv16, b: bv16, m: bv16)
    requires m & (m - 1) == 0
    ensures ((a ^ b) & m != 0) == ((a & m != 0) != (b & m != 0))
  {
  }

  lemma ShiftMask(c: bv16, m: bv16)
    ensures m & 1 == 0 ==> ((c << 1) & m != 0) == (c & (m >> 1) != 0)
    ensures m == 1 ==> (c << 1) & m == 0
  {
  }

  lemma BitsOfXor(a: bv16, b: bv16)
    ensures BitsOf(a ^ b) == Xor(BitsOf(a), BitsOf(b))
  {
    hide Mask;
    forall i | 0 <= i < 16
      ensures BitsOf(a ^ b)[i] == Xor(BitsOf(a), BitsOf(b))[i]
    {
      MaskFacts(i);
      XorMask(a, b, Mask(i));
    }
  }

  lemma BitsOfShift(c: bv16)
    ensures BitsOf(c << 1) == BitsOf(c)[1..] + [false]
  {
    hide Mask;
    forall i | 0 <= i < 16
      ensures BitsOf(c << 1)[i] == (BitsOf(c)[1..] + [false])[i]
    {
      MaskFacts(i);
      ShiftMask(c, Mask(i));
    }
  }

  lemma PolyBits()
    ensures BitsOf(0x1021) == POLY
  {
    var q: bv16 := 0x1021;
    assert !Bit(q, 0) && !Bit(q, 1) && !Bit(q, 2) && Bit(q, 3);
    assert !Bit(q, 4) && !Bit(q, 5) && !Bit(q, 6) && !Bit(q, 7);
    assert !Bit(q, 8) && !Bit(q, 9) && Bit(q, 10) && !Bit(q, 11);
    assert !Bit(q, 12) && !Bit(q, 13) && !Bit(q, 14) && Bit(q, 15);
  }

  lemma TopBit(c: bv16)
    ensures BitsOf(c)[0] == (c & 0x8000 != 0)
  {
  }

  lemma DoubleIsShift(c: bv16)
    ensures BitsOf(Double(c)) == Shift(POLY, BitsOf(c), false)
  {
    hide Bit, BitsOf;
    TopBit(c);
    BitsOfShift(c);
    PolyBits();
    BitsOfXor(c << 1, 0x1021);
  }

  lemma HornerIsProduct(a: bv16, b: bv16, r: bv16, i: nat)
    requires i < 16 && BitsOf(r) == Product(BitsOf(a)[..i], BitsOf(b))
    ensures BitsOf(Horner(r, Bit(a, i), b)) == Product(BitsOf(a)[..i + 1], BitsOf(b))
  {
    hide Bit, Double, Shift, Xor;
    DoubleIsShift(r);
    BitsOfXor(Double(r), b);
    assert BitsOf(a)[..i + 1][..i] == BitsOf(a)[..i];
  }

  lemma Horner4IsProduct(a: bv16, b: bv16, r: bv16, i: nat)
    requires i + 4 <= 16 && BitsOf(r) == Product(BitsOf(a)[..i], BitsOf(b))
    ensures BitsOf(Horner4(r, Bit(a, i), Bit(a, i + 1), Bit(a, i + 2), Bit(a, i + 3), b))
         == Product(BitsOf(a)[..i + 4], BitsOf(b))
  {
    hide Bit, Horner, Product, BitsOf;
    var r1 := Horner(r, Bit(a, i), b);
    var r2 := Horner(r1, Bit(a, i + 1), b);
    var r3 := Horner(r2, Bit(a, i + 2), b);
    HornerIsProduct(a, b, r, i);
    HornerIsProduct(a, b, r1, i + 1);
    HornerIsProduct(a, b, r2, i + 2);
    HornerIsProduct(a, b, r3, i + 3);
  }

  lemma BitTest(a: bv16, i: nat, m: bv16)
    requires i < 16 && m == Mask(i)
    ensures Bit(a, i) == (a & m != 0)
  {
  }

  lemma BitTests(a: bv16)
    ensures Bit(a, 0) == (a & 0x8000 != 0)
    ensures Bit(a, 1) == (a & 0x4000 != 0)
    ensures Bit(a, 2) == (a & 0x2000 != 0)
    ensures Bit(a, 3) == (a & 0x1000 != 0)
    ensures Bit(a, 4) == (a & 0x0800 != 0)
    ensures Bit(a, 5) == (a & 0x0400 != 0)
    ensures Bit(a, 6) == (a & 0x0200 != 0)
    ensures Bit(a, 7) == (a & 0x0100 != 0)
    ensures Bit(a, 8) == (a & 0x0080 != 0)
    ensures Bit(a, 9) == (a & 0x0040 != 0)
    ensures Bit(a, 10) == (a & 0x0020 != 0)
    ensures Bit(a, 11) == (a & 0x0010 != 0)
    ensures Bit(a, 12) == (a & 0x0008 != 0)
    ensures Bit(a, 13) == (a & 0x0004 != 0)
    ensures Bit(a, 14) == (a & 0x0002 != 0)
    ensures Bit(a, 15) == (a & 0x0001 != 0)
  {
    hide Bit;
    BitTest(a, 0, 0x8000);
    BitTest(a, 1, 0x4000);
    BitTest(a, 2, 0x2000);
    BitTest(a, 3, 0x1000);
    BitTest(a, 4, 0x0800);
    BitTest(a, 5, 0x0400);
    BitTest(a, 6, 0x0200);
    BitTest(a, 7, 0x0100);
    BitTest(a, 8, 0x0080);
    BitTest(a, 9, 0x0040);
    BitTest(a, 10, 0x0020);
    BitTest(a, 11, 0x0010);
    BitTest(a, 12, 0x0008);
    BitTest(a, 13, 0x0004);
    BitTest(a, 14, 0x0002);
    BitTest(a, 15, 0x0001);
  }

  lemma MultiplyIsProduct(a: bv16, b: bv16)
    ensures BitsOf(Multiply(a, b)) == Product(BitsOf(a), BitsOf(b))
  {
    hide Bit, BitsOf, Product, Horner4;
    BitTests(a);
    var r0: bv16 := 0;
    EmptyProduct(a, b);
    var r1 := Horner4(r0, Bit(a, 0), Bit(a, 1), Bit(a, 2), Bit(a, 3), b);
    Horner4IsProduct(a, b, r0, 0);
    var r2 := Horner4(r1, Bit(a, 4), Bit(a, 5), Bit(a, 6), Bit(a, 7), b);
    Horner4IsProduct(a, b, r1, 4);
    var r3 := Horner4(r2, Bit(a, 8), Bit(a, 9), Bit(a, 10), Bit(a, 11), b);
    Horner4IsProduct(a, b, r2, 8);
    Horner4IsProduct(a, b, r3, 12);
    assert BitsOf(a)[..16] == BitsOf(a);
  }

  lemma EmptyProduct(a: bv16, b: bv16)
    ensures BitsOf(0) == Product(BitsOf(a)[..0], BitsOf(b))
  {
    NoBits();
    assert BitsOf(a)[..0] == [];
  }

  lemma NoBits()
    ensures BitsOf(0) == Zeros(16)
  {
    hide Mask;
    forall i | 0 <= i < 16 ensures !BitsOf(0)[i] {
      assert (0 as bv16) & Mask(i) == 0;
    }
  }

  /** c holds the n-th power of x. */
  ghost predicate IsPower(c: bv16, n: nat) {
    BitsOf(c) == Power(n)
  }

  lemma Times(a: bv16, m: nat, b: bv16, n: nat, c: bv16)
    requires IsPower(a, m) && IsPower(b, n) && Multiply(a, b) == c
    ensures IsPower(c, m + n)
  {
    hide Multiply, Power, BitsOf, Product;
    MultiplyIsProduct(a, b);
    PowerProduct(m, n);
  }

  lemma FirstPower()
    ensures IsPower(2, 1)
  {
    assert Zeros(1)[1..] == [];
    assert ONE[1..] + [false] == Zeros(14) + [true] + [false];
    var q: bv16 := 2;
    assert Mask(14) == 2;
    forall i | 0 <= i < 16 ensures Bit(q, i) == (i == 14) {
    }
  }

  // ---- the order of x ---------------------------------------------------------------------

  lemma Squares16()
    ensures IsPower(0x4, 2)
    ensures IsPower(0x10, 4)
    ensures IsPower(0x100, 8)
    ensures IsPower(0x1021, 16)
  {
    hide IsPower;
    FirstPower();
    Times(0x2, 1, 0x2, 1, 0x4);
    Times(0x4, 2, 0x4, 2, 0x10);
    Times(0x10, 4, 0x10, 4, 0x100);
    Times(0x100, 8, 0x100, 8, 0x1021);
  }

  lemma Squares256()
    requires IsPower(0x1021, 16)
    ensures IsPower(0x3730, 32)
    ensures IsPower(0xB861, 64)
    ensures IsPower(0xAEFC, 128)
    ensures IsPower(0x8E29, 256)
  {
    hide IsPower;
    Times(0x1021, 16, 0x1021, 16, 0x3730);
    Times(0x3730, 32, 0x3730, 32, 0xB861);
    Times(0xB861, 64, 0xB861, 64, 0xAEFC);
    Times(0xAEFC, 128, 0xAEFC, 128, 0x8E29);
  }

  lemma Squares2048()
    requires IsPower(0x8E29, 256)
    ensures IsPower(0x13FC, 512)
    ensures IsPower(0x36C4, 1024)
    ensures IsPower(0xFD50, 2048)
  {
    hide IsPower;
    Times(0x8E29, 256, 0x8E29, 256, 0x13FC);
    Times(0x13FC, 512, 0x13FC, 512, 0x36C4);
    Times(0x36C4, 1024, 0x36C4, 1024, 0xFD50);
  }

  lemma Squares32768()
    requires IsPower(0xFD50, 2048)
    ensures IsPower(0xAA9E, 4096)
    ensures IsPower(0x881C, 8192)
    ensures IsPower(0x4458, 16384)
    ensures IsPower(0x2, 32768)
  {
    hide IsPower;
    Times(0xFD50, 2048, 0xFD50, 2048, 0xAA9E);
    Times(0xAA9E, 4096, 0xAA9E, 4096, 0x881C);
    Times(0x881C, 8192, 0x881C, 8192, 0x4458);
    Times(0x4458, 16384, 0x4458, 16384, 0x2);
  }

  lemma Squares()
    ensures IsPower(0x2, 1)
    ensures IsPower(0x4, 2)
    ensures IsPower(0x10, 4)
    ensures IsPower(0x100, 8)
    ensures IsPower(0x1021, 16)
    ensures IsPower(0x3730, 32)
    ensures IsPower(0xB861, 64)
    ensures IsPower(0xAEFC, 128)
    ensures IsPower(0x8E29, 256)
    ensures IsPower(0x13FC, 512)
    ensures IsPower(0x36C4, 1024)
    ensures IsPower(0xFD50, 2048)
    ensures IsPower(0xAA9E, 4096)
    ensures IsPower(0x881C, 8192)
    ensures IsPower(0x4458, 16384)
    ensures IsPower(0x2, 32768)
  {
    hide IsPower;
    FirstPower();
    Squares16();
    Squares256();
    Squares2048();
    Squares32768();
  }

  lemma IsOne(c: bv16, n: nat)
    requires IsPower(c, n)
    ensures IsPeriod(n) <==> c == 1
  {
    OneBits(c);
  }

  lemma OneBits(c: bv16)
    ensures BitsOf(c) == ONE <==> c == 1
  {
    hide Bit;
    BitTests(c);
    BitTests(1);
    if BitsOf(c) == ONE {
      assert forall i :: 0 <= i < 16 ==> Bit(c, i) == BitsOf(c)[i] == (i == 15);
    }
  }

  /** 32767 is a period ... */
  lemma FullPeriod()
    ensures IsPeriod(32767)
  {
    hide IsPower, Run;
    Squares();
    FirstPower();
    PowerSum(32767, 1);
    PowerSum(0, 1);
    SamePower(2, 32768, 1);
    ZerosInjective(Power(32767), ONE, 1);
  }

  lemma SamePower(c: bv16, m: nat, n: nat)
    requires IsPower(c, m) && IsPower(c, n)
    ensures Power(m) == Power(n)
  {
  }

  /** ... and none of its three largest proper divisors is one. */
  lemma ProperDivisors()
    ensures !IsPeriod(217) && !IsPeriod(1057) && !IsPeriod(4681)
  {
    hide IsPower, IsPeriod;
    Squares();
    Times(0xAEFC, 128, 0xB861, 64, 0x650B);
    Times(0x650B, 192, 0x1021, 16, 0x45B4);
    Times(0x45B4, 208, 0x100, 8, 0xAC61);
    Times(0xAC61, 216, 0x2, 1, 0x48E3);
    IsOne(0x48E3, 217);
    Times(0x36C4, 1024, 0x3730, 32, 0xF147);
    Times(0xF147, 1056, 0x2, 1, 0xF2AF);
    IsOne(0xF2AF, 1057);
    Times(0xAA9E, 4096, 0x13FC, 512, 0x54A0);
    Times(0x54A0, 4608, 0xB861, 64, 0x106);
    Times(0x106, 4672, 0x100, 8, 0x1621);
    Times(0x1621, 4680, 0x2, 1, 0x2C42);
    IsOne(0x2C42, 4681);
  }

  /** If d steps are a period and d is invertible modulo a factor p of 32767, then 32767 / p is
      a period as well. */
  lemma Cofactor(d: nat, p: nat, q: nat, k: nat, t: nat)
    requires p * q == 32767 && IsPeriod(d) && d * k == p * t + 1
    ensures IsPeriod(q)
  {
    hide IsPeriod;
    PeriodMultiple(d, k);
    PeriodMultiple(d * k, q);
    FullPeriod();
    PeriodMultiple(32767, t);
    assert (d * k) * q == 32767 * t + q by {
      assert (p * t + 1) * q == (p * q) * t + q;
    }
    PeriodSum(32767 * t, q);
  }

  lemma SmallMultiple(p: nat, r: nat, s: nat)
    requires p == 7 || p == 31 || p == 151
    requires 1 < r <= 12 && r < p
    ensures r * s != p
  {
    assert r == 2 || r == 3 || r == 4 || r == 5 || r == 6 || r == 7 || r == 8 || r == 9
        || r == 10 || r == 11 || r == 12;
  }

  /** 7, 31 and 151 are prime. */
  lemma NoDivisor(p: nat, r: nat, s: nat)
    requires p == 7 || p == 31 || p == 151
    requires 1 < r < p
    ensures r * s != p
  {
    if r <= 12 {
      SmallMultiple(p, r, s);
    } else if s >= 12 {
      assert r * s >= 13 * s;
    } else if s >= 2 {
      SmallMultiple(p, s, r);
    }
  }

  /** Every number below one of the three primes has an inverse modulo it. */
  lemma {:induction false} Inverse(r: nat, p: nat) returns (k: nat, t: nat)
    requires p == 7 || p == 31 || p == 151
    requires 0 < r < p
    ensures r * k == p * t + 1
    decreases r
  {
    if r == 1 {
      k, t := 1, 0;
    } else {
      var q, s := Quotient(p, r);
      NoDivisor(p, r, q);
      var k', t' := Inverse(s, p);
      k, t := InverseStep(p, q, r, s, k', t');
    }
  }

  lemma {:induction false} Quotient(n: nat, r: nat) returns (q: nat, s: nat)
    requires r > 1
    ensures n == r * q + s && s < r && q <= n
    decreases n
  {
    if n < r {
      q, s := 0, n;
    } else {
      q, s := Quotient(n - r, r);
      q := q + 1;
    }
  }

  lemma InverseStep(p: nat, q: nat, r: nat, s: nat, k': nat, t': nat) returns (k: nat, t: nat)
    requires r > 0 && q <= p && p == r * q + s && s * k' == p * t' + 1
    ensures r * k == p * t + 1
  {
    NonNegative(p - q, k');
    NonNegative(r - 1, k');
    k := (p - q) * k';
    t := (r - 1) * k' + t';
    Expand(p, q, r, s, k', t');
  }

  lemma NonNegative(a: nat, b: nat)
    ensures a * b >= 0
  {
  }

  lemma Expand(p: int, q: int, r: int, s: int, k: int, t: int)
    requires p == r * q + s && s * k == p * t + 1
    ensures r * ((p - q) * k) == p * ((r - 1) * k + t) + 1
  {
    var x := r * q;
    assert r * (p - q) == p * r - x;
    assert r * ((p - q) * k) == (p * r - x) * k;
    assert (p * r - x) * k == p * r * k - x * k;
    assert x * k == p * k - s * k;
    assert p * ((r - 1) * k + t) == p * r * k - p * k + p * t;
  }

  lemma Regroup(d: nat, p: nat, e: nat, r: nat, k: nat, t: int)
    requires d == p * e + r && r * k == p * t + 1
    ensures d * k == p * (e * k + t) + 1
  {
    assert (p * e + r) * k == p * (e * k) + r * k;
  }

  lemma PrimeDivides(d: nat, p: nat, q: nat)
    requires (p == 7 && q == 4681) || (p == 31 && q == 1057) || (p == 151 && q == 217)
    requires IsPeriod(d)
    ensures d % p == 0
  {
    hide IsPeriod;
    var r, e := d % p, d / p;
    if r != 0 {
      var k, t := Inverse(r, p);
      Regroup(d, p, e, r, k, t);
      Cofactor(d, p, q, k, e * k + t);
      ProperDivisors();
      assert false;
    }
  }

  /** The powers of x repeat exactly every 32767 steps. */
  lemma Order(d: nat)
    ensures IsPeriod(d) <==> d % 32767 == 0
  {
    hide IsPeriod;
    if IsPeriod(d) {
      PrimeDivides(d, 7, 4681);
      PrimeDivides(d, 31, 1057);
      PrimeDivides(d, 151, 217);
      AllThreeDivide(d);
    }
    if d % 32767 == 0 {
      FullPeriod();
      PeriodMultiple(32767, d / 32767);
    }
  }

  lemma MultipleOf(d: int, m: int)
    requires d == 32767 * m
    ensures d % 32767 == 0
  {
  }

  lemma AllThreeDivide(d: nat)
    requires d % 7 == 0 && d % 31 == 0 && d % 151 == 0
    ensures d % 32767 == 0
  {
    var a, b, c := d / 7, d / 31, d / 151;
    var e := 9 * b - 2 * a;
    assert d == 7 * a && d == 31 * b && d == 151 * c;
    assert d == 217 * e;
    MultipleOf(d, 23 * e - 16 * c);
  }

  /** Flipping two bits of an accepted packet, d positions apart, gives another accepted packet
      exactly when d is a multiple of 32767: every two-bit error in a packet of up to 4095
      octets is detected. */
  lemma TwoFlipsAccepted(p: seq<octet>, q: seq<octet>, k: nat, d: nat)
    requires Accepted(p) && |p| == |q| && 0 < d && k + d < 8 * |p|
    requires Xor(MessageBits(p), MessageBits(q))
          == Zeros(k) + ([true] + Zeros(d - 1) + [true]) + Zeros(8 * |p| - k - d - 1)
    ensures Accepted(q) <==> d % 32767 == 0
  {
    hide IsPeriod, Accepted;
    PolyFacts();
    TwoBitError(POLY, Init(), MessageBits(p), MessageBits(q), k, d);
    SecondAccepted(p, q);
    PolyPeriod(d);
    Order(d);
  }
}
