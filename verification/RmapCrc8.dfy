/**
 The RMAP CRC-8 of ECSS-E-ST-50-52C, annex A.3: a table loop, proved to be bit-serial division
 by x^8 + x^2 + x + 1 with every octet consumed least significant bit first.
 */
module RmapCrc8 {
  import opened BitStrings
  import opened Lfsr

  /** x^8 + x^2 + x + 1 without its leading term, highest power first. */
  ghost const POLY: Bits := Zeros(5) + Ones(3)

  /** Row r of the lookup table, eight entries as the standard prints them. */
  function TableRow(r: nat): (row: seq<bv8>)
    requires r < 32
    ensures |row| == 8
  {
    if r < 8 then Rows0(r) else if r < 16 then Rows8(r) else if r < 24 then Rows16(r) else Rows24(r)
  }

  function Rows0(r: nat): (row: seq<bv8>)
    ensures |row| == 8
  {
    if r == 0 then [0x00, 0x91, 0xe3, 0x72, 0x07, 0x96, 0xe4, 0x75]
    else if r == 1 then [0x0e, 0x9f, 0xed, 0x7c, 0x09, 0x98, 0xea, 0x7b]
    else if r == 2 then [0x1c, 0x8d, 0xff, 0x6e, 0x1b, 0x8a, 0xf8, 0x69]
    else if r == 3 then [0x12, 0x83, 0xf1, 0x60, 0x15, 0x84, 0xf6, 0x67]
    else if r == 4 then [0x38, 0xa9, 0xdb, 0x4a, 0x3f, 0xae, 0xdc, 0x4d]
    else if r == 5 then [0x36, 0xa7, 0xd5, 0x44, 0x31, 0xa0, 0xd2, 0x43]
    else if r == 6 then [0x24, 0xb5, 0xc7, 0x56, 0x23, 0xb2, 0xc0, 0x51]
    else [0x2a, 0xbb, 0xc9, 0x58, 0x2d, 0xbc, 0xce, 0x5f]
  }

  function Rows8(r: nat): (row: seq<bv8>)
    ensures |row| == 8
  {
    if r == 8 then [0x70, 0xe1, 0x93, 0x02, 0x77, 0xe6, 0x94, 0x05]
    else if r == 9 then [0x7e, 0xef, 0x9d, 0x0c, 0x79, 0xe8, 0x9a, 0x0b]
    else if r == 10 then [0x6c, 0xfd, 0x8f, 0x1e, 0x6b, 0xfa, 0x88, 0x19]
    else if r == 11 then [0x62, 0xf3, 0x81, 0x10, 0x65, 0xf4, 0x86, 0x17]
    else if r == 12 then [0x48, 0xd9, 0xab, 0x3a, 0x4f, 0xde, 0xac, 0x3d]
    else if r == 13 then [0x46, 0xd7, 0xa5, 0x34, 0x41, 0xd0, 0xa2, 0x33]
    else if r == 14 then [0x54, 0xc5, 0xb7, 0x26, 0x53, 0xc2, 0xb0, 0x21]
    else [0x5a, 0xcb, 0xb9, 0x28, 0x5d, 0xcc, 0xbe, 0x2f]
  }

  function Rows16(r: nat): (row: seq<bv8>)
    ensures |row| == 8
  {
    if r == 16 then [0xe0, 0x71, 0x03, 0x92, 0xe7, 0x76, 0x04, 0x95]
    else if r == 17 then [0xee, 0x7f, 0x0d, 0x9c, 0xe9, 0x78, 0x0a, 0x9b]
    else if r == 18 then [0xfc, 0x6d, 0x1f, 0x8e, 0xfb, 0x6a, 0x18, 0x89]
    else if r == 19 then [0xf2, 0x63, 0x11, 0x80, 0xf5, 0x64, 0x16, 0x87]
    else if r == 20 then [0xd8, 0x49, 0x3b, 0xaa, 0xdf, 0x4e, 0x3c, 0xad]
    else if r == 21 then [0xd6, 0x47, 0x35, 0xa4, 0xd1, 0x40, 0x32, 0xa3]
    else if r == 22 then [0xc4, 0x55, 0x27, 0xb6, 0xc3, 0x52, 0x20, 0xb1]
    else [0xca, 0x5b, 0x29, 0xb8, 0xcd, 0x5c, 0x2e, 0xbf]
  }

  function Rows24(r: nat): (row: seq<bv8>)
    ensures |row| == 8
  {
    if r == 24 then [0x90, 0x01, 0x73, 0xe2, 0x97, 0x06, 0x74, 0xe5]
    else if r == 25 then [0x9e, 0x0f, 0x7d, 0xec, 0x99, 0x08, 0x7a, 0xeb]
    else if r == 26 then [0x8c, 0x1d, 0x6f, 0xfe, 0x8b, 0x1a, 0x68, 0xf9]
    else if r == 27 then [0x82, 0x13, 0x61, 0xf0, 0x85, 0x14, 0x66, 0xf7]
    else if r == 28 then [0xa8, 0x39, 0x4b, 0xda, 0xaf, 0x3e, 0x4c, 0xdd]
    else if r == 29 then [0xa6, 0x37, 0x45, 0xd4, 0xa1, 0x30, 0x42, 0xd3]
    else if r == 30 then [0xb4, 0x25, 0x57, 0xc6, 0xb3, 0x22, 0x50, 0xc1]
    else [0xba, 0x2b, 0x59, 0xc8, 0xbd, 0x2c, 0x5e, 0xcf]
  }

  // ---- the table is the register after eight steps ---------------------------------------

  /** A number as a machine octet. */
  function Byte(n: nat): bv8 {
    if n == 0 then 0 else Push(Byte(n / 2), n % 2 == 1)
  }

  function Push(x: bv8, b: bool): bv8 {
    if b then (x << 1) | 1 else x << 1
  }

  /** Least significant bit first. */
  function ByteBits(c: bv8): (r: Bits)
    ensures |r| == 8
  {
    [c & 0x01 != 0, c & 0x02 != 0, c & 0x04 != 0, c & 0x08 != 0,
     c & 0x10 != 0, c & 0x20 != 0, c & 0x40 != 0, c & 0x80 != 0]
  }

  /** One bit-serial step on the reflected register: shift right and, if a one falls out,
      subtract the reflected divisor 0xe0. */
  function Half(c: bv8): bv8 {
    if c & 1 != 0 then (c >> 1) ^ 0xe0 else c >> 1
  }

  function Half8(c: bv8): bv8 {
    Half(Half(Half(Half(Half(Half(Half(Half(c))))))))
  }

  function Halves(n: nat, c: bv8): bv8 {
    if n == 0 then c else Halves(n - 1, Half(c))
  }

  /** Row r holds what the eight indices from c on leave after eight steps. */
  ghost predicate RowFrom(r: nat, c: bv8)
    requires r < 32
  {
    var row := TableRow(r);
    && row[0] == Half8(c) && row[1] == Half8(c + 1) && row[2] == Half8(c + 2) && row[3] == Half8(c + 3)
    && row[4] == Half8(c + 4) && row[5] == Half8(c + 5) && row[6] == Half8(c + 6) && row[7] == Half8(c + 7)
  }

  lemma TableRows0()
    ensures RowFrom(0, 0) && RowFrom(1, 8) && RowFrom(2, 16) && RowFrom(3, 24)
  {
  }

  lemma TableRows4()
    ensures RowFrom(4, 32) && RowFrom(5, 40) && RowFrom(6, 48) && RowFrom(7, 56)
  {
  }

  lemma TableRows8()
    ensures RowFrom(8, 64) && RowFrom(9, 72) && RowFrom(10, 80) && RowFrom(11, 88)
  {
  }

  lemma TableRows12()
    ensures RowFrom(12, 96) && RowFrom(13, 104) && RowFrom(14, 112) && RowFrom(15, 120)
  {
  }

  lemma TableRows16()
    ensures RowFrom(16, 128) && RowFrom(17, 136) && RowFrom(18, 144) && RowFrom(19, 152)
  {
  }

  lemma TableRows20()
    ensures RowFrom(20, 160) && RowFrom(21, 168) && RowFrom(22, 176) && RowFrom(23, 184)
  {
  }

  lemma TableRows24()
    ensures RowFrom(24, 192) && RowFrom(25, 200) && RowFrom(26, 208) && RowFrom(27, 216)
  {
  }

  lemma TableRows28()
    ensures RowFrom(28, 224) && RowFrom(29, 232) && RowFrom(30, 240) && RowFrom(31, 248)
  {
  }

  lemma Indices0()
    ensures Byte(0) == 0 && Byte(1) == 1 && Byte(2) == 2 && Byte(3) == 3
  {
  }

  lemma Indices4()
    ensures Byte(4) == 4 && Byte(5) == 5 && Byte(6) == 6 && Byte(7) == 7
  {
  }

  lemma Indices8()
    ensures Byte(8) == 8 && Byte(9) == 9 && Byte(10) == 10 && Byte(11) == 11
  {
  }

  lemma Indices12()
    ensures Byte(12) == 12 && Byte(13) == 13 && Byte(14) == 14 && Byte(15) == 15
  {
  }

  lemma Indices16()
    ensures Byte(16) == 16 && Byte(17) == 17 && Byte(18) == 18 && Byte(19) == 19
  {
  }

  lemma Indices20()
    ensures Byte(20) == 20 && Byte(21) == 21 && Byte(22) == 22 && Byte(23) == 23
  {
  }

  lemma Indices24()
    ensures Byte(24) == 24 && Byte(25) == 25 && Byte(26) == 26 && Byte(27) == 27
  {
  }

  lemma Indices28()
    ensures Byte(28) == 28 && Byte(29) == 29 && Byte(30) == 30 && Byte(31) == 31
  {
  }

  lemma PushThree(x: bv8, a: bool, b: bool, c: bool)
    ensures Push(Push(Push(x, a), b), c)
         == (x << 3) + (if a then 4 else 0) + (if b then 2 else 0) + (if c then 1 else 0)
  {
  }

  lemma PushBits(x: bv8, b: bool)
    ensures Push(x, b) & 0x01 != 0 <==> b
    ensures Push(x, b) & 0x02 != 0 <==> x & 0x01 != 0
    ensures Push(x, b) & 0x04 != 0 <==> x & 0x02 != 0
    ensures Push(x, b) & 0x08 != 0 <==> x & 0x04 != 0
    ensures Push(x, b) & 0x10 != 0 <==> x & 0x08 != 0
    ensures Push(x, b) & 0x20 != 0 <==> x & 0x10 != 0
    ensures Push(x, b) & 0x40 != 0 <==> x & 0x20 != 0
    ensures Push(x, b) & 0x80 != 0 <==> x & 0x40 != 0
  {
  }

  lemma Front(b: bool, x0: bool, x1: bool, x2: bool, x3: bool, x4: bool, x5: bool, x6: bool, x7: bool)
    ensures [b, x0, x1, x2, x3, x4, x5, x6] == [b] + [x0, x1, x2, x3, x4, x5, x6, x7][..7]
  {
    assert [x0, x1, x2, x3, x4, x5, x6, x7][..7] == [x0, x1, x2, x3, x4, x5, x6];
  }

  lemma PushBit(x: bv8, b: bool)
    ensures ByteBits(Push(x, b)) == [b] + ByteBits(x)[..7]
  {
    hide Push, Xor;
    PushBits(x, b);
    Front(b, x & 0x01 != 0, x & 0x02 != 0, x & 0x04 != 0, x & 0x08 != 0,
          x & 0x10 != 0, x & 0x20 != 0, x & 0x40 != 0, x & 0x80 != 0);
  }

  lemma Back(x0: bool, x1: bool, x2: bool, x3: bool, x4: bool, x5: bool, x6: bool, x7: bool)
    ensures [x1, x2, x3, x4, x5, x6, x7, false] == [x0, x1, x2, x3, x4, x5, x6, x7][1..] + [false]
    ensures Xor([x1, x2, x3, x4, x5, x6, x7, false], POLY) == [x1, x2, x3, x4, x5, !x6, !x7, true]
  {
  }

  lemma HalfBits(c: bv8)
    ensures Half(c) & 0x01 != 0 <==> c & 0x02 != 0
    ensures Half(c) & 0x02 != 0 <==> c & 0x04 != 0
    ensures Half(c) & 0x04 != 0 <==> c & 0x08 != 0
    ensures Half(c) & 0x08 != 0 <==> c & 0x10 != 0
    ensures Half(c) & 0x10 != 0 <==> c & 0x20 != 0
    ensures Half(c) & 0x20 != 0 <==> (c & 0x40 != 0) != (c & 1 != 0)
    ensures Half(c) & 0x40 != 0 <==> (c & 0x80 != 0) != (c & 1 != 0)
    ensures Half(c) & 0x80 != 0 <==> c & 1 != 0
  {
  }

  lemma HalfShifts(c: bv8)
    ensures ByteBits(Half(c)) == Shift(POLY, ByteBits(c), false)
  {
    hide Half, Xor;
    HalfBits(c);
    Back(c & 0x01 != 0, c & 0x02 != 0, c & 0x04 != 0, c & 0x08 != 0,
         c & 0x10 != 0, c & 0x20 != 0, c & 0x40 != 0, c & 0x80 != 0);
  }

  ghost predicate GoodRow(r: nat)
    requires r < 32
  {
    RowFrom(r, Byte(r) << 3)
  }

  lemma GoodRows0()
    ensures GoodRow(0) && GoodRow(1) && GoodRow(2) && GoodRow(3)
  {
    hide RowFrom, Byte;
    Indices0();
    TableRows0();
  }

  lemma GoodRows4()
    ensures GoodRow(4) && GoodRow(5) && GoodRow(6) && GoodRow(7)
  {
    hide RowFrom, Byte;
    Indices4();
    TableRows4();
  }

  lemma GoodRows8()
    ensures GoodRow(8) && GoodRow(9) && GoodRow(10) && GoodRow(11)
  {
    hide RowFrom, Byte;
    Indices8();
    TableRows8();
  }

  lemma GoodRows12()
    ensures GoodRow(12) && GoodRow(13) && GoodRow(14) && GoodRow(15)
  {
    hide RowFrom, Byte;
    Indices12();
    TableRows12();
  }

  lemma GoodRows16()
    ensures GoodRow(16) && GoodRow(17) && GoodRow(18) && GoodRow(19)
  {
    hide RowFrom, Byte;
    Indices16();
    TableRows16();
  }

  lemma GoodRows20()
    ensures GoodRow(20) && GoodRow(21) && GoodRow(22) && GoodRow(23)
  {
    hide RowFrom, Byte;
    Indices20();
    TableRows20();
  }

  lemma GoodRows24()
    ensures GoodRow(24) && GoodRow(25) && GoodRow(26) && GoodRow(27)
  {
    hide RowFrom, Byte;
    Indices24();
    TableRows24();
  }

  lemma GoodRows28()
    ensures GoodRow(28) && GoodRow(29) && GoodRow(30) && GoodRow(31)
  {
    hide RowFrom, Byte;
    Indices28();
    TableRows28();
  }

  lemma AllRowsGood(r: nat)
    requires r < 32
    ensures GoodRow(r)
  {
    hide GoodRow;
    if r < 4 {
      GoodRows0();
    } else if r < 8 {
      GoodRows4();
    } else if r < 12 {
      GoodRows8();
    } else if r < 16 {
      GoodRows12();
    } else if r < 20 {
      GoodRows16();
    } else if r < 24 {
      GoodRows20();
    } else if r < 28 {
      GoodRows24();
    } else {
      GoodRows28();
    }
  }

  /** Every entry of the table is its own index after eight steps of the register. */
  lemma EntryIsEightSteps(v: nat)
    requires v < 256
    ensures TableRow(v / 8)[v % 8] == Half8(Byte(v))
  {
    hide TableRow, Half8, Byte;
    AllRowsGood(v / 8);
    ByteSplit(v);
    PickEntry(v / 8, Byte(v / 8) << 3, v % 8);
  }

  lemma PickEntry(r: nat, c: bv8, k: nat)
    requires r < 32 && k < 8 && RowFrom(r, c)
    ensures TableRow(r)[k] == Half8(c + Low(k))
  {
    hide TableRow, Half8;
  }

  function Low(k: nat): bv8
    requires k < 8
  {
    if k == 0 then 0 else if k == 1 then 1 else if k == 2 then 2 else if k == 3 then 3
    else if k == 4 then 4 else if k == 5 then 5 else if k == 6 then 6 else 7
  }

  lemma LowIsBinary(k: nat)
    requires k < 8
    ensures Low(k) == (if k / 4 == 1 then 4 else 0) + (if k / 2 % 2 == 1 then 2 else 0)
                    + (if k % 2 == 1 then 1 else 0)
  {
    assert k == 0 || k == 1 || k == 2 || k == 3 || k == 4 || k == 5 || k == 6 || k == 7;
  }

  lemma Sum(x: bv8, a: bv8, b: bv8, c: bv8)
    ensures x + a + b + c == x + (a + b + c)
  {
  }

  lemma ByteSplit(v: nat)
    requires v < 256
    ensures Byte(v) == (Byte(v / 8) << 3) + Low(v % 8)
  {
    hide Push, Low;
    var r, k := v / 8, v % 8;
    ByteUnfold(v);
    PushThree(Byte(r), k / 4 == 1, k / 2 % 2 == 1, k % 2 == 1);
    LowIsBinary(k);
    Sum(Byte(r) << 3, if k / 4 == 1 then 4 else 0, if k / 2 % 2 == 1 then 2 else 0, if k % 2 == 1 then 1 else 0);
  }

  lemma ByteUnfold(v: nat)
    ensures var k := v % 8;
            Byte(v) == Push(Push(Push(Byte(v / 8), k / 4 == 1), k / 2 % 2 == 1), k % 2 == 1)
  {
    hide Push;
    var r, k := v / 8, v % 8;
    assert v == 8 * r + k && v / 2 == 4 * r + k / 2 && v / 2 / 2 == 2 * r + k / 4 && v / 2 / 2 / 2 == r;
    PushNothing();
    assert Byte(v / 2 / 2) == Push(Byte(r), k / 4 == 1);
    assert Byte(v / 2) == Push(Byte(v / 2 / 2), k / 2 % 2 == 1);
    assert Byte(v) == Push(Byte(v / 2), k % 2 == 1);
  }

  lemma PushNothing()
    ensures Push(0, false) == 0
  {
  }

  // ---- numbers, octets and their bits ------------------------------------------------------

  function Reverse(a: Bits): (r: Bits)
    ensures |r| == |a| && forall i :: 0 <= i < |a| ==> r[i] == a[|a| - 1 - i]
  {
    seq(|a|, i requires 0 <= i < |a| => a[|a| - 1 - i])
  }

  lemma ReverseTwice(a: Bits)
    ensures Reverse(Reverse(a)) == a
  {
  }

  lemma ReverseXor(a: Bits, b: Bits)
    requires |a| == |b|
    ensures Reverse(Xor(a, b)) == Xor(Reverse(a), Reverse(b))
  {
  }

  lemma ReverseAppend(a: Bits, b: bool)
    ensures Reverse(a + [b]) == [b] + Reverse(a)
  {
  }

  /** Reading an octet as an array index and taking its low bits first mirrors it. */
  lemma {:induction false} IndexBits(a: Bits)
    requires |a| <= 8
    ensures ByteBits(Byte(Value(a))) == Reverse(a) + Zeros(8 - |a|)
    decreases |a|
  {
    hide ByteBits, Push;
    if a == [] {
      ZeroByte();
      assert Reverse(a) + Zeros(8) == Zeros(8);
    } else {
      var t, b := a[..|a| - 1], a[|a| - 1];
      IndexBits(t);
      assert a == t + [b];
      ReverseAppend(t, b);
      PushNothing();
      assert Byte(Value(a)) == Push(Byte(Value(t)), b);
      PushBit(Byte(Value(t)), b);
      assert (Reverse(t) + Zeros(8 - |t|))[..7] == Reverse(t) + Zeros(7 - |t|);
    }
  }

  lemma ZeroByte()
    ensures ByteBits(0) == Zeros(8)
  {
  }

  // ---- the checksum --------------------------------------------------------------------------

  /** Entry `i` of the table, as an octet. */
  function Lookup(i: octet): octet {
    assert Pow2(8) == 256;
    Reverse(ByteBits(TableRow(Value(i) / 8)[Value(i) % 8]))
  }

  lemma {:induction false} HalvesRun(n: nat, c: bv8)
    ensures ByteBits(Halves(n, c)) == Run(POLY, ByteBits(c), Zeros(n))
    decreases n
  {
    hide ByteBits, Half;
    if n == 0 {
    } else {
      HalfShifts(c);
      assert Zeros(n)[1..] == Zeros(n - 1);
      HalvesRun(n - 1, Half(c));
    }
  }

  lemma HalvesUnfold(c: bv8)
    ensures Halves(8, c) == Half8(c)
  {
    hide Half;
    var c1, c2 := Half(c), Half(Half(c));
    var c3, c4 := Half(c2), Half(Half(c2));
    assert Halves(8, c) == Halves(7, c1) == Halves(6, c2) == Halves(5, c3) == Halves(4, c4);
    var c6 := Half(Half(c4));
    assert Halves(4, c4) == Halves(3, Half(c4)) == Halves(2, c6);
    assert Halves(2, c6) == Halves(1, Half(c6)) == Halves(0, Half(Half(c6)));
  }

  lemma LookupIsEntry(i: octet)
    ensures Reverse(Lookup(i)) == TableEntry(POLY, Reverse(i))
  {
    hide ByteBits, Half, Byte, TableRow, Run, Xor, Reverse;
    var c := Byte(Value(i));
    EntryIsEightSteps(Value(i));
    HalvesUnfold(c);
    HalvesRun(8, c);
    IndexBits(i);
    assert Reverse(i) + Zeros(0) == Reverse(i);
    ReverseTwice(ByteBits(Half8(c)));
    FedOrLoaded(Reverse(i), Zeros(8));
    XorZeros(Reverse(i));
  }

  /** Loading the register and feeding the input are interchangeable. */
  lemma FedOrLoaded(a: Bits, w: Bits)
    requires |a| == |w| == 8
    ensures Run(POLY, a, w) == TableEntry(POLY, Xor(a, w))
  {
    hide Run, Xor;
    assert a + [] == a && Zeros(8) + [] == Zeros(8);
    FrontIsFed(POLY, a, [], w);
  }

  /** The octets of a buffer as one bit string, least significant bits first. */
  function StreamBits(s: seq<octet>): (r: Bits)
    ensures |r| == 8 * |s|
    decreases |s|
  {
    if s == [] then [] else StreamBits(s[..|s| - 1]) + Reverse(s[|s| - 1])
  }

  /** Bit-serial reflected division of the whole buffer by x^8 + x^2 + x + 1. */
  ghost function Crc(s: seq<octet>): octet {
    Reverse(Run(POLY, Zeros(8), StreamBits(s)))
  }

  lemma Step(crc8: octet, b: octet)
    ensures Reverse(Lookup(Xor(crc8, b))) == Run(POLY, Reverse(crc8), Reverse(b))
  {
    hide Run, Xor, Reverse, Lookup;
    LookupIsEntry(Xor(crc8, b));
    ReverseXor(crc8, b);
    FedOrLoaded(Reverse(crc8), Reverse(b));
  }

  lemma CrcStep(s: seq<octet>, b: octet)
    ensures Crc(s + [b]) == Lookup(Xor(Crc(s), b))
  {
    hide Run, Xor, Reverse, Lookup;
    assert (s + [b])[..|s|] == s;
    RunConcat(POLY, Zeros(8), StreamBits(s), Reverse(b));
    Step(Crc(s), b);
    ReverseTwice(Run(POLY, Zeros(8), StreamBits(s)));
    ReverseTwice(Lookup(Xor(Crc(s), b)));
  }

  /** rmap_crc8(): the table loop is the bit-serial division, for every buffer. */
  method Crc8(buf: array?<octet>, len: nat) returns (crc8: octet)
    requires buf != null ==> len <= buf.Length
    ensures buf == null ==> crc8 == Zeros(8)
    ensures buf != null ==> crc8 == Crc(buf[..len])
  {
    crc8 := Zeros(8);
    if buf == null {
      return;
    }
    assert Crc([]) == Zeros(8);
    assert buf[..0] == [];
    for i := 0 to len
      invariant crc8 == Crc(buf[..i])
    {
      CrcStep(buf[..i], buf[i]);
      assert buf[..i + 1] == buf[..i] + [buf[i]];
      crc8 := Lookup(Xor(crc8, buf[i]));
    }
  }

  // ---- what the checksum guarantees ------------------------------------------------------------

  /** A buffer followed by one more octet has checksum zero exactly when that octet is the
      checksum of the buffer. */
  lemma ResidueZero(s: seq<octet>, check: octet)
    ensures Crc(s + [check]) == Zeros(8) <==> check == Crc(s)
  {
    hide Run, Reverse;
    assert (s + [check])[..|s|] == s;
    var c := Run(POLY, Zeros(8), StreamBits(s));
    RunConcat(POLY, Zeros(8), StreamBits(s), Reverse(check));
    Residue(POLY, c, Reverse(check));
    ReverseTwice(check);
    ReverseTwice(c);
    ReverseInjective(Run(POLY, c, Reverse(check)), Zeros(8));
    assert Reverse(Zeros(8)) == Zeros(8) by {
      ReverseZeros();
    }
  }

  lemma ReverseZeros()
    ensures Reverse(Zeros(8)) == Zeros(8)
  {
  }

  lemma ReverseInjective(a: Bits, b: Bits)
    ensures Reverse(a) == Reverse(b) <==> a == b
  {
    ReverseTwice(a);
    ReverseTwice(b);
  }

  lemma {:induction false} StreamBitsInjective(s: seq<octet>, t: seq<octet>)
    requires |s| == |t|
    ensures StreamBits(s) == StreamBits(t) <==> s == t
    decreases |s|
  {
    hide Reverse;
    if s == [] {
    } else {
      var n := |s| - 1;
      StreamBitsInjective(s[..n], t[..n]);
      ReverseInjective(s[n], t[n]);
      var a, b := StreamBits(s), StreamBits(t);
      assert a[..8 * n] == StreamBits(s[..n]) && a[8 * n..] == Reverse(s[n]);
      assert b[..8 * n] == StreamBits(t[..n]) && b[8 * n..] == Reverse(t[n]);
      assert s == s[..n] + [s[n]] && t == t[..n] + [t[n]];
    }
  }

  /** Any change confined to eight consecutive bits, in transmission order, changes the
      checksum. */
  lemma BurstDetected(s: seq<octet>, t: seq<octet>, k: nat)
    requires |s| == |t| && s != t
    requires DifferOnlyIn(StreamBits(s), StreamBits(t), k, 8)
    ensures Crc(s) != Crc(t)
  {
    hide Run, Reverse, StreamBits;
    StreamBitsInjective(s, t);
    BurstChangesRegister(POLY, Zeros(8), StreamBits(s), StreamBits(t), k);
    ReverseInjective(Run(POLY, Zeros(8), StreamBits(s)), Run(POLY, Zeros(8), StreamBits(t)));
  }

  /** So does any odd number of flipped bits. */
  lemma OddFlipsDetected(s: seq<octet>, t: seq<octet>)
    requires |s| == |t| && Distance(StreamBits(s), StreamBits(t)) % 2 == 1
    ensures Crc(s) != Crc(t)
  {
    hide Run, Reverse, StreamBits, Distance;
    PolyOdd();
    OddErrorChangesRegister(POLY, Zeros(8), StreamBits(s), StreamBits(t));
    ReverseInjective(Run(POLY, Zeros(8), StreamBits(s)), Run(POLY, Zeros(8), StreamBits(t)));
  }

  lemma PolyOdd()
    ensures Odd(POLY)
  {
    assert POLY[1..][1..][1..][1..][1..] == Ones(3);
    assert Ones(3)[1..][1..] == [true];
    assert [true][1..] == [];
    assert Weight(POLY) == Weight(POLY[1..]) == Weight(POLY[1..][1..]) == Weight(POLY[1..][1..][1..])
        == Weight(POLY[1..][1..][1..][1..]) == Weight(Ones(3));
    assert Weight(Ones(3)) == 1 + Weight(Ones(3)[1..]) == 2 + Weight(Ones(3)[1..][1..]);
  }
}
