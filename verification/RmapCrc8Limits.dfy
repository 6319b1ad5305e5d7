/**
 What the RMAP CRC-8 does not detect: the nine-bit pattern of its polynomial, and two flipped bits
 whose distance is a multiple of 127, the order of x modulo x^8 + x^2 + x + 1.
 */
module RmapCrc8Limits {
  import opened BitStrings
  import opened Lfsr
  import opened RmapCrc8

  lemma PolyFacts()
    ensures |POLY| == 8 && POLY[7] && POLY == ByteBits(0xe0)
  {
    assert POLY == [false, false, false, false, false, true, true, true];
  }

  /** Eight bits is the limit: flipping the nine-bit pattern of the polynomial at any position, in
      transmission order, leaves the checksum as it is. */
  lemma NineBitBurstUnnoticed(s: seq<octet>, t: seq<octet>, k: nat)
    requires |s| == |t| && k + 9 <= 8 * |s|
    requires Xor(StreamBits(s), StreamBits(t)) == Zeros(k) + ([true] + POLY) + Zeros(8 * |s| - k - 9)
    ensures Crc(s) == Crc(t)
  {
    hide Run, Xor, Reverse, StreamBits;
    PolyFacts();
    DivisorGoesUnnoticed(POLY, Zeros(8), StreamBits(s), StreamBits(t), k);
  }

  // ---- the order of x ------------------------------------------------------------------------

  /** None of the next n steps from c leads to the divisor. */
  predicate Avoids(n: nat, c: bv8) {
    n == 0 || (Half(c) != 0xe0 && Avoids(n - 1, Half(c)))
  }

  lemma {:induction false} HalvesAvoid(n: nat, c: bv8, r: nat)
    requires Avoids(n, c) && 0 < r <= n
    ensures Halves(r, c) != 0xe0
    decreases n
  {
    hide Half;
    if r > 1 {
      HalvesAvoid(n - 1, Half(c), r - 1);
    } else {
      assert Halves(1, c) == Halves(0, Half(c));
    }
  }

  lemma {:induction false} HalvesSum(m: nat, n: nat, c: bv8)
    ensures Halves(m + n, c) == Halves(n, Halves(m, c))
    decreases m
  {
    hide Half;
    if m != 0 {
      HalvesSum(m - 1, n, Half(c));
    }
  }

  lemma {:induction false} AvoidsSum(m: nat, n: nat, c: bv8)
    requires Avoids(m, c) && Avoids(n, Halves(m, c))
    ensures Avoids(m + n, c)
    decreases m
  {
    hide Half;
    if m != 0 {
      AvoidsSum(m - 1, n, Half(c));
    }
  }

  /** Eight steps lead from c to d, past the divisor. */
  ghost predicate Leads(c: bv8, d: bv8) {
    Avoids(8, c) && Halves(8, c) == d
  }

  lemma Octets0()
    ensures Leads(0xe0, 0xa8) && Leads(0xa8, 0xd6) && Leads(0xd6, 0x68)
  {
  }

  lemma Octets24()
    ensures Leads(0x68, 0x46) && Leads(0x46, 0x94) && Leads(0x94, 0xfb)
  {
  }

  lemma Octets48()
    ensures Leads(0xfb, 0xc8) && Leads(0xc8, 0x9e) && Leads(0x9e, 0x16)
  {
  }

  lemma Octets72()
    ensures Leads(0x16, 0xf8) && Leads(0xf8, 0xba) && Leads(0xba, 0x29)
  {
  }

  lemma Octets96()
    ensures Leads(0x29, 0xa7) && Leads(0xa7, 0xad) && Leads(0xad, 0x40)
  {
  }

  lemma LastSteps()
    ensures Avoids(6, 0x40) && Halves(7, 0x40) == 0xe0
  {
  }

  lemma OneMoreOctet(n: nat, c: bv8, d: bv8)
    requires Avoids(n, 0xe0) && Halves(n, 0xe0) == c && Leads(c, d)
    ensures Avoids(n + 8, 0xe0) && Halves(n + 8, 0xe0) == d
  {
    hide Half;
    HalvesSum(n, 8, 0xe0);
    AvoidsSum(n, 8, 0xe0);
  }

  lemma FirstHalf()
    ensures Avoids(64, 0xe0) && Halves(64, 0xe0) == 0x9e
  {
    hide Half, Avoids, Halves, Leads;
    assert Avoids(0, 0xe0) && Halves(0, 0xe0) == 0xe0 by {
      NoSteps(0xe0);
    }
    Octets0();
    Octets24();
    Octets48();
    OneMoreOctet(0, 0xe0, 0xa8);
    OneMoreOctet(8, 0xa8, 0xd6);
    OneMoreOctet(16, 0xd6, 0x68);
    OneMoreOctet(24, 0x68, 0x46);
    OneMoreOctet(32, 0x46, 0x94);
    OneMoreOctet(40, 0x94, 0xfb);
    OneMoreOctet(48, 0xfb, 0xc8);
    OneMoreOctet(56, 0xc8, 0x9e);
  }

  lemma NoSteps(c: bv8)
    ensures Avoids(0, c) && Halves(0, c) == c
  {
  }

  /** The divisor comes back after 127 steps and not before. */
  lemma FullTurn()
    ensures Avoids(126, 0xe0) && Halves(127, 0xe0) == 0xe0
  {
    hide Half, Avoids, Halves, Leads;
    FirstHalf();
    Octets48();
    Octets72();
    Octets96();
    OneMoreOctet(64, 0x9e, 0x16);
    OneMoreOctet(72, 0x16, 0xf8);
    OneMoreOctet(80, 0xf8, 0xba);
    OneMoreOctet(88, 0xba, 0x29);
    OneMoreOctet(96, 0x29, 0xa7);
    OneMoreOctet(104, 0xa7, 0xad);
    OneMoreOctet(112, 0xad, 0x40);
    LastSteps();
    AvoidsSum(120, 6, 0xe0);
    HalvesSum(120, 7, 0xe0);
  }

  lemma {:induction false} Turns(d: nat)
    ensures Halves(d, 0xe0) == 0xe0 <==> d % 127 == 0
    decreases d
  {
    hide Half, Halves, Avoids;
    FullTurn();
    if d >= 127 {
      HalvesSum(127, d - 127, 0xe0);
      Turns(d - 127);
      assert d % 127 == (d - 127) % 127;
    } else if d > 0 {
      HalvesAvoid(126, 0xe0, d);
    } else {
      NoSteps(0xe0);
    }
  }

  lemma BitsDecide(a: bv8)
    requires a & 0x01 == 0 && a & 0x02 == 0 && a & 0x04 == 0 && a & 0x08 == 0 && a & 0x10 == 0
    requires a & 0x20 != 0 && a & 0x40 != 0 && a & 0x80 != 0
    ensures a == 0xe0
  {
  }

  lemma DivisorByte(a: bv8)
    ensures ByteBits(a) == POLY <==> a == 0xe0
  {
    PolyFacts();
    if ByteBits(a) == POLY {
      var b := ByteBits(a);
      assert !b[0] && !b[1] && !b[2] && !b[3] && !b[4] && b[5] && b[6] && b[7];
      BitsDecide(a);
    }
  }

  /** Two flipped bits, d positions apart in transmission order, leave the checksum as it is exactly
      when d is a multiple of 127: in at most 15 octets a double error is always detected. */
  lemma TwoFlipsUnnoticed(s: seq<octet>, t: seq<octet>, k: nat, d: nat)
    requires |s| == |t| && 0 < d && k + d < 8 * |s|
    requires Xor(StreamBits(s), StreamBits(t))
          == Zeros(k) + ([true] + Zeros(d - 1) + [true]) + Zeros(8 * |s| - k - d - 1)
    ensures Crc(s) == Crc(t) <==> d % 127 == 0
  {
    hide Run, Xor, Reverse, StreamBits, Half, Halves, ByteBits, Zeros;
    PolyFacts();
    TwoBitError(POLY, Zeros(8), StreamBits(s), StreamBits(t), k, d);
    ReverseInjective(Run(POLY, Zeros(8), StreamBits(s)), Run(POLY, Zeros(8), StreamBits(t)));
    HalvesRun(d, 0xe0);
    DivisorByte(Halves(d, 0xe0));
    Turns(d);
  }
}
