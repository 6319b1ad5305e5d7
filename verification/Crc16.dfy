/**
 CRC-16/CCITT-FALSE, the packet error control of ECSS PUS packets, as a function of the
 message: bit-serial division from the register 0xffff.  The table-driven and sliced forms
 that the program runs are proved equal to it in module Crc16Engine.
 */
module Crc16 {
  import opened BitStrings
  import opened Lfsr

  /** x^16 + x^12 + x^5 + 1 without its leading term, 0x1021. */
  ghost const POLY: Bits := Nibble(1) + Nibble(0) + Nibble(2) + Nibble(1)

  /** The start value 0xffff. */
  function Init(): word {
    Ones(16)
  }

  /** Feed one octet, most significant bit first. */
  ghost function Step(crc: word, b: octet): word {
    Run(POLY, crc, b)
  }

  /** The register after the octets of s. */
  ghost function Crc(crc: word, s: seq<octet>): word
    decreases |s|
  {
    if s == [] then crc else Step(Crc(crc, s[..|s| - 1]), s[|s| - 1])
  }

  /** What an octet leaves in a zero register: the entry of the lookup table. */
  ghost function Entry(b: octet): word {
    TableEntry(POLY, b)
  }

  /** The octets of a message as one bit string. */
  function MessageBits(s: seq<octet>): (r: Bits)
    ensures |r| == 8 * |s|
    decreases |s|
  {
    if s == [] then [] else MessageBits(s[..|s| - 1]) + s[|s| - 1]
  }

  lemma PolyFacts()
    ensures |POLY| == 16 && POLY[15] && POLY == ToBits(16, 0x1021)
  {
    HexWord(1, 0, 2, 1);
  }

  /** Together with its leading term the polynomial has an even number of terms. */
  lemma PolyOdd()
    ensures Odd(POLY)
  {
    var a, b := Zeros(3) + [true] + Zeros(6), [true] + Zeros(4) + [true];
    assert POLY == a + b;
    hide Odd;
    OddConcat(a, b);
    OddConcat(Zeros(3) + [true], Zeros(6));
    OddConcat(Zeros(3), [true]);
    OddConcat([true] + Zeros(4), [true]);
    OddConcat([true], Zeros(4));
    OddZeros(3);
    OddZeros(4);
    OddZeros(6);
    OddOne();
  }

  lemma OddConcat(a: Bits, b: Bits)
    ensures Odd(a + b) == (Odd(a) != Odd(b))
  {
    WeightConcat(a, b);
  }

  lemma {:induction false} OddZeros(n: nat)
    ensures !Odd(Zeros(n))
    decreases n
  {
    if n != 0 {
      assert Zeros(n)[1..] == Zeros(n - 1);
      OddZeros(n - 1);
    }
  }

  lemma OddOne()
    ensures Odd([true])
  {
    assert [true][1..] == [];
  }

  // ---- octet by octet is bit by bit -------------------------------------------------------

  /** The byte loop is bit-serial division of the whole message, for every message and every
      start value. */
  lemma {:induction false} CrcIsDivision(crc: word, s: seq<octet>)
    ensures Crc(crc, s) == Run(POLY, crc, MessageBits(s))
    decreases |s|
  {
    if s == [] {
    } else {
      var t, b := s[..|s| - 1], s[|s| - 1];
      CrcIsDivision(crc, t);
      RunConcat(POLY, crc, MessageBits(t), b);
    }
  }

  lemma {:induction false} CrcConcat(crc: word, s: seq<octet>, t: seq<octet>)
    ensures Crc(crc, s + t) == Crc(Crc(crc, s), t)
    decreases |t|
  {
    if t == [] {
      assert s + t == s;
    } else {
      assert (s + t)[..|s + t| - 1] == s + t[..|t| - 1];
      CrcConcat(crc, s, t[..|t| - 1]);
    }
  }

  lemma {:induction false} MessageBitsInjective(s: seq<octet>, t: seq<octet>)
    requires |s| == |t|
    ensures MessageBits(s) == MessageBits(t) <==> s == t
    decreases |s|
  {
    if s == [] {
    } else {
      var n := |s| - 1;
      MessageBitsInjective(s[..n], t[..n]);
      var a, b := MessageBits(s), MessageBits(t);
      assert a[..8 * n] == MessageBits(s[..n]) && a[8 * n..] == s[n];
      assert b[..8 * n] == MessageBits(t[..n]) && b[8 * n..] == t[n];
      assert s == s[..n] + [s[n]] && t == t[..n] + [t[n]];
    }
  }

  /** The lookup step: shift the register by one octet and add one table entry. */
  lemma StepByTable(crc: word, b: octet)
    ensures Step(crc, b) == Xor(crc[8..] + Zeros(8), Entry(Xor(crc[..8], b)))
  {
    PolyFacts();
    assert crc == crc[..8] + crc[8..];
    TableStep(POLY, crc[..8], crc[8..], b);
  }

  /** The property the sliced tables rest on: LUT[i ^ j] == LUT[i] ^ LUT[j]. */
  lemma EntryLinear(i: octet, j: octet)
    ensures Entry(Xor(i, j)) == Xor(Entry(i), Entry(j))
  {
    TableLinear(POLY, i, j);
  }

  lemma StepLinear(c: word, d: word, a: octet, b: octet)
    ensures Step(Xor(c, d), Xor(a, b)) == Xor(Step(c, a), Step(d, b))
  {
    RunLinear(POLY, c, d, a, b);
  }

  // ---- the packet check -------------------------------------------------------------------

  /** The start value: the only two octets that leave nothing in the register are 0xff 0xff. */
  lemma StartValue(a: octet, b: octet)
    ensures Crc(Init(), [a, b]) == Zeros(16) <==> Value(a) == 0xff && Value(b) == 0xff
  {
    hide Run, Value;
    assert [a, b][..1] == [a] && [a][..0] == [];
    assert Crc(Init(), [a, b]) == Step(Crc(Init(), [a]), b);
    assert Crc(Init(), [a]) == Step(Crc(Init(), []), a);
    FieldClears(Init(), a, b);
    assert Init() == Word(a, b) <==> a == Ones(8) && b == Ones(8) by {
      assert Init()[..8] == Ones(8) && Init()[8..] == Ones(8);
      assert Init() == Init()[..8] + Init()[8..];
      assert Word(a, b) == Word(a, b)[..8] + Word(a, b)[8..];
    }
    AllOnes(a);
    AllOnes(b);
  }

  lemma AllOnes(o: octet)
    ensures o == Ones(8) <==> Value(o) == 0xff
  {
    OctetValue(o);
    if Value(o) == 0xff {
      assert o[0] && o[1] && o[2] && o[3] && o[4] && o[5] && o[6] && o[7];
    }
  }

  lemma StartLiteral()
    ensures Init() == ToBits(16, 0xffff)
  {
    hide ToBits;
    HexWord(15, 15, 15, 15);
  }

  /** What pus_pkt_crc_valid() decides: more than two octets, and the last two are the
      checksum of the ones before. */
  ghost predicate Accepted(pkt: seq<octet>) {
    && |pkt| > 2
    && Word(pkt[|pkt| - 2], pkt[|pkt| - 1]) == Crc(Init(), pkt[..|pkt| - 2])
  }

  /** A packet is accepted exactly when the checksum over the whole packet, the checksum
      field included, is zero. */
  lemma AcceptedIffResidueZero(pkt: seq<octet>)
    ensures Accepted(pkt) <==> |pkt| > 2 && Crc(Init(), pkt) == Zeros(16)
  {
    if |pkt| > 2 {
      var n := |pkt|;
      assert pkt[..n - 1][..n - 2] == pkt[..n - 2];
      FieldClears(Crc(Init(), pkt[..n - 2]), pkt[n - 2], pkt[n - 1]);
    }
  }

  lemma FieldClears(crc: word, hi: octet, lo: octet)
    ensures Step(Step(crc, hi), lo) == Zeros(16) <==> crc == Word(hi, lo)
  {
    RunConcat(POLY, crc, hi, lo);
    PolyFacts();
    Residue(POLY, crc, Word(hi, lo));
  }

  /** Two packets of the same length, one of them accepted: the other is accepted exactly
      when both leave the same register. */
  lemma SecondAccepted(p: seq<octet>, q: seq<octet>)
    requires Accepted(p) && |q| == |p|
    ensures Accepted(q) <==>
            Run(POLY, Init(), MessageBits(p)) == Run(POLY, Init(), MessageBits(q))
  {
    AcceptedIffResidueZero(p);
    AcceptedIffResidueZero(q);
    CrcIsDivision(Init(), p);
    CrcIsDivision(Init(), q);
  }

  /** Any change confined to 16 consecutive bits of an accepted packet, anywhere in it, the
      checksum field included, is detected. */
  lemma BurstRejected(p: seq<octet>, q: seq<octet>, k: nat)
    requires Accepted(p) && p != q && |p| == |q|
    requires DifferOnlyIn(MessageBits(p), MessageBits(q), k, 16)
    ensures !Accepted(q)
  {
    MessageBitsInjective(p, q);
    PolyFacts();
    BurstChangesRegister(POLY, Init(), MessageBits(p), MessageBits(q), k);
    SecondAccepted(p, q);
  }

  /** Sixteen bits is the limit: flipping the 17-bit pattern 0x11021 at any bit position of
      an accepted packet gives another accepted packet. */
  lemma SeventeenBitBurstAccepted(p: seq<octet>, q: seq<octet>, k: nat)
    requires Accepted(p) && |p| == |q| && k + 17 <= 8 * |p|
    requires Xor(MessageBits(p), MessageBits(q))
          == Zeros(k) + ([true] + POLY) + Zeros(8 * |p| - k - 17)
    ensures Accepted(q)
  {
    PolyFacts();
    DivisorGoesUnnoticed(POLY, Init(), MessageBits(p), MessageBits(q), k);
    SecondAccepted(p, q);
  }

  /** Any odd number of flipped bits in an accepted packet is detected. */
  lemma OddFlipsRejected(p: seq<octet>, q: seq<octet>)
    requires Accepted(p) && |p| == |q|
    requires Distance(MessageBits(p), MessageBits(q)) % 2 == 1
    ensures !Accepted(q)
  {
    PolyOdd();
    OddErrorChangesRegister(POLY, Init(), MessageBits(p), MessageBits(q));
    SecondAccepted(p, q);
  }
}
