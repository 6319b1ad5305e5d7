/**
 The C integer types as bit strings.  A `uintN_t` is modelled by its N bits, most significant
 first, so that shifting, masking and concatenating octets are operations on sequences.
 */
module BitStrings {

  type Bits = seq<bool>

  type octet = b: Bits | |b| == 8 witness Zeros(8)
  type word = b: Bits | |b| == 16 witness Zeros(16)

  function Zeros(n: nat): (r: Bits)
    ensures |r| == n && forall i :: 0 <= i < n ==> !r[i]
  {
    seq(n, i => false)
  }

  function Ones(n: nat): (r: Bits)
    ensures |r| == n && forall i :: 0 <= i < n ==> r[i]
  {
    seq(n, i => true)
  }

  function Xor(a: Bits, b: Bits): (r: Bits)
    requires |a| == |b|
    ensures |r| == |a| && forall i :: 0 <= i < |a| ==> r[i] == (a[i] != b[i])
  {
    seq(|a|, i requires 0 <= i < |a| => a[i] != b[i])
  }

  function And(a: Bits, b: Bits): (r: Bits)
    requires |a| == |b|
    ensures |r| == |a| && forall i :: 0 <= i < |a| ==> r[i] == (a[i] && b[i])
  {
    seq(|a|, i requires 0 <= i < |a| => a[i] && b[i])
  }

  function Or(a: Bits, b: Bits): (r: Bits)
    requires |a| == |b|
    ensures |r| == |a| && forall i :: 0 <= i < |a| ==> r[i] == (a[i] || b[i])
  {
    seq(|a|, i requires 0 <= i < |a| => a[i] || b[i])
  }

  function Not(a: Bits): (r: Bits)
    ensures |r| == |a| && forall i :: 0 <= i < |a| ==> r[i] == !a[i]
  {
    seq(|a|, i requires 0 <= i < |a| => !a[i])
  }

  /** Shift towards the most significant end, in the width of the operand. */
  function Shl(a: Bits, k: nat): (r: Bits)
    ensures |r| == |a|
    ensures forall i :: 0 <= i < |a| ==> r[i] == (i + k < |a| && a[i + k])
  {
    seq(|a|, i requires 0 <= i < |a| => i + k < |a| && a[i + k])
  }

  function Shr(a: Bits, k: nat): (r: Bits)
    ensures |r| == |a|
    ensures forall i :: 0 <= i < |a| ==> r[i] == (k <= i && a[i - k])
  {
    seq(|a|, i requires 0 <= i < |a| => k <= i && a[i - k])
  }

  /** Two octets read as a big-endian 16-bit value. */
  function Word(hi: octet, lo: octet): (r: word)
    ensures r[..8] == hi && r[8..] == lo
  {
    var h: Bits := hi;
    h + lo
  }

  // ---- values ---------------------------------------------------------------------------

  function Pow2(n: nat): (p: nat)
    ensures p > 0
  {
    if n == 0 then 1 else 2 * Pow2(n - 1)
  }

  /** The unsigned number a bit string stands for. */
  function Value(a: Bits): (v: nat)
    ensures v < Pow2(|a|)
  {
    if a == [] then 0
    else 2 * Value(a[..|a| - 1]) + (if a[|a| - 1] then 1 else 0)
  }

  /** The n low bits of v. */
  function ToBits(n: nat, v: nat): (r: Bits)
    ensures |r| == n
  {
    if n == 0 then [] else ToBits(n - 1, v / 2) + [v % 2 == 1]
  }

  /** Writing a number into n bits and reading it back gives the number exactly when it fits. */
  lemma {:induction false} ValueOfBits(n: nat, v: nat)
    ensures Value(ToBits(n, v)) == v <==> v < Pow2(n)
  {
    if n == 0 {
    } else {
      var a := ToBits(n, v);
      assert a[..n - 1] == ToBits(n - 1, v / 2);
      ValueOfBits(n - 1, v / 2);
    }
  }

  lemma {:induction false} BitsOfValue(a: Bits)
    ensures ToBits(|a|, Value(a)) == a
  {
    if a == [] {
    } else {
      var t := a[..|a| - 1];
      BitsOfValue(t);
      assert a == t + [a[|a| - 1]];
    }
  }

  lemma {:induction false} ValueConcat(a: Bits, b: Bits)
    ensures Value(a + b) == Value(a) * Pow2(|b|) + Value(b)
    decreases |b|
  {
    if b == [] {
      assert a + b == a;
    } else {
      var t := b[..|b| - 1];
      assert (a + b)[..|a + b| - 1] == a + t;
      ValueConcat(a, t);
      Distribute(Value(a), Pow2(|t|), Value(t));
    }
  }

  lemma Distribute(x: nat, p: nat, y: nat)
    ensures 2 * (x * p + y) == x * (2 * p) + 2 * y
  {
  }

  /** The value of an octet, bit by bit, most significant bit first. */
  lemma OctetValue(o: octet)
    ensures Value(o) == (if o[0] then 128 else 0) + (if o[1] then 64 else 0) + (if o[2] then 32 else 0)
      + (if o[3] then 16 else 0) + (if o[4] then 8 else 0) + (if o[5] then 4 else 0)
      + (if o[6] then 2 else 0) + (if o[7] then 1 else 0)
  {
    hide Pow2, Value;
    var a, b := o[..4], o[4..];
    NibbleValue(a);
    NibbleValue(b);
    assert o == a + b;
    ValueConcat(a, b);
    PowersOfTwo();
  }

  lemma NibbleValue(a: Bits)
    requires |a| == 4
    ensures Value(a) == (if a[0] then 8 else 0) + (if a[1] then 4 else 0) + (if a[2] then 2 else 0)
                      + (if a[3] then 1 else 0)
  {
    hide Value;
    EmptyValue();
    PrefixValue(a, 4);
    PrefixValue(a, 3);
    PrefixValue(a, 2);
    PrefixValue(a, 1);
    assert a[..4] == a && a[..0] == [];
  }

  lemma EmptyValue()
    ensures Value([]) == 0
  {
  }

  lemma PrefixValue(a: Bits, n: nat)
    requires 0 < n <= |a|
    ensures Value(a[..n]) == 2 * Value(a[..n - 1]) + if a[n - 1] then 1 else 0
  {
    assert a[..n][..n - 1] == a[..n - 1];
  }

  /** The bits of an octet behind the first k are its value modulo 2^(8 - k). */
  lemma LowBitsValue(o: octet, k: nat)
    requires k == 2 || k == 5 || k == 6
    ensures Value(o[k..]) == Value(o) % (if k == 2 then 64 else if k == 5 then 8 else 4)
  {
    hide Value;
    PowersOfTwo();
    assert Pow2(3) == 2 * Pow2(2) && Pow2(6) == 4 * Pow2(4);
    var hi, lo := o[..k], o[k..];
    assert o == hi + lo;
    ValueConcat(hi, lo);
    ModuloOf(Value(o), Value(hi), Value(lo), if k == 2 then 64 else if k == 5 then 8 else 4);
  }

  lemma ModuloOf(v: nat, q: nat, r: nat, m: nat)
    requires (m == 4 || m == 8 || m == 64) && v == q * m + r && r < m
    ensures v % m == r
  {
  }

  // ---- hexadecimal constants --------------------------------------------------------------

  function Nibble(d: nat): (r: Bits)
    requires d < 16
    ensures |r| == 4
  {
    [d / 8 % 2 == 1, d / 4 % 2 == 1, d / 2 % 2 == 1, d % 2 == 1]
  }

  lemma LastNibble(n: nat, v: nat, d: nat)
    requires d < 16
    ensures ToBits(n + 4, 16 * v + d) == ToBits(n, v) + Nibble(d)
  {
    var x := 16 * v + d;
    assert x / 2 == 8 * v + d / 2 && x / 2 / 2 == 4 * v + d / 4;
    assert x / 2 / 2 / 2 == 2 * v + d / 8 && x / 2 / 2 / 2 / 2 == v;
    assert ToBits(n + 4, x) == ToBits(n + 3, x / 2) + [x % 2 == 1];
    assert ToBits(n + 3, x / 2) == ToBits(n + 2, x / 2 / 2) + [x / 2 % 2 == 1];
    assert ToBits(n + 2, x / 2 / 2) == ToBits(n + 1, x / 2 / 2 / 2) + [x / 2 / 2 % 2 == 1];
    assert ToBits(n + 1, x / 2 / 2 / 2) == ToBits(n, v) + [x / 2 / 2 / 2 % 2 == 1];
  }

  lemma HexOctet(a: nat, b: nat)
    requires a < 16 && b < 16
    ensures ToBits(8, 16 * a + b) == Nibble(a) + Nibble(b)
  {
    LastNibble(4, a, b);
    LastNibble(0, 0, a);
    assert ToBits(0, 0) + Nibble(a) == Nibble(a);
  }

  lemma HexWord(a: nat, b: nat, c: nat, d: nat)
    requires a < 16 && b < 16 && c < 16 && d < 16
    ensures ToBits(16, 0x1000 * a + 0x100 * b + 0x10 * c + d)
         == Nibble(a) + Nibble(b) + Nibble(c) + Nibble(d)
  {
    hide ToBits, Nibble;
    var hi := 16 * a + b;
    HexOctet(a, b);
    LastNibble(8, hi, c);
    LastNibble(12, 16 * hi + c, d);
  }

  // ---- 24-bit big-endian length fields ------------------------------------------------------

  lemma PowersOfTwo()
    ensures Pow2(2) == 4 && Pow2(4) == 16 && Pow2(8) == 256 && Pow2(24) == 0x1000000
  {
    assert Pow2(4) == 2 * (2 * Pow2(2)) && Pow2(8) == 2 * (2 * (2 * (2 * Pow2(4))));
    assert Pow2(12) == 2 * (2 * (2 * (2 * Pow2(8)))) && Pow2(16) == 2 * (2 * (2 * (2 * Pow2(12))));
    assert Pow2(20) == 2 * (2 * (2 * (2 * Pow2(16)))) && Pow2(24) == 2 * (2 * (2 * (2 * Pow2(20))));
  }

  /** The 24 low bits of a length, most significant octet first. */
  function LengthField(v: nat): (r: seq<octet>)
    ensures |r| == 3
  {
    var b := ToBits(24, v);
    [b[..8], b[8..16], b[16..]]
  }

  lemma {:induction false} ValueOfBitsAtMost(n: nat, v: nat)
    ensures Value(ToBits(n, v)) <= v
  {
    if n == 0 {
    } else {
      var a := ToBits(n, v);
      assert a[..n - 1] == ToBits(n - 1, v / 2);
      ValueOfBitsAtMost(n - 1, v / 2);
    }
  }

  /** The number in a 24-bit length field. */
  function LengthOf(b0: octet, b1: octet, b2: octet): (v: nat)
    ensures v <= 0xFFFFFF
  {
    PowersOfTwo();
    var c0: Bits, c1: Bits, c2: Bits := b0, b1, b2;
    Value(c0 + c1 + c2)
  }

  lemma ThreeOctets(v: nat, b0: octet, b1: octet, b2: octet)
    requires v <= 0xFFFFFF
    ensures v == LengthOf(b0, b1, b2) <==> LengthField(v) == [b0, b1, b2]
  {
    hide ToBits, Value;
    var c0: Bits, c1: Bits, c2: Bits := b0, b1, b2;
    var b, w := c0 + c1 + c2, ToBits(24, v);
    assert b[..8] == b0 && b[8..16] == b1 && b[16..] == b2;
    assert w == w[..8] + w[8..16] + w[16..];
    PowersOfTwo();
    ValueOfBits(24, v);
    BitsOfValue(b);
  }

  /** Big-endian: the first octet counts most. */
  lemma LengthValue(b0: octet, b1: octet, b2: octet)
    ensures LengthOf(b0, b1, b2) == 0x10000 * Value(b0) + 0x100 * Value(b1) + Value(b2)
  {
    hide Value, Pow2;
    PowersOfTwo();
    var c0: Bits, c1: Bits, c2: Bits := b0, b1, b2;
    assert LengthOf(b0, b1, b2) == Value(c0 + c1 + c2);
    TwoOctetValue(c0, c1);
    ValueConcat(c0 + c1, c2);
  }

  lemma TwoOctetValue(hi: Bits, lo: Bits)
    requires |lo| == 8
    ensures Value(hi + lo) == 0x100 * Value(hi) + Value(lo)
  {
    hide Value;
    PowersOfTwo();
    ValueConcat(hi, lo);
  }

  lemma WordValue(hi: octet, lo: octet)
    ensures Value(Word(hi, lo)) == 0x100 * Value(hi) + Value(lo)
  {
    hide Value;
    TwoOctetValue(hi, lo);
  }

  /** A length comes back from its field exactly when 24 bits hold it; otherwise less comes
      back. */
  lemma LengthComesBack(v: nat)
    ensures var f := LengthField(v);
            && LengthOf(f[0], f[1], f[2]) <= v
            && (LengthOf(f[0], f[1], f[2]) == v <==> v <= 0xFFFFFF)
  {
    hide ToBits, Value;
    var w := ToBits(24, v);
    assert w == w[..8] + w[8..16] + w[16..];
    PowersOfTwo();
    ValueOfBits(24, v);
    ValueOfBitsAtMost(24, v);
  }
}
