/**
 The mathematics shared by the two checksums of the bridge: division of a bit string by a
 polynomial over GF(2), one bit at a time, in a shift register.

 A register is a sequence of bits whose first element is the coefficient of the highest
 power; `p` holds the coefficients of the divisor below its leading term, in the same order.
 Every theorem is stated for any divisor and any register width.  CRC-16 uses it most
 significant bit first, the RMAP CRC-8 least significant bit first.
 */
module Lfsr {

  import opened BitStrings

  /** One step of the division: shift in `bit`, subtract the divisor if a one falls out. */
  function Shift(p: Bits, c: Bits, bit: bool): (r: Bits)
    requires |p| == |c| > 0
    ensures |r| == |c|
  {
    var s := c[1..] + [false];
    if c[0] != bit then Xor(s, p) else s
  }

  /** The register after the bits `w` have been fed in. */
  function Run(p: Bits, c: Bits, w: Bits): (r: Bits)
    requires |p| == |c| > 0
    ensures |r| == |c|
    decreases |w|
  {
    if w == [] then c else Run(p, Shift(p, c, w[0]), w[1..])
  }

  /** Number of ones. */
  function Weight(w: Bits): nat {
    if w == [] then 0 else (if w[0] then 1 else 0) + Weight(w[1..])
  }

  predicate Odd(w: Bits) {
    Weight(w) % 2 == 1
  }

  /** Number of positions in which two words of the same length differ. */
  function Distance(v: Bits, w: Bits): nat
    requires |v| == |w|
  {
    Weight(Xor(v, w))
  }

  /** v and w agree everywhere outside the n bits that start at k. */
  ghost predicate DifferOnlyIn(v: Bits, w: Bits, k: nat, n: nat) {
    && |v| == |w|
    && forall i :: 0 <= i < |v| && (i < k || k + n <= i) ==> v[i] == w[i]
  }

  // ---- running over a concatenation, and linearity -------------------------------------

  lemma {:induction false} RunConcat(p: Bits, c: Bits, v: Bits, w: Bits)
    requires |p| == |c| > 0
    ensures Run(p, c, v + w) == Run(p, Run(p, c, v), w)
    decreases |v|
  {
    if v == [] {
      assert v + w == w;
    } else {
      assert (v + w)[1..] == v[1..] + w;
      RunConcat(p, Shift(p, c, v[0]), v[1..], w);
    }
  }

  lemma ShiftLinear(p: Bits, c: Bits, d: Bits, x: bool, y: bool)
    requires |p| == |c| == |d| > 0
    ensures Shift(p, Xor(c, d), x != y) == Xor(Shift(p, c, x), Shift(p, d, y))
  {
    assert Xor(c, d)[1..] + [false] == Xor(c[1..] + [false], d[1..] + [false]);
  }

  /** The division is linear: the register of a sum is the sum of the registers. */
  lemma {:induction false} RunLinear(p: Bits, c: Bits, d: Bits, v: Bits, w: Bits)
    requires |p| == |c| == |d| > 0 && |v| == |w|
    ensures Run(p, Xor(c, d), Xor(v, w)) == Xor(Run(p, c, v), Run(p, d, w))
    decreases |v|
  {
    if v == [] {
    } else {
      ShiftLinear(p, c, d, v[0], w[0]);
      assert Xor(v, w)[1..] == Xor(v[1..], w[1..]);
      RunLinear(p, Shift(p, c, v[0]), Shift(p, d, w[0]), v[1..], w[1..]);
    }
  }

  lemma {:induction false} RunZeros(p: Bits, m: nat)
    requires |p| > 0
    ensures Run(p, Zeros(|p|), Zeros(m)) == Zeros(|p|)
    decreases m
  {
    if m != 0 {
      assert Shift(p, Zeros(|p|), false) == Zeros(|p|);
      assert Zeros(m)[1..] == Zeros(m - 1);
      RunZeros(p, m - 1);
    }
  }

  // ---- which words clear the register ---------------------------------------------------

  /** With a constant term in the divisor, a step reaches a register whose last bit is zero
      only by a plain shift, so it can be undone. */
  lemma ShiftInverse(p: Bits, c: Bits, bit: bool, r: Bits)
    requires |p| == |c| == |r| > 0 && p[|p| - 1] && !r[|r| - 1]
    ensures Shift(p, c, bit) == r <==> c == [bit] + r[..|r| - 1]
  {
    var n := |c|;
    var s := c[1..] + [false];
    if Shift(p, c, bit) == r {
      assert Xor(s, p)[n - 1];
      assert s == r;
      assert r[..n - 1] == c[1..];
      assert c == [c[0]] + c[1..];
    }
    if c == [bit] + r[..n - 1] {
      assert c[1..] == r[..n - 1];
      assert s == r;
    }
  }

  lemma ClearsStep(p: Bits, c: Bits, bit: bool, w: Bits)
    requires |p| == |c| > 0 && p[|p| - 1] && |w| < |p|
    ensures Shift(p, c, bit) == w + Zeros(|p| - |w|) <==> c == [bit] + w + Zeros(|p| - |w| - 1)
  {
    hide Run, Xor, Shift;
    var n := |p|;
    var r := w + Zeros(n - |w|);
    ShiftInverse(p, c, bit, r);
    assert r[..n - 1] == w + Zeros(n - |w| - 1);
    assert [bit] + r[..n - 1] == [bit] + w + Zeros(n - |w| - 1);
  }

  /** At most |p| bits clear the register exactly when the register holds those bits,
      left-aligned. */
  lemma {:induction false} Clears(p: Bits, c: Bits, w: Bits)
    requires |p| == |c| > 0 && p[|p| - 1] && |w| <= |p|
    ensures Run(p, c, w) == Zeros(|p|) <==> c == w + Zeros(|p| - |w|)
    decreases |w|
  {
    var n := |p|;
    if w == [] {
      assert w + Zeros(n) == Zeros(n);
    } else {
      hide Xor, Shift, Zeros;
      Clears(p, Shift(p, c, w[0]), w[1..]);
      ClearsStep(p, c, w[0], w[1..]);
      assert [w[0]] + w[1..] == w;
    }
  }

  /** Trailing zero bits never hide a non-zero register. */
  lemma {:induction false} ZerosKeepNonzero(p: Bits, c: Bits, m: nat)
    requires |p| == |c| > 0 && p[|p| - 1]
    ensures Run(p, c, Zeros(m)) == Zeros(|p|) <==> c == Zeros(|p|)
    decreases m
  {
    if m != 0 {
      assert Zeros(m)[1..] == Zeros(m - 1);
      ZerosKeepNonzero(p, Shift(p, c, false), m - 1);
      ShiftInverse(p, c, false, Zeros(|p|));
      assert [false] + Zeros(|p|)[..|p| - 1] == Zeros(|p|);
    }
  }

  /** Feeding the register its own contents clears it: this is why a message followed by
      its checksum leaves a zero residue, and only that checksum does. */
  lemma Residue(p: Bits, c: Bits, check: Bits)
    requires |p| == |c| == |check| > 0 && p[|p| - 1]
    ensures Run(p, c, check) == Zeros(|p|) <==> c == check
  {
    Clears(p, c, check);
    assert check + Zeros(0) == check;
  }

  // ---- processing several bits through a table -------------------------------------------

  /** Leading zeros of the register are shifted out without touching the divisor. */
  lemma {:induction false} ShiftOut(p: Bits, m: nat, c: Bits)
    requires |p| == m + |c| > 0
    ensures Run(p, Zeros(m) + c, Zeros(m)) == c + Zeros(m)
    decreases m
  {
    if m == 0 {
      assert Zeros(0) + c == c + Zeros(0);
    } else {
      assert Zeros(m)[1..] == Zeros(m - 1);
      var d := c + [false];
      assert Shift(p, Zeros(m) + c, false) == Zeros(m - 1) + d;
      ShiftOut(p, m - 1, d);
      assert d + Zeros(m - 1) == c + Zeros(m);
    }
  }

  /** The lookup-table entry for the bits w: what they leave in a zero register. */
  ghost function TableEntry(p: Bits, w: Bits): (r: Bits)
    requires |w| <= |p| && |p| > 0
    ensures |r| == |p|
  {
    Run(p, Zeros(|p|), w)
  }

  lemma XorZeros(a: Bits)
    ensures Xor(a, Zeros(|a|)) == a && Xor(Zeros(|a|), a) == a
  {
  }

  lemma DropCleared(p: Bits, c: Bits, d: Bits, v: Bits, w: Bits)
    requires |p| == |c| == |d| > 0 && |v| == |w|
    requires Run(p, d, w) == Zeros(|p|)
    ensures Run(p, Xor(c, d), Xor(v, w)) == Run(p, c, v)
  {
    RunLinear(p, c, d, v, w);
    XorZeros(Run(p, c, v));
  }

  lemma Rejoin(a: Bits, b: Bits, w: Bits)
    requires |a| == |w|
    ensures Xor(Zeros(|a|) + b, a + Zeros(|b|)) == a + b && Xor(Xor(a, w), a) == w
  {
  }

  /** The front a of the register takes part in a step like the bits fed in. */
  lemma FrontIsFed(p: Bits, a: Bits, b: Bits, w: Bits)
    requires |p| == |a| + |b| > 0 && p[|p| - 1] && |w| == |a|
    ensures Run(p, a + b, w) == Run(p, Zeros(|a|) + b, Xor(a, w))
  {
    hide Run, Xor, Zeros;
    Clears(p, a + Zeros(|b|), a);
    DropCleared(p, Zeros(|a|) + b, a + Zeros(|b|), Xor(a, w), a);
    Rejoin(a, b, w);
  }

  /** The table method: |w| divisions at once are one lookup and one shift. */
  lemma TableStep(p: Bits, a: Bits, b: Bits, w: Bits)
    requires |p| == |a| + |b| > 0 && p[|p| - 1] && |w| == |a|
    ensures Run(p, a + b, w) == Xor(b + Zeros(|a|), TableEntry(p, Xor(a, w)))
  {
    var x := Xor(a, w);
    FrontIsFed(p, a, b, w);
    RunLinear(p, Zeros(|a|) + b, Zeros(|p|), Zeros(|a|), x);
    XorZeros(Zeros(|a|) + b);
    XorZeros(x);
    ShiftOut(p, |a|, b);
  }

  /** Table entries are linear: this is the property the sliced tables rest on. */
  lemma TableLinear(p: Bits, v: Bits, w: Bits)
    requires |v| == |w| <= |p| && |p| > 0
    ensures TableEntry(p, Xor(v, w)) == Xor(TableEntry(p, v), TableEntry(p, w))
  {
    RunLinear(p, Zeros(|p|), Zeros(|p|), v, w);
    assert Xor(Zeros(|p|), Zeros(|p|)) == Zeros(|p|);
  }

  /** The entry of a single one with k zeros after it: the divisor after k steps. */
  lemma UnitEntry(p: Bits, j: nat, k: nat)
    requires j + 1 + k <= |p|
    ensures TableEntry(p, Zeros(j) + [true] + Zeros(k)) == Run(p, p, Zeros(k))
  {
    BehindZeros(p, j, [true], k);
    SingleBit(p);
  }

  // ---- error detection ------------------------------------------------------------------

  /** The residues of two words of the same length differ by the residue of their difference
      from a zero register. */
  lemma DifferenceDecides(p: Bits, c: Bits, v: Bits, w: Bits)
    requires |p| == |c| > 0 && |v| == |w|
    ensures Run(p, Zeros(|p|), Xor(v, w)) == Zeros(|p|) <==> Run(p, c, v) == Run(p, c, w)
  {
    RunLinear(p, c, c, v, w);
    assert Xor(c, c) == Zeros(|p|);
    var a, b := Run(p, c, v), Run(p, c, w);
    if Xor(a, b) == Zeros(|p|) {
      forall i | 0 <= i < |a| ensures a[i] == b[i] {
        assert !Xor(a, b)[i];
      }
      assert a == b;
    }
    if a == b {
      assert Xor(a, b) == Zeros(|p|);
    }
  }

  /** A non-zero stretch of at most |p| bits, zeros around it, leaves a non-zero register. */
  lemma StretchNoticed(p: Bits, k: nat, mid: Bits, m: nat, j: nat)
    requires |p| > 0 && p[|p| - 1] && j < |mid| <= |p| && mid[j]
    ensures Run(p, Zeros(|p|), Zeros(k) + (mid + Zeros(m))) != Zeros(|p|)
  {
    hide Run;
    var z := Zeros(|p|);
    RunConcat(p, z, Zeros(k), mid + Zeros(m));
    RunZeros(p, k);
    RunConcat(p, z, mid, Zeros(m));
    ZerosKeepNonzero(p, Run(p, z, mid), m);
    Clears(p, z, mid);
    assert (mid + Zeros(|p| - |mid|))[j];
  }

  lemma Stretch(e: Bits, k: nat, end: nat)
    requires k <= end <= |e|
    requires forall i :: 0 <= i < |e| && (i < k || end <= i) ==> !e[i]
    ensures e == Zeros(k) + (e[k..end] + Zeros(|e| - end))
  {
  }

  /** The stretch of a confined difference, and a one in it. */
  lemma FindStretch(v: Bits, w: Bits, k: nat, n: nat) returns (end: nat, j: nat)
    requires DifferOnlyIn(v, w, k, n) && v != w
    ensures k <= j < end <= |v| && end - k <= n && Xor(v, w)[j]
    ensures forall i :: 0 <= i < |v| && (i < k || end <= i) ==> !Xor(v, w)[i]
  {
    j :| 0 <= j < |v| && v[j] != w[j];
    end := if k + n <= |v| then k + n else |v|;
  }

  /** Two different words whose difference lies within |p| consecutive bits never leave the
      same register. */
  lemma BurstChangesRegister(p: Bits, c: Bits, v: Bits, w: Bits, k: nat)
    requires |p| == |c| > 0 && p[|p| - 1]
    requires DifferOnlyIn(v, w, k, |p|) && v != w
    ensures Run(p, c, v) != Run(p, c, w)
  {
    hide Run;
    var e := Xor(v, w);
    var end, j := FindStretch(v, w, k, |p|);
    hide Xor, Zeros, DifferOnlyIn;
    assert e[k..end][j - k];
    Stretch(e, k, end);
    StretchNoticed(p, k, e[k..end], |v| - end, j - k);
    DifferenceDecides(p, c, v, w);
  }

  /** The bound is sharp: a difference equal to the divisor itself, leading term included,
      spans |p| + 1 bits and is never noticed, wherever it sits. */
  lemma DivisorGoesUnnoticed(p: Bits, c: Bits, v: Bits, w: Bits, k: nat)
    requires |p| == |c| > 0 && p[|p| - 1]
    requires |v| == |w| && k + 1 + |p| <= |v|
    requires Xor(v, w) == Zeros(k) + ([true] + p) + Zeros(|v| - k - 1 - |p|)
    ensures Run(p, c, v) == Run(p, c, w)
  {
    var z, m := Zeros(|p|), |v| - k - 1 - |p|;
    SingleBit(p);
    RunConcat(p, z, [true], p);
    Residue(p, p, p);
    BehindZeros(p, k, [true] + p, m);
    RunZeros(p, m);
    DifferenceDecides(p, c, v, w);
  }

  lemma SingleBit(p: Bits)
    requires |p| > 0
    ensures Run(p, Zeros(|p|), [true]) == p
  {
    assert Zeros(|p|)[1..] + [false] == Zeros(|p|);
    XorZeros(p);
    assert [true][1..] == [];
  }

  /** From a zero register, leading zero bits can be dropped. */
  lemma BehindZeros(p: Bits, k: nat, w: Bits, m: nat)
    requires |p| > 0
    ensures Run(p, Zeros(|p|), Zeros(k) + w + Zeros(m))
         == Run(p, Run(p, Zeros(|p|), w), Zeros(m))
  {
    var z := Zeros(|p|);
    RunConcat(p, z, Zeros(k) + w, Zeros(m));
    RunConcat(p, z, Zeros(k), w);
    RunZeros(p, k);
  }

  /** Two flipped bits, d apart, go unnoticed exactly when d steps of the register take the
      divisor back to itself. */
  lemma TwoBitError(p: Bits, c: Bits, v: Bits, w: Bits, k: nat, d: nat)
    requires |p| == |c| > 0 && p[|p| - 1]
    requires |v| == |w| && 0 < d && k + d < |v|
    requires Xor(v, w) == Zeros(k) + ([true] + Zeros(d - 1) + [true]) + Zeros(|v| - k - d - 1)
    ensures Run(p, c, v) == Run(p, c, w) <==> Run(p, p, Zeros(d)) == p
  {
    var z, m := Zeros(|p|), |v| - k - d - 1;
    var e := [true] + Zeros(d - 1) + [true];
    BehindZeros(p, k, e, m);
    RunConcat(p, z, [true] + Zeros(d - 1), [true]);
    RunConcat(p, z, [true], Zeros(d - 1));
    SingleBit(p);
    var r := Run(p, p, Zeros(d - 1));
    StepAfter(p, r);
    RunConcat(p, p, Zeros(d - 1), [false]);
    assert Zeros(d - 1) + [false] == Zeros(d);
    ZerosKeepNonzero(p, Run(p, z, e), m);
    DifferenceDecides(p, c, v, w);
  }

  lemma StepAfter(p: Bits, r: Bits)
    requires |p| == |r| > 0
    ensures Run(p, r, [true]) == Zeros(|p|) <==> Run(p, r, [false]) == p
  {
    var s := r[1..] + [false];
    assert [true][1..] == [] && [false][1..] == [];
    assert Run(p, r, [true]) == Shift(p, r, true) && Run(p, r, [false]) == Shift(p, r, false);
    assert Xor(s, p) == Zeros(|p|) <==> s == p by {
      if Xor(s, p) == Zeros(|p|) {
        forall i | 0 <= i < |s| ensures s[i] == p[i] {
          assert !Xor(s, p)[i];
        }
      }
    }
    assert s == Zeros(|p|) <==> Xor(s, p) == p by {
      if Xor(s, p) == p {
        forall i | 0 <= i < |s| ensures !s[i] {
          assert Xor(s, p)[i] == p[i];
        }
      }
    }
  }

  lemma {:induction false} WeightConcat(a: Bits, b: Bits)
    ensures Weight(a + b) == Weight(a) + Weight(b)
    decreases |a|
  {
    if a == [] {
      assert a + b == b;
    } else {
      assert (a + b)[1..] == a[1..] + b;
      WeightConcat(a[1..], b);
    }
  }

  lemma {:induction false} OddXor(a: Bits, b: Bits)
    requires |a| == |b|
    ensures Odd(Xor(a, b)) == (Odd(a) != Odd(b))
    decreases |a|
  {
    if a == [] {
    } else {
      assert Xor(a, b)[1..] == Xor(a[1..], b[1..]);
      OddXor(a[1..], b[1..]);
    }
  }

  lemma ShiftParity(p: Bits, c: Bits, bit: bool)
    requires |p| == |c| > 0 && Odd(p)
    ensures Odd(Shift(p, c, bit)) == (Odd(c) != bit)
  {
    var s := c[1..] + [false];
    WeightConcat(c[1..], [false]);
    OddXor(s, p);
  }

  /** If the divisor has an even number of terms, leading term included, the register always
      carries the parity of everything fed in. */
  lemma {:induction false} RunParity(p: Bits, c: Bits, w: Bits)
    requires |p| == |c| > 0 && Odd(p)
    ensures Odd(Run(p, c, w)) == (Odd(c) != Odd(w))
    decreases |w|
  {
    if w == [] {
    } else {
      ShiftParity(p, c, w[0]);
      RunParity(p, Shift(p, c, w[0]), w[1..]);
    }
  }

  /** With such a divisor no odd number of bit flips goes unnoticed. */
  lemma OddErrorChangesRegister(p: Bits, c: Bits, v: Bits, w: Bits)
    requires |p| == |c| > 0 && Odd(p)
    requires |v| == |w| && Distance(v, w) % 2 == 1
    ensures Run(p, c, v) != Run(p, c, w)
  {
    RunParity(p, c, v);
    RunParity(p, c, w);
    OddXor(v, w);
  }
}
