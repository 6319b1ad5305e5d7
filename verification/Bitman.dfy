/**
 Bit-level copy between octet arrays.  Bit i of an array is bit i % 8 of its octet i / 8,
 counted from the most significant end.
 */
module Bitman {
  import opened BitStrings

  function BitAt(s: seq<octet>, i: nat): bool
    requires i < 8 * |s|
  {
    s[i / 8][i % 8]
  }

  /** `after` is `before` with n bits from position s of src written at position d, and no
      other bit touched. */
  ghost predicate Copied(before: seq<octet>, after: seq<octet>, d: nat, src: seq<octet>, s: nat, n: nat)
  {
    && |after| == |before|
    && d + n <= 8 * |before| && s + n <= 8 * |src|
    && forall i :: 0 <= i < 8 * |after| ==>
         BitAt(after, i) == if d <= i < d + n then BitAt(src, s + i - d) else BitAt(before, i)
  }

  /** The offsets for which the copy is right whatever the arrays hold: the bits left over
      after whole octets must not straddle a destination octet. */
  predicate Good(d: nat, s: nat, n: nat) {
    d % 8 + n % 8 <= 8 || (d % 8 == s % 8 && n >= 8)
  }

  lemma CopiedNothing(a: seq<octet>, d: nat, src: seq<octet>, s: nat)
    requires d <= 8 * |a| && s <= 8 * |src|
    ensures Copied(a, a, d, src, s, 0)
  {
  }

  lemma CopiedSame(a: seq<octet>, b: seq<octet>, d: nat, src: seq<octet>, s: nat)
    requires Copied(a, b, d, src, s, 0)
    ensures a == b
  {
    forall q | 0 <= q < |a| ensures a[q] == b[q] {
      forall j | 0 <= j < 8 ensures a[q][j] == b[q][j] {
        assert BitAt(b, 8 * q + j) == BitAt(a, 8 * q + j);
      }
    }
  }

  /** Adjacent copies compose. */
  lemma CopiedTwice(a: seq<octet>, b: seq<octet>, c: seq<octet>, d: nat, src: seq<octet>, s: nat, m: nat, n: nat)
    requires Copied(a, b, d, src, s, m) && Copied(b, c, d + m, src, s + m, n)
    ensures Copied(a, c, d, src, s, m + n)
  {
  }

  // ---- single octets ------------------------------------------------------------------------

  /** The nbits source bits from bit position `bits` of p0, right-aligned. */
  function Fetch(p0: octet, p1: octet, bits: nat, nbits: nat): octet
    requires bits < 8 && 0 < nbits <= 8
  {
    if bits + nbits <= 8 then
      And(Shr(p0, 8 - nbits - bits), Shr(Ones(8), 8 - nbits))
    else
      var nb := nbits + bits - 8;
      Or(Shl(And(p0, Shr(Ones(8), bits)), nb), And(Shr(p1, 8 - nb), Shr(Ones(8), 8 - nb)))
  }

  lemma FetchedBit(p0: octet, p1: octet, bits: nat, nbits: nat, j: nat)
    requires bits < 8 && 0 < nbits <= 8 && j < 8
    ensures Fetch(p0, p1, bits, nbits)[j] ==
            (if j < 8 - nbits then false
             else if bits + j - (8 - nbits) < 8 then p0[bits + j - (8 - nbits)]
             else p1[bits + j - (8 - nbits) - 8])
  {
  }

  /** All bits go to one destination octet. */
  function StoreWithin(p: octet, tmp: octet, bits: nat, nbits: nat): octet
    requires 0 < nbits && bits + nbits <= 8
  {
    var end := bits + nbits;
    Or(And(p, Not(Shl(Shr(Ones(8), 8 - nbits), 8 - end))), Shl(tmp, 8 - end))
  }

  /** The first of two destination octets. */
  function StoreFirst(p: octet, tmp: octet, bits: nat): octet
    requires bits < 8
  {
    Or(And(p, Not(Shr(Ones(8), bits))), Shr(tmp, bits))
  }

  /** `0xff >> (nbits - bits)` with the unsigned difference.  When it wraps around, the count
      modulo 32 is at least 24 and nothing is left. */
  function WrappedShift(nbits: nat, bits: nat): octet {
    if bits <= nbits then Shr(Ones(8), nbits - bits) else Zeros(8)
  }

  /** The second of two destination octets. */
  function StoreSecond(p: octet, tmp: octet, bits: nat, nbits: nat): octet
    requires 0 < bits < 8
  {
    Or(And(p, Not(Shl(WrappedShift(nbits, bits), 8 - bits))), Shl(tmp, 8 - bits))
  }

  lemma StoredWithin(p: octet, tmp: octet, bits: nat, nbits: nat, j: nat)
    requires 0 < nbits && bits + nbits <= 8 && j < 8
    requires forall i :: 0 <= i < 8 - nbits ==> !tmp[i]
    ensures StoreWithin(p, tmp, bits, nbits)[j] ==
            if bits <= j < bits + nbits then tmp[8 - nbits + j - bits] else p[j]
  {
  }

  lemma StoredFirst(p: octet, tmp: octet, bits: nat, j: nat)
    requires bits < 8 && j < 8
    ensures StoreFirst(p, tmp, bits)[j] == if bits <= j then tmp[j - bits] else p[j]
  {
  }

  lemma StoredSecond(p: octet, tmp: octet, bits: nat, j: nat)
    requires 0 < bits < 8 && j < 8
    ensures StoreSecond(p, tmp, bits, 8)[j] == if j < bits then tmp[8 - bits + j] else p[j]
  {
  }

  /** The destination after putbits8(), as a function of what it was before. */
  function Put(dst: seq<octet>, d: nat, src: seq<octet>, s: nat, nbits: nat): (r: seq<octet>)
    requires 0 < nbits <= 8 && d + nbits <= 8 * |dst| && s + nbits <= 8 * |src|
    ensures |r| == |dst|
  {
    var p, bits := d / 8, d % 8;
    var tmp := FetchAt(src, s, nbits);
    if bits + nbits <= 8 then
      dst[p := StoreWithin(dst[p], tmp, bits, nbits)]
    else
      dst[p := StoreFirst(dst[p], tmp, bits)]
         [p + 1 := StoreSecond(dst[p + 1], tmp, bits, nbits)]
  }

  function FetchAt(src: seq<octet>, s: nat, nbits: nat): octet
    requires 0 < nbits <= 8 && s + nbits <= 8 * |src|
  {
    var q, bits := s / 8, s % 8;
    Fetch(src[q], if bits + nbits <= 8 then src[q] else src[q + 1], bits, nbits)
  }

  lemma FetchedAt(src: seq<octet>, s: nat, nbits: nat)
    requires 0 < nbits <= 8 && s + nbits <= 8 * |src|
    ensures var tmp := FetchAt(src, s, nbits);
            && (forall j :: 0 <= j < 8 - nbits ==> !tmp[j])
            && (forall j :: 8 - nbits <= j < 8 ==> tmp[j] == BitAt(src, s + j - (8 - nbits)))
  {
    var q, bits := s / 8, s % 8;
    var p1 := if bits + nbits <= 8 then src[q] else src[q + 1];
    forall j | 0 <= j < 8
      ensures FetchAt(src, s, nbits)[j] ==
              (j >= 8 - nbits && BitAt(src, s + j - (8 - nbits)))
    {
      FetchedBit(src[q], p1, bits, nbits, j);
    }
  }

  lemma PutBitWithin(dst: seq<octet>, d: nat, src: seq<octet>, s: nat, nbits: nat, i: nat)
    requires 0 < nbits <= 8 && d + nbits <= 8 * |dst| && s + nbits <= 8 * |src|
    requires d % 8 + nbits <= 8 && i < 8 * |dst|
    ensures BitAt(Put(dst, d, src, s, nbits), i) ==
            if d <= i < d + nbits then BitAt(src, s + i - d) else BitAt(dst, i)
  {
    hide StoreWithin, StoreFirst, StoreSecond, Fetch, FetchAt;
    var p, bits := d / 8, d % 8;
    FetchedAt(src, s, nbits);
    if i / 8 == p {
      StoredWithin(dst[p], FetchAt(src, s, nbits), bits, nbits, i % 8);
    }
  }

  lemma PutBitAcross(dst: seq<octet>, d: nat, src: seq<octet>, s: nat, i: nat)
    requires d % 8 != 0 && d + 8 <= 8 * |dst| && s + 8 <= 8 * |src| && i < 8 * |dst|
    ensures BitAt(Put(dst, d, src, s, 8), i) ==
            if d <= i < d + 8 then BitAt(src, s + i - d) else BitAt(dst, i)
  {
    hide StoreWithin, StoreFirst, StoreSecond, Fetch, FetchAt;
    var p, bits := d / 8, d % 8;
    FetchedAt(src, s, 8);
    if i / 8 == p {
      StoredFirst(dst[p], FetchAt(src, s, 8), bits, i % 8);
    } else if i / 8 == p + 1 {
      StoredSecond(dst[p + 1], FetchAt(src, s, 8), bits, i % 8);
    }
  }

  /** Bits that fit into one octet, and whole octets at any offset, are copied exactly. */
  lemma PutCopies(dst: seq<octet>, d: nat, src: seq<octet>, s: nat, nbits: nat)
    requires 0 < nbits <= 8 && d + nbits <= 8 * |dst| && s + nbits <= 8 * |src|
    requires d % 8 + nbits <= 8 || nbits == 8
    ensures Copied(dst, Put(dst, d, src, s, nbits), d, src, s, nbits)
  {
    hide Put;
    var after := Put(dst, d, src, s, nbits);
    forall i | 0 <= i < 8 * |after|
      ensures BitAt(after, i) ==
              if d <= i < d + nbits then BitAt(src, s + i - d) else BitAt(dst, i)
    {
      if d % 8 + nbits <= 8 {
        PutBitWithin(dst, d, src, s, nbits, i);
      } else {
        PutBitAcross(dst, d, src, s, i);
      }
    }
  }

  /** Fewer than eight bits that straddle two octets always lose the first bit. */
  lemma PutLosesBit(dst: seq<octet>, d: nat, src: seq<octet>, s: nat, nbits: nat)
    requires 0 < nbits < 8 && d + nbits <= 8 * |dst| && s + nbits <= 8 * |src|
    requires d % 8 + nbits > 8
    ensures !BitAt(Put(dst, d, src, s, nbits), d)
  {
    FetchedAt(src, s, nbits);
    StoredFirst(dst[d / 8], FetchAt(src, s, nbits), d % 8, d % 8);
  }

  /** All of a straddling write of fewer than eight bits: the fetched octet, zeros in front, is
      written as a whole from bit d on; the second destination octet is cleared for it only if
      there are at least as many bits as lie in front of d in the first one. */
  lemma StraddlingPut(dst: seq<octet>, d: nat, src: seq<octet>, s: nat, nbits: nat, i: nat)
    requires 0 < nbits < 8 && d + nbits <= 8 * |dst| && s + nbits <= 8 * |src|
    requires d % 8 + nbits > 8 && i < 8 * |dst|
    ensures var x := i - d;
            var fetched := 8 - nbits <= x < 8 && BitAt(src, s + x - (8 - nbits));
            BitAt(Put(dst, d, src, s, nbits), i) ==
              if x < 0 || x >= 8 then BitAt(dst, i)
              else if d % 8 + x < 8 || d % 8 <= nbits then fetched
              else BitAt(dst, i) || fetched
  {
    hide StoreWithin, StoreFirst, StoreSecond, Fetch, FetchAt;
    var p, bits := d / 8, d % 8;
    FetchedAt(src, s, nbits);
    if i / 8 == p {
      StoredFirst(dst[p], FetchAt(src, s, nbits), bits, i % 8);
    } else if i / 8 == p + 1 {
      StoredNext(dst[p + 1], FetchAt(src, s, nbits), bits, nbits, i % 8);
    }
  }

  lemma StoredNext(p: octet, tmp: octet, bits: nat, nbits: nat, j: nat)
    requires 0 < bits < 8 && 0 < nbits < 8 && j < 8
    ensures StoreSecond(p, tmp, bits, nbits)[j] ==
            if j >= bits then p[j] else if bits <= nbits then tmp[8 - bits + j] else p[j] || tmp[8 - bits + j]
  {
  }

  /** The result for offsets that are not good: whole octets copied, the rest left to one
      straddling write. */
  ghost predicate Straddled(before: seq<octet>, after: seq<octet>, d: nat, src: seq<octet>, s: nat, n: nat)
    requires d + n <= 8 * |before| && s + n <= 8 * |src|
  {
    var w := n - n % 8;
    0 < n % 8 && exists mid :: |mid| == |before| && Copied(before, mid, d, src, s, w)
                               && after == Put(mid, d + w, src, s + w, n % 8)
  }

  /** In it the first bit after the whole octets is zero, so it is a copy only of sources that
      have a zero there. */
  lemma StraddledLosesBit(before: seq<octet>, after: seq<octet>, d: nat, src: seq<octet>, s: nat, n: nat, w: nat)
    requires d + n <= 8 * |before| && s + n <= 8 * |src| && |after| == |before|
    requires w == n - n % 8 < n && !Good(d, s, n)
    ensures Straddled(before, after, d, src, s, n) ==> !BitAt(after, d + w)
    ensures Straddled(before, after, d, src, s, n) && BitAt(src, s + w) ==> !Copied(before, after, d, src, s, n)
  {
    hide Put, Copied;
    if !Straddled(before, after, d, src, s, n) {
      return;
    }
    var mid :| |mid| == |before| && Copied(before, mid, d, src, s, w)
               && after == Put(mid, d + w, src, s + w, n % 8);
    Remainder(d, n);
    PutLosesBit(mid, d + w, src, s + w, n % 8);
    if Copied(before, after, d, src, s, n) {
      CopiedBit(before, after, d, src, s, n, d + w);
    }
  }

  lemma Remainder(d: nat, n: nat)
    requires n % 8 > 0
    ensures (d + (n - n % 8)) % 8 == d % 8
  {
  }

  lemma MakeStraddled(before: seq<octet>, mid: seq<octet>, d: nat, src: seq<octet>, s: nat, n: nat, w: nat)
    requires d + n <= 8 * |before| && s + n <= 8 * |src| && n % 8 > 0 && w == n - n % 8
    requires |mid| == |before| && Copied(before, mid, d, src, s, w)
    ensures Straddled(before, Put(mid, d + w, src, s + w, n % 8), d, src, s, n)
  {
    hide Put, Copied;
  }

  lemma CopiedBit(a: seq<octet>, b: seq<octet>, d: nat, src: seq<octet>, s: nat, n: nat, i: nat)
    requires Copied(a, b, d, src, s, n) && d <= i < d + n
    ensures |b| == |a| && i < 8 * |b| && s + i - d < 8 * |src| && BitAt(b, i) == BitAt(src, s + i - d)
  {
  }

  // ---- the program ------------------------------------------------------------------------

  method FetchBits(src: array<octet>, sOff: nat, nbits: nat) returns (tmp: octet)
    requires 0 < nbits <= 8 && sOff + nbits <= 8 * src.Length
    ensures tmp == FetchAt(src[..], sOff, nbits)
    ensures forall j :: 0 <= j < 8 - nbits ==> !tmp[j]
    ensures forall j :: 8 - nbits <= j < 8 ==> tmp[j] == BitAt(src[..], sOff + j - (8 - nbits))
  {
    FetchedAt(src[..], sOff, nbits);
    hide BitAt;
    var p := sOff / 8;
    var bits := sOff % 8;
    var end := bits + nbits;
    if end <= 8 {
      tmp := Shr(src[p], 8 - nbits - bits);
      tmp := And(tmp, Shr(Ones(8), 8 - nbits));
    } else {
      var nb := nbits + bits - 8;
      tmp := Shl(And(src[p], Shr(Ones(8), bits)), nb);
      tmp := Or(tmp, And(Shr(src[p + 1], 8 - nb), Shr(Ones(8), 8 - nb)));
    }
  }

  /** putbits8() */
  method PutBits8(dst: array<octet>, dOff: nat, src: array<octet>, sOff: nat, nbits: nat)
    requires dst != src && nbits <= 8
    requires dOff + nbits <= 8 * dst.Length && sOff + nbits <= 8 * src.Length
    modifies dst
    ensures dst[..] == if nbits == 0 then old(dst[..])
                       else Put(old(dst[..]), dOff, src[..], sOff, nbits)
  {
    if nbits == 0 {
      return;
    }
    hide FetchAt;
    var tmp := FetchBits(src, sOff, nbits);
    var p := dOff / 8;
    var bits := dOff % 8;
    var end := bits + nbits;
    if end <= 8 {
      dst[p] := And(dst[p], Not(Shl(Shr(Ones(8), 8 - nbits), 8 - end)));
      dst[p] := Or(dst[p], Shl(tmp, 8 - end));
    } else {
      dst[p] := And(dst[p], Not(Shr(Ones(8), bits)));
      dst[p] := Or(dst[p], Shr(tmp, bits));
      dst[p + 1] := And(dst[p + 1], Not(Shl(WrappedShift(nbits, bits), 8 - bits)));
      dst[p + 1] := Or(dst[p + 1], Shl(tmp, 8 - bits));
    }
  }

  /** memcpy() of n octets. */
  method MemCpy(dst: array<octet>, d: nat, src: array<octet>, s: nat, n: nat)
    requires dst != src && d + n <= dst.Length && s + n <= src.Length
    modifies dst
    ensures Copied(old(dst[..]), dst[..], 8 * d, src[..], 8 * s, 8 * n)
  {
    hide Copied;
    var i := 0;
    while i < n
      invariant 0 <= i <= n
      invariant forall j :: 0 <= j < dst.Length ==>
                  dst[j] == if d <= j < d + i then src[s + j - d] else old(dst[j])
    {
      dst[d + i] := src[s + i];
      i := i + 1;
    }
    OctetsCopied(old(dst[..]), dst[..], d, src[..], s, n);
  }

  lemma OctetsCopied(a: seq<octet>, b: seq<octet>, d: nat, src: seq<octet>, s: nat, n: nat)
    requires d + n <= |a| == |b| && s + n <= |src|
    requires forall j :: 0 <= j < |b| ==> b[j] == if d <= j < d + n then src[s + j - d] else a[j]
    ensures Copied(a, b, 8 * d, src, 8 * s, 8 * n)
  {
    forall i | 0 <= i < 8 * |b|
      ensures BitAt(b, i) == if 8 * d <= i < 8 * d + 8 * n then BitAt(src, 8 * s + i - 8 * d)
                             else BitAt(a, i)
    {
      var q := i / 8;
      if d <= q < d + n {
        assert b[q] == src[s + q - d];
      }
    }
  }

  /** bitcpy(): whole octets through memcpy() where the offsets allow it, putbits8() for the
      rest.  The copy is exact for good offsets; for all others the remainder is written across
      an octet boundary, and lost in part. */
  method Bitcpy(dst: array?<octet>, dOff: nat, src: array?<octet>, sOff: nat, nbits: nat)
    returns (status: int)
    requires dst != null && src != null ==>
               dst != src && dOff + nbits <= 8 * dst.Length && sOff + nbits <= 8 * src.Length
    modifies if dst != null then {dst} else {}
    ensures status == if dst == null || src == null then -1 else 0
    ensures dst != null && src == null ==> dst[..] == old(dst[..])
    ensures dst != null && src != null && Good(dOff, sOff, nbits) ==>
              Copied(old(dst[..]), dst[..], dOff, src[..], sOff, nbits)
    ensures dst != null && src != null && !Good(dOff, sOff, nbits) ==>
              Straddled(old(dst[..]), dst[..], dOff, src[..], sOff, nbits)
  {
    if dst == null {
      return -1;
    }
    if src == null {
      return -1;
    }
    if nbits == 0 {
      CopiedNothing(dst[..], dOff, src[..], sOff);
      return 0;
    }
    hide Copied, BitAt, Put, Straddled;
    CopyBits(dst, dOff, src, sOff, nbits);
    return 0;
  }

  /** bitcpy() once its arguments have been checked. */
  method CopyBits(dst: array<octet>, dOff: nat, src: array<octet>, sOff: nat, nbits: nat)
    requires dst != src && dOff + nbits <= 8 * dst.Length && sOff + nbits <= 8 * src.Length
    modifies dst
    ensures Good(dOff, sOff, nbits) ==> Copied(old(dst[..]), dst[..], dOff, src[..], sOff, nbits)
    ensures !Good(dOff, sOff, nbits) ==> Straddled(old(dst[..]), dst[..], dOff, src[..], sOff, nbits)
  {
    hide Copied, BitAt, Put, Straddled;
    var d, s, n := dOff, sOff, nbits;
    CopiedNothing(dst[..], dOff, src[..], sOff);
    if d % 8 != 0 || s % 8 != 0 {
      var c := n;
      if n >= 8 && d % 8 == s % 8 {
        c := 8 - d % 8;
      }
      n := n - c;
      LeadIn(dst, d, src, s, c);
      d, s := d + c, s + c;
    }
    ghost var before := dst[..];
    MainBlock(dst, d, src, s, n);
    if n != 0 {
      CopiedTwice(old(dst[..]), before, dst[..], dOff, src[..], sOff, nbits - n, n);
    } else {
      CopiedSame(before, dst[..], d, src[..], s);
    }
  }

  /** The second half of bitcpy(): memcpy() of the whole octets, putbits8() for the tail. */
  method MainBlock(dst: array<octet>, d: nat, src: array<octet>, s: nat, n: nat)
    requires dst != src && d + n <= 8 * dst.Length && s + n <= 8 * src.Length
    requires n == 0 || (d % 8 == 0 && s % 8 == 0)
    modifies dst
    ensures Copied(old(dst[..]), dst[..], d, src[..], s, n)
  {
    hide Copied, BitAt, Put;
    var c := n / 8;
    var b := c * 8;
    MemCpy(dst, d / 8, src, s / 8, c);
    if c == 0 {
      CopiedSame(old(dst[..]), dst[..], d / 8 * 8, src[..], s / 8 * 8);
      CopiedNothing(dst[..], d, src[..], s);
    }
    ghost var before := dst[..];
    PutBits8(dst, d + b, src, s + b, n - b);
    if n - b != 0 {
      PutCopies(before, d + b, src[..], s + b, n - b);
      CopiedTwice(old(dst[..]), before, dst[..], d, src[..], s, b, n - b);
    }
  }

  /** Progress of the lead-in loop after k of c bits. */
  ghost predicate Led(was: seq<octet>, now: seq<octet>, d: nat, src: seq<octet>, s: nat, c: nat, k: nat)
    requires k <= c && d + c <= 8 * |was| && |now| == |was| && s + c <= 8 * |src|
  {
    && (d % 8 + c % 8 <= 8 || k < c || c == 0 ==> Copied(was, now, d, src, s, k))
    && (d % 8 + c % 8 > 8 && k == c ==> Straddled(was, now, d, src, s, c))
  }

  lemma LeadSizes(d: nat, c: nat, k: nat, n: nat)
    requires k < c && k % 8 == 0 && n == (if c - k < 8 then c - k else 8)
    ensures (d + k) % 8 == d % 8 && 0 < n <= 8
    ensures k + n == c && n < 8 ==> n == c % 8
    ensures k + n == c && n == 8 ==> c % 8 == 0
    ensures n < 8 ==> k + n == c
  {
  }

  lemma LedFurther(was: seq<octet>, now: seq<octet>, d: nat, src: seq<octet>, s: nat, c: nat, k: nat, n: nat)
    requires k < c && d + c <= 8 * |was| && |now| == |was| && s + c <= 8 * |src|
    requires k % 8 == 0 && n == (if c - k < 8 then c - k else 8)
    requires Led(was, now, d, src, s, c, k)
    ensures Led(was, Put(now, d + k, src, s + k, n), d, src, s, c, k + n)
  {
    hide Copied, BitAt, Put, Straddled;
    LeadSizes(d, c, k, n);
    if n == 8 || d % 8 + c % 8 <= 8 {
      PutCopies(now, d + k, src, s + k, n);
      CopiedTwice(was, now, Put(now, d + k, src, s + k, n), d, src, s, k, n);
    } else {
      MakeStraddled(was, now, d, src, s, c, k);
    }
  }

  /** The lead-in loop: c bits through putbits8(), eight at a time. */
  method LeadIn(dst: array<octet>, d: nat, src: array<octet>, s: nat, c: nat)
    requires dst != src && d + c <= 8 * dst.Length && s + c <= 8 * src.Length
    modifies dst
    ensures d % 8 + c % 8 <= 8 ==> Copied(old(dst[..]), dst[..], d, src[..], s, c)
    ensures d % 8 + c % 8 > 8 ==> Straddled(old(dst[..]), dst[..], d, src[..], s, c)
  {
    hide Copied, BitAt, Put, Straddled;
    var k := 0;
    CopiedNothing(dst[..], d, src[..], s);
    while k < c
      invariant 0 <= k <= c && (k % 8 == 0 || k == c)
      invariant Led(old(dst[..]), dst[..], d, src[..], s, c, k)
    {
      hide Led;
      var n := 8;
      if c - k < 8 {
        n := c - k;
      }
      LedFurther(old(dst[..]), dst[..], d, src[..], s, c, k, n);
      PutBits8(dst, d + k, src, s + k, n);
      k := k + n;
    }
  }
}
