/**
 The tracking of CCSDS sequence counts (net.c, check_pus_sequence).  A list is meant to hold, per
 application process identifier (APID), the count expected next, but the program never counts
 the entries it adds.  The verdicts a packet deserves are described on the whole history of
 packets; what the program returns, when that is right, and what it would return if it counted
 its entries are proved against this description.
 */
module SeqTracker {
  import opened BitStrings

  const HDR_LEN := 6
  const MODULUS := 0x4000

  type Pkt = seq<octet>

  datatype Option<T> = None | Some(value: T)

  datatype Verdict = Fine | Mismatch(expected: nat, received: nat)

  datatype PusSeq = PusSeq(apid: nat, next: nat)

  /** ccsds_get_apid(): eleven bits. */
  function Apid(pkt: Pkt): nat
    requires |pkt| >= HDR_LEN
  {
    var hi, lo: Bits := pkt[0][5..], pkt[1];
    Value(hi + lo)
  }

  /** ccsds_get_seq_cnt(): fourteen bits. */
  function SeqCnt(pkt: Pkt): nat
    requires |pkt| >= HDR_LEN
  {
    var hi, lo: Bits := pkt[2][2..], pkt[3];
    Value(hi + lo)
  }

  /** (count + 1) & 0x3fff */
  function After(count: nat): nat {
    (count + 1) % MODULUS
  }

  predicate Of(pkt: Pkt, apid: nat) {
    |pkt| >= HDR_LEN && Apid(pkt) == apid
  }

  // ---- the history view ---------------------------------------------------------------------

  /** The sequence count of the last packet of an APID. */
  function LastCount(h: seq<Pkt>, apid: nat): Option<nat> {
    if h == [] then None
    else if Of(h[|h| - 1], apid) then Some(SeqCnt(h[|h| - 1]))
    else LastCount(h[..|h| - 1], apid)
  }

  /** What a packet deserves after the packets `h`: a mismatch exactly if there has been a
      packet of its APID and the last one is not its predecessor modulo 2^14. */
  function Judge(h: seq<Pkt>, pkt: Pkt): Verdict {
    if |pkt| < HDR_LEN then Fine
    else match LastCount(h, Apid(pkt))
      case None => Fine
      case Some(c) => if SeqCnt(pkt) == After(c) then Fine else Mismatch(After(c), SeqCnt(pkt))
  }

  /** The verdicts on the packets of one APID, in order. */
  function Verdicts(h: seq<Pkt>, apid: nat): seq<Verdict> {
    if h == [] then []
    else
      var t, p := h[..|h| - 1], h[|h| - 1];
      Verdicts(t, apid) + if Of(p, apid) then [Judge(t, p)] else []
  }

  /** The packets of one APID, in order. */
  function Only(h: seq<Pkt>, apid: nat): seq<Pkt> {
    if h == [] then []
    else Only(h[..|h| - 1], apid) + if Of(h[|h| - 1], apid) then [h[|h| - 1]] else []
  }

  // ---- on octets --------------------------------------------------------------------------------

  lemma FieldsOnOctets(pkt: Pkt)
    requires |pkt| >= 6
    ensures Apid(pkt) == 0x100 * (Value(pkt[0]) % 8) + Value(pkt[1])
    ensures SeqCnt(pkt) == 0x100 * (Value(pkt[2]) % 64) + Value(pkt[3])
  {
    hide Value;
    PowersOfTwo();
    var l1: Bits, l3: Bits := pkt[1], pkt[3];
    ValueConcat(pkt[0][5..], l1);
    ValueConcat(pkt[2][2..], l3);
    LowBitsValue(pkt[0], 5);
    LowBitsValue(pkt[2], 2);
  }

  /** What a second packet deserves, in the octets of both headers: a report exactly if its APID is
      that of the first and its count is not the next one modulo 2^14. */
  lemma SecondPacket(p: Pkt, q: Pkt)
    ensures Judge([p], q) == Fine <==>
              (|p| >= 6 && |q| >= 6
               && 0x100 * (Value(p[0]) % 8) + Value(p[1]) == 0x100 * (Value(q[0]) % 8) + Value(q[1])
               ==> 0x100 * (Value(q[2]) % 64) + Value(q[3])
                   == (0x100 * (Value(p[2]) % 64) + Value(p[3]) + 1) % 0x4000)
  {
    hide Value, Apid, SeqCnt;
    if |p| >= 6 {
      FieldsOnOctets(p);
    }
    if |q| >= 6 {
      FieldsOnOctets(q);
      assert [p][..0] == [];
      assert LastCount([p], Apid(q)) == if Of(p, Apid(q)) then Some(SeqCnt(p)) else None;
    }
  }

  /** The entry a packet leaves, in the octets of its header; shorter packets leave none. */
  lemma EntryOnOctets(h: seq<Pkt>, p: Pkt)
    ensures LastEntry(h + [p]) ==
      if |p| >= 6 then [PusSeq(0x100 * (Value(p[0]) % 8) + Value(p[1]),
                               (0x100 * (Value(p[2]) % 64) + Value(p[3]) + 1) % 0x4000)]
      else LastEntry(h)
  {
    hide Value, Apid, SeqCnt;
    assert (h + [p])[..|h|] == h;
    if |p| >= 6 {
      FieldsOnOctets(p);
    }
  }

  // ---- the program ------------------------------------------------------------------------------

  /** Position of the first entry for an APID, |list| if there is none. */
  function Find(list: seq<PusSeq>, apid: nat): (i: nat)
    ensures i <= |list| && (i < |list| ==> list[i].apid == apid)
    ensures forall j :: 0 <= j < i ==> list[j].apid != apid
  {
    if list == [] || list[0].apid == apid then 0 else 1 + Find(list[1..], apid)
  }

  /** The entry a packet leaves. */
  function Entry(pkt: Pkt): PusSeq
    requires |pkt| >= HDR_LEN
  {
    PusSeq(Apid(pkt), After(SeqCnt(pkt)))
  }

  class Tracker {
    /** The allocated block, and how many of its entries are in use. */
    var block: seq<PusSeq>
    var n: nat

    constructor ()
      ensures block == [] && n == 0
    {
      block, n := [], 0;
    }

    /** check_pus_sequence(): an APID without an entry gets one behind the n in use, an APID with
        one is compared and updated.  The program never changes n. */
    method Check(pkt: Pkt) returns (v: Verdict)
      requires n <= |block|
      modifies this`block
      ensures n <= |block|
      ensures |pkt| < HDR_LEN ==> block == old(block) && v == Fine
      ensures |pkt| >= HDR_LEN ==>
                var used := old(block)[..n];
                var i := Find(used, Apid(pkt));
                if i == n then block == used + [Entry(pkt)] && v == Fine
                else block == old(block)[i := Entry(pkt)]
                     && v == if SeqCnt(pkt) == used[i].next then Fine else Mismatch(used[i].next, SeqCnt(pkt))
    {
      if |pkt| < HDR_LEN {
        return Fine;
      }
      var apid, sctr := Apid(pkt), SeqCnt(pkt);
      var i := 0;
      while i < n
        invariant 0 <= i <= n
        invariant forall j :: 0 <= j < i ==> block[j].apid != apid
      {
        if block[i].apid == apid {
          break;
        }
        i := i + 1;
      }
      assert i == Find(block[..n], apid);
      if i == n {
        block := block[..n] + [PusSeq(apid, After(sctr))];
        return Fine;
      }
      v := Fine;
      if sctr != block[i].next {
        v := Mismatch(block[i].next, sctr);
      }
      block := block[i := PusSeq(apid, After(sctr))];
    }
  }

  /** The entry of the last packet with a complete header, if there is one. */
  function LastEntry(h: seq<Pkt>): (block: seq<PusSeq>)
    ensures |block| <= 1
  {
    if h == [] then []
    else if |h[|h| - 1]| >= HDR_LEN then [Entry(h[|h| - 1])]
    else LastEntry(h[..|h| - 1])
  }

  /** Every packet of an APID is followed by its successor. */
  ghost predicate NoGap(h: seq<Pkt>) {
    forall i: nat, j: nat :: Neighbours(h, i, j) ==> SeqCnt(h[j]) == After(SeqCnt(h[i]))
  }

  /** A run of the program.  No entry is ever in use, so no packet of any run is reported, and
      the block remembers the last packet only.  These verdicts are the ones deserved exactly if
      there was nothing to report. */
  method Run(pkts: seq<Pkt>) returns (vs: seq<Verdict>, block: seq<PusSeq>)
    ensures |vs| == |pkts| && forall i :: 0 <= i < |pkts| ==> vs[i] == Fine
    ensures block == LastEntry(pkts)
    ensures (forall i :: 0 <= i < |pkts| ==> vs[i] == Judge(pkts[..i], pkts[i])) <==> NoGap(pkts)
  {
    hide Judge;
    var t := new Tracker();
    vs := [];
    assert pkts[..0] == [];
    var i := 0;
    while i < |pkts|
      invariant 0 <= i <= |pkts| && |vs| == i && t.n == 0
      invariant forall j :: 0 <= j < i ==> vs[j] == Fine
      invariant t.block == LastEntry(pkts[..i])
    {
      assert pkts[..i + 1][..i] == pkts[..i];
      var v := t.Check(pkts[i]);
      vs := vs + [v];
      i := i + 1;
    }
    assert pkts[..|pkts|] == pkts;
    block := t.block;
    CleanIffIncrementing(pkts);
  }

  /** A packet that comes twice deserves a report, and does not get one. */
  lemma RepetitionMissed(p: Pkt)
    requires |p| >= HDR_LEN
    ensures Judge([p], p) == Mismatch(After(SeqCnt(p)), SeqCnt(p)) && !NoGap([p, p])
  {
    assert LastCount([p], Apid(p)) == Some(SeqCnt(p));
    NotItsOwnSuccessor(p);
    assert Neighbours([p, p], 0, 1);
  }

  lemma NotItsOwnSuccessor(p: Pkt)
    requires |p| >= HDR_LEN
    ensures SeqCnt(p) < MODULUS && After(SeqCnt(p)) != SeqCnt(p)
  {
    PowersOfTwo();
    assert Pow2(14) == 4 * (4 * (4 * Pow2(8)));
  }

  /** The count a block holds for an APID. */
  function Held(block: seq<PusSeq>, apid: nat): Option<nat> {
    var i := Find(block, apid);
    if i < |block| then Some(block[i].next) else None
  }

  /** The count held for an APID after an interleaved run is the one held after its packets alone
      exactly if it has no packets, or if no other APID came after the last of them. */
  lemma HeldIff(h: seq<Pkt>, apid: nat)
    ensures Held(LastEntry(h), apid) == Held(LastEntry(Only(h, apid)), apid)
       <==> LastCount(h, apid).None? || (LastEntry(h) != [] && LastEntry(h)[0].apid == apid)
  {
    hide Apid, SeqCnt, After;
    HeldAlone(h, apid);
    HeldTogether(h, apid);
  }

  lemma {:induction false} HeldAlone(h: seq<Pkt>, apid: nat)
    ensures Held(LastEntry(Only(h, apid)), apid)
         == match LastCount(h, apid) case None => None case Some(c) => Some(After(c))
    decreases |h|
  {
    hide Apid, SeqCnt, After;
    if h == [] {
    } else {
      var t, p := h[..|h| - 1], h[|h| - 1];
      HeldAlone(t, apid);
      if !Of(p, apid) {
        assert Only(h, apid) == Only(t, apid) + [] == Only(t, apid);
      }
    }
  }

  lemma {:induction false} HeldTogether(h: seq<Pkt>, apid: nat)
    ensures Held(LastEntry(h), apid)
         == if LastEntry(h) != [] && LastEntry(h)[0].apid == apid && LastCount(h, apid).Some?
            then Some(After(LastCount(h, apid).value)) else None
    decreases |h|
  {
    hide Apid, SeqCnt, After;
    if h == [] {
    } else {
      HeldTogether(h[..|h| - 1], apid);
    }
  }

  // ---- the program with the entry counted ---------------------------------------------------------

  /** The entries in use mirror the history: one per APID seen, holding the expected count. */
  ghost predicate Mirrors(list: seq<PusSeq>, h: seq<Pkt>) {
    && (forall i, j :: 0 <= i < j < |list| ==> list[i].apid != list[j].apid)
    && (forall i :: 0 <= i < |list| ==> LastCount(h, list[i].apid).Some?)
    && (forall i :: 0 <= i < |list| ==> list[i].next == After(LastCount(h, list[i].apid).value))
    && (forall a :: LastCount(h, a).Some? ==> exists i :: 0 <= i < |list| && list[i].apid == a)
  }

  /** What is missing: the same call, followed by counting an entry that it added. */
  method RepairedCheck(t: Tracker, pkt: Pkt, ghost h: seq<Pkt>) returns (v: Verdict)
    requires t.n == |t.block| && Mirrors(t.block, h)
    modifies t
    ensures t.n == |t.block| && Mirrors(t.block, h + [pkt])
    ensures v == Judge(h, pkt)
  {
    ghost var was := t.block;
    assert was[..t.n] == was;
    v := t.Check(pkt);
    if |pkt| < HDR_LEN {
      SameHistory(was, h, pkt);
    } else {
      ghost var i := Find(was, Apid(pkt));
      if |t.block| > t.n {
        NewEntry(was, t.block, h, pkt);
      } else {
        UpdatedEntry(was, t.block, h, pkt, i);
      }
    }
    t.n := |t.block|;
  }

  /** With the entry counted, a whole run judges every packet by the history before it. */
  method RepairedRun(pkts: seq<Pkt>) returns (vs: seq<Verdict>)
    ensures |vs| == |pkts|
    ensures forall i :: 0 <= i < |pkts| ==> vs[i] == Judge(pkts[..i], pkts[i])
  {
    hide Mirrors, Judge;
    var t := new Tracker();
    vs := [];
    NothingMirrored();
    assert pkts[..0] == [];
    var i := 0;
    while i < |pkts|
      invariant 0 <= i <= |pkts| && |vs| == i
      invariant t.n == |t.block| && Mirrors(t.block, pkts[..i])
      invariant forall j :: 0 <= j < i ==> vs[j] == Judge(pkts[..j], pkts[j])
    {
      assert pkts[..i + 1] == pkts[..i] + [pkts[i]];
      var v := RepairedCheck(t, pkts[i], pkts[..i]);
      vs := vs + [v];
      i := i + 1;
    }
  }

  lemma NothingMirrored()
    ensures Mirrors([], [])
  {
  }

  lemma CountAfter(h: seq<Pkt>, pkt: Pkt, a: nat)
    ensures LastCount(h + [pkt], a) == if Of(pkt, a) then Some(SeqCnt(pkt)) else LastCount(h, a)
  {
    assert (h + [pkt])[..|h|] == h;
  }

  lemma SameHistory(list: seq<PusSeq>, h: seq<Pkt>, pkt: Pkt)
    requires Mirrors(list, h) && |pkt| < HDR_LEN
    ensures Mirrors(list, h + [pkt])
  {
    hide LastCount, After;
    forall a: nat ensures LastCount(h + [pkt], a) == LastCount(h, a) {
      CountAfter(h, pkt, a);
    }
  }

  lemma NewEntry(was: seq<PusSeq>, list: seq<PusSeq>, h: seq<Pkt>, pkt: Pkt)
    requires Mirrors(was, h) && |pkt| >= HDR_LEN
    requires forall j :: 0 <= j < |was| ==> was[j].apid != Apid(pkt)
    requires list == was + [PusSeq(Apid(pkt), After(SeqCnt(pkt)))]
    ensures Mirrors(list, h + [pkt])
  {
    hide LastCount, After, Apid, SeqCnt;
    forall a: nat ensures LastCount(h + [pkt], a) == if Of(pkt, a) then Some(SeqCnt(pkt)) else LastCount(h, a) {
      CountAfter(h, pkt, a);
    }
    forall a: nat | LastCount(h + [pkt], a).Some? ensures exists i :: 0 <= i < |list| && list[i].apid == a {
      if a == Apid(pkt) {
        assert list[|was|].apid == a;
      } else {
        var i :| 0 <= i < |was| && was[i].apid == a;
        assert list[i].apid == a;
      }
    }
  }

  lemma UpdatedEntry(was: seq<PusSeq>, list: seq<PusSeq>, h: seq<Pkt>, pkt: Pkt, k: nat)
    requires Mirrors(was, h) && |pkt| >= HDR_LEN && k < |was| && was[k].apid == Apid(pkt)
    requires list == was[k := PusSeq(Apid(pkt), After(SeqCnt(pkt)))]
    ensures Mirrors(list, h + [pkt])
  {
    hide LastCount, After, Apid, SeqCnt;
    forall a: nat ensures LastCount(h + [pkt], a) == if Of(pkt, a) then Some(SeqCnt(pkt)) else LastCount(h, a) {
      CountAfter(h, pkt, a);
    }
    forall a: nat | LastCount(h + [pkt], a).Some? ensures exists i :: 0 <= i < |list| && list[i].apid == a {
      if a == Apid(pkt) {
        assert list[k].apid == a;
      } else {
        var i :| 0 <= i < |was| && was[i].apid == a;
        assert list[i].apid == a;
      }
    }
  }

  // ---- the verdicts deserved -----------------------------------------------------------------------

  lemma {:induction false} CountOfOnly(h: seq<Pkt>, apid: nat)
    ensures LastCount(Only(h, apid), apid) == LastCount(h, apid)
    decreases |h|
  {
    hide Apid, SeqCnt;
    if h == [] {
    } else {
      var t, p := h[..|h| - 1], h[|h| - 1];
      CountOfOnly(t, apid);
      if Of(p, apid) {
        CountAfter(Only(t, apid), p, apid);
      } else {
        assert Only(h, apid) == Only(t, apid) + [] == Only(t, apid);
      }
    }
  }

  /** APIDs do not disturb each other: over any interleaving, the verdicts deserved by the packets
      of an APID, and its last count, are those of these packets alone. */
  lemma {:induction false} ApidsIndependent(h: seq<Pkt>, apid: nat)
    ensures Verdicts(h, apid) == Verdicts(Only(h, apid), apid)
    ensures LastCount(h, apid) == LastCount(Only(h, apid), apid)
    decreases |h|
  {
    hide Apid, SeqCnt, LastCount;
    CountOfOnly(h, apid);
    if h == [] {
    } else {
      var t, p := h[..|h| - 1], h[|h| - 1];
      ApidsIndependent(t, apid);
      var o := Only(t, apid);
      if Of(p, apid) {
        assert Only(h, apid) == o + [p];
        assert (o + [p])[..|o|] == o;
        assert Judge(t, p) == Judge(o, p);
      } else {
        assert Only(h, apid) == o + [] == o;
        assert Verdicts(t, apid) + [] == Verdicts(t, apid);
      }
    }
  }

  /** Two interleavings of the same per-APID streams are judged alike. */
  lemma InterleavingIrrelevant(g: seq<Pkt>, h: seq<Pkt>, apid: nat)
    requires Only(g, apid) == Only(h, apid)
    ensures Verdicts(g, apid) == Verdicts(h, apid)
  {
    ApidsIndependent(g, apid);
    ApidsIndependent(h, apid);
  }

  /** j is the next packet of the APID of i. */
  ghost predicate Neighbours(h: seq<Pkt>, i: nat, j: nat) {
    && i < j < |h| && |h[i]| >= HDR_LEN && Of(h[j], Apid(h[i]))
    && forall k :: i < k < j ==> !Of(h[k], Apid(h[i]))
  }

  lemma {:induction false} LastIs(h: seq<Pkt>, n: nat, apid: nat) returns (i: nat)
    requires n <= |h|
    ensures LastCount(h[..n], apid).None? ==> forall k :: 0 <= k < n ==> !Of(h[k], apid)
    ensures LastCount(h[..n], apid).Some? ==>
              (i < n && Of(h[i], apid) && LastCount(h[..n], apid) == Some(SeqCnt(h[i]))
               && forall k :: i < k < n ==> !Of(h[k], apid))
    decreases n
  {
    hide Apid, SeqCnt;
    i := 0;
    if n > 0 {
      assert h[..n][..n - 1] == h[..n - 1];
      if Of(h[n - 1], apid) {
        i := n - 1;
      } else {
        i := LastIs(h, n - 1, apid);
      }
    }
  }

  /** A run is free of mismatches exactly when every packet follows the previous one of its
      APID modulo 2^14. */
  lemma CleanIffIncrementing(h: seq<Pkt>)
    ensures (forall j :: 0 <= j < |h| ==> Judge(h[..j], h[j]) == Fine)
       <==> NoGap(h)
  {
    hide LastCount, Apid, SeqCnt, After;
    if NoGap(h) {
      forall j | 0 <= j < |h| ensures Judge(h[..j], h[j]) == Fine {
        if |h[j]| >= HDR_LEN {
          var i := LastIs(h, j, Apid(h[j]));
          assert LastCount(h[..j], Apid(h[j])).Some? ==> Neighbours(h, i, j);
        }
      }
    }
    if forall j :: 0 <= j < |h| ==> Judge(h[..j], h[j]) == Fine {
      forall i: nat, j: nat | Neighbours(h, i, j) ensures SeqCnt(h[j]) == After(SeqCnt(h[i])) {
        var l := LastIs(h, j, Apid(h[j]));
        assert Judge(h[..j], h[j]) == Fine;
        assert l == i;
      }
    }
  }
}
