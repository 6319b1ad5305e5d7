/**
 The CRC-16 engine as it runs: the lookup tables filled in place, the byte loop, the three
 sliced loops with their alignment head, block body and tail, and the packet check.
 */
module Crc16Engine {
  import opened BitStrings
  import opened Lfsr
  import opened Crc16

  const SLICES := 8

  // ---- what the sliced tables hold --------------------------------------------------------

  /** A register advanced by k zero octets. */
  ghost function Advance(k: nat, w: word): word {
    if k == 0 then w else Step(Advance(k - 1, w), Zeros(8))
  }

  /** Entry of row k: row 0 advanced by k zero octets. */
  ghost function RowEntry(k: nat, b: octet): word {
    Advance(k, Entry(b))
  }

  /** The sum of one lookup per index, the first index in the highest row. */
  ghost function LookupSum(idx: seq<octet>): word
    decreases |idx|
  {
    if idx == [] then Zeros(16)
    else Xor(Step(LookupSum(idx[..|idx| - 1]), Zeros(8)), Entry(idx[|idx| - 1]))
  }

  lemma StepOfSum(x: word, y: word, b: octet)
    ensures Step(Xor(x, y), b) == Xor(Step(x, Zeros(8)), Step(y, b))
  {
    StepLinear(x, y, Zeros(8), b);
    assert Xor(Zeros(8), b) == b;
  }

  lemma {:induction false} AdvanceLinear(k: nat, x: word, y: word)
    ensures Advance(k, Xor(x, y)) == Xor(Advance(k, x), Advance(k, y))
  {
    hide Step, Xor;
    if k != 0 {
      AdvanceLinear(k - 1, x, y);
      StepOfSum(Advance(k - 1, x), Advance(k - 1, y), Zeros(8));
    }
  }

  lemma {:induction false} AdvanceStep(k: nat, w: word)
    ensures Advance(k, Step(w, Zeros(8))) == Advance(k + 1, w)
  {
    if k != 0 {
      AdvanceStep(k - 1, w);
    }
  }

  /** One more lookup, one row below the last. */
  lemma NextLookup(k: nat, idx: seq<octet>)
    requires idx != []
    ensures Advance(k, LookupSum(idx))
         == Xor(Advance(k + 1, LookupSum(idx[..|idx| - 1])), RowEntry(k, idx[|idx| - 1]))
  {
    var t := LookupSum(idx[..|idx| - 1]);
    AdvanceLinear(k, Step(t, Zeros(8)), Entry(idx[|idx| - 1]));
    AdvanceStep(k, t);
  }

  lemma FirstLookup(k: nat, b: octet)
    ensures Advance(k, LookupSum([b])) == RowEntry(k, b)
  {
    assert [b][..0] == [];
    StepByTable(Zeros(16), Zeros(8));
    assert LookupSum([b]) == Xor(Step(Zeros(16), Zeros(8)), Entry(b));
    PolyFacts();
    RunZeros(POLY, 8);
    assert Xor(Zeros(16), Entry(b)) == Entry(b);
  }

  /** The lookup indices of a block: the register is added to its first two octets. */
  ghost function Indices(crc: word, block: seq<octet>): (idx: seq<octet>)
    requires |block| >= 2
    ensures |idx| == |block|
  {
    [Xor(crc[..8], block[0]), Xor(crc[8..], block[1])] + block[2..]
  }

  /** A whole block at once: the sum of its lookups is the register after its octets. */
  lemma {:induction false} BlockIsCrc(crc: word, block: seq<octet>)
    requires |block| >= 2
    ensures LookupSum(Indices(crc, block)) == Crc(crc, block)
    decreases |block|
  {
    hide Step, Entry, Xor;
    var n := |block| - 1;
    var idx := Indices(crc, block);
    if n == 1 {
      PairIsCrc(crc, block[0], block[1]);
      assert block == [block[0], block[1]];
    } else {
      assert idx[..n] == Indices(crc, block[..n]);
      BlockIsCrc(crc, block[..n]);
      LastOctet(Crc(crc, block[..n]), block[n]);
    }
  }

  lemma PairIsCrc(crc: word, a: octet, b: octet)
    ensures LookupSum(Indices(crc, [a, b])) == Crc(crc, [a, b])
  {
    hide Step, Entry, Xor;
    var i, j: octet := Xor(crc[..8], a), Xor(crc[8..], b);
    TwoOctets(crc, a, b);
    FirstLookup(0, i);
    assert [i, j][..1] == [i];
    assert LookupSum([i, j]) == Xor(Step(Entry(i), Zeros(8)), Entry(j));
    assert [a, b][..1] == [a] && [a][..0] == [];
    assert Crc(crc, [a]) == Step(crc, a);
    assert Crc(crc, [a, b]) == Step(Step(crc, a), b);
  }

  lemma LastOctet(w: word, b: octet)
    ensures Step(w, b) == Xor(Step(w, Zeros(8)), Entry(b))
  {
    StepOfSum(w, Zeros(16), b);
    assert Xor(w, Zeros(16)) == w;
    StepByTable(Zeros(16), b);
    assert Xor(Zeros(16)[..8], b) == b;
    assert Xor(Zeros(16)[8..] + Zeros(8), Entry(b)) == Entry(b);
  }

  lemma TwoOctets(crc: word, a: octet, b: octet)
    ensures Step(Step(crc, a), b)
         == Xor(Step(Entry(Xor(crc[..8], a)), Zeros(8)), Entry(Xor(crc[8..], b)))
  {
    hide Step, Entry;
    var x, y: word := Entry(Xor(crc[..8], a)), crc[8..] + Zeros(8);
    StepByTable(crc, a);
    assert Xor(y, x) == Xor(x, y);
    StepOfSum(x, y, b);
    StepByTable(y, b);
    assert y[..8] == crc[8..] && y[8..] == Zeros(8);
    assert Xor(Zeros(8) + Zeros(8), Entry(Xor(crc[8..], b))) == Entry(Xor(crc[8..], b));
  }

  /** The lookups of the first j of m indices, added up in the order the loops add them. */
  ghost function Partial(m: nat, idx: seq<octet>, j: nat): word
    requires j <= m == |idx|
  {
    if j == 0 then Zeros(16)
    else if j == 1 then RowEntry(m - 1, idx[0])
    else Xor(Partial(m, idx, j - 1), RowEntry(m - j, idx[j - 1]))
  }

  lemma {:induction false} PartialIsSum(m: nat, idx: seq<octet>, j: nat)
    requires 0 < j <= m == |idx|
    ensures Partial(m, idx, j) == Advance(m - j, LookupSum(idx[..j]))
  {
    hide Step, Xor, Entry, Advance;
    if j == 1 {
      FirstLookup(m - 1, idx[0]);
      assert idx[..1] == [idx[0]];
    } else {
      PartialIsSum(m, idx, j - 1);
      NextLookup(m - j, idx[..j]);
      assert idx[..j][..j - 1] == idx[..j - 1];
    }
  }

  /** All lookups of a block, added up: the register after the block. */
  lemma BlockLookups(crc: word, block: seq<octet>)
    requires |block| >= 2
    ensures Partial(|block|, Indices(crc, block), |block|) == Crc(crc, block)
  {
    hide Step, Xor, Entry;
    var m, idx := |block|, Indices(crc, block);
    PartialIsSum(m, idx, m);
    assert idx[..m] == idx;
    BlockIsCrc(crc, block);
  }

  // ---- loading several octets as one machine word -----------------------------------------

  /** The octets at an address as an unsigned integer in the byte order of the machine. */
  function Load(block: seq<octet>, bigEndian: bool): (n: Bits)
    ensures |n| == 8 * |block|
  {
    if block == [] then []
    else if bigEndian then block[0] + Load(block[1..], bigEndian)
    else Load(block[1..], bigEndian) + block[0]
  }

  /** (n >> shift) & 0xff */
  function OctetAt(n: Bits, shift: nat): octet
    requires shift + 8 <= |n|
  {
    n[|n| - shift - 8..|n| - shift]
  }

  /** The shift that selects octet k of a loaded block. */
  function ShiftOf(k: nat, size: nat, bigEndian: bool): nat
    requires k < size
  {
    if bigEndian then 8 * (size - 1 - k) else 8 * k
  }

  lemma {:induction false} LoadedOctet(block: seq<octet>, bigEndian: bool, k: nat)
    requires k < |block|
    ensures OctetAt(Load(block, bigEndian), ShiftOf(k, |block|, bigEndian)) == block[k]
    decreases |block|
  {
    if k != 0 {
      LoadedOctet(block[1..], bigEndian, k - 1);
    }
  }

  // ---- the eight constants of the table ---------------------------------------------------

  /** The octet with only bit k set. */
  function Unit(k: nat): octet
    requires k < 8
  {
    Zeros(7 - k) + [true] + Zeros(k)
  }

  lemma DivisorSteps(k: nat, c: word)
    requires Run(POLY, POLY, Zeros(k)) == c
    ensures Run(POLY, POLY, Zeros(k + 1)) == Shift(POLY, c, false)
  {
    assert Zeros(k + 1) == Zeros(k) + [false];
    RunConcat(POLY, POLY, Zeros(k), [false]);
    assert [false][1..] == [];
  }

  /** The constants are the divisor shifted zero to seven times. */
  lemma TableConstants()
    ensures Entry(Unit(0)) == ToBits(16, 0x1021) && Entry(Unit(1)) == ToBits(16, 0x2042)
    ensures Entry(Unit(2)) == ToBits(16, 0x4084) && Entry(Unit(3)) == ToBits(16, 0x8108)
    ensures Entry(Unit(4)) == ToBits(16, 0x1231) && Entry(Unit(5)) == ToBits(16, 0x2462)
    ensures Entry(Unit(6)) == ToBits(16, 0x48C4) && Entry(Unit(7)) == ToBits(16, 0x9188)
  {
    hide Run, ToBits, Shift, Nibble;
    UnitEntry(POLY, 7, 0);
    UnitEntry(POLY, 6, 1);
    UnitEntry(POLY, 5, 2);
    UnitEntry(POLY, 4, 3);
    UnitEntry(POLY, 3, 4);
    UnitEntry(POLY, 2, 5);
    UnitEntry(POLY, 1, 6);
    UnitEntry(POLY, 0, 7);
    ConstantChain();
  }

  lemma ConstantChain()
    ensures Run(POLY, POLY, Zeros(0)) == ToBits(16, 0x1021)
    ensures Run(POLY, POLY, Zeros(1)) == ToBits(16, 0x2042)
    ensures Run(POLY, POLY, Zeros(2)) == ToBits(16, 0x4084)
    ensures Run(POLY, POLY, Zeros(3)) == ToBits(16, 0x8108)
    ensures Run(POLY, POLY, Zeros(4)) == ToBits(16, 0x1231)
    ensures Run(POLY, POLY, Zeros(5)) == ToBits(16, 0x2462)
    ensures Run(POLY, POLY, Zeros(6)) == ToBits(16, 0x48C4)
    ensures Run(POLY, POLY, Zeros(7)) == ToBits(16, 0x9188)
  {
    hide Run, ToBits, Shift, Nibble;
    PolyFacts();
    NoSteps();
    DivisorSteps(0, ToBits(16, 0x1021));
    Constant1();
    DivisorSteps(1, ToBits(16, 0x2042));
    Constant2();
    DivisorSteps(2, ToBits(16, 0x4084));
    Constant3();
    DivisorSteps(3, ToBits(16, 0x8108));
    Constant4();
    DivisorSteps(4, ToBits(16, 0x1231));
    Constant5();
    DivisorSteps(5, ToBits(16, 0x2462));
    Constant6();
    DivisorSteps(6, ToBits(16, 0x48C4));
    Constant7();
  }

  lemma NoSteps()
    ensures Run(POLY, POLY, Zeros(0)) == POLY
  {
  }

  lemma Constant1()
    ensures Shift(POLY, ToBits(16, 0x1021), false) == ToBits(16, 0x2042)
  {
    hide ToBits;
    HexWord(1, 0, 2, 1);
    HexWord(2, 0, 4, 2);
  }

  lemma Constant2()
    ensures Shift(POLY, ToBits(16, 0x2042), false) == ToBits(16, 0x4084)
  {
    hide ToBits;
    HexWord(2, 0, 4, 2);
    HexWord(4, 0, 8, 4);
  }

  lemma Constant3()
    ensures Shift(POLY, ToBits(16, 0x4084), false) == ToBits(16, 0x8108)
  {
    hide ToBits;
    HexWord(4, 0, 8, 4);
    HexWord(8, 1, 0, 8);
  }

  lemma Constant4()
    ensures Shift(POLY, ToBits(16, 0x8108), false) == ToBits(16, 0x1231)
  {
    hide ToBits;
    HexWord(8, 1, 0, 8);
    HexWord(1, 2, 3, 1);
  }

  lemma Constant5()
    ensures Shift(POLY, ToBits(16, 0x1231), false) == ToBits(16, 0x2462)
  {
    hide ToBits;
    HexWord(1, 2, 3, 1);
    HexWord(2, 4, 6, 2);
  }

  lemma Constant6()
    ensures Shift(POLY, ToBits(16, 0x2462), false) == ToBits(16, 0x48C4)
  {
    hide ToBits;
    HexWord(2, 4, 6, 2);
    HexWord(4, 8, 12, 4);
  }

  lemma Constant7()
    ensures Shift(POLY, ToBits(16, 0x48C4), false) == ToBits(16, 0x9188)
  {
    hide ToBits;
    HexWord(4, 8, 12, 4);
    HexWord(9, 1, 8, 8);
  }

  /** The k low bits of an octet. */
  function Low(b: octet, k: nat): octet
    requires k <= 8
  {
    Zeros(8 - k) + b[8 - k..]
  }

  /** Taking one more bit of the octet into account adds its constant, if the bit is set. */
  lemma NextBit(b: octet, k: nat)
    requires k < 8
    ensures Entry(Low(b, k + 1)) ==
            if b[7 - k] then Xor(Entry(Low(b, k)), Entry(Unit(k))) else Entry(Low(b, k))
  {
    if b[7 - k] {
      assert Xor(Low(b, k), Unit(k)) == Low(b, k + 1);
      EntryLinear(Low(b, k), Unit(k));
    } else {
      assert Low(b, k) == Low(b, k + 1);
    }
  }

  lemma NoBits(b: octet)
    ensures Entry(Low(b, 0)) == Zeros(16) && Low(b, 8) == b
  {
    assert Low(b, 0) == Zeros(8);
    RunZeros(POLY, 8);
  }

  lemma XorCommutes(a: Bits, b: Bits)
    requires |a| == |b|
    ensures Xor(a, b) == Xor(b, a)
  {
  }

  // ---- the engine -------------------------------------------------------------------------

  function Index(b: octet): (i: nat)
    ensures i < 256 && ToBits(8, i) == b
  {
    BitsOfValue(b);
    assert Pow2(8) == 256;
    Value(b)
  }

  function HighOctet(crc: word): octet { crc[..8] }

  function LowOctet(crc: word): octet { crc[8..] }

  /** The file-scope tables of crc16.c.  `crc16_LUT` is row 0 of the sliced table. */
  class Tables {
    const sliced: array2<word>

    constructor ()
      ensures fresh(sliced) && Shaped()
    {
      sliced := new word[SLICES, 256];
    }

    predicate Shaped() {
      sliced.Length0 == SLICES && sliced.Length1 == 256
    }

    /** Row k has been filled. */
    ghost predicate HasRow(k: nat)
      requires Shaped() && k < SLICES
      reads sliced
    {
      forall i :: 0 <= i < 256 ==> sliced[k, i] == RowEntry(k, ToBits(8, i))
    }

    ghost predicate HasRows()
      requires Shaped()
      reads sliced
    {
      forall k :: 0 <= k < SLICES ==> HasRow(k)
    }

    function Lookup(k: nat, idx: octet): word
      requires Shaped() && k < SLICES
      reads sliced
    {
      sliced[k, Index(idx)]
    }

    /** crc16(): one octet. */
    function Crc16(b: octet, crc: word): word
      requires Shaped()
      reads sliced
    {
      Xor(Shl(crc, 8), Lookup(0, Xor(HighOctet(crc), b)))
    }

    lemma Crc16IsStep(b: octet, crc: word)
      requires Shaped() && HasRow(0)
      ensures Crc16(b, crc) == Step(crc, b)
    {
      StepByTable(crc, b);
      assert Shl(crc, 8) == crc[8..] + Zeros(8);
    }

    /** The body of the initialisation loop: one conditional constant per bit of the index. */
    static method TableValue(i: octet) returns (S: word)
      ensures S == Entry(i)
    {
      hide Entry, Low, Unit, Xor, ToBits;
      TableConstants();
      NoBits(i);
      S := Zeros(16);
      if i[7] { S := Xor(S, ToBits(16, 0x1021)); }
      assert S == Entry(Low(i, 1)) by { NextBit(i, 0); }
      if i[6] { S := Xor(S, ToBits(16, 0x2042)); }
      assert S == Entry(Low(i, 2)) by { NextBit(i, 1); }
      if i[5] { S := Xor(S, ToBits(16, 0x4084)); }
      assert S == Entry(Low(i, 3)) by { NextBit(i, 2); }
      if i[4] { S := Xor(S, ToBits(16, 0x8108)); }
      assert S == Entry(Low(i, 4)) by { NextBit(i, 3); }
      if i[3] { S := Xor(S, ToBits(16, 0x1231)); }
      assert S == Entry(Low(i, 5)) by { NextBit(i, 4); }
      if i[2] { S := Xor(S, ToBits(16, 0x2462)); }
      assert S == Entry(Low(i, 6)) by { NextBit(i, 5); }
      if i[1] { S := Xor(S, ToBits(16, 0x48C4)); }
      assert S == Entry(Low(i, 7)) by { NextBit(i, 6); }
      if i[0] { S := Xor(S, ToBits(16, 0x9188)); }
      assert S == Entry(Low(i, 8)) by { NextBit(i, 7); }
    }

    /** crc_init_lookup_table() */
    method InitLookupTable()
      requires Shaped()
      modifies sliced
      ensures HasRow(0)
    {
      var i := 0;
      while i < 256
        invariant 0 <= i <= 256
        invariant forall j :: 0 <= j < i ==> sliced[0, j] == Entry(ToBits(8, j))
      {
        var S := TableValue(ToBits(8, i));
        sliced[0, i] := S;
        i := i + 1;
      }
    }

    /** crc16_init_sliced_lookup_table() */
    method InitSlicedLookupTable()
      requires Shaped()
      modifies sliced
      ensures HasRows()
    {
      InitLookupTable();
      var n := 0;
      while n < 256
        invariant 0 <= n <= 256 && HasRow(0)
      {
        sliced[0, n] := sliced[0, n];
        n := n + 1;
      }
      n := 0;
      while n < 256
        invariant 0 <= n <= 256 && HasRow(0)
        invariant forall k, j :: 0 <= k < SLICES && 0 <= j < n ==>
                    sliced[k, j] == RowEntry(k, ToBits(8, j))
      {
        FillColumn(n);
        n := n + 1;
      }
    }

    lemma NextRow(k: nat, crc: word, b: octet)
      requires Shaped() && HasRow(0) && crc == RowEntry(k, b)
      ensures Xor(Lookup(0, HighOctet(crc)), Shl(crc, 8)) == RowEntry(k + 1, b)
    {
      hide Entry;
      Crc16IsStep(Zeros(8), crc);
      XorZeros(HighOctet(crc));
      assert Xor(Lookup(0, HighOctet(crc)), Shl(crc, 8)) == Crc16(Zeros(8), crc);
    }

    /** The inner loop: each row is the one above advanced by a zero octet. */
    method FillColumn(n: nat)
      requires Shaped() && HasRow(0) && n < 256
      modifies sliced
      ensures forall k :: 0 <= k < SLICES ==> sliced[k, n] == RowEntry(k, ToBits(8, n))
      ensures forall k, j :: 0 <= k < SLICES && 0 <= j < 256 && j != n ==>
                sliced[k, j] == old(sliced[k, j])
    {
      hide Entry, Advance, ToBits, Xor, Shl;
      var crc := sliced[0, n];
      var k := 1;
      while k < SLICES
        invariant 1 <= k <= SLICES && HasRow(0)
        invariant crc == RowEntry(k - 1, ToBits(8, n))
        invariant forall i :: 0 <= i < k ==> sliced[i, n] == RowEntry(i, ToBits(8, n))
        invariant forall i, j :: 0 <= i < SLICES && 0 <= j < 256 && j != n ==>
                    sliced[i, j] == old(sliced[i, j])
      {
        NextRow(k - 1, crc, ToBits(8, n));
        crc := Xor(Lookup(0, HighOctet(crc)), Shl(crc, 8));
        sliced[k, n] := crc;
        k := k + 1;
      }
    }

    /** crc16_buf() */
    method Crc16Buf(buf: array?<octet>, len: nat) returns (S: word)
      requires Shaped() && HasRow(0)
      requires buf != null ==> len <= buf.Length
      ensures S == if buf == null then Init() else Crc(Init(), buf[..len])
      ensures buf == null || len == 0 ==> S == ToBits(16, 0xffff)
    {
      StartLiteral();
      S := Init();
      if buf == null {
        return;
      }
      if len == 0 {
        return;
      }
      var i := 0;
      while i < len
        invariant 0 <= i <= len
        invariant S == Crc(Init(), buf[..i])
      {
        Crc16IsStep(buf[i], S);
        assert buf[..i + 1][..i] == buf[..i];
        S := Crc16(buf[i], S);
        i := i + 1;
      }
    }

    /** pus_pkt_crc_valid() */
    method PusPktCrcValid(pkt: array<octet>, len: nat) returns (valid: bool)
      requires Shaped() && HasRow(0) && len <= pkt.Length
      ensures valid <==> Accepted(pkt[..len])
    {
      if len <= 2 {
        return false;
      }
      var crc := Crc16Buf(pkt, len - 2);
      assert pkt[..len][..len - 2] == pkt[..len - 2];
      var check := Word(pkt[len - 2], pkt[len - 1]);
      return crc == check;
    }

    /** One octet, as the head and tail loops of the sliced forms write it. */
    lemma OctetStep(crc: word, b: octet)
      requires Shaped() && HasRow(0)
      ensures Xor(Lookup(0, Xor(HighOctet(crc), b)), Shl(crc, 8)) == Step(crc, b)
    {
      Crc16IsStep(b, crc);
      assert Xor(Lookup(0, Xor(HighOctet(crc), b)), Shl(crc, 8)) == Crc16(b, crc);
    }

    lemma CrcNothing()
      ensures Crc(Init(), []) == Init()
    {
    }

    lemma CrcOneMore(buf: array<octet>, next: nat)
      requires next < buf.Length
      ensures Crc(Init(), buf[..next + 1]) == Step(Crc(Init(), buf[..next]), buf[next])
    {
      assert buf[..next + 1][..next] == buf[..next];
    }

    /** The head of the sliced forms: single octets up to an 8-octet boundary. */
    method AlignHead(buf: array<octet>, len: nat, addr: nat) returns (crc: word, next: nat)
      requires Shaped() && HasRow(0) && len <= buf.Length
      ensures next <= len && crc == Crc(Init(), buf[..next])
      ensures next == len || (addr + next) % 8 == 0
    {
      hide Crc, Lookup, Xor, Shl;
      CrcNothing();
      crc, next := Init(), 0;
      assert buf[..0] == [];
      while len - next != 0 && (addr + next) % 8 != 0
        invariant next <= len && crc == Crc(Init(), buf[..next])
      {
        OctetStep(crc, buf[next]);
        CrcOneMore(buf, next);
        crc := Xor(Lookup(0, Xor(HighOctet(crc), buf[next])), Shl(crc, 8));
        next := next + 1;
      }
    }

    /** The tail: what is left after the last whole block. */
    method Tail(buf: array<octet>, len: nat, start: nat, c: word) returns (crc: word)
      requires Shaped() && HasRow(0) && start <= len <= buf.Length
      requires c == Crc(Init(), buf[..start])
      ensures crc == Crc(Init(), buf[..len])
    {
      var next := start;
      hide Crc, Lookup, Xor, Shl;
      crc := c;
      while len - next != 0
        invariant start <= next <= len && crc == Crc(Init(), buf[..next])
      {
        OctetStep(crc, buf[next]);
        CrcOneMore(buf, next);
        crc := Xor(Lookup(0, Xor(HighOctet(crc), buf[next])), Shl(crc, 8));
        next := next + 1;
      }
    }

    lemma LookupIsRowEntry(k: nat, idx: octet)
      requires Shaped() && k < SLICES && HasRow(k)
      ensures Lookup(k, idx) == RowEntry(k, idx)
    {
      var i := Index(idx);
    }

    lemma NextBlock(buf: array<octet>, next: nat, m: nat)
      requires next + m <= buf.Length
      ensures Crc(Init(), buf[..next + m]) == Crc(Crc(Init(), buf[..next]), buf[next..next + m])
    {
      CrcConcat(Init(), buf[..next], buf[next..next + m]);
      assert buf[..next + m] == buf[..next] + buf[next..next + m];
    }

    /** The block body of crc16_slice2(): n is the machine word at the current address. */
    method Block2(c: word, ghost block: seq<octet>, n: Bits, bigEndian: bool) returns (crc: word)
      requires Shaped() && HasRows() && |block| == 2 && n == Load(block, bigEndian)
      ensures crc == Crc(c, block)
    {
      hide RowEntry, Xor, OctetAt, Load, Crc, Index;
      ghost var idx := Indices(c, block);
      BlockLookups(c, block);
      LoadedOctet(block, bigEndian, 0);
      LoadedOctet(block, bigEndian, 1);
      var idx0 := Xor(OctetAt(n, if bigEndian then 8 else 0), HighOctet(c));
      var idx1 := Xor(OctetAt(n, if bigEndian then 0 else 8), LowOctet(c));
      XorCommutes(block[0], HighOctet(c));
      XorCommutes(block[1], LowOctet(c));
      LookupIsRowEntry(1, idx0);
      LookupIsRowEntry(0, idx1);
      crc := Lookup(1, idx0);
      crc := Xor(crc, Lookup(0, idx1));
      assert crc == Partial(2, idx, 2);
    }

    /** crc16_slice2() of a buffer at address addr. */
    method Crc16Slice2(buf: array<octet>, len: nat, addr: nat, bigEndian: bool) returns (crc: word)
      requires Shaped() && HasRows() && len <= buf.Length
      ensures crc == Crc(Init(), buf[..len])
    {
      var next;
      crc, next := AlignHead(buf, len, addr);
      while len - next >= 2
        invariant next <= len && crc == Crc(Init(), buf[..next])
      {
        NextBlock(buf, next, 2);
        var block := buf[next..next + 2];
        crc := Block2(crc, block, Load(block, bigEndian), bigEndian);
        next := next + 2;
      }
      crc := Tail(buf, len, next, crc);
    }

    /** The block body of crc16_slice4(): n is the machine word at the current address. */
    method Block4(c: word, ghost block: seq<octet>, n: Bits, bigEndian: bool) returns (crc: word)
      requires Shaped() && HasRows() && |block| == 4 && n == Load(block, bigEndian)
      ensures crc == Crc(c, block)
    {
      hide RowEntry, Xor, OctetAt, Load, Crc, Index;
      ghost var idx := Indices(c, block);
      BlockLookups(c, block);
      LoadedOctet(block, bigEndian, 0);
      LoadedOctet(block, bigEndian, 1);
      LoadedOctet(block, bigEndian, 2);
      LoadedOctet(block, bigEndian, 3);
      var idx0 := Xor(OctetAt(n, if bigEndian then 24 else 0), HighOctet(c));
      var idx1 := Xor(OctetAt(n, if bigEndian then 16 else 8), LowOctet(c));
      var idx2 := OctetAt(n, if bigEndian then 8 else 16);
      var idx3 := OctetAt(n, if bigEndian then 0 else 24);
      XorCommutes(block[0], HighOctet(c));
      XorCommutes(block[1], LowOctet(c));
      LookupIsRowEntry(3, idx0);
      LookupIsRowEntry(2, idx1);
      LookupIsRowEntry(1, idx2);
      LookupIsRowEntry(0, idx3);
      crc := Lookup(3, idx0);
      crc := Xor(crc, Lookup(2, idx1));
      assert crc == Partial(4, idx, 2);
      crc := Xor(crc, Lookup(1, idx2));
      assert crc == Partial(4, idx, 3);
      crc := Xor(crc, Lookup(0, idx3));
      assert crc == Partial(4, idx, 4);
    }

    /** crc16_slice4() of a buffer at address addr. */
    method Crc16Slice4(buf: array<octet>, len: nat, addr: nat, bigEndian: bool) returns (crc: word)
      requires Shaped() && HasRows() && len <= buf.Length
      ensures crc == Crc(Init(), buf[..len])
    {
      var next;
      crc, next := AlignHead(buf, len, addr);
      while len - next >= 4
        invariant next <= len && crc == Crc(Init(), buf[..next])
      {
        NextBlock(buf, next, 4);
        var block := buf[next..next + 4];
        crc := Block4(crc, block, Load(block, bigEndian), bigEndian);
        next := next + 4;
      }
      crc := Tail(buf, len, next, crc);
    }

    /** The block body of crc16_slice8(): n is the machine word at the current address. */
    method Block8(c: word, ghost block: seq<octet>, n: Bits, bigEndian: bool) returns (crc: word)
      requires Shaped() && HasRows() && |block| == 8 && n == Load(block, bigEndian)
      ensures crc == Crc(c, block)
    {
      hide RowEntry, Xor, OctetAt, Load, Crc, Index;
      ghost var idx := Indices(c, block);
      BlockLookups(c, block);
      LoadedOctet(block, bigEndian, 0);
      LoadedOctet(block, bigEndian, 1);
      LoadedOctet(block, bigEndian, 2);
      LoadedOctet(block, bigEndian, 3);
      LoadedOctet(block, bigEndian, 4);
      LoadedOctet(block, bigEndian, 5);
      LoadedOctet(block, bigEndian, 6);
      LoadedOctet(block, bigEndian, 7);
      var idx0 := Xor(OctetAt(n, if bigEndian then 56 else 0), HighOctet(c));
      var idx1 := Xor(OctetAt(n, if bigEndian then 48 else 8), LowOctet(c));
      var idx2 := OctetAt(n, if bigEndian then 40 else 16);
      var idx3 := OctetAt(n, if bigEndian then 32 else 24);
      var idx4 := OctetAt(n, if bigEndian then 24 else 32);
      var idx5 := OctetAt(n, if bigEndian then 16 else 40);
      var idx6 := OctetAt(n, if bigEndian then 8 else 48);
      var idx7 := OctetAt(n, if bigEndian then 0 else 56);
      XorCommutes(block[0], HighOctet(c));
      XorCommutes(block[1], LowOctet(c));
      LookupIsRowEntry(7, idx0);
      LookupIsRowEntry(6, idx1);
      LookupIsRowEntry(5, idx2);
      LookupIsRowEntry(4, idx3);
      LookupIsRowEntry(3, idx4);
      LookupIsRowEntry(2, idx5);
      LookupIsRowEntry(1, idx6);
      LookupIsRowEntry(0, idx7);
      crc := Lookup(7, idx0);
      crc := Xor(crc, Lookup(6, idx1));
      assert crc == Partial(8, idx, 2);
      crc := Xor(crc, Lookup(5, idx2));
      assert crc == Partial(8, idx, 3);
      crc := Xor(crc, Lookup(4, idx3));
      assert crc == Partial(8, idx, 4);
      crc := Xor(crc, Lookup(3, idx4));
      assert crc == Partial(8, idx, 5);
      crc := Xor(crc, Lookup(2, idx5));
      assert crc == Partial(8, idx, 6);
      crc := Xor(crc, Lookup(1, idx6));
      assert crc == Partial(8, idx, 7);
      crc := Xor(crc, Lookup(0, idx7));
      assert crc == Partial(8, idx, 8);
    }

    /** crc16_slice8() of a buffer at address addr. */
    method Crc16Slice8(buf: array<octet>, len: nat, addr: nat, bigEndian: bool) returns (crc: word)
      requires Shaped() && HasRows() && len <= buf.Length
      ensures crc == Crc(Init(), buf[..len])
    {
      var next;
      crc, next := AlignHead(buf, len, addr);
      while len - next >= 8
        invariant next <= len && crc == Crc(Init(), buf[..next])
      {
        NextBlock(buf, next, 8);
        var block := buf[next..next + 8];
        crc := Block8(crc, block, Load(block, bigEndian), bigEndian);
        next := next + 8;
      }
      crc := Tail(buf, len, next, crc);
    }
  }
}
