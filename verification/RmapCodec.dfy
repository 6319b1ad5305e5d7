/**
 RMAP packets (ECSS-E-ST-50-52C): the packet record with its setters, the header builder and
 the parser, after rmap.c.  The layout of a header depends on three bits of the instruction
 field and on the length of the reply path; `Header` and `Decoded` are the two independent
 descriptions of it that the methods are proved against and that the round trips relate.
 */
module RmapCodec {
  import opened BitStrings

  type dword = b: Bits | |b| == 32 witness Zeros(32)

  const MAX_PATH_LEN := 15
  const MAX_REPLY_PATH_LEN := 12
  const MAX_DATA_LEN := 0xFFFFFF

  function ProtocolId(): octet {
    Zeros(7) + [true]
  }

  /** The contents of an RMAP packet.  `dataLen` is the length field, kept apart from the data
      themselves as in the source: a header can be built before any data are attached. */
  datatype Packet = Packet(path: seq<octet>, dst: octet, protoId: octet, instruction: octet,
    key: octet, rpath: seq<octet>, src: octet, trId: word, addr: dword, dataLen: nat,
    data: seq<octet>, hdrCrc: octet, dataCrc: octet)

  // ---- the instruction field --------------------------------------------------------------

  /** reserved : 1, command/reply : 1, command : 4, reply address length : 2 */
  predicate CmdResp(i: octet) {
    i[1]
  }

  function Cmd(i: octet): nat {
    Value(i[2..6])
  }

  predicate WriteBit(i: octet) {
    i[2]
  }

  function ReplyAddrLen(i: octet): nat {
    Value(i[6..])
  }

  predicate WriteReply(i: octet) {
    !CmdResp(i) && WriteBit(i)
  }

  /** The command codes of the standard's table of commands. */
  predicate ValidCmd(cmd: nat) {
    cmd == 2 || cmd == 3 || cmd == 7 || 8 <= cmd <= 15
  }

  function MinHdrSize(i: octet): int {
    if !ValidCmd(Cmd(i)) then -1
    else if CmdResp(i) then 15
    else if Cmd(i) < 8 then 11
    else 7
  }

  // ---- the header, written ----------------------------------------------------------------

  /** Fields present in every header, up to the transaction identifier. */
  function Front(p: Packet): seq<octet> {
    [p.dst, p.protoId, p.instruction, p.key] + p.rpath + [p.src, p.trId[..8], p.trId[8..]]
  }

  function AddrField(a: dword): (r: seq<octet>)
    ensures |r| == 4
  {
    [a[..8], a[8..16], a[16..24], a[24..]]
  }

  function Back(p: Packet): seq<octet> {
    if WriteReply(p.instruction) then []
    else [Zeros(8)] + (if CmdResp(p.instruction) then AddrField(p.addr) else []) + LengthField(p.dataLen)
  }

  /** The header as it goes out, without header CRC. */
  function Header(p: Packet): seq<octet> {
    p.path + (Front(p) + Back(p))
  }

  // ---- the header, read --------------------------------------------------------------------

  function RpathLen(buf: seq<octet>): nat
    requires |buf| >= 7
  {
    if CmdResp(buf[2]) then 4 * ReplyAddrLen(buf[2]) else 0
  }

  /** Length of the header in a buffer with a valid command code. */
  function HeaderLen(buf: seq<octet>): nat
    requires |buf| >= 7
  {
    if CmdResp(buf[2]) then 15 + RpathLen(buf) else if WriteBit(buf[2]) then 7 else 11
  }

  function DataLen(buf: seq<octet>): (v: nat)
    requires |buf| >= 7 && |buf| >= HeaderLen(buf)
    ensures v <= MAX_DATA_LEN
  {
    if WriteReply(buf[2]) then 0
    else
      var n := HeaderLen(buf);
      LengthOf(buf[n - 3], buf[n - 2], buf[n - 1])
  }

  /** What makes a buffer an RMAP packet: protocol identifier, command code, room for the
      header that the instruction field announces, and room for the data that the length
      field announces behind the header CRC. */
  predicate Fits(buf: seq<octet>) {
    && |buf| >= 7
    && buf[1] == ProtocolId()
    && ValidCmd(Cmd(buf[2]))
    && |buf| >= HeaderLen(buf)
    && (DataLen(buf) > 0 ==> |buf| >= HeaderLen(buf) + 1 + DataLen(buf))
  }

  /** The fields that the header of a buffer holds.  The header CRC is taken from the fixed
      offset 11. */
  function HeaderFields(buf: seq<octet>): Packet
    requires |buf| >= 7 && |buf| >= HeaderLen(buf)
  {
    var r := RpathLen(buf);
    var addr := if CmdResp(buf[2]) then Address(buf[r + 8], buf[r + 9], buf[r + 10], buf[r + 11])
                else Zeros(32);
    Packet([], buf[0], buf[1], buf[2], buf[3], buf[4..4 + r], buf[4 + r],
      Word(buf[5 + r], buf[6 + r]), addr, DataLen(buf), [],
      if |buf| > 11 then buf[11] else Zeros(8), Zeros(8))
  }

  /** The packet that a buffer holds: header fields, data and data CRC. */
  function Decoded(buf: seq<octet>): Packet
    requires Fits(buf)
  {
    var n, d := HeaderLen(buf) + 1, DataLen(buf);
    if d == 0 then HeaderFields(buf)
    else HeaderFields(buf).(data := buf[n..n + d], dataCrc := if |buf| > n + d then buf[n + d] else Zeros(8))
  }

  function Address(a0: octet, a1: octet, a2: octet, a3: octet): dword {
    var b0: Bits, b1: Bits, b2: Bits, b3: Bits := a0, a1, a2, a3;
    b0 + b1 + b2 + b3
  }

  lemma FourOctets(a: dword, a0: octet, a1: octet, a2: octet, a3: octet)
    ensures a == Address(a0, a1, a2, a3) <==> AddrField(a) == [a0, a1, a2, a3]
  {
    var b0: Bits, b1: Bits, b2: Bits, b3: Bits := a0, a1, a2, a3;
    assert a == a[..8] + a[8..16] + a[16..24] + a[24..];
    var b := b0 + b1 + b2 + b3;
    assert b[..8] == b0 && b[8..16] == b1 && b[16..24] == b2 && b[24..] == b3;
  }

  // ---- round trips ------------------------------------------------------------------------------

  /** The header after the target path has been stripped on the way. */
  function Body(p: Packet): seq<octet> {
    Front(p) + Back(p)
  }

  /** A packet whose parts agree: every packet the setters build once a command has been set,
      and every reply without a reply path. */
  predicate Consistent(p: Packet) {
    && p.protoId == ProtocolId()
    && ValidCmd(Cmd(p.instruction))
    && |p.rpath| == (if CmdResp(p.instruction) then 4 * ReplyAddrLen(p.instruction) else 0)
    && p.dataLen <= MAX_DATA_LEN
    && (WriteReply(p.instruction) ==> p.dataLen == 0)
  }

  /** The packet as the target sees it: header, header CRC and, if there are data, the data and
      their CRC. */
  function Wire(p: Packet): seq<octet> {
    Body(p) + ([p.hdrCrc] + if p.data == [] then [] else p.data + [p.dataCrc])
  }

  lemma BodyLength(p: Packet)
    ensures |Body(p)| == |p.rpath| + (if CmdResp(p.instruction) then 15 else if WriteBit(p.instruction) then 7 else 11)
  {
  }

  /** The size query of the builder gives the size of what the builder writes exactly for valid
      command codes. */
  lemma SizeQuery(p: Packet)
    ensures |Header(p)| == MinHdrSize(p.instruction) + |p.path| + |p.rpath|
       <==> ValidCmd(Cmd(p.instruction))
  {
    CmdWriteBit(p.instruction);
  }

  /** For the command codes in use, the write bit separates the codes below 8 from the rest. */
  lemma CmdWriteBit(i: octet)
    ensures WriteBit(i) <==> Cmd(i) >= 8
  {
    var c := i[2..6];
    var lo := c[1..];
    assert c == [c[0]] + lo;
    ValueConcat([c[0]], lo);
    PowersOfTwo();
    assert Pow2(3) == 8;
    assert [c[0]][..0] == [];
  }

  /** What follows a header does not change how the header is read. */
  lemma ReadsBack(p: Packet, rest: seq<octet>)
    requires Consistent(p)
    ensures var buf, r := Body(p) + rest, |p.rpath|;
            && |buf| >= 7
            && buf[0] == p.dst && buf[1] == p.protoId && buf[2] == p.instruction && buf[3] == p.key
            && RpathLen(buf) == r && buf[4..4 + r] == p.rpath
            && buf[4 + r] == p.src && buf[5 + r] == p.trId[..8] && buf[6 + r] == p.trId[8..]
            && HeaderLen(buf) == |Body(p)|
            && (CmdResp(buf[2]) ==> buf[8 + r..12 + r] == AddrField(p.addr))
            && (!WriteReply(buf[2]) ==> buf[|Body(p)| - 3..|Body(p)|] == LengthField(p.dataLen))
  {
    hide AddrField, LengthField, ReplyAddrLen;
  }

  lemma LengthReadsBack(p: Packet, rest: seq<octet>)
    requires Consistent(p)
    ensures var buf := Body(p) + rest;
            |buf| >= 7 && |buf| >= HeaderLen(buf) && DataLen(buf) == p.dataLen
  {
    hide LengthField, LengthOf, Body;
    ReadsBack(p, rest);
    var buf, n := Body(p) + rest, |Body(p)|;
    if !WriteReply(buf[2]) {
      assert buf[n - 3..n] == [buf[n - 3], buf[n - 2], buf[n - 1]];
      ThreeOctets(p.dataLen, buf[n - 3], buf[n - 2], buf[n - 1]);
    }
  }

  /** A header is accepted exactly when the data it announces follow the header CRC: a read
      command, which announces data and carries none, is refused unless its length is zero. */
  lemma AcceptedIffDataFollow(p: Packet, rest: seq<octet>)
    requires Consistent(p)
    ensures Fits(Body(p) + rest) <==> p.dataLen == 0 || |rest| >= 1 + p.dataLen
  {
    hide Body, DataLen, HeaderLen;
    ReadsBack(p, rest);
    LengthReadsBack(p, rest);
  }

  /** What the parser takes for the header CRC. */
  function HdrCrcSeen(p: Packet): octet {
    var w := Wire(p);
    if |w| > 11 then w[11] else Zeros(8)
  }

  /** Round trip: a consistent packet that carries its data is accepted, and every field comes
      back, the target path and the header CRC apart. */
  lemma RoundTrip(p: Packet)
    requires Consistent(p) && |p.data| == p.dataLen
    ensures Fits(Wire(p))
    ensures Decoded(Wire(p)) == p.(path := [], hdrCrc := HdrCrcSeen(p),
                                   addr := if CmdResp(p.instruction) then p.addr else Zeros(32),
                                   dataCrc := if p.data == [] then Zeros(8) else p.dataCrc)
  {
    hide Body, DataLen, HeaderLen, AddrField, LengthField, Fits, RpathLen, ReplyAddrLen, Cmd, Word, Address, Zeros;
    var rest := [p.hdrCrc] + if p.data == [] then [] else p.data + [p.dataCrc];
    var buf, r, n := Body(p) + rest, |p.rpath|, |Body(p)|;
    ReadsBack(p, rest);
    LengthReadsBack(p, rest);
    AcceptedIffDataFollow(p, rest);
    BodyLength(p);
    assert |rest| == 1 + if p.data == [] then 0 else p.dataLen + 1;
    TrIdBack(p.trId, buf[5 + r], buf[6 + r]);
    if CmdResp(p.instruction) {
      assert buf[8 + r..12 + r] == [buf[8 + r], buf[9 + r], buf[10 + r], buf[11 + r]];
      FourOctets(p.addr, buf[8 + r], buf[9 + r], buf[10 + r], buf[11 + r]);
    }
    if p.data != [] {
      assert buf[n + 1..n + 1 + p.dataLen] == p.data;
    }
  }

  lemma TrIdBack(t: word, hi: octet, lo: octet)
    ensures t == Word(hi, lo) <==> t[..8] == hi && t[8..] == lo
  {
    assert t == t[..8] + t[8..];
    assert Word(hi, lo) == Word(hi, lo)[..8] + Word(hi, lo)[8..];
  }

  /** The header CRC is read from offset 11 whatever the header looks like: it comes back, for
      every value, exactly in replies that are not write replies. */
  lemma HdrCrcComesBack(p: Packet)
    requires Consistent(p) && |p.data| == p.dataLen
    ensures (forall c: octet :: HdrCrcSeen(p.(hdrCrc := c)) == c)
       <==> !CmdResp(p.instruction) && !WriteBit(p.instruction)
  {
    forall c: octet ensures HdrCrcSeen(p.(hdrCrc := c)) == HdrCrcAt(p, c) {
      HdrCrcSeenIs(p, c);
    }
    if CmdResp(p.instruction) || WriteBit(p.instruction) {
      var z, o := Zeros(8), Ones(8);
      assert z[0] != o[0];
      assert HdrCrcSeen(p.(hdrCrc := z)) == HdrCrcSeen(p.(hdrCrc := o));
    }
  }

  function HdrCrcAt(p: Packet, c: octet): octet {
    BodyLength(p);
    if CmdResp(p.instruction) then Body(p)[11]
    else if WriteBit(p.instruction) then Zeros(8)
    else c
  }

  lemma HdrCrcSeenIs(p: Packet, c: octet)
    requires Consistent(p) && |p.data| == p.dataLen
    ensures HdrCrcSeen(p.(hdrCrc := c)) == HdrCrcAt(p, c)
  {
    var q := p.(hdrCrc := c);
    assert Body(q) == Body(p);
    hide Body;
    BodyLength(p);
  }

  /** Canonical form: building the header of a parsed packet reproduces the header bytes of the
      buffer, except that the extended address (or reserved) octet becomes zero.  A write reply
      has no such octet and is reproduced exactly. */
  lemma Canonical(buf: seq<octet>)
    requires Fits(buf)
    ensures var n, r := HeaderLen(buf), RpathLen(buf);
            Header(Decoded(buf)) == if WriteReply(buf[2]) then buf[..n] else buf[..n][7 + r := Zeros(8)]
  {
    hide AddrField, LengthField, ReplyAddrLen, DataLen, Address, Word, Cmd, Decoded, Front, Zeros;
    var n, r, p := HeaderLen(buf), RpathLen(buf), Decoded(buf);
    DecodedShape(buf);
    FrontCanonical(buf);
    if !WriteReply(buf[2]) {
      BackCanonical(buf);
      JoinAround(buf, Front(p), Back(p), 7 + r, n);
    } else {
      assert [] + (buf[..7] + []) == buf[..7];
    }
  }

  lemma JoinAround(buf: seq<octet>, front: seq<octet>, back: seq<octet>, at: nat, n: nat)
    requires at < n <= |buf| && front == buf[..at] && back == [Zeros(8)] + buf[at + 1..n]
    ensures [] + (front + back) == buf[..n][at := Zeros(8)]
  {
  }

  lemma DecodedShape(buf: seq<octet>)
    requires Fits(buf)
    ensures Decoded(buf).path == [] && Decoded(buf).instruction == buf[2]
  {
  }

  lemma FrontCanonical(buf: seq<octet>)
    requires Fits(buf)
    ensures Front(Decoded(buf)) == buf[..7 + RpathLen(buf)]
  {
    hide AddrField, LengthField, ReplyAddrLen, DataLen, Address, Word, Cmd;
    var r, p := RpathLen(buf), Decoded(buf);
    TrIdBack(p.trId, buf[5 + r], buf[6 + r]);
    assert p.rpath == buf[4..4 + r];
  }

  lemma BackCanonical(buf: seq<octet>)
    requires Fits(buf) && !WriteReply(buf[2])
    ensures Back(Decoded(buf)) == [Zeros(8)] + buf[8 + RpathLen(buf)..HeaderLen(buf)]
  {
    hide AddrField, LengthField, ReplyAddrLen, LengthOf, Address, Word, Zeros, Cmd, ValidCmd;
    var n, r, p := HeaderLen(buf), RpathLen(buf), Decoded(buf);
    if CmdResp(buf[2]) {
      FourOctets(p.addr, buf[8 + r], buf[9 + r], buf[10 + r], buf[11 + r]);
    }
    ThreeOctets(DataLen(buf), buf[n - 3], buf[n - 2], buf[n - 1]);
    assert LengthField(p.dataLen) == buf[n - 3..n];
    if CmdResp(buf[2]) {
      assert AddrField(p.addr) == buf[8 + r..12 + r];
    }
  }

  // ---- on octets -----------------------------------------------------------------------------------

  lemma ProtocolValue(o: octet)
    ensures o == ProtocolId() <==> Value(o) == 1
  {
    OctetValue(o);
    if Value(o) == 1 {
      assert !o[0] && !o[1] && !o[2] && !o[3] && !o[4] && !o[5] && !o[6] && o[7];
    }
  }

  /** Bits of the instruction octet, most significant first: reserved, command, write, verify,
      reply, increment, and two bits of reply address length in units of four octets. */
  lemma InstructionOnOctet(i: octet)
    ensures CmdResp(i) <==> Value(i) / 64 % 2 == 1
    ensures WriteBit(i) <==> Value(i) / 32 % 2 == 1
    ensures Cmd(i) == Value(i) / 4 % 16
    ensures ReplyAddrLen(i) == Value(i) % 4
    ensures ValidCmd(Cmd(i)) <==> i[2] || (i[4] && (!i[3] || i[5]))
  {
    hide Value;
    OctetValue(i);
    CmdValue(i);
    LowBitsValue(i, 6);
    var a := (if i[0] then 2 else 0) + (if i[1] then 1 else 0);
    var c := (if i[6] then 2 else 0) + (if i[7] then 1 else 0);
    Digits(Value(i), a, Cmd(i), c);
    CmdBits(i);
    hide Cmd;
  }

  lemma Digits(v: nat, a: nat, b: nat, c: nat)
    requires v == 64 * a + 4 * b + c && a < 4 && b < 16 && c < 4
    ensures v / 64 == a && v / 32 % 2 == b / 8 && v / 4 % 16 == b && v % 4 == c
  {
    assert v / 4 == 16 * a + b && v / 32 == 2 * a + b / 8;
  }

  lemma CmdBits(i: octet)
    ensures ValidCmd(Cmd(i)) <==> i[2] || (i[4] && (!i[3] || i[5]))
    ensures WriteBit(i) <==> Cmd(i) / 8 == 1
    ensures Cmd(i) < 16
  {
    hide Cmd;
    CmdValue(i);
  }

  lemma CmdValue(i: octet)
    ensures Cmd(i) == (if i[2] then 8 else 0) + (if i[3] then 4 else 0) + (if i[4] then 2 else 0)
                    + (if i[5] then 1 else 0)
  {
    NibbleValue(i[2..6]);
  }

  /** Header length of a buffer, read off the instruction octet. */
  function HeaderOctets(i: octet): nat {
    if i[1] then 15 + 4 * (Value(i) % 4) else if i[2] then 7 else 11
  }

  /** Data length: none in a write reply, else the last three octets of the header. */
  function DataOctets(buf: seq<octet>): nat
    requires |buf| >= 7 && |buf| >= HeaderOctets(buf[2])
  {
    var n := HeaderOctets(buf[2]);
    if !buf[2][1] && buf[2][2] then 0
    else 0x10000 * Value(buf[n - 3]) + 0x100 * Value(buf[n - 2]) + Value(buf[n - 1])
  }

  /** Which buffers are packets, in octets and bits. */
  lemma FitsOnOctets(buf: seq<octet>)
    ensures Fits(buf) <==>
      && |buf| >= 7
      && Value(buf[1]) == 1
      && (buf[2][2] || (buf[2][4] && (!buf[2][3] || buf[2][5])))
      && |buf| >= HeaderOctets(buf[2])
      && (DataOctets(buf) > 0 ==> |buf| >= HeaderOctets(buf[2]) + 1 + DataOctets(buf))
  {
    hide Value, ProtocolId, LengthOf;
    if |buf| >= 7 {
      ProtocolValue(buf[1]);
      InstructionOnOctet(buf[2]);
      hide Cmd, ReplyAddrLen;
      var n := HeaderOctets(buf[2]);
      if |buf| >= n {
        LengthValue(buf[n - 3], buf[n - 2], buf[n - 1]);
      }
    }
  }

  /** Where the parser finds each field of the header. */
  lemma DecodedOnOctets(buf: seq<octet>)
    requires Fits(buf)
    ensures var p := Decoded(buf);
            var r := if buf[2][1] then 4 * (Value(buf[2]) % 4) else 0;
            && |buf| >= (if buf[2][1] then 12 else 7) + r
            && p.dst == buf[0] && p.protoId == buf[1] && p.instruction == buf[2] && p.key == buf[3]
            && p.rpath == buf[4..4 + r] && p.src == buf[4 + r]
            && p.trId[..8] == buf[5 + r] && p.trId[8..] == buf[6 + r]
            && (if buf[2][1] then [p.addr[..8], p.addr[8..16], p.addr[16..24], p.addr[24..]] == buf[8 + r..12 + r]
                else forall i :: 0 <= i < 32 ==> !p.addr[i])
            && (|buf| > 11 ==> p.hdrCrc == buf[11])
  {
    LayoutOnOctets(buf);
    FieldsInFront(buf);
    AddressOnOctets(buf);
    hide Value, HeaderLen, RpathLen, DataLen, HeaderOctets, DataOctets, Decoded, HeaderFields, Fits;
  }

  /** And the data, with their length and CRC. */
  lemma DataOnOctets(buf: seq<octet>)
    requires Fits(buf)
    ensures |buf| >= HeaderOctets(buf[2])
    ensures var p, n, d := Decoded(buf), HeaderOctets(buf[2]) + 1, DataOctets(buf);
            && p.dataLen == d && (d > 0 ==> |buf| >= n + d)
            && p.data == (if d > 0 then buf[n..n + d] else [])
            && (d > 0 && |buf| > n + d ==> p.dataCrc == buf[n + d])
  {
    LayoutOnOctets(buf);
    FieldsInFront(buf);
    FieldsBehind(buf);
    hide Value, HeaderLen, RpathLen, DataLen, HeaderOctets, DataOctets, Decoded, HeaderFields, Fits;
  }

  lemma LayoutOnOctets(buf: seq<octet>)
    requires Fits(buf)
    ensures |buf| >= HeaderOctets(buf[2])
    ensures HeaderLen(buf) == HeaderOctets(buf[2]) && DataLen(buf) == DataOctets(buf)
    ensures RpathLen(buf) == if buf[2][1] then 4 * (Value(buf[2]) % 4) else 0
  {
    hide Value, LengthOf, Cmd, ReplyAddrLen, ValidCmd, ProtocolId;
    InstructionOnOctet(buf[2]);
    var n := HeaderLen(buf);
    LengthValue(buf[n - 3], buf[n - 2], buf[n - 1]);
  }

  lemma FieldsInFront(buf: seq<octet>)
    requires Fits(buf)
    ensures var p, r := Decoded(buf), RpathLen(buf);
            && |buf| >= 7 + r
            && p.dst == buf[0] && p.protoId == buf[1] && p.instruction == buf[2] && p.key == buf[3]
            && p.rpath == buf[4..4 + r] && p.src == buf[4 + r]
            && p.trId[..8] == buf[5 + r] && p.trId[8..] == buf[6 + r]
            && p.dataLen == DataLen(buf) && (|buf| > 11 ==> p.hdrCrc == buf[11])
  {
    hide Word, Address, DataLen, ReplyAddrLen, Cmd, ValidCmd, Zeros;
    var r := RpathLen(buf);
    TrIdBack(Decoded(buf).trId, buf[5 + r], buf[6 + r]);
  }

  lemma FieldsBehind(buf: seq<octet>)
    requires Fits(buf)
    ensures var p, n, d := Decoded(buf), HeaderLen(buf) + 1, DataLen(buf);
            && p == HeaderFields(buf).(data := p.data, dataCrc := p.dataCrc)
            && p.data == (if d > 0 then buf[n..n + d] else [])
            && (d > 0 ==> |buf| >= n + d)
            && (d > 0 && |buf| > n + d ==> p.dataCrc == buf[n + d])
  {
    hide HeaderLen, DataLen, RpathLen;
  }

  lemma AddressOnOctets(buf: seq<octet>)
    requires Fits(buf)
    ensures var p, r := Decoded(buf), RpathLen(buf);
            && (buf[2][1] ==> |buf| >= 12 + r)
            && if buf[2][1] then AddrField(p.addr) == buf[8 + r..12 + r] else p.addr == Zeros(32)
  {
    hide Address, AddrField, ReplyAddrLen, Cmd, ValidCmd, DataLen;
    var r := RpathLen(buf);
    if buf[2][1] {
      FourOctets(Decoded(buf).addr, buf[8 + r], buf[9 + r], buf[10 + r], buf[11 + r]);
      assert buf[8 + r..12 + r] == [buf[8 + r], buf[9 + r], buf[10 + r], buf[11 + r]];
    }
  }

  /** Where the builder puts each field: after the target path, four octets, the reply path, three
      octets, and then, except in a write reply, a zero octet, the address of a command and three
      octets of length. */
  lemma HeaderOnOctets(p: Packet)
    requires p.dataLen <= 0xFFFFFF
    ensures var h, l, r := Header(p), |p.path|, |p.rpath|;
            var command, write := p.instruction[1], p.instruction[2];
            && |h| == l + r + (if command then 15 else if write then 7 else 11)
            && h[..l] == p.path
            && h[l..l + 4] == [p.dst, p.protoId, p.instruction, p.key]
            && h[l + 4..l + 4 + r] == p.rpath
            && h[l + 4 + r..l + 7 + r] == [p.src, p.trId[..8], p.trId[8..]]
            && (command || !write ==>
                  && Value(h[l + 7 + r]) == 0
                  && 0x10000 * Value(h[|h| - 3]) + 0x100 * Value(h[|h| - 2]) + Value(h[|h| - 1]) == p.dataLen)
            && (command ==>
                  h[l + 8 + r..l + 12 + r] == [p.addr[..8], p.addr[8..16], p.addr[16..24], p.addr[24..]])
  {
    hide Value, LengthField, ToBits, LengthOf;
    var f := LengthField(p.dataLen);
    LengthComesBack(p.dataLen);
    LengthValue(f[0], f[1], f[2]);
    ZeroOctet();
  }

  lemma ZeroOctet()
    ensures Value(Zeros(8)) == 0
  {
    OctetValue(Zeros(8));
  }

  // ---- the packet record and its operations ------------------------------------------------------

  /** The counter of buffers that carry another protocol. */
  class Statistics {
    var nonRmapPkts: nat
  }

  class RmapPkt {
    var path: seq<octet>
    var dst: octet
    var protoId: octet
    var instruction: octet
    var key: octet
    var src: octet
    var rpath: seq<octet>
    var trId: word
    var addr: dword
    var data: seq<octet>
    var dataLen: nat
    var hdrCrc: octet
    var dataCrc: octet

    function View(): Packet
      reads this
    {
      Packet(path, dst, protoId, instruction, key, rpath, src, trId, addr, dataLen, data, hdrCrc, dataCrc)
    }

    /** What every sequence of setter calls on a fresh packet keeps. */
    predicate Settled()
      reads this
    {
      && protoId == ProtocolId()
      && !instruction[0]
      && |rpath| == 4 * ReplyAddrLen(instruction)
      && |path| <= MAX_PATH_LEN
      && dataLen <= MAX_DATA_LEN
      && (instruction[..6] == Zeros(6) || (ValidCmd(Cmd(instruction)) && CmdResp(instruction)))
    }

    /** rmap_create_packet() */
    constructor ()
      ensures Settled() && Value(protoId) == 1
      ensures View() == Packet([], Zeros(8), ProtocolId(), Zeros(8), Zeros(8), [], Zeros(8), Zeros(16),
                               Zeros(32), 0, [], Zeros(8), Zeros(8))
    {
      path, rpath, data := [], [], [];
      dst, instruction, key, src := Zeros(8), Zeros(8), Zeros(8), Zeros(8);
      protoId := ProtocolId();
      trId, addr, dataLen := Zeros(16), Zeros(32), 0;
      hdrCrc, dataCrc := Zeros(8), Zeros(8);
      new;
      ProtocolValue(protoId);
      NoReplyPath(instruction);
    }

    /** A command has been selected: the header can be built and will be understood. */
    lemma CommandIsConsistent()
      requires Settled() && ValidCmd(Cmd(instruction))
      ensures CmdResp(instruction) && Consistent(View())
    {
      if instruction[..6] == Zeros(6) {
        NoCommand(instruction);
      }
    }

    /** rmap_set_cmd() */
    method SetCmd(cmd: nat) returns (r: int)
      requires Settled()
      modifies this`instruction
      ensures Settled()
      ensures r == if ValidCmd(cmd) then 0 else -1
      ensures r == -1 ==> instruction == old(instruction)
      ensures r == 0 ==> Cmd(instruction) == cmd && CmdResp(instruction)
      ensures r == 0 ==> instruction == old(instruction[..1]) + [true] + ToBits(4, cmd) + old(instruction[6..])
    {
      if !ValidCmd(cmd) {
        return -1;
      }
      var i := instruction[..1] + [true] + ToBits(4, cmd) + instruction[6..];
      assert i[2..6] == ToBits(4, cmd) && i[6..] == instruction[6..];
      PowersOfTwo();
      ValueOfBits(4, cmd);
      instruction := i;
      r := 0;
    }

    /** rmap_set_reply_path(): the reply address length follows the path, or nothing changes. */
    method SetReplyPath(p: array?<octet>, len: nat) returns (r: int)
      requires Settled()
      requires p != null ==> len <= p.Length
      modifies this`rpath, this`instruction
      ensures Settled()
      ensures r == if (p == null && len > 0) || len > 12 || len % 4 != 0 then -1 else 0
      ensures r == -1 ==> rpath == old(rpath) && instruction == old(instruction)
      ensures r == 0 ==> rpath == (if len > 0 then p[..len] else []) && instruction[..6] == old(instruction[..6])
      ensures r == 0 ==> Value(instruction) % 4 == len / 4
    {
      hide ReplyAddrLen, Cmd, ToBits, Zeros, ValidCmd;
      if p == null && len > 0 {
        return -1;
      }
      if len > MAX_REPLY_PATH_LEN {
        return -1;
      }
      if len % 4 != 0 {
        return -1;
      }
      if len > 0 {
        rpath := p[..len];
      } else {
        rpath := [];
      }
      ReplyLenField(instruction, len / 4);
      instruction := instruction[..6] + ToBits(2, len / 4);
      r := 0;
    }

    /** rmap_set_dest_path() */
    method SetDestPath(p: array?<octet>, len: nat) returns (r: int)
      requires Settled()
      requires p != null ==> len <= p.Length
      modifies this`path
      ensures Settled()
      ensures r == if (p == null && len > 0) || len > 15 then -1 else 0
      ensures path == if r == -1 then old(path) else if p == null then [] else p[..len]
    {
      if p == null && len > 0 {
        return -1;
      }
      if len > MAX_PATH_LEN {
        return -1;
      }
      if p == null {
        path := [];
      } else {
        path := p[..len];
      }
      r := 0;
    }

    /** rmap_set_data_len() */
    method SetDataLen(len: nat) returns (r: int)
      requires Settled()
      modifies this`dataLen
      ensures Settled()
      ensures r == if len > 0xFFFFFF then -1 else 0
      ensures dataLen == if r == 0 then len else old(dataLen)
    {
      if len > MAX_DATA_LEN {
        return -1;
      }
      dataLen := len;
      r := 0;
    }

    /** rmap_build_hdr(): without a buffer, the size the header needs; otherwise the header,
        with nothing behind it touched. */
    method BuildHdr(hdr: array?<octet>) returns (n: int)
      requires hdr != null ==> hdr.Length >= |Header(View())|
      modifies hdr
      ensures hdr == null ==> n == MinHdrSize(instruction) + |path| + |rpath|
      ensures hdr != null ==> n == |Header(View())| && hdr[..n] == Header(View()) && hdr[n..] == old(hdr[n..])
    {
      n := 0;
      if hdr == null {
        n := MinHdrSize(instruction);
        n := n + |path|;
        n := n + |rpath|;
        return;
      }
      hide Splice, Header;
      ghost var was := hdr[..];
      ghost var done;
      n, done := WriteHdr(hdr, was);
      SpliceParts(was, done);
    }

    /** The header written to the front of a buffer that is large enough. */
    method WriteHdr(hdr: array<octet>, ghost was: seq<octet>) returns (n: nat, ghost done: seq<octet>)
      requires |Header(View())| <= hdr.Length == |was| && hdr[..] == was
      modifies hdr
      ensures done == Header(View()) && n == |done| && hdr[..] == Splice(was, done)
    {
      hide Splice, AddrField, LengthField, Front, Header, Back, Zeros;
      ghost var p := View();
      HeaderLength(p);
      n, done := EmitFront(hdr, was);
      if CmdResp(instruction) {
        n, done := EmitAddress(hdr, n, was, done);
      } else if !CmdResp(instruction) && WriteBit(instruction) {
        HeaderParts(p, []);
        return;
      } else {
        n, done := Emit(hdr, n, Zeros(8), was, done);
      }
      n, done := EmitLength(hdr, n, was, done);
      HeaderParts(p, if CmdResp(instruction) then AddrField(addr) else []);
    }

    /** Target path to transaction identifier. */
    method EmitFront(hdr: array<octet>, ghost was: seq<octet>) returns (n: nat, ghost done: seq<octet>)
      requires |path| + |Front(View())| <= hdr.Length == |was| && hdr[..] == was
      modifies hdr
      ensures done == path + Front(View()) && n == |done| && hdr[..] == Splice(was, done)
    {
      hide Splice;
      SpliceNothing(was);
      n, done := EmitAll(hdr, 0, path, was, []);
      n, done := Emit(hdr, n, dst, was, done);
      n, done := Emit(hdr, n, protoId, was, done);
      n, done := Emit(hdr, n, instruction, was, done);
      n, done := Emit(hdr, n, key, was, done);
      assert done == path + [dst, protoId, instruction, key];
      n, done := EmitAll(hdr, n, rpath, was, done);
      n, done := Emit(hdr, n, src, was, done);
      n, done := Emit(hdr, n, trId[..8], was, done);
      n, done := Emit(hdr, n, trId[8..], was, done);
      assert done == path + Front(View());
    }

    /** The extended address octet and the data address of a command. */
    method EmitAddress(hdr: array<octet>, n: nat, ghost was: seq<octet>, ghost done: seq<octet>)
      returns (m: nat, ghost more: seq<octet>)
      requires n == |done| && n + 5 <= hdr.Length == |was| && hdr[..] == Splice(was, done)
      modifies hdr
      ensures more == done + ([Zeros(8)] + AddrField(addr)) && m == |more| && hdr[..] == Splice(was, more)
    {
      hide Splice;
      m, more := Emit(hdr, n, Zeros(8), was, done);
      m, more := Emit(hdr, m, addr[..8], was, more);
      m, more := Emit(hdr, m, addr[8..16], was, more);
      m, more := Emit(hdr, m, addr[16..24], was, more);
      m, more := Emit(hdr, m, addr[24..], was, more);
      assert more == done + ([Zeros(8)] + AddrField(addr));
    }

    method EmitLength(hdr: array<octet>, n: nat, ghost was: seq<octet>, ghost done: seq<octet>)
      returns (m: nat, ghost more: seq<octet>)
      requires n == |done| && n + 3 <= hdr.Length == |was| && hdr[..] == Splice(was, done)
      modifies hdr
      ensures more == done + LengthField(dataLen) && m == |more| && hdr[..] == Splice(was, more)
    {
      hide Splice;
      var b := ToBits(24, dataLen);
      m, more := Emit(hdr, n, b[..8], was, done);
      m, more := Emit(hdr, m, b[8..16], was, more);
      m, more := Emit(hdr, m, b[16..], was, more);
      assert more == done + LengthField(dataLen);
    }

    /** The parser up to the reply path; `n` is the number of octets it shifts the rest by. */
    method ReadFront(buf: array<octet>, len: nat) returns (ok: bool, n: nat)
      requires 7 <= len <= buf.Length && rpath == []
      modifies this`dst, this`protoId, this`instruction, this`key, this`rpath
      ensures ok <==> HeaderFits(buf[..len])
      ensures instruction == buf[2]
      ensures ok ==> n == RpathLen(buf[..len]) && FrontFields(buf[..len], View())
    {
      hide Cmd, ReplyAddrLen, MinHdrSize, ValidCmd;
      ghost var s := buf[..len];
      n := 0;
      dst := buf[0];
      protoId := buf[1];
      instruction := buf[2];
      key := buf[3];
      var minHdrSize := MinHdrSize(instruction);
      HeaderLenIs(s);
      if minHdrSize < 0 {
        return false, 0;
      }
      if len < minHdrSize {
        return false, 0;
      }
      if CmdResp(instruction) {
        var rpathLen := 4 * ReplyAddrLen(instruction);
        if len < minHdrSize + rpathLen {
          return false, 0;
        }
        rpath := CopyOctets(buf, 4, rpathLen);
        n := rpathLen;
      }
      ok := true;
    }

    /** From the source address to the header CRC. */
    method ReadBack(buf: array<octet>, len: nat, r: nat) returns (n: nat)
      requires 7 <= len <= buf.Length && HeaderFits(buf[..len]) && r == RpathLen(buf[..len])
      requires instruction == buf[2] && addr == Zeros(32) && dataLen == 0 && hdrCrc == Zeros(8)
      modifies this`src, this`trId, this`addr, this`dataLen, this`hdrCrc
      ensures BackAt(buf, len, r, View())
      ensures dataLen > 0 ==> 11 + n == HeaderLen(buf[..len])
    {
      hide Cmd, ReplyAddrLen, MinHdrSize, ValidCmd, Word, Address, Zeros, LengthOf, HeaderFields, RpathLen, HeaderLen;
      n := r;
      ghost var s := buf[..len];
      RoomForBack(s);
      src := buf[4 + n];
      trId := Word(buf[5 + n], buf[6 + n]);
      if CmdResp(instruction) {
        addr := Address(buf[8 + n], buf[9 + n], buf[10 + n], buf[11 + n]);
        n := n + 4;
      }
      if !WriteReply(instruction) {
        dataLen := LengthOf(buf[8 + n], buf[9 + n], buf[10 + n]);
      }
      if len > 11 {
        hdrCrc := buf[11];
      }
    }

    /** The data behind the header CRC, and the data CRC if it is there. */
    method ReadData(buf: array<octet>, len: nat, n: nat) returns (ok: bool)
      requires 7 <= len <= buf.Length && HeaderFits(buf[..len]) && View() == HeaderFields(buf[..len])
      requires dataLen > 0 ==> 11 + n == HeaderLen(buf[..len])
      modifies this`data, this`dataCrc
      ensures ok <==> DataFits(buf[..len])
      ensures ok ==> View() == HeaderFields(buf[..len]).(data := data, dataCrc := dataCrc)
      ensures ok && Fits(buf[..len]) ==> View() == Decoded(buf[..len])
    {
      hide Cmd, ReplyAddrLen, Word, Address, Zeros, DataLen, RpathLen;
      ghost var s := buf[..len];
      if dataLen != 0 {
        if len < 12 + n + dataLen {
          return false;
        }
        data := CopyOctets(buf, 12 + n, dataLen);
        if len > 12 + n + dataLen {
          dataCrc := buf[12 + n + dataLen];
        }
      }
      ok := true;
    }
  }

  lemma HeaderLength(p: Packet)
    ensures |Header(p)| == |p.path| + |Front(p)| + |Back(p)|
    ensures |Back(p)| == if CmdResp(p.instruction) then 8 else if WriteBit(p.instruction) then 0 else 4
  {
  }

  lemma HeaderParts(p: Packet, addr: seq<octet>)
    requires addr == if CmdResp(p.instruction) then AddrField(p.addr) else []
    ensures Header(p) == if WriteReply(p.instruction) then p.path + Front(p)
                         else p.path + Front(p) + ([Zeros(8)] + addr) + LengthField(p.dataLen)
  {
    hide Front, AddrField, LengthField;
    assert Front(p) + [] == Front(p);
  }

  /** A buffer whose front has been overwritten. */
  ghost function Splice(was: seq<octet>, done: seq<octet>): (r: seq<octet>)
    requires |done| <= |was|
    ensures |r| == |was|
  {
    done + was[|done|..]
  }

  lemma SpliceNothing(was: seq<octet>)
    ensures Splice(was, []) == was
  {
  }

  lemma SpliceParts(was: seq<octet>, done: seq<octet>)
    requires |done| <= |was|
    ensures Splice(was, done)[..|done|] == done && Splice(was, done)[|done|..] == was[|done|..]
  {
  }

  lemma HeaderLenIs(s: seq<octet>)
    requires |s| >= 7
    ensures MinHdrSize(s[2]) < 0 <==> !ValidCmd(Cmd(s[2]))
    ensures MinHdrSize(s[2]) >= 0 ==> HeaderLen(s) == MinHdrSize(s[2]) + RpathLen(s)
    ensures HeaderLen(s) == if CmdResp(s[2]) then 15 + RpathLen(s) else if WriteBit(s[2]) then 7 else 11
  {
    CmdWriteBit(s[2]);
  }

  lemma ReplyLenField(was: octet, words: nat)
    requires words < 4
    ensures var i := was[..6] + ToBits(2, words);
            i[..6] == was[..6] && i[0] == was[0] && i[1] == was[1] && Cmd(i) == Cmd(was) && ReplyAddrLen(i) == words
            && Value(i) % 4 == words
  {
    hide ToBits, Value;
    var i := was[..6] + ToBits(2, words);
    assert i[..6] == was[..6] && i[6..] == ToBits(2, words);
    assert i[2..6] == was[2..6];
    PowersOfTwo();
    ValueOfBits(2, words);
    LowBitsValue(i, 6);
  }

  lemma RoomForBack(s: seq<octet>)
    requires |s| >= 7 && HeaderFits(s)
    ensures |s| >= HeaderLen(s) >= 7 + RpathLen(s)
    ensures CmdResp(s[2]) ==> HeaderLen(s) == 15 + RpathLen(s)
    ensures !CmdResp(s[2]) ==> RpathLen(s) == 0
    ensures !CmdResp(s[2]) && !WriteBit(s[2]) ==> HeaderLen(s) == 11
  {
  }

  lemma NoReplyPath(i: octet)
    requires i == Zeros(8)
    ensures ReplyAddrLen(i) == 0 && i[..6] == Zeros(6)
  {
    assert i[6..] == [false, false];
    assert Value([false, false][..1][..0]) == 0;
  }

  lemma NoCommand(i: octet)
    requires i[..6] == Zeros(6)
    ensures Cmd(i) == 0
  {
    var c := i[2..6];
    assert c == i[..6][2..];
    assert c == Zeros(4);
    ValueOfZeros(4);
  }

  lemma {:induction false} ValueOfZeros(n: nat)
    ensures Value(Zeros(n)) == 0
    decreases n
  {
    if n > 0 {
      assert Zeros(n)[..n - 1] == Zeros(n - 1);
      ValueOfZeros(n - 1);
    }
  }

  /** Append one octet to the part of the buffer that has been written. */
  method Emit(hdr: array<octet>, n: nat, x: octet, ghost was: seq<octet>, ghost done: seq<octet>)
    returns (m: nat, ghost more: seq<octet>)
    requires n == |done| < hdr.Length == |was| && hdr[..] == Splice(was, done)
    modifies hdr
    ensures more == done + [x] && m == n + 1 && hdr[..] == Splice(was, more)
  {
    hdr[n] := x;
    m, more := n + 1, done + [x];
  }

  /** Append the octets of a path one by one. */
  method EmitAll(hdr: array<octet>, n: nat, s: seq<octet>, ghost was: seq<octet>, ghost done: seq<octet>)
    returns (m: nat, ghost more: seq<octet>)
    requires n == |done| && n + |s| <= hdr.Length == |was| && hdr[..] == Splice(was, done)
    modifies hdr
    ensures more == done + s && m == n + |s| && hdr[..] == Splice(was, more)
  {
    hide Splice;
    m, more := n, done;
    var i := 0;
    while i < |s|
      invariant 0 <= i <= |s| && m == n + i
      invariant more == done + s[..i] && hdr[..] == Splice(was, more)
    {
      m, more := Emit(hdr, m, s[i], was, more);
      i := i + 1;
    }
  }

  method CopyOctets(buf: array<octet>, from: nat, count: nat) returns (s: seq<octet>)
    requires from + count <= buf.Length
    ensures s == buf[from..from + count]
  {
    s := [];
    var i := 0;
    while i < count
      invariant 0 <= i <= count && s == buf[from..from + i]
    {
      s := s + [buf[from + i]];
      i := i + 1;
    }
  }

  /** rmap_pkt_from_buffer(): a packet comes back exactly when the buffer holds one, and only a
      foreign protocol identifier is counted.  Every access is within the `len` octets given. */
  method PktFromBuffer(buf: array?<octet>, len: nat, stats: Statistics) returns (pkt: RmapPkt?)
    requires buf != null ==> len <= buf.Length
    modifies stats
    ensures pkt != null <==> buf != null && Fits(buf[..len])
    ensures pkt != null ==> fresh(pkt) && pkt.View() == Decoded(buf[..len])
    ensures stats.nonRmapPkts == old(stats.nonRmapPkts)
         + if buf != null && len >= 7 && buf[1] != ProtocolId() then 1 else 0
  {
    hide Decoded, DataLen, RpathLen, HeaderLen, Zeros, HeaderFits, DataFits, HeaderFields, ProtocolId, FrontFields, BackFields, BackAt;
    if buf == null {
      return null;
    }
    if len < 7 {
      return null;
    }
    if buf[1] != ProtocolId() {
      stats.nonRmapPkts := stats.nonRmapPkts + 1;
      return null;
    }
    pkt := new RmapPkt();
    var ok, n := pkt.ReadFront(buf, len);
    if ok {
      ghost var p := pkt.View();
      assert FrontFields(buf[..len], p);
      ghost var r := n;
      n := pkt.ReadBack(buf, len, n);
      SameBack(buf, len, r, pkt.View());
      FrontKept(buf[..len], p, pkt.View());
      SameFields(buf[..len], pkt.View());
      ok := pkt.ReadData(buf, len, n);
    }
    ghost var s := buf[..len];
    FitsInTwoSteps(s);
    if !ok {
      pkt := null;
    }
  }

  predicate FrontFields(s: seq<octet>, p: Packet)
    requires |s| >= 7 && HeaderFits(s)
  {
    && p.dst == s[0] && p.protoId == s[1] && p.instruction == s[2] && p.key == s[3]
    && p.rpath == s[4..4 + RpathLen(s)]
  }

  /** The same, read off the array. */
  predicate BackAt(buf: array<octet>, len: nat, r: nat, p: Packet)
    requires 7 <= len <= buf.Length && HeaderFits(buf[..len]) && r == RpathLen(buf[..len])
    reads buf
  {
    RoomForBack(buf[..len]);
    && p.src == buf[4 + r] && p.trId == Word(buf[5 + r], buf[6 + r])
    && p.addr == (if CmdResp(buf[2]) then Address(buf[8 + r], buf[9 + r], buf[10 + r], buf[11 + r]) else Zeros(32))
    && p.dataLen == DataLen(buf[..len]) && p.hdrCrc == if len > 11 then buf[11] else Zeros(8)
  }

  lemma SameBack(buf: array<octet>, len: nat, r: nat, p: Packet)
    requires 7 <= len <= buf.Length && HeaderFits(buf[..len]) && r == RpathLen(buf[..len])
    requires BackAt(buf, len, r, p)
    ensures BackFields(buf[..len], p)
  {
    hide HeaderLen, RpathLen, Word, Address, Zeros, DataLen;
    RoomForBack(buf[..len]);
  }

  predicate BackFields(s: seq<octet>, p: Packet)
    requires |s| >= 7 && HeaderFits(s)
  {
    var r := RpathLen(s);
    && p.src == s[4 + r] && p.trId == Word(s[5 + r], s[6 + r])
    && p.addr == (if CmdResp(s[2]) then Address(s[8 + r], s[9 + r], s[10 + r], s[11 + r]) else Zeros(32))
    && p.dataLen == DataLen(s) && p.hdrCrc == if |s| > 11 then s[11] else Zeros(8)
  }

  lemma FrontKept(s: seq<octet>, p: Packet, q: Packet)
    requires |s| >= 7 && HeaderFits(s) && FrontFields(s, p)
    requires q.dst == p.dst && q.protoId == p.protoId && q.instruction == p.instruction && q.key == p.key
    requires q.rpath == p.rpath
    ensures FrontFields(s, q)
  {
  }

  lemma SameFields(s: seq<octet>, p: Packet)
    requires |s| >= 7 && HeaderFits(s) && FrontFields(s, p) && BackFields(s, p)
    requires p.path == p.data == [] && p.dataCrc == Zeros(8)
    ensures p == HeaderFields(s)
  {
  }

  lemma FitsInTwoSteps(s: seq<octet>)
    requires |s| >= 7 && s[1] == ProtocolId()
    ensures Fits(s) <==> HeaderFits(s) && DataFits(s)
  {
  }

  predicate HeaderFits(s: seq<octet>)
    requires |s| >= 7
  {
    ValidCmd(Cmd(s[2])) && |s| >= HeaderLen(s)
  }

  predicate DataFits(s: seq<octet>)
    requires |s| >= 7 && |s| >= HeaderLen(s)
  {
    DataLen(s) > 0 ==> |s| >= HeaderLen(s) + 1 + DataLen(s)
  }
}
