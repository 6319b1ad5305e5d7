/**
 The GRESB host protocol (gresb.c): a data packet is a protocol octet, a 24-bit length and the
 SpaceWire data.  Wrapping, sending and framing are put together in `Deliver`.
 */
module Gresb {
  import opened BitStrings
  import opened Framing
  import opened Net

  /** GRESB_FROM_HOST_DATA is 0, the other protocols are 1 to 3. */
  function Data(): octet {
    Zeros(8)
  }

  predicate KnownProtocol(b: octet) {
    b[..6] == Zeros(6)
  }

  /** gresb_host_pkt_set_protocol() */
  method SetProtocol(pkt: array<octet>, protocol: octet) returns (r: int)
    requires pkt.Length >= 4
    modifies pkt
    ensures r == if KnownProtocol(protocol) then 0 else -1
    ensures pkt[..] == if r == 0 then old(pkt[..])[0 := protocol] else old(pkt[..])
  {
    if !KnownProtocol(protocol) {
      return -1;
    }
    pkt[0] := protocol;
    r := 0;
  }

  /** gresb_host_pkt_set_data_size() */
  method SetDataSize(pkt: array<octet>, size: nat) returns (r: int)
    requires pkt.Length >= 4
    modifies pkt
    ensures r == if old(pkt[0]) == Data() then 0 else -1
    ensures r == 0 ==> pkt[1..4] == LengthField(size) && pkt[0] == old(pkt[0]) && pkt[4..] == old(pkt[4..])
    ensures r == -1 ==> pkt[..] == old(pkt[..])
  {
    if pkt[0] != Data() {
      return -1;
    }
    var field := LengthField(size);
    pkt[1] := field[0];
    pkt[2] := field[1];
    pkt[3] := field[2];
    r := 0;
  }

  /** gresb_create_host_data_pkt() */
  method CreateHostDataPkt(data: array?<octet>, len: nat) returns (pkt: array<octet>)
    requires data != null ==> len <= data.Length
    ensures fresh(pkt) && pkt.Length == 4 + len
    ensures pkt[..4] == [Data()] + LengthField(len)
    ensures data != null ==> pkt[..] == Wrap(data[..len])
  {
    pkt := new octet[4 + len];
    assert KnownProtocol(Data());
    var r := SetProtocol(pkt, Data());
    r := SetDataSize(pkt, len);
    assert pkt[..4] == [pkt[0]] + pkt[1..4];
    if data != null {
      var i := 0;
      while i < len
        invariant 0 <= i <= len
        invariant pkt[..4] == [Data()] + LengthField(len) && pkt[4..4 + i] == data[..i]
      {
        pkt[4 + i] := data[i];
        i := i + 1;
      }
      assert pkt[..] == pkt[..4] + pkt[4..4 + len];
    }
  }

  /** The packet a buffer of data becomes. */
  function Wrap(d: seq<octet>): (w: seq<octet>)
    ensures |w| == 4 + |d|
  {
    [Data()] + LengthField(|d|) + d
  }

  /** gresb_get_host_data_pkt_size() */
  function HostDataPktSize(buf: seq<octet>): nat
    requires |buf| >= 4
  {
    4 + if buf[0] == Data() then LengthOf(buf[1], buf[2], buf[3]) else 0
  }

  /** gresb_get_spw_data() over gresb_get_spw_data_size() octets */
  function SpwData(buf: seq<octet>): seq<octet>
    requires |buf| >= 4 && |buf| >= 4 + LengthOf(buf[1], buf[2], buf[3])
  {
    buf[4..4 + LengthOf(buf[1], buf[2], buf[3])]
  }

  /** Unwrapping gives back what was wrapped exactly when the length field can hold its size;
      otherwise a proper beginning of it. */
  lemma WrapRoundTrip(d: seq<octet>)
    ensures HostDataPktSize(Wrap(d)) <= |Wrap(d)|
    ensures |d| <= 0xFFFFFF <==> HostDataPktSize(Wrap(d)) == |Wrap(d)|
    ensures var w := Wrap(d);
            4 + LengthOf(w[1], w[2], w[3]) == HostDataPktSize(w) && SpwData(w) <= d
            && (SpwData(w) == d <==> |d| <= 0xFFFFFF)
  {
    LengthComesBack(|d|);
  }

  /** What of a wrapped packet is handed to send_all(). */
  function Sent(d: seq<octet>): seq<octet> {
    WrapRoundTrip(d);
    Wrap(d)[..HostDataPktSize(Wrap(d))]
  }

  /** The part of the data that it carries. */
  function Carried(d: seq<octet>): seq<octet> {
    WrapRoundTrip(d);
    SpwData(Wrap(d))
  }

  /** Even a packet too long for its length field leaves the stream in step. */
  lemma SentIsFrame(d: seq<octet>)
    ensures IsFrame(Gresb, Sent(d)) && SpwData(Sent(d)) == Carried(d)
  {
    WrapRoundTrip(d);
    hide LengthOf, LengthField;
    var w, n := Wrap(d), HostDataPktSize(Wrap(d));
    assert w[..n][1] == w[1] && w[..n][2] == w[2] && w[..n][3] == w[3];
  }

  function AllSent(ds: seq<seq<octet>>): seq<seq<octet>> {
    seq(|ds|, i requires 0 <= i < |ds| => Sent(ds[i]))
  }

  /** The data packets as the other end sees them. */
  function AllCarried(ds: seq<seq<octet>>): seq<seq<octet>> {
    seq(|ds|, i requires 0 <= i < |ds| => Carried(ds[i]))
  }

  lemma AllSentAreFrames(ds: seq<seq<octet>>)
    ensures AllFrames(Gresb, AllSent(ds))
  {
    hide IsFrame, Sent;
    forall i | 0 <= i < |ds| ensures IsFrame(Gresb, AllSent(ds)[i]) {
      SentIsFrame(ds[i]);
    }
  }

  lemma NothingIsCut(ds: seq<seq<octet>>)
    ensures AllCarried(ds) == ds <==> forall i :: 0 <= i < |ds| ==> |ds[i]| <= 0xFFFFFF
  {
    hide SpwData, Wrap;
    forall i | 0 <= i < |ds| ensures Carried(ds[i]) == ds[i] <==> |ds[i]| <= 0xFFFFFF {
      WrapRoundTrip(ds[i]);
    }
    if AllCarried(ds) == ds {
      forall i | 0 <= i < |ds| ensures |ds[i]| <= 0xFFFFFF {
        assert AllCarried(ds)[i] == ds[i];
      }
    }
  }

  /** Wrap and send one data packet, as net.c does towards each GRESB client. */
  method SendPacket(out: Outlet, d: seq<octet>) returns (r: int)
    modifies out
    ensures r == 0 || r == -1
    ensures out.refusals == old(out.refusals) + if r == 0 then 0 else 1
    ensures r == 0 <==> out.wire == old(out.wire) + Sent(d)
    ensures old(out.wire) <= out.wire <= old(out.wire) + Sent(d)
  {
    hide Sent;
    var data := new octet[|d|](j requires 0 <= j < |d| => d[j]);
    assert data[..] == d && data[..data.Length] == d;
    var pkt := CreateHostDataPkt(data, data.Length);
    SentUnfold(d);
    r := out.SendAll(pkt, HostDataPktSize(pkt[..]));
  }

  /** A run of the sending side: packets go out until one cannot be sent and the connection is
      given up. */
  method SendPackets(out: Outlet, ds: seq<seq<octet>>) returns (ok: bool)
    modifies out
    ensures ok <==> out.refusals == old(out.refusals)
    ensures out.wire <= old(out.wire) + Flatten(AllSent(ds))
    ensures ok <==> out.wire == old(out.wire) + Flatten(AllSent(ds))
  {
    hide Sent, Flatten;
    var i := 0;
    FlattenNothing();
    ghost var all := AllSent(ds);
    assert all[..0] == [];
    while i < |ds|
      invariant out.refusals == old(out.refusals)
      invariant 0 <= i <= |ds| && out.wire == old(out.wire) + Flatten(all[..i])
    {
      var r := SendPacket(out, ds[i]);
      FlattenSplit(all, i);
      if r == -1 {
        WireIsPrefix(old(out.wire), Flatten(all[..i]), all[i], Flatten(all[i + 1..]), out.wire);
        return false;
      }
      i := i + 1;
    }
    assert all[..|ds|] == all;
    ok := true;
  }

  lemma SentUnfold(d: seq<octet>)
    ensures HostDataPktSize(Wrap(d)) <= |Wrap(d)| && Sent(d) == Wrap(d)[..HostDataPktSize(Wrap(d))]
  {
    WrapRoundTrip(d);
  }

  lemma FlattenSplit(ps: seq<seq<octet>>, i: nat)
    requires i < |ps|
    ensures Flatten(ps[..i + 1]) == Flatten(ps[..i]) + ps[i]
    ensures Flatten(ps) == Flatten(ps[..i]) + (ps[i] + Flatten(ps[i + 1..]))
  {
    hide Flatten;
    var before, after := ps[..i], ps[i + 1..];
    SplitAt(ps, i);
    FlattenConcat(before, [ps[i]]);
    FlattenOne(ps[i]);
    FlattenConcat(before + [ps[i]], after);
    Assoc(Flatten(before), ps[i], Flatten(after));
  }

  lemma SplitAt(ps: seq<seq<octet>>, i: nat)
    requires i < |ps|
    ensures ps[..i + 1] == ps[..i] + [ps[i]] && ps == ps[..i] + [ps[i]] + ps[i + 1..]
  {
  }

  lemma Assoc(a: seq<octet>, b: seq<octet>, c: seq<octet>)
    ensures a + b + c == a + (b + c)
  {
  }

  lemma WireIsPrefix(w: seq<octet>, a: seq<octet>, b: seq<octet>, c: seq<octet>, x: seq<octet>)
    requires w + a <= x <= w + a + b && x != w + a + b
    ensures x <= w + (a + (b + c)) && x != w + (a + (b + c))
  {
    assert |x| < |w + a + b|;
    assert w + (a + (b + c)) == w + a + b + c;
  }

  /** What a receiver hands on of the packets a sender put on the stream, both given up at any
      point: a prefix of the data packets, and all of them exactly when everything sent has
      been read. */
  lemma EndToEnd(ds: seq<seq<octet>>, stream: seq<octet>, emitted: seq<seq<octet>>, consumed: nat)
    requires stream <= Flatten(AllSent(ds)) && consumed <= |stream|
    requires Flatten(emitted) == stream[..consumed]
    requires Frames(Gresb, stream) == emitted + Frames(Gresb, stream[consumed..])
    ensures emitted <= AllSent(ds)
    ensures emitted == AllSent(ds) <==> consumed == |Flatten(AllSent(ds))|
  {
    hide Sent, Flatten, Frames;
    var whole := Flatten(AllSent(ds));
    AllSentAreFrames(ds);
    var late := whole[|stream|..];
    assert whole == stream + late;
    assert whole[..consumed] == stream[..consumed];
    assert whole[consumed..] == stream[consumed..] + late;
    FramesExtend(Gresb, emitted, stream[consumed..], stream, late);
    PrefixReceived(Gresb, AllSent(ds), emitted, consumed);
  }

  /** Packets already cut off stay cut off when more octets arrive. */
  lemma FramesExtend(p: Protocol, emitted: seq<seq<octet>>, rest: seq<octet>, stream: seq<octet>, late: seq<octet>)
    requires Flatten(emitted) + rest == stream
    requires Frames(p, stream) == emitted + Frames(p, rest)
    ensures Frames(p, stream + late) == emitted + Frames(p, rest + late)
  {
    hide Flatten, IsFrame;
    var _ := FramesDecompose(p, stream);
    assert AllFrames(p, emitted) by {
      forall i | 0 <= i < |emitted| ensures IsFrame(p, emitted[i]) {
        assert Frames(p, stream)[i] == emitted[i];
      }
    }
    assert stream + late == Flatten(emitted) + (rest + late);
    FramesOfFlatten(p, emitted, rest + late);
  }

  /** Wrap, send, cut off, receive, frame and unwrap: under every segmentation, partial send,
      time-out and loss of the connection the packets that come out are the first of those that
      went in, in order and unchanged (as far as their length field reaches), one per round.  The
      sender succeeds exactly if the kernel never refuses, the connection lives exactly if nothing
      goes wrong in receiving, and then all packets come out once nothing is left to read. */
  method Deliver(ds: seq<seq<octet>>, out: Outlet, rounds: nat)
    returns (received: seq<seq<octet>>, sent: bool, conn: Socket)
    requires out.wire == []
    modifies out
    ensures fresh(conn)
    ensures sent <==> out.refusals == old(out.refusals)
    ensures conn.open <==> conn.troubles == 0
    ensures received <= AllCarried(ds)
    ensures if conn.open then |received| == rounds else |received| < rounds
    ensures sent && conn.open && (conn.pending == [] || rounds == |ds|) ==> received == AllCarried(ds)
    ensures (forall i :: 0 <= i < |ds| ==> |ds[i]| <= 0xFFFFFF) ==> received <= ds
  {
    hide Sent, Carried, Flatten, Frames;
    sent := SendPackets(out, ds);
    ghost var wire := out.wire;
    assert [] + Flatten(AllSent(ds)) == Flatten(AllSent(ds));
    conn := new Socket(Gresb, out.wire);
    var emitted;
    ghost var consumed;
    emitted, consumed := conn.Serve(rounds);
    assert out.wire <= Flatten(AllSent(ds));
    EndToEnd(ds, out.wire, emitted, consumed);
    received := [];
    var i := 0;
    while i < |emitted|
      invariant 0 <= i <= |emitted| && received == AllCarried(ds)[..i]
      modifies {}
    {
      SentIsFrame(ds[i]);
      assert emitted[i] == Sent(ds[i]);
      received := received + [SpwData(emitted[i])];
      i := i + 1;
    }
    assert received == AllCarried(ds)[..|emitted|];
    if sent && conn.open && conn.pending == [] {
      assert wire[consumed..] == [];
      assert emitted == AllSent(ds);
    }
    NothingIsCut(ds);
  }

  // ---- on octets ----------------------------------------------------------------------------------

  lemma ProtocolValues(b: octet)
    ensures b == Data() <==> Value(b) == 0
    ensures KnownProtocol(b) <==> Value(b) <= 3
  {
    hide Value;
    OctetValue(b);
    if Value(b) == 0 {
      assert !b[0] && !b[1] && !b[2] && !b[3] && !b[4] && !b[5] && !b[6] && !b[7];
    }
    if Value(b) <= 3 {
      assert !b[0] && !b[1] && !b[2] && !b[3] && !b[4] && !b[5];
    }
  }

  /** A data packet on the wire: a zero octet, the size most significant octet first, the data. */
  lemma SentOnOctets(d: seq<octet>)
    requires |d| <= 0xFFFFFF
    ensures var s := Sent(d);
            && |s| == 4 + |d| && Value(s[0]) == 0
            && 0x10000 * Value(s[1]) + 0x100 * Value(s[2]) + Value(s[3]) == |d|
            && s[4..] == d && Carried(d) == d
  {
    hide Value, LengthOf, LengthField;
    WrapRoundTrip(d);
    LengthComesBack(|d|);
    var f := LengthField(|d|);
    LengthValue(f[0], f[1], f[2]);
    ProtocolValues(Data());
  }

  /** Total size and contents of a packet in a buffer. */
  lemma SizeOnOctets(buf: seq<octet>)
    requires |buf| >= 4
    ensures var n := 0x10000 * Value(buf[1]) + 0x100 * Value(buf[2]) + Value(buf[3]);
            && HostDataPktSize(buf) == (if Value(buf[0]) == 0 then 4 + n else 4)
            && (|buf| >= 4 + n ==> |buf| >= 4 + LengthOf(buf[1], buf[2], buf[3]) && SpwData(buf) == buf[4..4 + n])
  {
    hide Value, LengthOf;
    LengthValue(buf[1], buf[2], buf[3]);
    ProtocolValues(buf[0]);
  }
}
