/**
 Cutting an octet stream into packets, as a function of the stream.  Both framings the bridge
 understands announce the length of a packet in a header of fixed size: PUS packets in octets
 4 and 5 (data length minus one), GRESB packets in octets 1 to 3.
 */
module Framing {
  import opened BitStrings

  datatype Protocol = Pus | Gresb

  function HeaderSize(p: Protocol): nat {
    match p
    case Pus => 6
    case Gresb => 4
  }

  /** Total length of the packet that starts with the octets of `s`. */
  function FrameLen(p: Protocol, s: seq<octet>): (n: nat)
    requires |s| >= HeaderSize(p)
    ensures n >= HeaderSize(p)
  {
    match p
    case Pus => Value(Word(s[4], s[5])) + 1 + 6
    case Gresb => LengthOf(s[1], s[2], s[3]) + 4
  }

  /** `s` starts with a complete packet. */
  predicate Complete(p: Protocol, s: seq<octet>) {
    |s| >= HeaderSize(p) && |s| >= FrameLen(p, s)
  }

  /** `s` is one packet, no more and no less. */
  predicate IsFrame(p: Protocol, s: seq<octet>) {
    |s| >= HeaderSize(p) && |s| == FrameLen(p, s)
  }

  /** The packets of a stream; octets behind the last complete packet are left over. */
  function Frames(p: Protocol, s: seq<octet>): seq<seq<octet>>
    decreases |s|
  {
    if !Complete(p, s) then []
    else
      var n := FrameLen(p, s);
      [s[..n]] + Frames(p, s[n..])
  }

  function Flatten(ps: seq<seq<octet>>): seq<octet> {
    if ps == [] then [] else ps[0] + Flatten(ps[1..])
  }

  ghost predicate AllFrames(p: Protocol, ps: seq<seq<octet>>) {
    forall i :: 0 <= i < |ps| ==> IsFrame(p, ps[i])
  }

  lemma SameStart(p: Protocol, s: seq<octet>, t: seq<octet>)
    requires |s| >= HeaderSize(p)
    ensures FrameLen(p, s + t) == FrameLen(p, s)
  {
  }

  lemma FlattenNothing()
    ensures Flatten([]) == []
  {
  }

  lemma FlattenOne(s: seq<octet>)
    ensures Flatten([s]) == s
  {
    assert [s][1..] == [] && s + [] == s;
  }

  lemma {:induction false} FlattenConcat(ps: seq<seq<octet>>, qs: seq<seq<octet>>)
    ensures Flatten(ps + qs) == Flatten(ps) + Flatten(qs)
  {
    if ps == [] {
      assert ps + qs == qs;
    } else {
      assert (ps + qs)[0] == ps[0] && (ps + qs)[1..] == ps[1..] + qs;
      FlattenConcat(ps[1..], qs);
    }
  }

  lemma FramesStep(p: Protocol, head: seq<octet>, tail: seq<octet>)
    requires IsFrame(p, head)
    ensures Complete(p, head + tail) && Frames(p, head + tail) == [head] + Frames(p, tail)
  {
    hide FrameLen;
    var s := head + tail;
    SameStart(p, head, tail);
    assert s[..|head|] == head && s[|head|..] == tail;
  }

  /** Framing undoes concatenation: packets put on the stream one after the other come out
      one by one, whatever follows them. */
  lemma {:induction false} FramesOfFlatten(p: Protocol, ps: seq<seq<octet>>, rest: seq<octet>)
    requires AllFrames(p, ps)
    ensures Frames(p, Flatten(ps) + rest) == ps + Frames(p, rest)
    decreases |ps|
  {
    hide Frames, IsFrame;
    if ps == [] {
      assert Flatten(ps) + rest == rest;
    } else {
      var tail := Flatten(ps[1..]) + rest;
      assert Flatten(ps) + rest == ps[0] + tail;
      FramesStep(p, ps[0], tail);
      FramesOfFlatten(p, ps[1..], rest);
      assert ps == [ps[0]] + ps[1..];
    }
  }

  /** The framing is a decomposition: complete packets, and a remainder that holds none. */
  lemma {:induction false} FramesDecompose(p: Protocol, s: seq<octet>) returns (rest: seq<octet>)
    ensures AllFrames(p, Frames(p, s))
    ensures s == Flatten(Frames(p, s)) + rest && !Complete(p, rest)
    decreases |s|
  {
    hide FrameLen;
    if !Complete(p, s) {
      rest := s;
      assert s == [] + s;
    } else {
      var n := FrameLen(p, s);
      rest := FramesDecompose(p, s[n..]);
      SameStart(p, s[..n], s[n..]);
      assert s == s[..n] + s[n..];
      var ps := Frames(p, s);
      assert ps[0] == s[..n] && ps[1..] == Frames(p, s[n..]);
    }
  }

  /** It is the only one. */
  lemma {:induction false} FramingUnique(p: Protocol, ps: seq<seq<octet>>, rest: seq<octet>)
    requires AllFrames(p, ps) && !Complete(p, rest)
    ensures Frames(p, Flatten(ps) + rest) == ps
  {
    FramesOfFlatten(p, ps, rest);
  }

  /** More octets only ever append packets. */
  lemma {:induction false} FramesMonotone(p: Protocol, s: seq<octet>, t: seq<octet>)
    ensures Frames(p, s) <= Frames(p, s + t)
    decreases |s|
  {
    if Complete(p, s) {
      var n := FrameLen(p, s);
      SameStart(p, s, t);
      assert (s + t)[..n] == s[..n] && (s + t)[n..] == s[n..] + t;
      FramesMonotone(p, s[n..], t);
    }
  }

  /** What a receiver that stopped after `consumed` octets has handed on of the packets put on
      the stream: a prefix of them, and all of them exactly when it has read to the end. */
  lemma PrefixReceived(p: Protocol, ps: seq<seq<octet>>, emitted: seq<seq<octet>>, consumed: nat)
    requires AllFrames(p, ps) && consumed <= |Flatten(ps)|
    requires Flatten(emitted) == Flatten(ps)[..consumed]
    requires Frames(p, Flatten(ps)) == emitted + Frames(p, Flatten(ps)[consumed..])
    ensures emitted <= ps
    ensures emitted == ps <==> consumed == |Flatten(ps)|
  {
    hide FrameLen, IsFrame;
    FramesOfFlatten(p, ps, []);
    assert Flatten(ps) + [] == Flatten(ps);
    NoFrames(p);
    assert ps + [] == ps;
    assert emitted == ps[..|emitted|];
    if consumed == |Flatten(ps)| {
      assert Flatten(ps)[consumed..] == [];
    }
  }

  lemma NoFrames(p: Protocol)
    ensures Frames(p, []) == []
  {
  }

  // ---- packets on the wire ------------------------------------------------------------------------

  /** The two length octets of a PUS packet with n octets of data. */
  function PusLength(n: nat): (f: seq<octet>)
    requires 1 <= n <= 0x10000
    ensures |f| == 2
  {
    var w := ToBits(16, n - 1);
    [w[..8], w[8..]]
  }

  lemma PusLengthValue(n: nat)
    requires 1 <= n <= 0x10000
    ensures 0x100 * Value(PusLength(n)[0]) + Value(PusLength(n)[1]) == n - 1
  {
    hide ToBits, Value;
    var w := ToBits(16, n - 1);
    PowersOfTwo();
    assert Pow2(16) == 16 * (16 * Pow2(8)) by {
      Pow16();
    }
    ValueOfBits(16, n - 1);
    assert w == w[..8] + w[8..];
    ValueConcat(w[..8], w[8..]);
  }

  lemma Pow16()
    ensures Pow2(16) == 0x10000 && Pow2(8) == 0x100
  {
    assert Pow2(8) == 2 * (2 * (2 * (2 * Pow2(4)))) && Pow2(4) == 16;
    assert Pow2(12) == 2 * (2 * (2 * (2 * Pow2(8)))) && Pow2(16) == 2 * (2 * (2 * (2 * Pow2(12))));
  }

  /** A PUS packet is its six-octet header, whose last two octets hold the number of data octets
      minus one, and that many data octets.  It is cut off a stream as such, whatever follows, and
      no beginning of it is taken for a packet. */
  lemma PusPacket(h: seq<octet>, d: seq<octet>, rest: seq<octet>, n: nat)
    requires |h| == 4 && 1 <= |d| <= 0x10000 && n < 6 + |d|
    ensures var w := ToBits(16, |d| - 1);
            var pkt: seq<octet> := h + [w[..8], w[8..]] + d;
            && Frames(Pus, pkt + rest) == [pkt] + Frames(Pus, rest)
            && Frames(Pus, pkt[..n]) == []
  {
    hide Value, ToBits, Frames;
    var pkt := h + PusLength(|d|) + d;
    PusLengthValue(|d|);
    WordValue(pkt[4], pkt[5]);
    FramesStep(Pus, pkt, rest);
    if n >= 6 {
      assert pkt == pkt[..n] + pkt[n..];
      SameStart(Pus, pkt[..n], pkt[n..]);
    }
    NoFrame(Pus, pkt[..n]);
  }

  /** A GRESB packet likewise: one octet, the number of data octets in three, and the data. */
  lemma GresbPacket(h: octet, d: seq<octet>, rest: seq<octet>, n: nat)
    requires |d| <= 0xFFFFFF && n < 4 + |d|
    ensures var w := ToBits(24, |d|);
            var pkt: seq<octet> := [h, w[..8], w[8..16], w[16..]] + d;
            && Frames(Gresb, pkt + rest) == [pkt] + Frames(Gresb, rest)
            && Frames(Gresb, pkt[..n]) == []
  {
    hide ToBits, Frames, LengthOf;
    var pkt := [h] + LengthField(|d|) + d;
    LengthComesBack(|d|);
    var f := LengthField(|d|);
    assert pkt[1] == f[0] && pkt[2] == f[1] && pkt[3] == f[2];
    assert FrameLen(Gresb, pkt) == |pkt|;
    assert pkt == [h, f[0], f[1], f[2]] + d;
    FramesStep(Gresb, pkt, rest);
    if n >= 4 {
      assert pkt == pkt[..n] + pkt[n..];
      SameStart(Gresb, pkt[..n], pkt[n..]);
    }
    NoFrame(Gresb, pkt[..n]);
  }

  lemma NoFrame(p: Protocol, s: seq<octet>)
    requires !Complete(p, s)
    ensures Frames(p, s) == []
  {
  }
}
