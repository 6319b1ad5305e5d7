/**
 The network side of net.c: receiving packets from a TCP connection that delivers its octets in
 arbitrary pieces, stalls or ends at any point, and sending to one that accepts them in
 arbitrary pieces.  What the kernel decides, and what the clock says, is left open by
 nondeterministic choices; every statement holds for all of them.
 */
module Net {
  import opened BitStrings
  import opened Framing

  class Socket {
    /** The framing in use. */
    const proto: Protocol
    /** What the peer has sent or is going to send, not yet read. */
    var pending: seq<octet>
    /** A dropped connection is closed and never read again. */
    var open: bool
    /** How often the kernel or the clock has given a reason to drop the connection: recv()
        returned nothing or an error, a peek was short, or the deadline was over. */
    var troubles: nat
    /** Pieces taken from the stream, and looks at the clock. */
    var pieces: nat
    var looks: nat

    constructor (p: Protocol, stream: seq<octet>)
      ensures proto == p && pending == stream && open && troubles == 0
    {
      proto, pending, open, troubles := p, stream, true, 0;
      pieces, looks := 0, 0;
    }

    /** A peek did not show a whole header: six octets of a PUS packet, four of a GRESB packet. */
    predicate ShortPeek(r: int) {
      r < if proto == Pus then 6 else 4
    }

    /** recv(): some of the pending octets, at most n; 0 or -1 at will. */
    method Recv(buf: array<octet>, at: nat, n: nat, peek: bool) returns (r: int)
      requires open && 0 < n && at + n <= buf.Length
      modifies this`pending, this`troubles, this`pieces, buf
      ensures pieces == old(pieces) + if !peek && r > 0 then 1 else 0
      ensures -1 <= r <= n && r <= |old(pending)|
      ensures pending == if peek || r <= 0 then old(pending) else old(pending[r..])
      ensures troubles == old(troubles) + if r <= 0 || (peek && ShortPeek(r)) then 1 else 0
      ensures buf[..at] == old(buf[..at])
      ensures r > 0 ==> buf[at..at + r] == old(pending[..r])
    {
      r := *;
      if r < -1 || r > n || r > |pending| {
        r := 0;
      }
      if r <= 0 || (peek && ShortPeek(r)) {
        troubles := troubles + 1;
      }
      if r > 0 {
        var i := 0;
        while i < r
          invariant 0 <= i <= r && pending == old(pending) && pieces == old(pieces)
          invariant troubles == old(troubles) + if peek && ShortPeek(r) then 1 else 0
          invariant buf[..at] == old(buf[..at]) && buf[at..at + i] == pending[..i]
        {
          buf[at + i] := pending[i];
          i := i + 1;
        }
        if !peek {
          pieces := pieces + 1;
          pending := pending[r..];
        }
      }
    }

    /** deadline_expired(): the clock may say anything. */
    method DeadlineExpired() returns (b: bool)
      modifies this`troubles, this`looks
      ensures troubles == old(troubles) + if b then 1 else 0
      ensures looks == old(looks) + 1
    {
      b := *;
      looks := looks + 1;
      if b {
        troubles := troubles + 1;
      }
    }

    /** conn_drop() */
    method Drop()
      modifies this`open
      ensures !open
    {
      open := false;
    }

    /** recv_exact(): all n octets in order exactly if nothing goes wrong on the way; never a short
        or reordered count.  The clock is looked at after every piece. */
    method RecvExact(buf: array<octet>, n: nat) returns (r: int)
      requires open && n <= buf.Length
      modifies this`pending, this`troubles, this`pieces, this`looks, buf
      ensures r <= 0 || r == n
      ensures looks - old(looks) == pieces - old(pieces)
      ensures r == n <==> troubles == old(troubles)
      ensures r == n ==> n <= |old(pending)| && buf[..n] == old(pending[..n]) && pending == old(pending[n..])
      ensures r != n ==> troubles == old(troubles) + 1
      ensures exists k :: 0 <= k <= n && k <= |old(pending)| && pending == old(pending)[k..]
    {
      var got := 0;
      while got < n
        invariant 0 <= got <= n && got <= |old(pending)| && troubles == old(troubles)
        invariant looks - old(looks) == pieces - old(pieces)
        invariant buf[..got] == old(pending[..got]) && pending == old(pending)[got..]
      {
        r := Recv(buf, got, n - got, false);
        if r <= 0 {
          return r;
        }
        assert buf[..got + r] == buf[..got] + buf[got..got + r];
        assert old(pending)[..got + r] == old(pending)[..got] + old(pending)[got..][..r];
        got := got + r;
        var expired := DeadlineExpired();
        if expired {
          return -1;
        }
      }
      r := got;
    }

    /** recv_pus_packet(), recv_gresb_packet(): the next packet of the stream, whole, exactly if
        nothing goes wrong; otherwise the connection is dropped. */
    method RecvPacket() returns (ok: bool, frame: seq<octet>)
      requires open
      modifies this
      ensures ok <==> troubles == old(troubles)
      ensures ok ==> open && Complete(proto, old(pending)) && frame == old(pending)[..FrameLen(proto, old(pending))]
      ensures ok ==> pending == old(pending)[FrameLen(proto, old(pending))..]
      ensures ok ==> |frame| >= 4 && old(pending) == frame + pending
      ensures ok && proto == Pus ==> |frame| >= 7 && |frame| == 7 + 0x100 * Value(frame[4]) + Value(frame[5])
      ensures ok && proto == Gresb ==>
                |frame| == 4 + 0x10000 * Value(frame[1]) + 0x100 * Value(frame[2]) + Value(frame[3])
      ensures !ok ==> !open && frame == [] && troubles == old(troubles) + 1
      ensures !ok ==> exists k :: 0 <= k <= |old(pending)| && pending == old(pending)[k..]
    {
      hide FrameLen, Value, LengthOf;
      assert old(pending)[0..] == old(pending);
      var h := HeaderSize(proto);
      var hdr := new octet[h];
      var r := Recv(hdr, 0, h, true);
      frame := [];
      if r != h {
        Drop();
        return false, [];
      }
      assert hdr[..] == old(pending)[..h];
      assert old(pending)[..h] + old(pending)[h..] == old(pending);
      SameStart(proto, old(pending)[..h], old(pending)[h..]);
      var n := FrameLen(proto, hdr[..]);
      var buf := new octet[n];
      r := RecvExact(buf, n);
      if r != n {
        Drop();
        return false, [];
      }
      ok, frame := true, buf[..n];
      assert frame + pending == old(pending);
      LengthOnWire(proto, frame, pending);
    }

    /** The packets handed on while a connection lives: poll_socket() finding the socket readable
        `rounds` times, or until the connection is dropped.  Each round hands on one packet. */
    method Serve(rounds: nat) returns (emitted: seq<seq<octet>>, ghost consumed: nat)
      requires open
      modifies this
      ensures open <==> troubles == old(troubles)
      ensures if open then |emitted| == rounds else |emitted| < rounds
      ensures consumed <= |old(pending)| && Flatten(emitted) == old(pending)[..consumed]
      ensures Frames(proto, old(pending)) == emitted + Frames(proto, old(pending)[consumed..])
      ensures open ==> pending == old(pending)[consumed..]
    {
      hide FrameLen, Frames, Flatten, Value;
      FlattenNothing();
      emitted, consumed := [], 0;
      ghost var stream := pending;
      assert stream[0..] == stream;
      var i := 0;
      while open && i < rounds
        invariant 0 <= i <= rounds
        invariant open <==> troubles == old(troubles)
        invariant if open then |emitted| == i else |emitted| < i
        invariant consumed <= |stream| && Flatten(emitted) == stream[..consumed]
        invariant Frames(proto, stream) == emitted + Frames(proto, stream[consumed..])
        invariant open ==> pending == stream[consumed..]
        decreases rounds - i
      {
        var ok, frame := RecvPacket();
        if ok {
          Extend(proto, stream, emitted, consumed, frame);
          emitted := emitted + [frame];
          consumed := consumed + |frame|;
        }
        i := i + 1;
      }
    }
  }

  lemma LengthOnWire(p: Protocol, frame: seq<octet>, rest: seq<octet>)
    requires Complete(p, frame + rest) && |frame| == FrameLen(p, frame + rest)
    ensures |frame| >= 4
    ensures p == Pus ==> |frame| >= 7 && |frame| == 7 + 0x100 * Value(frame[4]) + Value(frame[5])
    ensures p == Gresb ==>
              |frame| == 4 + 0x10000 * Value(frame[1]) + 0x100 * Value(frame[2]) + Value(frame[3])
  {
    hide Value, LengthOf;
    SameStart(p, frame, rest);
    if p == Pus {
      WordValue(frame[4], frame[5]);
    } else {
      LengthValue(frame[1], frame[2], frame[3]);
    }
  }

  lemma Extend(p: Protocol, stream: seq<octet>, emitted: seq<seq<octet>>, consumed: nat, frame: seq<octet>)
    requires consumed <= |stream| && Flatten(emitted) == stream[..consumed]
    requires Complete(p, stream[consumed..])
    requires frame == stream[consumed..][..FrameLen(p, stream[consumed..])]
    ensures var n := consumed + |frame|;
            && n <= |stream| && Flatten(emitted + [frame]) == stream[..n]
            && stream[consumed..][|frame|..] == stream[n..]
            && emitted + Frames(p, stream[consumed..]) == emitted + [frame] + Frames(p, stream[n..])
  {
    hide FrameLen;
    var n, rest := consumed + |frame|, stream[consumed..];
    FlattenConcat(emitted, [frame]);
    FlattenOne(frame);
    assert stream[..n] == stream[..consumed] + frame;
    assert rest[|frame|..] == stream[n..];
    assert rest == frame + stream[n..];
    SameStart(p, frame, stream[n..]);
    FramesStep(p, frame, stream[n..]);
  }

  /** The sending end of a connection. */
  class Outlet {
    /** The octets the kernel has taken over so far. */
    var wire: seq<octet>
    /** How many more calls will be interrupted or take nothing: finitely many, any number. */
    var interruptions: nat
    /** How often the kernel has refused octets with an error other than an interruption. */
    var refusals: nat

    constructor (interruptions: nat)
      ensures wire == [] && refusals == 0
    {
      this.wire, this.interruptions, this.refusals := [], interruptions, 0;
    }

    /** send(): takes some of the octets, fails, or is interrupted by a signal. */
    method Send(buf: array<octet>, from: nat, len: nat) returns (n: int, interrupted: bool)
      requires 0 < len && from + len <= buf.Length
      modifies this
      ensures -1 <= n <= len
      ensures wire == if n == -1 then old(wire) else old(wire) + buf[from..from + n]
      ensures n == 0 || (n == -1 && interrupted) ==> interruptions < old(interruptions)
      ensures interruptions <= old(interruptions)
      ensures refusals == old(refusals) + if n == -1 && !interrupted then 1 else 0
    {
      n, interrupted := *, *;
      if n < -1 || n > len {
        n := -1;
      }
      if n == 0 || (n == -1 && interrupted) {
        if interruptions == 0 {
          n, interrupted := -1, false;
        } else {
          interruptions := interruptions - 1;
        }
      }
      if n == -1 && !interrupted {
        refusals := refusals + 1;
      }
      if n >= 0 {
        wire := wire + buf[from..from + n];
      }
    }

    /** send_all(): 0 exactly if the kernel refused nothing, and then every octet went out, in order
        and once, in however many pieces and after however many interruptions; otherwise a proper
        beginning of the buffer did. */
    method SendAll(buf: array<octet>, len: nat) returns (r: int)
      requires len <= buf.Length
      modifies this
      ensures r == 0 || r == -1
      ensures refusals == old(refusals) + if r == 0 then 0 else 1
      ensures r == 0 <==> wire == old(wire) + buf[..len]
      ensures old(wire) <= wire <= old(wire) + buf[..len]
    {
      var at, rest := 0, len;
      while rest > 0
        invariant refusals == old(refusals)
        invariant 0 <= at && 0 <= rest && at + rest == len && wire == old(wire) + buf[..at]
        decreases rest, interruptions
      {
        var n, interrupted := Send(buf, at, rest);
        if n == -1 {
          if interrupted {
            continue;
          }
          assert buf[..len] == buf[..at] + buf[at..len];
          assert |wire| < |old(wire) + buf[..len]|;
          return -1;
        }
        assert buf[..at + n] == buf[..at] + buf[at..at + n];
        rest := rest - n;
        at := at + n;
      }
      assert at == len;
      r := 0;
    }
  }
}
