/**
 The registry of UDP peers (net.c, dgram_add_client and dgram_send_all): an array that doubles
 when it is full.
 */
module Peers {

  datatype Peer = Peer(addr: nat, port: nat)

  /** The distinct peers of a history of datagrams, in the order of their first datagram. */
  function FirstSeen(h: seq<Peer>): seq<Peer> {
    if h == [] then []
    else
      var seen := FirstSeen(h[..|h| - 1]);
      if h[|h| - 1] in seen then seen else seen + [h[|h| - 1]]
  }

  class Registry {
    var clients: array?<Peer>
    var nclients: nat
    var cap: nat

    ghost predicate Valid()
      reads this, clients
    {
      && nclients <= cap
      && (clients == null <==> cap == 0)
      && (clients != null ==> clients.Length == cap)
    }

    /** The peers registered so far, in order. */
    ghost function Contents(): (s: seq<Peer>)
      reads this, clients
      requires Valid()
      ensures |s| == nclients
    {
      if clients == null then [] else clients[..nclients]
    }

    constructor ()
      ensures Valid() && Contents() == [] && cap == 0
    {
      clients, nclients, cap := null, 0, 0;
    }

    /** realloc(): a larger block with the old entries in front. */
    method Grow(newCap: nat)
      requires Valid() && cap < newCap
      modifies this`clients, this`cap
      ensures Valid() && cap == newCap && fresh(clients)
      ensures Contents() == old(Contents())
    {
      var tmp := new Peer[newCap](_ => Peer(0, 0));
      var i := 0;
      while i < nclients
        invariant 0 <= i <= nclients && Valid() && clients == old(clients) && cap == old(cap)
        invariant tmp[..i] == old(Contents())[..i]
        modifies tmp
      {
        tmp[i] := clients[i];
        i := i + 1;
      }
      clients := tmp;
      cap := newCap;
    }

    /** dgram_add_client(): a known peer changes nothing, a new one goes to the end. */
    method AddClient(client: Peer)
      requires Valid()
      modifies this, clients
      ensures Valid() && (clients == old(clients) || fresh(clients))
      ensures Contents() == if client in old(Contents()) then old(Contents()) else old(Contents()) + [client]
      ensures cap == if client in old(Contents()) || old(nclients) < old(cap) then old(cap)
                     else if old(cap) == 0 then 4 else 2 * old(cap)
    {
      var i := 0;
      while i < nclients
        invariant 0 <= i <= nclients
        invariant client !in Contents()[..i]
      {
        if clients[i].addr == client.addr && clients[i].port == client.port {
          assert Contents()[i] == client;
          return;
        }
        i := i + 1;
      }
      assert client !in Contents();
      if nclients == cap {
        var newCap := if cap != 0 then cap * 2 else 4;
        Grow(newCap);
      }
      clients[nclients] := client;
      nclients := nclients + 1;
    }

    /** dgram_send_all(): the peers a packet goes to. */
    method SendAll() returns (to: seq<Peer>)
      requires Valid()
      ensures to == Contents()
    {
      to := [];
      var i := 0;
      while i < nclients
        invariant 0 <= i <= nclients && to == Contents()[..i]
      {
        to := to + [clients[i]];
        i := i + 1;
      }
    }
  }

  /** After any run of datagrams the registry holds the distinct peers in first-seen order, in an
      array that is at most 4 long or less than twice as long as needed. */
  method Run(h: seq<Peer>) returns (r: Registry)
    ensures fresh(r) && r.Valid() && r.Contents() == FirstSeen(h)
    ensures r.cap <= 4 || r.cap < 2 * r.nclients
  {
    r := new Registry();
    assert h[..0] == [];
    var i := 0;
    while i < |h|
      invariant 0 <= i <= |h| && fresh(r) && r.Valid() && (r.clients != null ==> fresh(r.clients))
      invariant r.Contents() == FirstSeen(h[..i])
      invariant r.cap <= 4 || r.cap < 2 * r.nclients
    {
      assert h[..i + 1][..i] == h[..i];
      r.AddClient(h[i]);
      i := i + 1;
    }
    assert h[..|h|] == h;
  }

  /** First-seen order: every peer of the history once, a peer before another exactly if its
      first datagram came first; and earlier entries never move. */
  lemma {:induction false} FirstSeenDistinct(h: seq<Peer>)
    ensures forall p :: p in h <==> p in FirstSeen(h)
    ensures forall i, j :: 0 <= i < j < |FirstSeen(h)| ==> FirstSeen(h)[i] != FirstSeen(h)[j]
    decreases |h|
  {
    if h == [] {
    } else {
      var t := h[..|h| - 1];
      FirstSeenDistinct(t);
      assert h == t + [h[|h| - 1]];
    }
  }

  lemma {:induction false} FirstSeenGrows(h: seq<Peer>, more: seq<Peer>)
    ensures FirstSeen(h) <= FirstSeen(h + more)
    decreases |more|
  {
    if more == [] {
      assert h + more == h;
    } else {
      assert (h + more)[..|h + more| - 1] == h + more[..|more| - 1];
      FirstSeenGrows(h, more[..|more| - 1]);
    }
  }

  /** Position of the first datagram of a peer. */
  function FirstAt(h: seq<Peer>, p: Peer): (i: nat)
    requires p in h
    ensures i < |h| && h[i] == p && p !in h[..i]
  {
    if h[0] == p then 0 else 1 + FirstAt(h[1..], p)
  }

  lemma {:induction false} FirstSeenInOrder(h: seq<Peer>, i: nat, j: nat)
    requires i < |FirstSeen(h)| && j < |FirstSeen(h)|
    ensures FirstSeen(h)[i] in h && FirstSeen(h)[j] in h
    ensures i < j <==> FirstAt(h, FirstSeen(h)[i]) < FirstAt(h, FirstSeen(h)[j])
    decreases |h|
  {
    FirstSeenDistinct(h);
    var t := h[..|h| - 1];
    FirstSeenDistinct(t);
    var s := FirstSeen(t);
    forall k | 0 <= k < |s| ensures FirstAt(h, s[k]) == FirstAt(t, s[k]) {
      assert h[FirstAt(t, s[k])] == t[FirstAt(t, s[k])];
      FirstUnique(h, s[k], FirstAt(t, s[k]));
    }
    if i < |s| && j < |s| {
      FirstSeenInOrder(t, i, j);
    }
  }

  lemma FirstUnique(h: seq<Peer>, p: Peer, k: nat)
    requires k < |h| && h[k] == p && p !in h[..k]
    ensures FirstAt(h, p) == k
  {
    NotBefore(h, p, k);
    NotBefore(h, p, FirstAt(h, p));
  }

  lemma NotBefore(h: seq<Peer>, p: Peer, k: nat)
    requires k <= |h| && p !in h[..k]
    ensures forall i :: 0 <= i < k ==> h[i] != p
  {
    forall i | 0 <= i < k ensures h[i] != p {
      assert h[..k][i] == h[i];
    }
  }
}
