/** Multiaddresses as src/types.rs takes them apart. */
module Addresses {
  import opened Wrappers
  import opened Bytes

  datatype PeerId = PeerId(multihash: bytes)

  datatype Protocol =
    | P2p(peer: PeerId)
    | P2pCircuit
    | Tcp(port: u16)
    | Udp(port: u16)
    | QuicV1
    | Other(code: nat, data: bytes)

  type Multiaddr = seq<Protocol>

  datatype AddressError = MissingPeerId | UnsupportedTransport | MissingCircuit | MissingListenerPeerId

  datatype Split = Parts(base: Multiaddr, peer: PeerId) | Invalid(error: AddressError)

  /** `peer_id_from_multiaddr`. */
  function FirstPeer(addr: Multiaddr): Option<PeerId> {
    if addr == [] then None else if addr[0].P2p? then Some(addr[0].peer) else FirstPeer(addr[1..])
  }

  function LastPeer(addr: Multiaddr): Option<PeerId> {
    if addr == [] then None
    else if addr[|addr| - 1].P2p? then Some(addr[|addr| - 1].peer)
    else LastPeer(addr[..|addr| - 1])
  }

  predicate HasPeer(addr: Multiaddr) { exists p | p in addr :: p.P2p? }

  predicate HasTcp(addr: Multiaddr) { exists p | p in addr :: p.Tcp? }

  predicate HasUdp(addr: Multiaddr) { exists p | p in addr :: p.Udp? }

  lemma Pushed(addr: Multiaddr, p: Protocol)
    ensures HasPeer(addr + [p]) <==> HasPeer(addr) || p.P2p?
    ensures HasTcp(addr + [p]) <==> HasTcp(addr) || p.Tcp?
    ensures HasUdp(addr + [p]) <==> HasUdp(addr) || p.Udp?
  {
    assert p in addr + [p];
    assert forall q | q in addr :: q in addr + [p];
  }

  predicate Names(addr: Multiaddr, p: PeerId) { P2p(p) in addr }

  predicate Usable(addr: Multiaddr) {
    HasTcp(addr) || (HasUdp(addr) && QuicV1 in addr)
  }

  /** What `validate_relay_address` rejects, and for which reason. */
  function Objection(addr: Multiaddr): Option<AddressError> {
    if !HasPeer(addr) then Some(MissingPeerId)
    else if !Usable(addr) then Some(UnsupportedTransport)
    else None
  }

  method ValidateRelayAddress(addr: Multiaddr) returns (r: Option<AddressError>)
    ensures r == Objection(addr)
  {
    var hasP2p, hasTcp, hasUdp, hasQuic := false, false, false, false;
    for i := 0 to |addr|
      invariant hasP2p <==> HasPeer(addr[..i])
      invariant hasTcp <==> HasTcp(addr[..i])
      invariant hasUdp <==> HasUdp(addr[..i])
      invariant hasQuic <==> QuicV1 in addr[..i]
    {
      assert addr[..i + 1] == addr[..i] + [addr[i]];
      Pushed(addr[..i], addr[i]);
      match addr[i]
      case P2p(_) => hasP2p := true;
      case Tcp(_) => hasTcp := true;
      case Udp(_) => hasUdp := true;
      case QuicV1 => hasQuic := true;
      case _ =>
    }
    assert addr[..|addr|] == addr;
    if !hasP2p {
      return Some(MissingPeerId);
    }
    if hasTcp || (hasUdp && hasQuic) {
      return None;
    }
    return Some(UnsupportedTransport);
  }

  /** Which relay addresses are accepted, item by item: with a peer id, and a TCP port or both a UDP port
      and QUIC v1. The missing peer id is reported first. */
  lemma AcceptedItems(addr: Multiaddr)
    ensures Objection(addr) == None <==>
      && (exists i | 0 <= i < |addr| :: addr[i].P2p?)
      && ((exists i | 0 <= i < |addr| :: addr[i].Tcp?)
          || ((exists i | 0 <= i < |addr| :: addr[i].Udp?) && (exists i | 0 <= i < |addr| :: addr[i].QuicV1?)))
    ensures Objection(addr) == Some(MissingPeerId) <==> forall i | 0 <= i < |addr| :: !addr[i].P2p?
    ensures Objection(addr) != Some(MissingCircuit) && Objection(addr) != Some(MissingListenerPeerId)
  {
    assert forall i | 0 <= i < |addr| :: addr[i] in addr;
  }

  /** The first peer id of an address, and the last, by position. */
  lemma {:induction false} FirstPeerIsFirst(addr: Multiaddr, p: PeerId)
    ensures FirstPeer(addr) == Some(p) <==>
      exists i | 0 <= i < |addr| :: addr[i] == P2p(p) && forall j | 0 <= j < i :: !addr[j].P2p?
  {
    if addr == [] || addr[0].P2p? {
    } else {
      var rest := addr[1..];
      FirstPeerIsFirst(rest, p);
      if i :| 0 <= i < |rest| && rest[i] == P2p(p) && forall j | 0 <= j < i :: !rest[j].P2p? {
        assert addr[i + 1] == P2p(p) && forall j | 0 < j < i + 1 :: addr[j] == rest[j - 1];
      }
      if i :| 0 <= i < |addr| && addr[i] == P2p(p) && forall j | 0 <= j < i :: !addr[j].P2p? {
        assert rest[i - 1] == P2p(p) && forall j | 0 <= j < i - 1 :: rest[j] == addr[j + 1];
      }
    }
  }

  lemma {:induction false} LastPeerIsLast(addr: Multiaddr, p: PeerId)
    ensures LastPeer(addr) == Some(p) <==>
      exists i | 0 <= i < |addr| :: addr[i] == P2p(p) && forall j | i < j < |addr| :: !addr[j].P2p?
  {
    if addr == [] || addr[|addr| - 1].P2p? {
    } else {
      LastPeerIsLast(addr[..|addr| - 1], p);
    }
  }

  /** Position of the first circuit marker, or the length of the address. */
  function CircuitAt(addr: Multiaddr): (i: nat)
    ensures i <= |addr| && (i < |addr| ==> addr[i] == P2pCircuit) && P2pCircuit !in addr[..i]
  {
    if addr == [] || addr[0] == P2pCircuit then 0
    else
      assert addr[..1 + CircuitAt(addr[1..])] == [addr[0]] + addr[1..][..CircuitAt(addr[1..])];
      1 + CircuitAt(addr[1..])
  }

  function SplitCircuit(addr: Multiaddr): Split {
    var i := CircuitAt(addr);
    if i == |addr| then Invalid(MissingCircuit)
    else match LastPeer(addr[i + 1..])
      case None => Invalid(MissingListenerPeerId)
      case Some(peer) =>
        match Objection(addr[..i])
        case Some(e) => Invalid(e)
        case None => Parts(addr[..i], peer)
  }

  method RelayBaseFromCircuitAddress(addr: Multiaddr) returns (r: Split)
    ensures r == SplitCircuit(addr)
  {
    var relayBase: Multiaddr := [];
    var seenCircuit := false;
    var remotePeer: Option<PeerId> := None;
    ghost var c := CircuitAt(addr);
    for i := 0 to |addr|
      invariant seenCircuit <==> c < i
      invariant relayBase == addr[..if c < i then c else i]
      invariant remotePeer == if c < i then LastPeer(addr[c + 1..i]) else None
    {
      if !seenCircuit {
        if addr[i] == P2pCircuit {
          assert i < c ==> addr[i] in addr[..c];
          seenCircuit := true;
        } else {
          relayBase := relayBase + [addr[i]];
        }
      } else {
        assert addr[c + 1..i + 1][..i - c - 1] == addr[c + 1..i];
        if addr[i].P2p? {
          remotePeer := Some(addr[i].peer);
        }
      }
    }
    if !seenCircuit {
      return Invalid(MissingCircuit);
    }
    assert addr[c + 1..|addr|] == addr[c + 1..];
    if remotePeer.None? {
      return Invalid(MissingListenerPeerId);
    }
    var objection := ValidateRelayAddress(relayBase);
    if objection.Some? {
      return Invalid(objection.value);
    }
    r := Parts(relayBase, remotePeer.value);
  }

  /** `addr` is cut at its first circuit marker. */
  ghost predicate CutsAt(addr: Multiaddr, base: Multiaddr, rest: Multiaddr) {
    addr == base + [P2pCircuit] + rest && P2pCircuit !in base
  }

  lemma CutIsUnique(addr: Multiaddr, base: Multiaddr, rest: Multiaddr)
    requires CutsAt(addr, base, rest)
    ensures CircuitAt(addr) == |base| && addr[..|base|] == base && addr[|base| + 1..] == rest
  {
    var i := CircuitAt(addr);
    assert addr[|base|] == P2pCircuit;
    assert forall j | 0 <= j < |base| :: addr[j] in base;
    assert forall j | 0 <= j < i :: addr[j] in addr[..i];
  }

  /** The splitter accepts exactly the addresses of the documented shape, and reports the parts of that shape. */
  lemma SplitIsSoundAndComplete(addr: Multiaddr, base: Multiaddr, peer: PeerId)
    ensures SplitCircuit(addr) == Parts(base, peer)
      <==> exists rest :: CutsAt(addr, base, rest) && LastPeer(rest) == Some(peer) && Objection(base) == None
  {
    var i := CircuitAt(addr);
    if i < |addr| {
      assert CutsAt(addr, addr[..i], addr[i + 1..]);
    }
    forall rest | CutsAt(addr, base, rest) ensures i == |base| && addr[..i] == base && addr[i + 1..] == rest {
      CutIsUnique(addr, base, rest);
    }
  }

  /** Errors come in the order of the checks. */
  lemma SplitErrors(addr: Multiaddr, e: AddressError)
    ensures SplitCircuit(addr) == Invalid(e) <==>
      if P2pCircuit !in addr then e == MissingCircuit
      else exists base, rest ::
        && CutsAt(addr, base, rest)
        && if HasPeer(rest) then Objection(base) == Some(e) else e == MissingListenerPeerId
  {
    var i := CircuitAt(addr);
    if i < |addr| {
      assert addr[i] in addr;
      var base, rest := addr[..i], addr[i + 1..];
      assert CutsAt(addr, base, rest);
      LastPeerExists(rest);
      forall b, r | CutsAt(addr, b, r) ensures b == base && r == rest {
        CutIsUnique(addr, b, r);
      }
    } else {
      assert addr[..i] == addr;
    }
  }

  lemma {:induction false} LastPeerExists(addr: Multiaddr)
    ensures LastPeer(addr).Some? <==> HasPeer(addr)
  {
    if addr == [] {
    } else {
      var n := |addr| - 1;
      LastPeerExists(addr[..n]);
      assert addr == addr[..n] + [addr[n]];
    }
  }

  lemma {:induction false} FirstPeerExists(addr: Multiaddr)
    ensures FirstPeer(addr).Some? <==> HasPeer(addr)
  {
    if addr == [] {
    } else {
      FirstPeerExists(addr[1..]);
      assert addr == [addr[0]] + addr[1..];
    }
  }

  lemma {:induction false} FirstPeerOfPrefix(a: Multiaddr, b: Multiaddr)
    ensures FirstPeer(a + b) == if FirstPeer(a).Some? then FirstPeer(a) else FirstPeer(b)
  {
    if a == [] {
      assert a + b == b;
    } else {
      assert (a + b)[1..] == a[1..] + b;
      FirstPeerOfPrefix(a[1..], b);
    }
  }

  /** `run_listen` advertises the relay address followed by the circuit marker and its own id. */
  function Advertised(relay: Multiaddr, me: PeerId): Multiaddr {
    relay + [P2pCircuit] + [P2p(me)]
  }

  /** An advertised address splits back into the relay address and the listener, unless the relay
      address itself went through a circuit. */
  lemma AdvertisedSplitsBack(relay: Multiaddr, me: PeerId)
    requires Objection(relay) == None
    ensures SplitCircuit(Advertised(relay, me)) == Parts(relay, me) <==> P2pCircuit !in relay
    ensures |Advertised(relay, me)| == |relay| + 2
  {
    if P2pCircuit !in relay {
      CutIsUnique(Advertised(relay, me), relay, [P2p(me)]);
      assert LastPeer([P2p(me)]) == Some(me);
    }
  }

  /** For every address the splitter accepts, the first peer id is the relay's: a jump chain that ends
      in it opens its last stream to the listener exactly when the relay's id is the listener's. */
  lemma LastHopReachesTheRelay(addr: Multiaddr)
    requires SplitCircuit(addr).Parts?
    ensures var parts := SplitCircuit(addr);
      && FirstPeer(parts.base).Some?
      && FirstPeer(addr) == FirstPeer(parts.base)
      && (FirstPeer(addr) == Some(parts.peer) <==> FirstPeer(parts.base) == Some(parts.peer))
  {
    var i := CircuitAt(addr);
    FirstPeerExists(addr[..i]);
    FirstPeerOfPrefix(addr[..i], addr[i..]);
    assert addr == addr[..i] + addr[i..];
  }

  /** With one peer id in the address, that is the peer reached. */
  lemma SolePeerIsReached(addr: Multiaddr, p: PeerId)
    requires Names(addr, p) && forall q | Names(addr, q) :: q == p
    ensures FirstPeer(addr) == Some(p)
  {
    FirstPeerExists(addr);
    FirstPeerIsNamed(addr);
  }

  lemma {:induction false} FirstPeerIsNamed(addr: Multiaddr)
    ensures FirstPeer(addr).Some? ==> Names(addr, FirstPeer(addr).value)
  {
    if addr == [] {
    } else {
      FirstPeerIsNamed(addr[1..]);
      assert addr == [addr[0]] + addr[1..];
    }
  }

  /** docs/architecture.md has the last relay open its stream to the listener. With the address that
      a listener advertises, the code opens it to that listener's relay. */
  lemma DocumentedDeliveryFails(relay: PeerId, listener: PeerId)
    requires relay != listener
    ensures var base := [Tcp(4001), P2p(relay)];
      && SplitCircuit(Advertised(base, listener)) == Parts(base, listener)
      && FirstPeer(Advertised(base, listener)) == Some(relay)
  {
    var base := [Tcp(4001), P2p(relay)];
    assert Tcp(4001) in base && P2p(relay) in base;
    AdvertisedSplitsBack(base, listener);
    LastHopReachesTheRelay(Advertised(base, listener));
  }
}
