/** The loops of src/client/swarm.rs that wait for something to happen, over any trace of events. */
module SwarmWaits {
  import opened Wrappers
  import opened Addresses

  datatype Registration = Registration(peer: PeerId, addresses: seq<Multiaddr>)

  datatype Event =
    | ConnectionEstablished(peer: PeerId)
    | Discovered(node: PeerId, registrations: seq<Registration>)
    | DiscoverFailed(node: PeerId)
    | MdnsDiscovered(peers: seq<(PeerId, Multiaddr)>)
    | IdentifySent(peer: PeerId)
    | IdentifyReceived(peer: PeerId)
    | Other      // reported, or not even that
    | StreamEnd  // `swarm.next()` gives nothing more

  /** An event and the millisecond at which the loop gets it. */
  datatype Timed = Timed(at: nat, event: Event)

  predicate Ordered(now: nat, trace: seq<Timed>) {
    && (forall i | 0 <= i < |trace| :: now <= trace[i].at)
    && (forall i, j | 0 <= i < j < |trace| :: trace[i].at <= trace[j].at)
  }

  predicate InTime(t: Timed, deadline: Option<nat>) { deadline.Some? ==> t.at <= deadline.value }

  const TIMEOUT := 30_000

  /** What a loop waits for. */
  datatype Wait = ForPeer(peer: PeerId) | ForRendezvous(point: PeerId) | ForMdns(peer: PeerId)

  /** The first address that an announcement gives for a peer. */
  function AddressOf(peers: seq<(PeerId, Multiaddr)>, peer: PeerId): Option<Multiaddr> {
    if peers == [] then None
    else if peers[0].0 == peer then Some(peers[0].1)
    else AddressOf(peers[1..], peer)
  }

  lemma {:induction false} AddressOfIsTheFirst(peers: seq<(PeerId, Multiaddr)>, peer: PeerId, addr: Multiaddr)
    ensures AddressOf(peers, peer) == Some(addr)
      <==> exists i :: 0 <= i < |peers| && peers[i] == (peer, addr) && forall j | 0 <= j < i :: peers[j].0 != peer
  {
    if peers == [] || peers[0].0 == peer {
    } else {
      var rest := peers[1..];
      AddressOfIsTheFirst(rest, peer, addr);
      if i :| 0 <= i < |rest| && rest[i] == (peer, addr) && forall j | 0 <= j < i :: rest[j].0 != peer {
        assert peers[i + 1] == (peer, addr) && forall j | 0 < j < i + 1 :: peers[j] == rest[j - 1];
      }
      if i :| 0 <= i < |peers| && peers[i] == (peer, addr) && forall j | 0 <= j < i :: peers[j].0 != peer {
        assert rest[i - 1] == (peer, addr) && forall j | 0 <= j < i - 1 :: rest[j] == peers[j + 1];
      }
    }
  }

  /** The events that end a wait, one way or the other. */
  predicate Decisive(w: Wait, e: Event) {
    e.StreamEnd? ||
    match w
    case ForPeer(p) => e == ConnectionEstablished(p)
    case ForRendezvous(point) => (e.Discovered? && e.node == point && e.registrations != [])
      || e == DiscoverFailed(point)
    case ForMdns(p) => e == ConnectionEstablished(p) || (e.MdnsDiscovered? && AddressOf(e.peers, p).Some?)
  }

  /** Index of the first decisive event, unless it comes too late or never. */
  function First(now: nat, trace: seq<Timed>, deadline: Option<nat>, w: Wait): (r: Option<nat>)
    requires Ordered(now, trace)
    ensures r.Some? ==> r.value < |trace| && Decisive(w, trace[r.value].event) && InTime(trace[r.value], deadline)
    ensures r.Some? ==> forall j | 0 <= j < r.value :: !Decisive(w, trace[j].event)
    ensures r.None? ==> forall j | 0 <= j < |trace| && InTime(trace[j], deadline) :: !Decisive(w, trace[j].event)
  {
    if trace == [] || !InTime(trace[0], deadline) then None
    else if Decisive(w, trace[0].event) then Some(0)
    else match First(now, trace[1..], deadline, w)
      case None => None
      case Some(i) => Some(i + 1)
  }

  lemma FirstIs(now: nat, trace: seq<Timed>, deadline: Option<nat>, w: Wait, i: nat)
    requires Ordered(now, trace) && i < |trace| && InTime(trace[i], deadline) && Decisive(w, trace[i].event)
    requires forall j | 0 <= j < i :: !Decisive(w, trace[j].event)
    ensures First(now, trace, deadline, w) == Some(i)
  {
    hide Ordered, Decisive;
    var f := First(now, trace, deadline, w);
    assert f.Some?;
    assert !(f.value < i) && !(i < f.value);
  }

  lemma NoneIsFirst(now: nat, trace: seq<Timed>, deadline: Option<nat>, w: Wait, n: nat)
    requires Ordered(now, trace) && n <= |trace| && (n < |trace| ==> !InTime(trace[n], deadline))
    requires forall j | 0 <= j < n :: !Decisive(w, trace[j].event)
    ensures First(now, trace, deadline, w) == None
  {
    hide Decisive;
    assert n < |trace| ==> forall j | n < j < |trace| :: trace[n].at <= trace[j].at;
  }

  datatype Outcome =
    | Connected(peer: PeerId)
    | Identified
    | DiscoveryFailed
    | SwarmEnded
    | TimedOut
    | DialFailed
    | Waiting  // forever, without a deadline

  function Earlier(a: nat, b: Option<nat>): nat { if b.Some? && b.value < a then b.value else a }

  /** What `wait_for_peer_connection` comes to, when it starts at `now` within another deadline or none. */
  function AwaitPeer(now: nat, trace: seq<Timed>, outer: Option<nat>, peer: PeerId): Outcome
    requires Ordered(now, trace)
  {
    match First(now, trace, Some(Earlier(now + TIMEOUT, outer)), ForPeer(peer))
    case None => TimedOut
    case Some(k) => if trace[k].event.StreamEnd? then SwarmEnded else Connected(peer)
  }

  /** What `wait_for_rendezvous_discovery` comes to. */
  function AwaitRendezvous(now: nat, trace: seq<Timed>, point: PeerId): Outcome
    requires Ordered(now, trace)
  {
    match First(now, trace, Some(now + TIMEOUT), ForRendezvous(point))
    case None => TimedOut
    case Some(i) =>
      if trace[i].event.StreamEnd? then SwarmEnded
      else if trace[i].event.DiscoverFailed? then DiscoveryFailed
      else AwaitPeer(trace[i].at, trace[i + 1..], Some(now + TIMEOUT), trace[i].event.registrations[0].peer)
  }

  /** Event `k` is a connection to the peer, in time, and the swarm has not ended before. */
  predicate ConnectsAt(trace: seq<Timed>, deadline: nat, p: PeerId, k: nat) {
    k < |trace| && trace[k].event == ConnectionEstablished(p) && trace[k].at <= deadline
    && forall j | 0 <= j < k :: !trace[j].event.StreamEnd?
  }

  lemma PeerIsAwaitedExactly(now: nat, trace: seq<Timed>, outer: Option<nat>, p: PeerId)
    requires Ordered(now, trace)
    ensures var deadline := Earlier(now + 30_000, outer);
      AwaitPeer(now, trace, outer, p) == Connected(p) <==> exists k: nat :: ConnectsAt(trace, deadline, p, k)
  {
    hide Ordered;
    var deadline := Earlier(now + TIMEOUT, outer);
    var f := First(now, trace, Some(deadline), ForPeer(p));
    if AwaitPeer(now, trace, outer, p) == Connected(p) {
      assert ConnectsAt(trace, deadline, p, f.value);
    }
    if k: nat :| ConnectsAt(trace, deadline, p, k) {
      assert InTime(trace[k], Some(deadline)) && Decisive(ForPeer(p), trace[k].event);
      assert f.Some? && f.value <= k;
    }
  }

  /** Event `k` is the end of the swarm, in time, before any connection to the peer. */
  predicate EndsAt(trace: seq<Timed>, deadline: nat, p: PeerId, k: nat) {
    k < |trace| && trace[k].event.StreamEnd? && trace[k].at <= deadline
    && forall j | 0 <= j < k :: !trace[j].event.StreamEnd? && trace[j].event != ConnectionEstablished(p)
  }

  /** Without success, the wait comes to the end of the swarm, if that is seen in time, or else to its deadline. */
  lemma PeerWaitFails(now: nat, trace: seq<Timed>, outer: Option<nat>, p: PeerId)
    requires Ordered(now, trace)
    ensures var r, deadline := AwaitPeer(now, trace, outer, p), Earlier(now + 30_000, outer);
      && (r == SwarmEnded <==> exists k: nat :: EndsAt(trace, deadline, p, k))
      && (r == Connected(p) || r == SwarmEnded || r == TimedOut)
  {
    hide Ordered;
    var deadline := Earlier(now + TIMEOUT, outer);
    var f := First(now, trace, Some(deadline), ForPeer(p));
    if AwaitPeer(now, trace, outer, p) == SwarmEnded {
      assert EndsAt(trace, deadline, p, f.value);
    }
    if k: nat :| EndsAt(trace, deadline, p, k) {
      FirstIs(now, trace, Some(deadline), ForPeer(p), k);
    }
  }

  /** An event that ends the waiting for a word from the point: a list with anything in it, a failure, or
      the end of the swarm. */
  predicate SaysSomething(e: Event, point: PeerId) {
    e.StreamEnd? || e == DiscoverFailed(point) || (e.Discovered? && e.node == point && e.registrations != [])
  }

  /** Discovery fails exactly when the first decisive word from the point, in time, is a failure. */
  lemma DiscoveryFailsExactly(now: nat, trace: seq<Timed>, point: PeerId)
    requires Ordered(now, trace)
    ensures AwaitRendezvous(now, trace, point) == DiscoveryFailed <==> exists i: nat ::
      && i < |trace| && trace[i].event == DiscoverFailed(point) && trace[i].at <= now + 30_000
      && forall j | 0 <= j < i :: !SaysSomething(trace[j].event, point)
  {
    hide Ordered;
    var f := First(now, trace, Some(now + TIMEOUT), ForRendezvous(point));
    if i: nat :|
      && i < |trace| && trace[i].event == DiscoverFailed(point) && trace[i].at <= now + 30_000
      && forall j | 0 <= j < i :: !SaysSomething(trace[j].event, point)
    {
      FirstIs(now, trace, Some(now + TIMEOUT), ForRendezvous(point), i);
    }
  }

  /** Event `i` is the first decisive word from the point: a list that `p` heads. */
  predicate Heads(trace: seq<Timed>, deadline: nat, point: PeerId, p: PeerId, i: nat) {
    && i < |trace| && trace[i].at <= deadline
    && trace[i].event.Discovered? && trace[i].event.node == point
    && trace[i].event.registrations != [] && trace[i].event.registrations[0].peer == p
    && forall j | 0 <= j < i :: !SaysSomething(trace[j].event, point)
  }

  predicate FoundAt(trace: seq<Timed>, deadline: nat, point: PeerId, p: PeerId, i: nat, k: nat) {
    Heads(trace, deadline, point, p, i) && ConnectsAt(trace[i + 1..], deadline, p, k)
  }

  /** Discovery succeeds with a peer exactly when the first decisive word from the point is a list that
      it heads, and a connection to it comes about after that; a connection from before does not count. */
  lemma DiscoverySucceedsExactly(now: nat, trace: seq<Timed>, point: PeerId, p: PeerId)
    requires Ordered(now, trace)
    ensures var deadline := now + 30_000;
      AwaitRendezvous(now, trace, point) == Connected(p) <==>
        exists i: nat, k: nat :: FoundAt(trace, deadline, point, p, i, k)
  {
    hide Ordered, AwaitPeer, ConnectsAt;
    var deadline := now + TIMEOUT;
    var f := First(now, trace, Some(deadline), ForRendezvous(point));
    if f.Some? && trace[f.value].event.Discovered? {
      var i := f.value;
      var q := trace[i].event.registrations[0].peer;
      RestIsOrdered(now, trace, i);
      PeerIsAwaitedExactly(trace[i].at, trace[i + 1..], Some(deadline), q);
      assert Earlier(trace[i].at + TIMEOUT, Some(deadline)) == deadline;
      if AwaitRendezvous(now, trace, point) == Connected(p) {
        OnlyThePeer(trace[i].at, trace[i + 1..], Some(deadline), q);
        var k: nat :| ConnectsAt(trace[i + 1..], deadline, p, k);
        assert FoundAt(trace, deadline, point, p, i, k);
      }
    }
    if i: nat, k: nat :| FoundAt(trace, deadline, point, p, i, k) {
      FirstIs(now, trace, Some(deadline), ForRendezvous(point), i);
      assert ConnectsAt(trace[i + 1..], deadline, p, k);
      assert AwaitPeer(trace[i].at, trace[i + 1..], Some(deadline), p) == Connected(p);
    }
  }

  /** Discovery ends with the swarm exactly if that ends before any word from the point, or, after a list,
      before the peer that heads it connects. */
  lemma DiscoveryEndsWithTheSwarm(now: nat, trace: seq<Timed>, point: PeerId)
    requires Ordered(now, trace)
    ensures var deadline := now + 30_000;
      AwaitRendezvous(now, trace, point) == SwarmEnded <==>
        || (exists i: nat :: EndsSilently(trace, deadline, point, i))
        || (exists p, i: nat, k: nat :: LostAt(trace, deadline, point, p, i, k))
  {
    hide Ordered, AwaitPeer, EndsAt;
    var deadline := now + TIMEOUT;
    var f := First(now, trace, Some(deadline), ForRendezvous(point));
    if f.Some? && trace[f.value].event.Discovered? {
      var i := f.value;
      var q := trace[i].event.registrations[0].peer;
      RestIsOrdered(now, trace, i);
      PeerWaitFails(trace[i].at, trace[i + 1..], Some(deadline), q);
      assert Earlier(trace[i].at + TIMEOUT, Some(deadline)) == deadline && Heads(trace, deadline, point, q, i);
      var rest := trace[i + 1..];
      if k: nat :| EndsAt(rest, deadline, q, k) {
        assert LostAt(trace, deadline, point, q, i, k);
      }
    } else if f.Some? && trace[f.value].event.StreamEnd? {
      assert EndsSilently(trace, deadline, point, f.value);
    }
    if i: nat :| EndsSilently(trace, deadline, point, i) {
      FirstIs(now, trace, Some(deadline), ForRendezvous(point), i);
    }
    if p, i: nat, k: nat :| LostAt(trace, deadline, point, p, i, k) {
      FirstIs(now, trace, Some(deadline), ForRendezvous(point), i);
    }
  }

  predicate LostAt(trace: seq<Timed>, deadline: nat, point: PeerId, p: PeerId, i: nat, k: nat) {
    Heads(trace, deadline, point, p, i) && EndsAt(trace[i + 1..], deadline, p, k)
  }

  predicate EndsSilently(trace: seq<Timed>, deadline: nat, point: PeerId, i: nat) {
    i < |trace| && trace[i].event.StreamEnd? && trace[i].at <= deadline
    && forall j | 0 <= j < i :: !SaysSomething(trace[j].event, point)
  }

  /** A connection from before does not count: with the peer connected first and discovered then, the wait
      succeeds exactly if another connection comes about after that, in time. */
  lemma ConnectedBeforehand(now: nat, point: PeerId, p: PeerId, addresses: seq<Multiaddr>, rest: seq<Timed>)
    requires Ordered(now, rest)
    ensures var trace := [Timed(now, ConnectionEstablished(p)),
                          Timed(now, Discovered(point, [Registration(p, addresses)]))] + rest;
      var deadline := now + TIMEOUT;
      && Ordered(now, trace)
      && (AwaitRendezvous(now, trace, point) == Connected(p) <==> exists k: nat :: ConnectsAt(rest, deadline, p, k))
      && (rest == [] ==> AwaitRendezvous(now, trace, point) == TimedOut)
  {
    hide AwaitPeer, ConnectsAt;
    var found := Timed(now, Discovered(point, [Registration(p, addresses)]));
    var trace := [Timed(now, ConnectionEstablished(p)), found] + rest;
    FirstIs(now, trace, Some(now + TIMEOUT), ForRendezvous(point), 1);
    assert trace[2..] == rest;
    var deadline := now + TIMEOUT;
    assert Earlier(now + TIMEOUT, Some(deadline)) == deadline;
    PeerIsAwaitedExactly(now, rest, Some(deadline), p);
    NothingIsWaitedOut(now, Some(deadline), p);
    assert trace[1] == found && AwaitRendezvous(now, trace, point) == AwaitPeer(now, rest, Some(deadline), p);
  }

  lemma NothingIsWaitedOut(now: nat, outer: Option<nat>, p: PeerId)
    ensures AwaitPeer(now, [], outer, p) == TimedOut
  {}

  lemma RestIsOrdered(now: nat, trace: seq<Timed>, i: nat)
    requires Ordered(now, trace) && i < |trace|
    ensures Ordered(trace[i].at, trace[i + 1..]) && now <= trace[i].at
  {}

  lemma OnlyThePeer(now: nat, trace: seq<Timed>, outer: Option<nat>, p: PeerId)
    requires Ordered(now, trace)
    ensures AwaitPeer(now, trace, outer, p).Connected? ==> AwaitPeer(now, trace, outer, p) == Connected(p)
  {}

  // ---------- The loops ----------

  /** A found address as it is dialed: with the peer id behind it, unless it ends in that already. */
  function WithPeer(addr: Multiaddr, p: PeerId): (r: Multiaddr)
    ensures r != [] && r[|r| - 1] == P2p(p) && addr <= r
    ensures |r| <= |addr| + 1 && (r == addr <==> addr != [] && addr[|addr| - 1] == P2p(p))
  {
    if addr != [] && addr[|addr| - 1] == P2p(p) then addr else addr + [P2p(p)]
  }

  function AllWithPeer(addrs: seq<Multiaddr>, p: PeerId): seq<Multiaddr> {
    seq(|addrs|, i requires 0 <= i < |addrs| => WithPeer(addrs[i], p))
  }

  /** What discovery dials: the addresses of the first registration of the decisive list, if there is one. */
  function RendezvousDials(now: nat, trace: seq<Timed>, point: PeerId): seq<Multiaddr>
    requires Ordered(now, trace)
  {
    var f := First(now, trace, Some(now + TIMEOUT), ForRendezvous(point));
    if f.Some? && trace[f.value].event.Discovered? then
      var r := trace[f.value].event.registrations[0];
      AllWithPeer(r.addresses, r.peer)
    else []
  }

  /** What discovery dials: every address of the registration that heads the first decisive list, in its
      order, each with the peer id at its end; and nothing if there is none in time. */
  lemma RendezvousDialsAre(now: nat, trace: seq<Timed>, point: PeerId, p: PeerId, i: nat)
    requires Ordered(now, trace)
    ensures Heads(trace, now + 30_000, point, p, i) ==>
      var dials, addresses := RendezvousDials(now, trace, point), trace[i].event.registrations[0].addresses;
      && |dials| == |addresses|
      && forall k | 0 <= k < |dials| ::
        && dials[k] != [] && dials[k][|dials[k]| - 1] == P2p(p) && addresses[k] <= dials[k]
        && |dials[k]| <= |addresses[k]| + 1
    ensures var deadline := now + 30_000;
      RendezvousDials(now, trace, point) != [] ==> exists q, k: nat :: Heads(trace, deadline, point, q, k)
  {
    hide Ordered;
    var f := First(now, trace, Some(now + TIMEOUT), ForRendezvous(point));
    if Heads(trace, now + 30_000, point, p, i) {
      FirstIs(now, trace, Some(now + TIMEOUT), ForRendezvous(point), i);
    }
    if RendezvousDials(now, trace, point) != [] {
      assert Heads(trace, now + 30_000, point, trace[f.value].event.registrations[0].peer, f.value);
    }
  }

  /** What `wait_for_mdns_and_connect` comes to. Only the dialing of the first address of the peer can
      fail; there is no deadline before it. */
  function AwaitMdns(now: nat, trace: seq<Timed>, peer: PeerId, dialFails: bool): Outcome
    requires Ordered(now, trace)
  {
    match First(now, trace, None, ForMdns(peer))
    case None => Waiting
    case Some(i) =>
      if trace[i].event.StreamEnd? then SwarmEnded
      else if trace[i].event.ConnectionEstablished? then Connected(peer)
      else if dialFails then DialFailed
      else AwaitPeer(trace[i].at, trace[i + 1..], None, peer)
  }

  function MdnsDials(now: nat, trace: seq<Timed>, peer: PeerId): seq<Multiaddr>
    requires Ordered(now, trace)
  {
    var f := First(now, trace, None, ForMdns(peer));
    if f.Some? && trace[f.value].event.MdnsDiscovered? then [AddressOf(trace[f.value].event.peers, peer).value] else []
  }

  /** Event `i` is the first that speaks of the peer. */
  predicate SpeaksFirst(trace: seq<Timed>, p: PeerId, i: nat) {
    i < |trace| && SpeaksOf(trace[i].event, p)
    && forall j | 0 <= j < i :: !trace[j].event.StreamEnd? && !SpeaksOf(trace[j].event, p)
  }

  /** Its connection, or an announcement with an address of it. */
  predicate SpeaksOf(e: Event, p: PeerId) {
    e == ConnectionEstablished(p)
    || (e.MdnsDiscovered? && exists k :: 0 <= k < |e.peers| && e.peers[k].0 == p)
  }

  lemma DecisiveSpeaks(e: Event, p: PeerId)
    ensures Decisive(ForMdns(p), e) <==> e.StreamEnd? || SpeaksOf(e, p)
  {
    hide AddressOf;
    if e.MdnsDiscovered? {
      if AddressOf(e.peers, p).Some? {
        AddressOfIsTheFirst(e.peers, p, AddressOf(e.peers, p).value);
      }
      AnnouncedIsFound(e.peers, p);
    }
  }

  lemma {:induction false} AnnouncedIsFound(peers: seq<(PeerId, Multiaddr)>, p: PeerId)
    ensures (exists k :: 0 <= k < |peers| && peers[k].0 == p) ==> AddressOf(peers, p).Some?
  {
    if peers == [] || peers[0].0 == p {
    } else {
      AnnouncedIsFound(peers[1..], p);
      assert forall k | 0 < k < |peers| :: peers[k] == peers[1..][k - 1];
    }
  }

  /** What is dialed on the local network: the address of the first entry for the peer, in the first event
      that speaks of it. */
  lemma MdnsDialsAre(now: nat, trace: seq<Timed>, p: PeerId, i: nat, k: nat)
    requires Ordered(now, trace) && SpeaksFirst(trace, p, i)
    ensures trace[i].event.ConnectionEstablished? ==> MdnsDials(now, trace, p) == []
    ensures FirstEntry(trace[i].event, p, k) ==> MdnsDials(now, trace, p) == [trace[i].event.peers[k].1]
  {
    hide Ordered, Decisive, AddressOf;
    SpeaksFirstIsFirst(now, trace, p, i);
    if FirstEntry(trace[i].event, p, k) {
      AddressOfIsTheFirst(trace[i].event.peers, p, trace[i].event.peers[k].1);
    }
  }

  predicate FirstEntry(e: Event, p: PeerId, k: nat) {
    e.MdnsDiscovered? && k < |e.peers| && e.peers[k].0 == p && forall j | 0 <= j < k :: e.peers[j].0 != p
  }

  lemma SpeaksFirstIsFirst(now: nat, trace: seq<Timed>, p: PeerId, i: nat)
    requires Ordered(now, trace) && SpeaksFirst(trace, p, i)
    ensures First(now, trace, None, ForMdns(p)) == Some(i)
  {
    hide Ordered, Decisive, SpeaksOf;
    forall j | 0 <= j <= i ensures Decisive(ForMdns(p), trace[j].event) <==> j == i {
      DecisiveSpeaks(trace[j].event, p);
    }
    FirstIs(now, trace, None, ForMdns(p), i);
  }

  /** On the local network, the wait succeeds exactly when the first event that speaks of the peer is its
      connection, or an announcement whose dial is taken and that a connection follows within 30 s. */
  lemma MdnsSucceedsExactly(now: nat, trace: seq<Timed>, p: PeerId, dialFails: bool)
    requires Ordered(now, trace)
    ensures AwaitMdns(now, trace, p, dialFails) == Connected(p) <==> exists i: nat ::
      SpeaksFirst(trace, p, i) && (trace[i].event.ConnectionEstablished? || (!dialFails && ConnectsAfter(trace, p, i)))
  {
    hide Ordered, AwaitPeer, ConnectsAt, AddressOf;
    var f := First(now, trace, None, ForMdns(p));
    if f.Some? {
      RestIsOrdered(now, trace, f.value);
      PeerIsAwaitedExactly(trace[f.value].at, trace[f.value + 1..], None, p);
      assert Earlier(trace[f.value].at + TIMEOUT, None) == trace[f.value].at + TIMEOUT;
      assert ConnectsAfter(trace, p, f.value)
        <==> AwaitPeer(trace[f.value].at, trace[f.value + 1..], None, p) == Connected(p);
      forall j | 0 <= j <= f.value ensures Decisive(ForMdns(p), trace[j].event)
        <==> trace[j].event.StreamEnd? || SpeaksOf(trace[j].event, p)
      {
        DecisiveSpeaks(trace[j].event, p);
      }
      if !trace[f.value].event.StreamEnd? {
        assert SpeaksFirst(trace, p, f.value);
      }
    }
    if i: nat :|
      SpeaksFirst(trace, p, i)
      && (trace[i].event.ConnectionEstablished? || (!dialFails && ConnectsAfter(trace, p, i))) {
      SpeaksFirstIsFirst(now, trace, p, i);
    }
  }

  /** Otherwise: the wait goes on as long as nothing speaks of the peer and the swarm does not end, and it
      fails at once if the dial of an announced address is refused. */
  lemma MdnsWaitFails(now: nat, trace: seq<Timed>, p: PeerId, dialFails: bool)
    requires Ordered(now, trace)
    ensures AwaitMdns(now, trace, p, dialFails) == Waiting
      <==> forall j | 0 <= j < |trace| :: !trace[j].event.StreamEnd? && !SpeaksOf(trace[j].event, p)
    ensures AwaitMdns(now, trace, p, dialFails) == DialFailed
      <==> dialFails && exists i: nat :: SpeaksFirst(trace, p, i) && trace[i].event.MdnsDiscovered?
  {
    hide Ordered, AwaitPeer, Decisive, SpeaksOf;
    var f := First(now, trace, None, ForMdns(p));
    forall j | 0 <= j < |trace|
      ensures Decisive(ForMdns(p), trace[j].event) <==> trace[j].event.StreamEnd? || SpeaksOf(trace[j].event, p)
    {
      DecisiveSpeaks(trace[j].event, p);
    }
    if f.Some? {
      RestIsOrdered(now, trace, f.value);
      PeerWaitFails(trace[f.value].at, trace[f.value + 1..], None, p);
      KindOfWord(trace[f.value].event, p);
      if !trace[f.value].event.StreamEnd? {
        assert SpeaksFirst(trace, p, f.value);
      }
    }
    if i: nat :| SpeaksFirst(trace, p, i) && trace[i].event.MdnsDiscovered? {
      SpeaksFirstIsFirst(now, trace, p, i);
    }
  }

  lemma KindOfWord(e: Event, p: PeerId)
    ensures SpeaksOf(e, p) ==> e.ConnectionEstablished? || e.MdnsDiscovered?
  {}

  ghost predicate ConnectsAfter(trace: seq<Timed>, p: PeerId, i: nat)
    requires i < |trace|
  {
    var deadline, rest := trace[i].at + 30_000, trace[i + 1..];
    exists k: nat :: ConnectsAt(rest, deadline, p, k)
  }

  /** Both identify events are there, in time, and the swarm has not ended before. */
  predicate IdentifiedAt(now: nat, trace: seq<Timed>, i: nat, j: nat) {
    && i < |trace| && trace[i].event.IdentifySent? && trace[i].at <= now + 30_000
    && j < |trace| && trace[j].event.IdentifyReceived? && trace[j].at <= now + 30_000
    && (forall m | 0 <= m < i :: !trace[m].event.StreamEnd?) && (forall m | 0 <= m < j :: !trace[m].event.StreamEnd?)
  }

  ghost predicate Identifies(now: nat, trace: seq<Timed>) {
    exists i: nat, j: nat :: IdentifiedAt(now, trace, i, j)
  }

  /** What the wait is there for: the relay itself has identified, both ways and in time. */
  ghost predicate IdentifiesBy(now: nat, trace: seq<Timed>, relay: PeerId) {
    exists i: nat, j: nat ::
      IdentifiedAt(now, trace, i, j) && trace[i].event.peer == relay && trace[j].event.peer == relay
  }

  /** No identify event of the trace is with another peer than these. */
  predicate OnlyFrom(trace: seq<Timed>, peers: set<PeerId>) {
    forall t | t in trace && (t.event.IdentifySent? || t.event.IdentifyReceived?) :: t.event.peer in peers
  }

  /** The identify events may be those of any peers: this trace satisfies the wait for a relay that has
      neither sent nor received anything. */
  lemma OthersIdentify(now: nat, other: PeerId)
    ensures var trace := [Timed(now, IdentifySent(other)), Timed(now, IdentifyReceived(other))];
      && Identifies(now, trace) && Ordered(now, trace) && OnlyFrom(trace, {other})
      && forall relay | relay != other :: !IdentifiesBy(now, trace, relay)
  {
    assert IdentifiedAt(now, [Timed(now, IdentifySent(other)), Timed(now, IdentifyReceived(other))], 0, 1);
  }

  /** A satisfied wait means that the relay has identified, on every trace, exactly if no other peer can be
      identified with in the meantime. */
  lemma IdentifiedMeansTheRelay(now: nat, relay: PeerId, peers: set<PeerId>)
    ensures (forall trace | Ordered(now, trace) && OnlyFrom(trace, peers) && Identifies(now, trace) ::
               IdentifiesBy(now, trace, relay))
      <==> peers <= {relay}
  {
    if peers <= {relay} {
      forall trace | Ordered(now, trace) && OnlyFrom(trace, peers) && Identifies(now, trace)
        ensures IdentifiesBy(now, trace, relay)
      {
        OnlyTheRelayIdentifies(now, trace, relay, peers);
      }
    } else {
      var other :| other in peers && other != relay;
      var trace := [Timed(now, IdentifySent(other)), Timed(now, IdentifyReceived(other))];
      OthersIdentify(now, other);
      assert OnlyFrom(trace, peers) && !IdentifiesBy(now, trace, relay);
    }
  }

  lemma OnlyTheRelayIdentifies(now: nat, trace: seq<Timed>, relay: PeerId, peers: set<PeerId>)
    requires peers <= {relay} && OnlyFrom(trace, peers) && Identifies(now, trace)
    ensures IdentifiesBy(now, trace, relay)
  {
    var i: nat, j: nat :| IdentifiedAt(now, trace, i, j);
    assert trace[i] in trace && trace[j] in trace;
  }

  lemma NotIdentified(now: nat, trace: seq<Timed>, deadline: nat, n: nat)
    requires Ordered(now, trace) && n <= |trace| && deadline == now + TIMEOUT
    requires n < |trace| ==> trace[n].at > deadline || trace[n].event.StreamEnd?
    requires (forall m | 0 <= m < n :: !trace[m].event.IdentifySent?)
      || (forall m | 0 <= m < n :: !trace[m].event.IdentifyReceived?)
    ensures !Identifies(now, trace)
  {
    assert n < |trace| ==> forall m | n < m < |trace| :: trace[n].at <= trace[m].at;
  }

  lemma OthersAreLater(now: nat, trace: seq<Timed>, n: nat)
    requires Ordered(now, trace) && n <= |trace|
    ensures n < |trace| ==> forall m | n <= m < |trace| :: trace[n].at <= trace[m].at
  {}

  lemma BothIdentified(now: nat, trace: seq<Timed>, deadline: nat, i: nat, j: nat)
    requires deadline == now + TIMEOUT
    requires i < |trace| && j < |trace| && trace[i].event.IdentifySent? && trace[j].event.IdentifyReceived?
    requires forall m | 0 <= m <= i || 0 <= m <= j :: trace[m].at <= deadline && !trace[m].event.StreamEnd?
    ensures Identifies(now, trace)
  {
    assert IdentifiedAt(now, trace, i, j);
  }

  class Swarm {
    var trace: seq<Timed>       // what is still to come
    var now: nat
    var dialed: seq<Multiaddr>
    var refused: bool           // a dial was refused

    constructor (now: nat, trace: seq<Timed>)
      ensures this.now == now && this.trace == trace && dialed == [] && !refused
    {
      this.now, this.trace, dialed, refused := now, trace, [], false;
    }

    ghost predicate Valid()
      reads this
    {
      Ordered(now, trace)
    }

    /** `next`, under a timeout or not: the next event, or the deadline, whichever is first. Without a
        deadline, nothing comes back when nothing more happens. */
    method Next(deadline: Option<nat>) returns (e: Option<Event>)
      requires Valid() && (deadline.Some? ==> now <= deadline.value)
      modifies this`trace, this`now
      ensures Valid() && old(now) <= now
      ensures e.Some? <==> old(trace) != [] && InTime(old(trace)[0], deadline)
      ensures e.Some? ==> e.value == old(trace)[0].event && now == old(trace)[0].at && trace == old(trace)[1..]
      ensures e.None? ==> trace == old(trace) && (deadline.Some? ==> now == deadline.value)
    {
      if trace != [] && (deadline.None? || trace[0].at <= deadline.value) {
        e := Some(trace[0].event);
        now, trace := trace[0].at, trace[1..];
      } else {
        e := None;
        if deadline.Some? {
          now := deadline.value;
        }
      }
    }

    /** `Swarm::dial`: takes the address, or refuses it. */
    method Dial(addr: Multiaddr) returns (taken: bool)
      modifies this`dialed, this`refused
      ensures dialed == old(dialed) + [addr] && refused == (old(refused) || !taken)
    {
      taken := *;
      refused := refused || !taken;
      dialed := dialed + [addr];
    }

    /** `connect_and_identify`. */
    method ConnectAndIdentify(relay: Multiaddr) returns (r: Outcome)
      requires Valid()
      modifies this
      ensures Valid() && old(now) <= now <= old(now) + 30_000
      ensures dialed == old(dialed) + [relay]
      ensures r.DialFailed? ==> refused
      ensures !r.DialFailed? ==> (r.Identified? <==> Identifies(old(now), old(trace)))
      ensures r.SwarmEnded? ==> exists k ::
        0 <= k < |old(trace)| && old(trace)[k].event.StreamEnd? && old(trace)[k].at <= old(now) + 30_000
      ensures r.TimedOut? ==> forall k | 0 <= k < |old(trace)| && old(trace)[k].at <= old(now) + 30_000 ::
        !old(trace)[k].event.StreamEnd?
      ensures r.Identified? || r.DialFailed? || r.SwarmEnded? || (r.TimedOut? && now == old(now) + 30_000)
    {
      hide Ordered, Identifies;
      var taken := Dial(relay);
      if !taken {
        return DialFailed;
      }
      var deadline := now + TIMEOUT;
      var learned, told := false, false;
      ghost var n: nat, sent: nat, received: nat := 0, 0, 0;
      while !(learned && told)
        invariant n <= |old(trace)| && trace == old(trace)[n..] && dialed == old(dialed) + [relay]
        invariant Valid() && old(now) <= now <= deadline
        invariant forall m | 0 <= m < n :: !old(trace)[m].event.StreamEnd? && old(trace)[m].at <= deadline
        invariant if told then sent < n && old(trace)[sent].event.IdentifySent?
          else forall m | 0 <= m < n :: !old(trace)[m].event.IdentifySent?
        invariant if learned then received < n && old(trace)[received].event.IdentifyReceived?
          else forall m | 0 <= m < n :: !old(trace)[m].event.IdentifyReceived?
        decreases |trace|
      {
        assert trace != [] ==> trace[0] == old(trace)[n];
        var event := Next(Some(deadline));
        if event.None? {
          NotIdentified(old(now), old(trace), deadline, n);
          OthersAreLater(old(now), old(trace), n);
          return TimedOut;
        }
        match event.value {
          case StreamEnd =>
            NotIdentified(old(now), old(trace), deadline, n);
            return SwarmEnded;
          case IdentifySent(_) => told, sent := true, n;
          case IdentifyReceived(_) => learned, received := true, n;
          case _ =>
        }
        n := n + 1;
      }
      BothIdentified(old(now), old(trace), deadline, sent, received);
      r := Identified;
    }

    /** `wait_for_peer_connection`, within the timeout of a caller or none. */
    method WaitForPeerConnection(peer: PeerId, outer: Option<nat>) returns (r: Outcome)
      requires Valid() && (outer.Some? ==> now <= outer.value)
      modifies this`trace, this`now
      ensures Valid() && old(now) <= now <= Earlier(old(now) + 30_000, outer)
      ensures r == AwaitPeer(old(now), old(trace), outer, peer)
      ensures r.TimedOut? ==> now == Earlier(old(now) + 30_000, outer)
    {
      hide Ordered, First;
      var deadline := Earlier(now + TIMEOUT, outer);
      ghost var n: nat := 0;
      while true
        invariant n <= |old(trace)| && trace == old(trace)[n..]
        invariant Valid() && old(now) <= now <= deadline
        invariant forall j | 0 <= j < n :: !Decisive(ForPeer(peer), old(trace)[j].event)
        decreases |trace|
      {
        var event := Next(Some(deadline));
        if event.None? {
          NoneIsFirst(old(now), old(trace), Some(deadline), ForPeer(peer), n);
          return TimedOut;
        }
        if Decisive(ForPeer(peer), event.value) {
          FirstIs(old(now), old(trace), Some(deadline), ForPeer(peer), n);
        }
        match event.value {
          case StreamEnd => return SwarmEnded;
          case ConnectionEstablished(p) =>
            if p == peer {
              return Connected(peer);
            }
          case _ =>
        }
        n := n + 1;
      }
    }

    /** `wait_for_rendezvous_discovery`. However the timeouts nest, it is over within 30 seconds. */
    method WaitForRendezvousDiscovery(point: PeerId) returns (r: Outcome)
      requires Valid()
      modifies this
      ensures Valid() && old(now) <= now <= old(now) + 30_000
      ensures r == AwaitRendezvous(old(now), old(trace), point)
      ensures r.TimedOut? ==> now == old(now) + 30_000
      ensures dialed == old(dialed) + RendezvousDials(old(now), old(trace), point)
    {
      hide Ordered, First, AwaitPeer;
      var deadline := now + TIMEOUT;
      ghost var n: nat := 0;
      while true
        invariant n <= |old(trace)| && trace == old(trace)[n..] && dialed == old(dialed)
        invariant Valid() && old(now) <= now <= deadline
        invariant forall j | 0 <= j < n :: !Decisive(ForRendezvous(point), old(trace)[j].event)
        decreases |trace|
      {
        var event := Next(Some(deadline));
        if event.None? {
          NoneIsFirst(old(now), old(trace), Some(deadline), ForRendezvous(point), n);
          return TimedOut;
        }
        if Decisive(ForRendezvous(point), event.value) {
          FirstIs(old(now), old(trace), Some(deadline), ForRendezvous(point), n);
        }
        match event.value {
          case StreamEnd => return SwarmEnded;
          case DiscoverFailed(node) =>
            if node == point {
              return DiscoveryFailed;
            }
          case Discovered(node, registrations) =>
            if node == point && registrations != [] {
              r := DialAndAwait(registrations[0], deadline);
              return;
            }
          case _ =>
        }
        n := n + 1;
      }
    }

    method DialAndAwait(found: Registration, deadline: nat) returns (r: Outcome)
      requires Valid() && now <= deadline <= now + TIMEOUT
      modifies this
      ensures Valid() && old(now) <= now <= deadline
      ensures r == AwaitPeer(old(now), old(trace), Some(deadline), found.peer)
      ensures r.TimedOut? ==> now == deadline
      ensures dialed == old(dialed) + AllWithPeer(found.addresses, found.peer)
    {
      hide Ordered, AwaitPeer;
      DialAll(found);
      r := WaitForPeerConnection(found.peer, Some(deadline));
    }

    /** Every address of a registration is dialed with its peer id at the end; a refusal is only logged. */
    method DialAll(r: Registration)
      modifies this`dialed, this`refused
      ensures dialed == old(dialed) + AllWithPeer(r.addresses, r.peer)
    {
      var k := 0;
      while k < |r.addresses|
        invariant 0 <= k <= |r.addresses|
        invariant dialed == old(dialed) + AllWithPeer(r.addresses, r.peer)[..k]
      {
        var taken := Dial(WithPeer(r.addresses[k], r.peer));
        k := k + 1;
      }
    }

    method DialAndWait(addr: Multiaddr, peer: PeerId) returns (r: Outcome, ghost dialFails: bool)
      requires Valid()
      modifies this
      ensures Valid() && dialed == old(dialed) + [addr]
      ensures dialFails ==> refused
      ensures r == if dialFails then DialFailed else AwaitPeer(old(now), old(trace), None, peer)
    {
      hide Ordered, AwaitPeer;
      var taken := Dial(addr);
      dialFails := !taken;
      if !taken {
        return DialFailed, dialFails;
      }
      r := WaitForPeerConnection(peer, None);
    }

    /** `wait_for_mdns_and_connect`: dials the first address of the peer in the first announcement of it. */
    method WaitForMdnsAndConnect(peer: PeerId) returns (r: Outcome, ghost dialFails: bool)
      requires Valid()
      modifies this
      ensures Valid()
      ensures r == AwaitMdns(old(now), old(trace), peer, dialFails)
      ensures dialFails ==> refused
      ensures dialed == old(dialed) + MdnsDials(old(now), old(trace), peer)
    {
      hide Ordered, First, AwaitPeer, AddressOf, Earlier;
      dialFails := false;
      ghost var n: nat := 0;
      while true
        invariant n <= |old(trace)| && trace == old(trace)[n..] && dialed == old(dialed)
        invariant Valid()
        invariant forall j | 0 <= j < n :: !Decisive(ForMdns(peer), old(trace)[j].event)
        decreases |trace|
      {
        var event := Next(None);
        if event.None? {
          NoneIsFirst(old(now), old(trace), None, ForMdns(peer), n);
          return Waiting, dialFails;
        }
        if Decisive(ForMdns(peer), event.value) {
          FirstIs(old(now), old(trace), None, ForMdns(peer), n);
        }
        match event.value {
          case StreamEnd => return SwarmEnded, dialFails;
          case ConnectionEstablished(p) =>
            if p == peer {
              return Connected(peer), dialFails;
            }
          case MdnsDiscovered(peers) =>
            var addr := AddressOf(peers, peer);
            if addr.Some? {
              r, dialFails := DialAndWait(addr.value, peer);
              return;
            }
          case _ =>
        }
        n := n + 1;
      }
    }
  }
}
