/** What holds of a jump chain in every state of every run: who has committed to it, where its bytes
    come from, and what it costs. */
module JumpTheorems {
  import opened Wrappers
  import opened Bytes
  import opened Frames
  import opened Addresses
  import opened JumpSession
  import opened JumpNetwork

  // ---------- One stream ----------

  /** The result a handler is writing or has written. */
  function Reply(s: Session): Option<JumpResult> {
    match s.phase
    case RefusingEmpty(_) => Some(Error(EMPTY_CHAIN))
    case RefusingHop(_, m, _) => Some(Error(m))
    case PassingError(_, m, _) => Some(Error(m))
    case SayingOk(_, _) => Some(Ok)
    case Bridging(_, _, _, _, _) => Some(Ok)
    case _ => None
  }

  /** What a handler has written upstream is part of the frame of one result; only behind a whole Ok comes payload. */
  lemma GivesOneResult(w: World, s: Session)
    requires Disciplined(w, s)
    ensures match Reply(s)
      case None => s.gave == []
      case Some(r) =>
        var f := Written(Result(r));
        && f.Some? && Compatible(s.gave, f.value)
        && (f.value < s.gave ==> s.phase.Bridging?)
  {
    hide ValidUtf8, Encode, Decode, TakeMessage, PeerOf;
    OkIsWritten();
  }

  /** The hops in a handler's state are those it has read. */
  lemma HopsWereRead(w: World, s: Session)
    requires Disciplined(w, s)
    ensures match s.phase
      case ReadingChain => true
      case RefusingEmpty(_) => true
      case _ => s.phase.hops != [] && exists payload :: ReadChain(s.took, s.phase.hops, payload)
  {
    hide ValidUtf8, Encode, Decode, TakeMessage, PeerOf;
  }

  /** The chain an agent sends on its outbound stream, if that is a jump stream of this protocol. */
  function Told(w: World, a: Agent): Option<seq<Text>> {
    match a
    case Relay(s) => if HasOpened(a) && |s.phase.hops| > 1 then Some(s.phase.hops[1..]) else None
    case Dialer(c) => if HasOpened(a) && c.jump != [] then Some(DialHops(w, c.jump, c.target)) else None
    case Far(_) => None
  }

  lemma SendsOneChain(w: World, a: Agent)
    requires AgentOk(w, a) && Told(w, a).Some?
    ensures var f := Written(Chain(Told(w, a).value));
      if f.Some? then Compatible(Sent(a), f.value) else a.Dialer? && Sent(a) == []
  {
    hide ValidUtf8, Encode, Decode, TakeMessage, PeerOf, FirstPeer, HopTexts;
    match a
    case Relay(s) =>
      if s.phase.Forwarding? {
        assert s.sent <= s.sent + s.phase.todo;
      }
    case Dialer(c) =>
      var f := ChainFrame(w, c.jump, c.target);
      if f.Some? && c.phase.WritingChain? {
        assert c.sent <= c.sent + c.phase.todo;
      } else if f.Some? && c.phase.Talking? {
        var stdin :| Spoken(f.value, c.sent + c.phase.todo, stdin);
        assert f.value <= f.value + (NETCAT_FRAME + stdin);
        assert c.sent <= c.sent + c.phase.todo;
      }
  }

  /** Whatever a relay has read from a stream of this protocol is the chain its opener wrote. */
  lemma ChainIsTheOpeners(w: World, g: Net, p: nat, c: nat, hops: seq<Text>, payload: bytes)
    requires Inv(w, g) && p < |g| && c < |g| && g[c].parent == Some(p) && g[c].agent.Relay?
    requires Told(w, g[p].agent).Some? && ReadChain(Took(g[c].agent), hops, payload)
    ensures hops == Told(w, g[p].agent).value
    ensures Written(Chain(hops)).Some? && Took(g[c].agent) == Written(Chain(hops)).value + payload
    ensures Written(Chain(hops)).value <= Sent(g[p].agent)
  {
    hide AgentOk, ValidUtf8, Encode, Decode, TakeMessage, Told, Sent, Took;
    assert ProcOk(w, g, p) && ProcOk(w, g, c);
    var hs := Told(w, g[p].agent).value;
    SendsOneChain(w, g[p].agent);
    var f := Written(Chain(hs));
    if f.Some? {
      SameMessage(Chain(hs), f.value, Sent(g[p].agent), Took(g[c].agent), Chain(hops), payload);
    } else {
      NothingIsNoMessage(ChainKind);
      assert false;
    }
  }

  /** Whatever an opener has read as a result is the one the relay below it wrote, and wrote whole. */
  lemma ResultIsTheRelays(w: World, g: Net, p: nat, c: nat, r: JumpResult, back: bytes)
    requires Inv(w, g) && p < |g| && c < |g| && g[c].parent == Some(p) && g[c].agent.Relay?
    requires ReadResult(Got(g[p].agent), r, back)
    ensures Reply(g[c].agent.session) == Some(r)
    ensures Written(Result(r)).Some? && Written(Result(r)).value <= Gave(g[c].agent)
    ensures Got(g[p].agent) == Written(Result(r)).value + back && |Encode(Result(r))| <= MAX_FRAME
  {
    hide ValidUtf8, Encode, Decode, TakeMessage, Disciplined, Got, Reply;
    assert ProcOk(w, g, c);
    var s := g[c].agent.session;
    GivesOneResult(w, s);
    match Reply(s)
    case None =>
      NothingIsNoMessage(ResultKind);
      assert false;
    case Some(r') =>
      SameMessage(Result(r'), Written(Result(r')).value, s.gave, Got(g[p].agent), Result(r), back);
  }

  // ---------- No false Ok ----------

  /** The relay at `c`, and every relay below it, has said Ok to these hops: each has opened its stream
      to the peer named by its first hop, the last one with the tunnel protocol and the others with the
      jump protocol, and can do nothing but copy bytes from now on. */
  ghost predicate Committed(w: World, g: Net, c: nat, hops: seq<Text>)
    decreases |hops|
  {
    && c < |g| && hops != [] && g[c].agent.Relay?
    && (g[c].agent.session.phase.SayingOk? || g[c].agent.session.phase.Bridging?)
    && g[c].agent.session.phase.hops == hops
    && OK_FRAME <= Gave(g[c].agent)
    && g[c].child.Some? && g[c].child.value < |g|
    && var d := g[c].child.value;
      && g[d].parent == Some(c)
      && PeerOf(w, hops[0]) == Some(g[d].peer)
      && if |hops| == 1 then g[d].via.Tunnel? && g[d].agent.Far?
         else g[d].via.Jump? && Committed(w, g, d, hops[1..])
  }

  lemma {:induction false} OkMeansCommitted(w: World, g: Net, c: nat)
    requires Inv(w, g) && c < |g| && g[c].agent.Relay?
    requires Reply(g[c].agent.session) == Some(Ok) && OK_FRAME <= Gave(g[c].agent)
    ensures g[c].agent.session.phase.SayingOk? || g[c].agent.session.phase.Bridging?
    ensures Committed(w, g, c, g[c].agent.session.phase.hops)
    decreases |g| - c
  {
    hide ValidUtf8, Encode, Decode, TakeMessage, PeerOf, FirstPeer;
    assert ProcOk(w, g, c);
    var s := g[c].agent.session;
    var hops := s.phase.hops;
    var d := g[c].child.value;
    assert ProcOk(w, g, d);
    if |hops| == 1 {
    } else {
      var back :| ReadResult(s.got, Ok, back);
      ResultIsTheRelays(w, g, c, d, Ok, back);
      OkIsWritten();
      OkMeansCommitted(w, g, d);
      HopsWereRead(w, g[d].agent.session);
      var payload :| ReadChain(Took(g[d].agent), g[d].agent.session.phase.hops, payload);
      ChainIsTheOpeners(w, g, c, d, g[d].agent.session.phase.hops, payload);
    }
  }

  /** If a dialer has read Ok, then its stream leads to the peer of its first jump address, and every
      relay from there on has committed to the rest of the way. */
  lemma NoFalseOk(w: World, acts: seq<Action>, g: Net, d: nat, back: bytes)
    requires Run(w, acts) == Some(g) && d < |g| && g[d].agent.Dialer?
    requires ReadResult(g[d].agent.caller.got, Ok, back)
    ensures var c := g[d].agent.caller;
      && c.jump != [] && g[d].child.Some? && g[d].child.value < |g|
      && FirstPeer(c.jump[0]) == Some(g[g[d].child.value].peer)
      && Committed(w, g, g[d].child.value, DialHops(w, c.jump, c.target))
  {
    hide ValidUtf8, Encode, Decode, TakeMessage, PeerOf, FirstPeer, HopTexts;
    RunKeeps(w, acts);
    assert ProcOk(w, g, d);
    NothingIsNoMessage(ResultKind);
    var r := g[d].child.value;
    assert ProcOk(w, g, r);
    ResultIsTheRelays(w, g, d, r, Ok, back);
    OkIsWritten();
    OkMeansCommitted(w, g, r);
    HopsWereRead(w, g[r].agent.session);
    var payload :| ReadChain(Took(g[r].agent), g[r].agent.session.phase.hops, payload);
    ChainIsTheOpeners(w, g, d, r, g[r].agent.session.phase.hops, payload);
  }

  // ---------- Delivery ----------

  datatype Visit = Visit(peer: PeerId, via: Via)

  /** The peers along the streams from `c` on, and the protocols they were reached with. */
  function Visits(g: Net, c: nat): (v: seq<Visit>)
    decreases if c < |g| then |g| - c else 0, 1
  {
    if c >= |g| then []
    else [Visit(g[c].peer, g[c].via)] + VisitsBelow(g, c)
  }

  function VisitsBelow(g: Net, c: nat): (v: seq<Visit>)
    requires c < |g|
    decreases |g| - c, 0
  {
    if g[c].child.Some? && g[c].child.value > c then Visits(g, g[c].child.value) else []
  }

  /** The visits are those the hops ask for, in order. */
  predicate Follow(w: World, v: seq<Visit>, hops: seq<Text>) {
    |v| == |hops| && forall i | 0 <= i < |hops| :: FollowsAt(w, v[i], hops, i)
  }

  predicate FollowsAt(w: World, x: Visit, hops: seq<Text>, i: nat)
    requires i < |hops|
  {
    PeerOf(w, hops[i]) == Some(x.peer) && x.via == if i == |hops| - 1 then Tunnel else Jump
  }

  lemma FollowFurther(w: World, x: Visit, v: seq<Visit>, hops: seq<Text>)
    requires hops != [] && FollowsAt(w, x, hops, 0) && Follow(w, v, hops[1..])
    ensures Follow(w, [x] + v, hops)
  {
    hide PeerOf, ValidUtf8;
    forall i | 0 <= i < |hops| ensures FollowsAt(w, ([x] + v)[i], hops, i) {
      if i > 0 {
        assert FollowsAt(w, v[i - 1], hops[1..], i - 1);
      }
    }
  }

  lemma {:induction false} CommittedVisits(w: World, g: Net, c: nat, hops: seq<Text>)
    requires Inv(w, g) && Committed(w, g, c, hops)
    ensures Follow(w, VisitsBelow(g, c), hops)
    decreases |hops|
  {
    hide ValidUtf8, AgentOk, PeerOf, Follow, Reply;
    assert ProcOk(w, g, c);
    var d := g[c].child.value;
    assert ProcOk(w, g, d);
    var x := Visit(g[d].peer, g[d].via);
    assert VisitsBelow(g, c) == [x] + VisitsBelow(g, d);
    if |hops| == 1 {
      assert !HasOpened(g[d].agent);
      NoHops(w, hops[1..]);
    } else {
      CommittedVisits(w, g, d, hops[1..]);
    }
    FollowFurther(w, x, VisitsBelow(g, d), hops);
  }

  lemma NoHops(w: World, hops: seq<Text>)
    requires hops == []
    ensures Follow(w, [], hops)
  {}

  /** After Ok, the streams lead through exactly the first peer ids of the jump addresses and the target,
      in order; all are jump streams but the last, which is a tunnel stream. */
  lemma OkMeansDelivered(w: World, acts: seq<Action>, g: Net, d: nat, back: bytes)
    requires Run(w, acts) == Some(g) && d < |g| && g[d].agent.Dialer?
    requires ReadResult(g[d].agent.caller.got, Ok, back)
    requires forall a: Multiaddr :: w.parse(w.show(a)) == Some(a)
    ensures var c := g[d].agent.caller;
      && c.jump != [] && g[d].child.Some?
      && var route, v := c.jump + [c.target], Visits(g, g[d].child.value);
        && |v| == |route|
        && (forall i | 0 <= i < |route| :: FirstPeer(route[i]) == Some(v[i].peer))
        && (forall i | 0 <= i < |route| :: v[i].via == if i == |route| - 1 then Tunnel else Jump)
  {
    hide ValidUtf8, TakeMessage, FirstPeer, Inv, Run, Committed, HopTexts, VisitsBelow, Encode;
    RunKeeps(w, acts);
    NoFalseOk(w, acts, g, d, back);
    var c := g[d].agent.caller;
    var r := g[d].child.value;
    var route := c.jump + [c.target];
    var hops := DialHops(w, c.jump, c.target);
    CommittedVisits(w, g, r, hops);
    assert c.jump[1..] + [c.target] == route[1..];
    JumpStreamsFirst(w, g, d);
    forall i | 0 <= i < |hops|
      ensures PeerOf(w, hops[i]) == FirstPeer(route[i + 1]) && FollowsAt(w, VisitsBelow(g, r)[i], hops, i)
    {
      assert hops[i] == w.show(route[1..][i]);
    }
    var v := Visits(g, r);
    forall i | 0 <= i < |route|
      ensures FirstPeer(route[i]) == Some(v[i].peer) && v[i].via == if i == |route| - 1 then Tunnel else Jump
    {
      if i > 0 {
        assert v[i] == VisitsBelow(g, r)[i - 1];
        assert FollowsAt(w, VisitsBelow(g, r)[i - 1], hops, i - 1);
      }
    }
  }

  lemma JumpStreamsFirst(w: World, g: Net, d: nat)
    requires Inv(w, g) && d < |g| && g[d].agent.Dialer? && g[d].child.Some?
    ensures g[d].child.value < |g| && g[g[d].child.value].via == Jump
  {
    assert ProcOk(w, g, d);
  }

  /** With the circuit address that a listener advertises, a completed chain ends at the listener's
      relay, on a tunnel stream, and not at the listener (docs/architecture.md has it end there). */
  lemma AdvertisedTargetIsNotReached(w: World, acts: seq<Action>, g: Net, d: nat, back: bytes, relay: Multiaddr,
                                     me: PeerId)
    requires Run(w, acts) == Some(g) && d < |g| && g[d].agent.Dialer?
    requires ReadResult(g[d].agent.caller.got, Ok, back)
    requires forall a: Multiaddr :: w.parse(w.show(a)) == Some(a)
    requires Objection(relay) == None && P2pCircuit !in relay
    requires g[d].agent.caller.target == Advertised(relay, me)
    ensures g[d].child.Some? && Visits(g, g[d].child.value) != []
    ensures var v := Visits(g, g[d].child.value);
      && Some(v[|v| - 1].peer) == FirstPeer(relay)
      && (v[|v| - 1].peer == me <==> FirstPeer(relay) == Some(me))
  {
    hide ValidUtf8, TakeMessage, FirstPeer, Visits, Run;
    OkMeansDelivered(w, acts, g, d, back);
    AdvertisedSplitsBack(relay, me);
    LastHopReachesTheRelay(Advertised(relay, me));
    var c := g[d].agent.caller;
    var v := Visits(g, g[d].child.value);
    assert (c.jump + [c.target])[|v| - 1] == c.target;
  }

  // ---------- Byte transparency ----------

  /** The process at the end of the tunnel stream that the streams from `c` on lead to, if they do. */
  function TunnelEnd(g: Net, c: nat): Option<nat>
    decreases if c < |g| then |g| - c else 0
  {
    if c >= |g| then None
    else if g[c].via.Tunnel? then Some(c)
    else if g[c].child.Some? && g[c].child.value > c then TunnelEnd(g, g[c].child.value)
    else None
  }

  /** At a relay: all that the far program on the tunnel has taken or can still take is a prefix of the
      payload that the relay has read behind its chain frame. */
  lemma {:induction false} RelaysOnlyPayloadDown(w: World, g: Net, c: nat, t: nat)
    requires Inv(w, g) && c < |g| && g[c].agent.Relay? && TunnelEnd(g, c) == Some(t)
    ensures t < |g| && g[t].parent.Some? && g[t].parent.value < |g|
    ensures exists hops, payload ::
      && ReadChain(Took(g[c].agent), hops, payload)
      && Took(g[t].agent) <= Sent(g[g[t].parent.value].agent) <= payload
    decreases |g| - c
  {
    hide ValidUtf8, Encode, Decode, TakeMessage, PeerOf, FirstPeer;
    assert ProcOk(w, g, c);
    var s := g[c].agent.session;
    var hops := s.phase.hops;
    HopsWereRead(w, s);
    var d := g[c].child.value;
    assert ProcOk(w, g, d);
    var payload :| ReadChain(s.took, hops, payload) && SentIsPayload(s, payload) by { PayloadIsCopied(w, s); }
    if |hops| == 1 {
      assert t == d;
      assert s.sent <= payload;
    } else {
      RelaysOnlyPayloadDown(w, g, d, t);
      var hops', payload' :| ReadChain(Took(g[d].agent), hops', payload')
        && Took(g[t].agent) <= Sent(g[g[t].parent.value].agent) <= payload';
      ChainIsTheOpeners(w, g, c, d, hops', payload');
      PrefixBehind(Header(hops).value, payload', s.sent, payload);
    }
  }

  /** What a relay has sent downstream is part of its header, or the header and a prefix of the payload read. */
  predicate SentIsPayload(s: Session, payload: bytes)
    requires HasOpened(Relay(s))
  {
    s.phase.hops != [] && Header(s.phase.hops).Some? && s.sent <= Header(s.phase.hops).value + payload
  }

  lemma PayloadIsCopied(w: World, s: Session)
    requires Disciplined(w, s) && HasOpened(Relay(s))
    ensures exists payload :: ReadChain(s.took, s.phase.hops, payload) && SentIsPayload(s, payload)
  {
    hide ValidUtf8, Encode, Decode, TakeMessage, PeerOf;
    var hops := s.phase.hops;
    if s.phase.Bridging? {
      var downOut, upOut :| Relayed(hops, s.took, s.gave, s.sent, s.got, s.phase.down, s.phase.up, downOut, upOut);
      assert Header(hops).value + (downOut + s.phase.down) == s.sent + s.phase.down;
      assert ReadChain(s.took, hops, downOut + s.phase.down) && SentIsPayload(s, downOut + s.phase.down);
    } else {
      if s.phase.Forwarding? {
        assert s.sent <= s.sent + s.phase.todo;
      }
      assert Header(hops).value + [] == Header(hops).value;
      assert ReadChain(s.took, hops, []) && SentIsPayload(s, []);
    }
  }

  lemma PrefixBehind(head: bytes, a: bytes, log: bytes, b: bytes)
    requires head + a <= log <= head + b
    ensures a <= b
  {
    assert (head + a)[|head|..] == a;
    assert (head + b)[|head|..] == b;
  }

  /** From the dialer to the end of the tunnel, in every interleaving: the far program takes, and the last
      relay sends, only a prefix of what the dialer wrote behind its chain frame. */
  lemma TransparentDown(w: World, acts: seq<Action>, g: Net, d: nat, t: nat)
    requires Run(w, acts) == Some(g) && d < |g| && g[d].agent.Dialer? && g[d].child.Some?
    requires TunnelEnd(g, g[d].child.value) == Some(t)
    ensures t < |g| && g[t].parent.Some? && g[t].parent.value < |g|
    ensures var c := g[d].agent.caller;
      && c.jump != [] && ChainFrame(w, c.jump, c.target).Some?
      && var chain := ChainFrame(w, c.jump, c.target).value;
        && chain <= c.sent
        && Took(g[t].agent) <= Sent(g[g[t].parent.value].agent) <= c.sent[|chain|..]
  {
    hide ValidUtf8, Encode, Decode, TakeMessage, PeerOf, FirstPeer, HopTexts, TunnelEnd, Run, Frame, Written;
    RunKeeps(w, acts);
    assert ProcOk(w, g, d);
    var r := g[d].child.value;
    assert ProcOk(w, g, r);
    RelaysOnlyPayloadDown(w, g, r, t);
    var hops, payload :| ReadChain(Took(g[r].agent), hops, payload)
      && Took(g[t].agent) <= Sent(g[g[t].parent.value].agent) <= payload;
    ChainIsTheOpeners(w, g, d, r, hops, payload);
    var chain := Written(Chain(hops)).value;
    var sent := g[d].agent.caller.sent;
    assert chain + sent[|chain|..] == sent;
    PrefixBehind(chain, payload, chain + payload, sent[|chain|..]);
  }

  /** The first request that a listener at the end of a chain makes out is the dialer's netcat request. */
  lemma FarEndSeesNetcat(w: World, acts: seq<Action>, g: Net, d: nat, t: nat, m: Message, rest: bytes)
    requires Run(w, acts) == Some(g) && d < |g| && g[d].agent.Dialer? && g[d].child.Some?
    requires TunnelEnd(g, g[d].child.value) == Some(t) && t < |g|
    requires TakeMessage(RequestKind, Took(g[t].agent)) == Received(m, rest)
    ensures m == Request(Netcat)
  {
    hide ValidUtf8, Encode, Decode, TakeMessage, PeerOf, FirstPeer, HopTexts, TunnelEnd, Run, Inv, ChainFrame, Frame;
    TransparentDown(w, acts, g, d, t);
    RunKeeps(w, acts);
    DialerIsOk(w, g, d);
    var c := g[d].agent.caller;
    var payload := c.sent[|ChainFrame(w, c.jump, c.target).value|..];
    NetcatIsWritten();
    NothingIsNoMessage(RequestKind);
    PayloadIsNetcat(w, c);
    SameMessage(Request(Netcat), NETCAT_FRAME, payload, Took(g[t].agent), m, rest);
  }

  /** Behind its chain frame a dialer has written nothing, or its netcat request and what follows that. */
  lemma PayloadIsNetcat(w: World, c: Caller)
    requires DialOk(w, c) && ChainFrame(w, c.jump, c.target).Some? && ChainFrame(w, c.jump, c.target).value <= c.sent
    ensures Compatible(c.sent[|ChainFrame(w, c.jump, c.target).value|..], NETCAT_FRAME)
  {
    hide ValidUtf8, Encode, TakeMessage, FirstPeer, ChainFrame, Frame;
    var chain := ChainFrame(w, c.jump, c.target).value;
    var payload := c.sent[|chain|..];
    if c.phase.Talking? {
      var stdin :| Spoken(chain, c.sent + c.phase.todo, stdin);
      assert c.sent == chain + payload;
      SameBehind(chain, payload, c.phase.todo, NETCAT_FRAME, stdin);
    } else if c.phase.WritingChain? {
      assert |c.sent| + |c.phase.todo| == |c.sent + c.phase.todo|;
    }
  }

  lemma SameBehind(head: bytes, a: bytes, b: bytes, c: bytes, d: bytes)
    requires head + a + b == head + (c + d)
    ensures a + b == c + d && Compatible(a, c)
  {
    assert (head + a + b)[|head|..] == a + b && (head + (c + d))[|head|..] == c + d;
    assert a <= a + b && c <= c + d;
  }

  lemma DialerIsOk(w: World, g: Net, d: nat)
    requires Inv(w, g) && d < |g| && g[d].agent.Dialer?
    ensures DialOk(w, g[d].agent.caller)
  {
    assert ProcOk(w, g, d);
  }

  lemma NetcatIsWritten()
    ensures Written(Request(Netcat)) == Some(NETCAT_FRAME)
  {}

  /** One relay: what it gives behind its Ok it has got from below, behind the Ok from there if the stream
      below is a jump stream. */
  lemma RelayCopiesUp(w: World, g: Net, c: nat, hops: seq<Text>)
    requires Inv(w, g) && Committed(w, g, c, hops)
    ensures g[c].child.Some? && g[c].child.value < |g|
    ensures var below := Gave(g[g[c].child.value].agent);
      && OK_FRAME <= Gave(g[c].agent) && (|hops| > 1 ==> OK_FRAME <= below)
      && Gave(g[c].agent)[|OK_FRAME|..] <= if |hops| == 1 then below else below[|OK_FRAME|..]
  {
    hide ValidUtf8, Encode, Decode, TakeMessage, PeerOf, FirstPeer, Frame;
    assert ProcOk(w, g, c);
    var s := g[c].agent.session;
    var d := g[c].child.value;
    assert ProcOk(w, g, d);
    var up := s.gave[|OK_FRAME|..];
    if s.phase.Bridging? {
      var downOut, upOut :| Relayed(hops, s.took, s.gave, s.sent, s.got, s.phase.down, s.phase.up, downOut, upOut);
      assert up == upOut <= upOut + s.phase.up;
      if |hops| > 1 {
        ResultIsTheRelays(w, g, c, d, Ok, upOut + s.phase.up);
        OkIsWritten();
        assert (OK_FRAME + (upOut + s.phase.up))[|OK_FRAME|..] == upOut + s.phase.up;
        assert s.got[|OK_FRAME|..] <= Gave(g[d].agent)[|OK_FRAME|..];
      }
    } else {
      assert up == [];
    }
  }

  /** Behind the Ok frame, a committed relay gives upward only a prefix of what the far program gave. */
  lemma {:induction false} RelaysOnlyPayloadUp(w: World, g: Net, c: nat, hops: seq<Text>)
    requires Inv(w, g) && Committed(w, g, c, hops)
    ensures TunnelEnd(g, c).Some? && TunnelEnd(g, c).value < |g|
    ensures Gave(g[c].agent)[|OK_FRAME|..] <= Gave(g[TunnelEnd(g, c).value].agent)
    decreases |hops|
  {
    hide ValidUtf8, Encode, Decode, TakeMessage, PeerOf, FirstPeer, AgentOk, Gave, AimOf;
    RelayCopiesUp(w, g, c, hops);
    var d := g[c].child.value;
    assert ProcOk(w, g, c) && ProcOk(w, g, d);
    if |hops| == 1 {
    } else {
      RelaysOnlyPayloadUp(w, g, d, hops[1..]);
    }
  }

  /** Behind the Ok, the dialer reads only a prefix of what the far program gave. */
  lemma TransparentUp(w: World, acts: seq<Action>, g: Net, d: nat, back: bytes)
    requires Run(w, acts) == Some(g) && d < |g| && g[d].agent.Dialer?
    requires ReadResult(g[d].agent.caller.got, Ok, back)
    ensures g[d].child.Some?
    ensures var t := TunnelEnd(g, g[d].child.value);
      && t.Some? && t.value < |g| && g[t.value].agent.Far?
      && back <= Gave(g[t.value].agent)
  {
    hide ValidUtf8, Encode, Decode, TakeMessage, PeerOf, FirstPeer, HopTexts, Run;
    RunKeeps(w, acts);
    NoFalseOk(w, acts, g, d, back);
    var c := g[d].agent.caller;
    var r := g[d].child.value;
    assert ProcOk(w, g, d) && ProcOk(w, g, r);
    RelaysOnlyPayloadUp(w, g, r, DialHops(w, c.jump, c.target));
    ResultIsTheRelays(w, g, d, r, Ok, back);
    OkIsWritten();
    assert c.got[|OK_FRAME|..] == back && c.got[|OK_FRAME|..] <= Gave(g[r].agent)[|OK_FRAME|..];
    TunnelEndIsFar(w, g, r);
  }

  lemma {:induction false} TunnelEndIsFar(w: World, g: Net, c: nat)
    requires Inv(w, g) && c < |g| && g[c].parent.Some? && TunnelEnd(g, c).Some?
    ensures TunnelEnd(g, c).value < |g| && g[TunnelEnd(g, c).value].agent.Far?
    decreases |g| - c
  {
    hide AgentOk, AimOf, ValidUtf8;
    assert ProcOk(w, g, c);
    if g[c].via.Tunnel? {
    } else {
      TunnelEndIsFar(w, g, g[c].child.value);
    }
  }

  // ---------- Cost ----------

  /** Handlers, stream-open attempts and backoff spent from `c` on. */
  datatype Spent = Spent(handlers: nat, attempts: nat, millis: nat)

  function SpentBy(g: Net, c: nat): Spent
    decreases if c < |g| then |g| - c else 0
  {
    if c >= |g| || !g[c].agent.Relay? then Spent(0, 0, 0)
    else
      var below := if g[c].child.Some? && g[c].child.value > c then SpentBy(g, g[c].child.value) else Spent(0, 0, 0);
      var s := g[c].agent.session;
      Spent(below.handlers + 1, below.attempts + |s.attempts|, below.millis + s.slept)
  }

  /** The answer to an attempt: the first nine refusals each lead to another attempt, behind a pause that
      grows by half a second; only the tenth ends them, with the refusal to be passed on; and a stream ends
      them at any time. */
  lemma RetriesAreTen(w: World, s: Session, a: Attempt)
    requires Disciplined(w, s) && s.phase.Opening? && s.over.None?
    ensures var s', n := OpenReturned(w, s, a), |s.attempts|;
      && n < 10 && s'.attempts == s.attempts + [a]
      && (a.Refused? && n <= 8 ==> s'.phase == s.phase && s'.over.None? && s'.slept == s.slept + 500 * (n + 1))
      && (a.Refused? && n == 9 ==> !s'.phase.Opening? || s'.over.Some?)
      && (a.Refused? && n == 9 ==> s'.slept == 22_500)
      && (a.Opened? ==> HasOpened(Relay(s')) && s'.over.None? && s'.slept == s.slept)
  {
    hide ValidUtf8, Encode, Decode, TakeMessage, PeerOf, HopRefusal;
    HeaderFits(s.took, s.phase.hops, []);
    BackoffIsBounded(9);
  }

  lemma OneHandlerCosts(w: World, s: Session)
    requires Disciplined(w, s)
    ensures |s.attempts| <= 10 && s.slept <= 22_500
    ensures s.phase.RefusingHop? ==> |s.attempts| == 10 && AllRefused(s.attempts) && s.slept == 22_500
  {
    hide ValidUtf8, Encode, Decode, TakeMessage, PeerOf;
    BackoffIsBounded(|s.attempts|);
    BackoffIsBounded(if |s.attempts| > 0 then |s.attempts| - 1 else 0);
    BackoffIsBounded(9);
  }

  lemma {:induction false} BackoffIsBounded(n: nat)
    ensures BackoffBefore(n) == 250 * n * (n + 1)
    ensures n <= 9 ==> BackoffBefore(n) <= 22_500
    ensures n == 9 ==> BackoffBefore(n) == 22_500
  {
    if n == 0 {
    } else {
      BackoffIsBounded(n - 1);
    }
  }

  /** Each relay passes on one hop less than it was given, so a chain of n hops costs no more than n
      handlers, 10 n attempts and 22.5 n seconds of backoff, even if relays repeat. */
  lemma {:induction false} ChainCosts(w: World, g: Net, c: nat, n: nat)
    requires Inv(w, g) && c < |g| && g[c].agent.Relay? && n >= 1
    requires forall hops, payload :: ReadChain(Took(g[c].agent), hops, payload) ==> |hops| <= n
    ensures var x := SpentBy(g, c);
      x.handlers <= n && x.attempts <= 10 * n && x.millis <= 22_500 * n
    decreases |g| - c
  {
    hide ValidUtf8, Encode, Decode, TakeMessage, PeerOf, FirstPeer, Disciplined;
    assert ProcOk(w, g, c);
    var s := g[c].agent.session;
    OneHandlerCosts(w, s);
    HopsWereRead(w, s);
    if g[c].child.None? {
    } else {
      var d := g[c].child.value;
      assert ProcOk(w, g, d);
      if g[d].agent.Relay? {
        forall hops, payload | ReadChain(Took(g[d].agent), hops, payload) ensures |hops| <= n - 1 {
          ChainIsTheOpeners(w, g, c, d, hops, payload);
        }
        ChainCosts(w, g, d, n - 1);
      }
    }
  }

  lemma DialCosts(w: World, acts: seq<Action>, g: Net, d: nat)
    requires Run(w, acts) == Some(g) && d < |g| && g[d].agent.Dialer? && g[d].child.Some?
    ensures var n, x := |g[d].agent.caller.jump|, SpentBy(g, g[d].child.value);
      x.handlers <= n && x.attempts <= 10 * n && x.millis <= 22_500 * n
  {
    hide ValidUtf8, Encode, Decode, TakeMessage, PeerOf, FirstPeer, Run, Disciplined;
    RunKeeps(w, acts);
    assert ProcOk(w, g, d);
    var r := g[d].child.value;
    assert ProcOk(w, g, r);
    var n := |g[d].agent.caller.jump|;
    forall hops, payload | ReadChain(Took(g[r].agent), hops, payload) ensures |hops| <= n {
      ChainIsTheOpeners(w, g, d, r, hops, payload);
    }
    ChainCosts(w, g, r, n);
  }
}
