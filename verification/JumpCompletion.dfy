/** Which chains can be established at all: from any state of any run, with any number of hops. */
module JumpCompletion {
  import opened Wrappers
  import opened Bytes
  import opened Frames
  import opened Addresses
  import opened JumpSession
  import opened JumpNetwork
  import opened JumpTheorems

  ghost predicate Reached(w: World, g: Net) {
    exists acts :: Run(w, acts) == Some(g)
  }

  lemma ReachedNext(w: World, g: Net, act: Action, g': Net)
    requires Reached(w, g) && Step(w, g, act) == Some(g')
    ensures Reached(w, g')
  {
    hide Step;
    var acts :| Run(w, acts) == Some(g);
    assert (acts + [act])[..|acts|] == acts;
    assert Run(w, acts + [act]) == Some(g');
  }

  /** The network with another agent in one place. */
  function With(g: Net, i: nat, a: Agent): Net
    requires i < |g|
  {
    g[i := g[i].(agent := a)]
  }

  lemma Acts(w: World, g: Net, i: nat, e: Event, a: Agent)
    requires Reached(w, g) && i < |g| && Possible(g, i, e) && NextAgent(w, g[i].agent, e) == Some(a)
    requires e != Open(Opened)
    ensures Reached(w, With(g, i, a))
  {
    hide Possible, NextAgent, Run, Reached, AimOf;
    ReachedNext(w, g, Act(i, e), With(g, i, a));
  }

  lemma Opens(w: World, g: Net, i: nat, a: Agent, peer: PeerId, via: Via)
    requires Reached(w, g) && i < |g| && g[i].child.None? && NextAgent(w, g[i].agent, Open(Opened)) == Some(a)
    requires AimOf(w, g[i].agent) == At(peer, via) && peer != g[i].peer
    ensures Reached(w,
      g[i := g[i].(agent := a, child := Some(|g|))] + [Proc(Accepted(via), Some(i), None, peer, via, false)])
  {
    hide NextAgent, Run, Reached, AimOf;
    ReachedNext(w, g, Act(i, Open(Opened)),
      g[i := g[i].(agent := a, child := Some(|g|))] + [Proc(Accepted(via), Some(i), None, peer, via, false)]);
  }

  /** A whole frame, in two parts as `read_exact` asks for them. */
  lemma InTwoReads(body: bytes)
    requires |body| <= MAX_FRAME
    ensures var f := Frame(body);
      && |f[..4]| == 4 && f[..4] + f[4..] == f && f[..4] <= f
      && Wanted([]) == 4 && Wanted(f[..4]) == |body| && |f[4..]| == |body| && Wanted(f) == 0
  {
    Be32RoundTrip(|body|);
    assert Frame(body)[..4] == Be32(|body|) && Frame(body)[..4][..4] == Be32(|body|);
  }

  /** One event of a relay that reads from its opener, which has sent more than it has taken. */
  lemma RelayTakes(w: World, g: Net, c: nat, b: bytes, s': Session)
    requires Reached(w, g) && c < |g| && g[c].agent.Relay? && g[c].parent.Some? && g[c].parent.value < |g|
    requires g[c].agent.session.took + b <= Sent(g[g[c].parent.value].agent)
    requires Next(w, g[c].agent.session, Take(b)) == Some(s')
    ensures Reached(w, With(g, c, Relay(s')))
  {
    hide Next, Run, Reached;
    var sent, took := Sent(g[g[c].parent.value].agent), g[c].agent.session.took;
    assert sent[|took|..][..|b|] == b;
    Acts(w, g, c, Take(b), Relay(s'));
  }

  /** One event of an agent that reads from the stream it has opened. */
  lemma AgentGets(w: World, g: Net, c: nat, b: bytes, a: Agent)
    requires Reached(w, g) && c < |g| && g[c].child.Some? && g[c].child.value < |g|
    requires g[g[c].child.value].parent == Some(c)
    requires Got(g[c].agent) + b <= Gave(g[g[c].child.value].agent)
    requires NextAgent(w, g[c].agent, Get(b)) == Some(a)
    ensures Reached(w, With(g, c, a))
  {
    hide NextAgent, Run, Reached;
    var gave, got := Gave(g[g[c].child.value].agent), Got(g[c].agent);
    assert gave[|got|..][..|b|] == b;
    Acts(w, g, c, Get(b), a);
  }

  /** What `read_exact` makes of a chain frame. */
  lemma ChainIsMadeOut(w: World, hops: seq<Text>)
    requires |Encode(Chain(hops))| <= MAX_FRAME && hops != [] && PeerOf(w, hops[0]).Some?
    ensures var f := Frame(Encode(Chain(hops)));
      && Next(w, FRESH, Take(f[..4])) == Some(FRESH.(took := f[..4]))
      && Next(w, FRESH.(took := f[..4]), Take(f[4..])) == Some(FRESH.(took := f))
      && Next(w, FRESH.(took := f), Compute) == Some(FRESH.(took := f, phase := Opening(hops)))
  {
    hide ValidUtf8, Encode, Decode, TakeMessage, PeerOf, Wanted, Frame;
    var f := Frame(Encode(Chain(hops)));
    InTwoReads(Encode(Chain(hops)));
    ChainHasBody(hops);
    WriteThenRead(Chain(hops), []);
    assert f + [] == f && [] + f[..4] == f[..4];
  }

  /** A fresh relay whose opener has written a chain frame reads it and starts opening. */
  lemma ChainIsTaken(w: World, g: Net, c: nat, hops: seq<Text>)
    requires Reached(w, g) && c < |g| && g[c].agent == Relay(FRESH) && g[c].parent.Some? && g[c].parent.value < c
    requires |Encode(Chain(hops))| <= MAX_FRAME && Sent(g[g[c].parent.value].agent) == Frame(Encode(Chain(hops)))
    requires hops != [] && PeerOf(w, hops[0]).Some?
    ensures Reached(w, With(g, c, Relay(FRESH.(took := Frame(Encode(Chain(hops))), phase := Opening(hops)))))
  {
    hide ValidUtf8, Encode, Decode, TakeMessage, PeerOf, Run, Reached, Wanted, Frame, Next;
    var f := Frame(Encode(Chain(hops)));
    InTwoReads(Encode(Chain(hops)));
    ChainIsMadeOut(w, hops);
    var s1, s2, s3 := FRESH.(took := f[..4]), FRESH.(took := f), FRESH.(took := f, phase := Opening(hops));
    assert FRESH.took + f[..4] == f[..4];
    RelayTakes(w, g, c, f[..4], s1);
    var g1 := With(g, c, Relay(s1));
    RelayTakes(w, g1, c, f[4..], s2);
    var g2 := With(g1, c, Relay(s2));
    assert NextAgent(w, g2[c].agent, Compute) == Some(Relay(s3));
    Acts(w, g2, c, Compute, Relay(s3));
    assert With(g2, c, Relay(s3)) == With(g, c, Relay(s3));
  }

  lemma ChainHasBody(hops: seq<Text>)
    ensures Encode(Chain(hops)) != []
  {}

  /** A relay that has begun to say Ok says it. */
  lemma OkIsSaid(w: World, g: Net, c: nat, hops: seq<Text>)
    requires Reached(w, g) && c < |g| && g[c].agent.Relay? && g[c].parent.Some?
    requires var s := g[c].agent.session; s.over.None? && s.phase == SayingOk(hops, OK_FRAME) && s.gave == []
    ensures Reached(w, With(g, c, Relay(g[c].agent.session.(gave := OK_FRAME, phase := SayingOk(hops, [])))))
  {
    hide Run, Reached, Encode;
    var s := g[c].agent.session;
    assert [] + OK_FRAME == OK_FRAME && OK_FRAME[|OK_FRAME|..] == [];
    Acts(w, g, c, Give(OK_FRAME), Relay(s.(gave := OK_FRAME, phase := SayingOk(hops, []))));
  }

  /** What `read_exact` makes of an Ok frame. */
  lemma OkIsMadeOut()
    ensures var f := OK_FRAME;
      && |f[..4]| == 4 && f[..4] <= f && [] + f[..4] == f[..4] && f[..4] + f[4..] == f
      && Wanted([]) == 4 && Wanted(f[..4]) == |f[4..]| && f[4..] != [] && Wanted(f) == 0
      && TakeMessage(ResultKind, f) == Received(Result(Ok), [])
  {
    hide ValidUtf8, TakeMessage, Wanted;
    InTwoReads(Encode(Result(Ok)));
    WriteThenRead(Result(Ok), []);
    assert OK_FRAME + [] == OK_FRAME && [] + OK_FRAME[..4] == OK_FRAME[..4];
  }

  /** A relay that waits for a result reads the Ok of the relay below it. */
  lemma OkIsPassedOn(w: World, g: Net, c: nat, hops: seq<Text>)
    requires Reached(w, g) && c < |g| && g[c].agent.Relay? && g[c].parent.Some?
    requires g[c].child.Some? && g[c].child.value < |g| && g[c].child.value != c
    requires g[g[c].child.value].parent == Some(c)
    requires Gave(g[g[c].child.value].agent) == OK_FRAME
    requires var s := g[c].agent.session; s.over.None? && s.phase == ReadingResult(hops) && s.got == [] && s.gave == []
    ensures Reached(w, With(g, c,
      Relay(g[c].agent.session.(got := OK_FRAME, gave := OK_FRAME, phase := SayingOk(hops, [])))))
  {
    hide Run, Reached, Encode, Wanted, TakeMessage, Frame, ValidUtf8;
    var s, f := g[c].agent.session, OK_FRAME;
    OkIsMadeOut();
    var s1, s2, s3 := s.(got := f[..4]), s.(got := f), s.(got := f, phase := SayingOk(hops, f));
    AgentGets(w, g, c, f[..4], Relay(s1));
    var g1 := With(g, c, Relay(s1));
    AgentGets(w, g1, c, f[4..], Relay(s2));
    var g2 := With(g1, c, Relay(s2));
    Acts(w, g2, c, Compute, Relay(s3));
    var g3 := With(g2, c, Relay(s3));
    OkIsSaid(w, g3, c, hops);
    var s4 := s3.(gave := f, phase := SayingOk(hops, []));
    assert With(g3, c, Relay(s4)) == With(g, c, Relay(s4));
  }

  /** From the node `at`, each hop in turn names a peer, and another one than the node it is reached from. */
  predicate Walkable(w: World, at: PeerId, hops: seq<Text>)
    decreases |hops|
  {
    hops == []
    || (PeerOf(w, hops[0]).Some? && PeerOf(w, hops[0]).value != at && Walkable(w, PeerOf(w, hops[0]).value, hops[1..]))
  }

  /** The chains that relays can pass on to the end, the first relay being `at`. */
  predicate Passable(w: World, at: PeerId, hops: seq<Text>) {
    hops != [] && |Encode(Chain(hops))| <= 65_536 && Walkable(w, at, hops)
  }

  lemma RestIsPassable(w: World, at: PeerId, hops: seq<Text>)
    requires Passable(w, at, hops) && |hops| > 1
    ensures Passable(w, PeerOf(w, hops[0]).value, hops[1..])
  {
    hide ValidUtf8, Encode, TakeMessage, PeerOf;
    var f := Frame(Encode(Chain(hops)));
    WriteThenRead(Chain(hops), []);
    assert f + [] == f;
    assert ReadChain(f, hops, []);
    HeaderFits(f, hops, []);
  }

  function Beginning(hops: seq<Text>): Session
    requires |Encode(Chain(hops))| <= MAX_FRAME
  {
    FRESH.(took := Frame(Encode(Chain(hops))), phase := Opening(hops))
  }

  /** The network with a stream opened by the agent at `c`. */
  function Grown(g: Net, c: nat, a: Agent, peer: PeerId, via: Via): Net
    requires c < |g|
  {
    g[c := g[c].(agent := a, child := Some(|g|))] + [Proc(Accepted(via), Some(c), None, peer, via, false)]
  }

  lemma LastHopOpens(w: World, g: Net, c: nat, hops: seq<Text>)
    requires Reached(w, g) && c < |g| && Passable(w, g[c].peer, hops) && |hops| == 1
    requires g[c].agent == Relay(Beginning(hops)) && g[c].parent.Some? && g[c].child.None?
    ensures Reached(w, Grown(g, c,
      Relay(Beginning(hops).(attempts := [Opened], gave := OK_FRAME, phase := SayingOk(hops, []))),
      PeerOf(w, hops[0]).value, Tunnel))
  {
    hide Run, Reached, Encode, PeerOf, ValidUtf8, Frame;
    var s1 := Beginning(hops).(attempts := [Opened], phase := SayingOk(hops, OK_FRAME));
    var peer := PeerOf(w, hops[0]).value;
    assert Beginning(hops).attempts + [Opened] == [Opened];
    Opens(w, g, c, Relay(s1), peer, Tunnel);
    var g1 := Grown(g, c, Relay(s1), peer, Tunnel);
    OkIsSaid(w, g1, c, hops);
    var s2 := s1.(gave := OK_FRAME, phase := SayingOk(hops, []));
    assert With(g1, c, Relay(s2)) == Grown(g, c, Relay(s2), peer, Tunnel);
  }

  lemma HopForwards(w: World, g: Net, c: nat, hops: seq<Text>)
    requires Reached(w, g) && c < |g| && Passable(w, g[c].peer, hops) && |hops| > 1
    requires g[c].agent == Relay(Beginning(hops)) && g[c].parent.Some? && g[c].child.None?
    ensures |Encode(Chain(hops[1..]))| <= MAX_FRAME
    ensures Reached(w, Grown(g, c,
      Relay(Beginning(hops).(attempts := [Opened], sent := Frame(Encode(Chain(hops[1..]))),
                              phase := ReadingResult(hops))),
      PeerOf(w, hops[0]).value, Jump))
  {
    hide Run, Reached, Encode, PeerOf, ValidUtf8;
    RestIsPassable(w, g[c].peer, hops);
    var f := Frame(Encode(Chain(hops[1..])));
    var peer := PeerOf(w, hops[0]).value;
    var s1 := Beginning(hops).(attempts := [Opened], phase := Forwarding(hops, f));
    assert Beginning(hops).attempts + [Opened] == [Opened];
    Opens(w, g, c, Relay(s1), peer, Jump);
    var g1 := Grown(g, c, Relay(s1), peer, Jump);
    assert [] + f == f && f[|f|..] == [];
    var s2 := s1.(sent := f, phase := Forwarding(hops, []));
    Acts(w, g1, c, Send(f), Relay(s2));
    var g2 := With(g1, c, Relay(s2));
    var s3 := s2.(phase := ReadingResult(hops));
    Acts(w, g2, c, Compute, Relay(s3));
    assert With(g2, c, Relay(s3)) == Grown(g, c, Relay(s3), peer, Jump);
  }

  /** From the moment that a chain frame lies in front of a fresh relay: some run brings an Ok all the way
      up to it, by induction over the hops. */
  lemma {:induction false} RelaysComplete(w: World, g: Net, c: nat, hops: seq<Text>) returns (g': Net)
    requires Reached(w, g) && c < |g| && c == |g| - 1 && Passable(w, g[c].peer, hops)
    requires g[c].agent == Relay(FRESH) && g[c].child.None? && g[c].parent.Some? && g[c].parent.value < c
    requires Sent(g[g[c].parent.value].agent) == Frame(Encode(Chain(hops)))
    ensures Reached(w, g') && |g'| > |g| && g'[..c] == g[..c]
    ensures g'[c].parent == g[c].parent && g'[c].agent.Relay? && Gave(g'[c].agent) == OK_FRAME
    decreases |hops|
  {
    hide Run, Reached, Encode, PeerOf, ValidUtf8, Frame;
    ChainIsTaken(w, g, c, hops);
    var s1 := Beginning(hops);
    var g1 := With(g, c, Relay(s1));
    var peer := PeerOf(w, hops[0]).value;
    if |hops| == 1 {
      LastHopOpens(w, g1, c, hops);
      g' := Grown(g1, c, Relay(s1.(attempts := [Opened], gave := OK_FRAME, phase := SayingOk(hops, []))), peer, Tunnel);
    } else {
      HopForwards(w, g1, c, hops);
      RestIsPassable(w, g[c].peer, hops);
      var s2 := s1.(attempts := [Opened], sent := Frame(Encode(Chain(hops[1..]))), phase := ReadingResult(hops));
      var g2 := Grown(g1, c, Relay(s2), peer, Jump);
      var g3 := RelaysComplete(w, g2, c + 1, hops[1..]);
      assert g3[..c + 1][c] == g2[..c + 1][c];
      OkIsPassedOn(w, g3, c, hops);
      g' := With(g3, c, Relay(s2.(got := OK_FRAME, gave := OK_FRAME, phase := SayingOk(hops, []))));
      assert g'[..c] == g3[..c + 1][..c] == g2[..c + 1][..c] == g[..c];
    }
    assert g'[..c] == g[..c];
  }

  // ---------- The dialer ----------

  datatype Plan = Plan(jump: seq<Multiaddr>, target: Multiaddr, netcat: bool)

  /** The first jump address names another peer than the dialer `me`, the frame is within the bound, and
      from there each hop names another peer than the one before. */
  predicate Establishable(w: World, me: PeerId, p: Plan)
    requires p.jump != []
  {
    FirstPeer(p.jump[0]).Some? && FirstPeer(p.jump[0]).value != me
    && Passable(w, FirstPeer(p.jump[0]).value, DialHops(w, p.jump, p.target))
  }

  /** The dialer at `d` is `me`, follows this plan, and has read Ok. */
  ghost predicate Established(g: Net, d: nat, me: PeerId, p: Plan) {
    d < |g| && g[d].agent.Dialer? && g[d].peer == me
    && g[d].agent.caller.jump == p.jump && g[d].agent.caller.target == p.target
    && g[d].agent.caller.netcat == p.netcat && exists back :: ReadResult(g[d].agent.caller.got, Ok, back)
  }

  /** A new dialer opens its stream and writes its chain. */
  lemma DialerStarts(w: World, g: Net, me: PeerId, p: Plan)
    requires Reached(w, g) && p.jump != [] && Establishable(w, me, p)
    ensures var f := Frame(Encode(Chain(DialHops(w, p.jump, p.target))));
      var c := Caller(p.jump, p.target, p.netcat, AwaitingResult, f, [], None);
      Reached(w, Grown(g + [Proc(Dialer(c), None, None, me, Jump, false)], |g|,
                       Dialer(c), FirstPeer(p.jump[0]).value, Jump))
  {
    hide Run, Reached, Encode, FirstPeer, PeerOf, ValidUtf8, DialHops;
    var f := Frame(Encode(Chain(DialHops(w, p.jump, p.target))));
    var peer, d := FirstPeer(p.jump[0]).value, |g|;
    var c0 := Caller(p.jump, p.target, p.netcat, Starting, [], [], None);
    var g0 := g + [Proc(Dialer(c0), None, None, me, Jump, false)];
    ReachedNext(w, g, StartDial(me, p.jump, p.target, p.netcat), g0);
    var c1 := c0.(phase := WritingChain(f));
    Opens(w, g0, d, Dialer(c1), peer, Jump);
    var g1 := Grown(g0, d, Dialer(c1), peer, Jump);
    assert [] + f == f && f[|f|..] == [];
    var c2 := c1.(sent := f, phase := WritingChain([]));
    Acts(w, g1, d, Send(f), Dialer(c2));
    var g2 := With(g1, d, Dialer(c2));
    var c3 := c2.(phase := AwaitingResult);
    Acts(w, g2, d, Compute, Dialer(c3));
    assert With(g2, d, Dialer(c3))
      == Grown(g + [Proc(Dialer(c3), None, None, me, Jump, false)], d, Dialer(c3), peer, Jump);
  }

  lemma DialerHearsOk(w: World, g: Net, d: nat, c: Caller)
    requires Reached(w, g) && d < |g| && g[d].agent == Dialer(c) && c.phase.AwaitingResult? && c.over.None?
    requires c.got == [] && c.jump != []
    requires g[d].child.Some? && d < g[d].child.value < |g| && g[g[d].child.value].parent == Some(d)
    requires Gave(g[g[d].child.value].agent) == OK_FRAME
    ensures Reached(w, With(g, d, Dialer(c.(got := OK_FRAME))))
  {
    hide Run, Reached, Encode, Wanted, TakeMessage, Frame, ValidUtf8;
    var f := OK_FRAME;
    OkIsMadeOut();
    var c1, c2 := c.(got := f[..4]), c.(got := f);
    AgentGets(w, g, d, f[..4], Dialer(c1));
    var g1 := With(g, d, Dialer(c1));
    AgentGets(w, g1, d, f[4..], Dialer(c2));
    assert With(g1, d, Dialer(c2)) == With(g, d, Dialer(c2));
  }

  /** Whatever has happened before, an establishable plan can still be carried through. */
  lemma PlanCanSucceed(w: World, g: Net, me: PeerId, p: Plan) returns (g': Net)
    requires Reached(w, g) && p.jump != [] && Establishable(w, me, p)
    ensures Reached(w, g') && g <= g' && Established(g', |g|, me, p)
  {
    hide Run, Reached, Encode, FirstPeer, PeerOf, ValidUtf8, DialHops, Frame, TakeMessage;
    var hops, d := DialHops(w, p.jump, p.target), |g|;
    var c := Caller(p.jump, p.target, p.netcat, AwaitingResult, Frame(Encode(Chain(hops))), [], None);
    DialerStarts(w, g, me, p);
    var g1 := Grown(g + [Proc(Dialer(c), None, None, me, Jump, false)], d, Dialer(c), FirstPeer(p.jump[0]).value, Jump);
    var g2 := RelaysComplete(w, g1, d + 1, hops);
    assert g2[..d + 1][d] == g1[..d + 1][d];
    assert g2[d + 1].parent == Some(d);
    DialerHearsOk(w, g2, d, c);
    g' := With(g2, d, Dialer(c.(got := OK_FRAME)));
    OkIsMadeOut();
    assert ReadResult(g'[d].agent.caller.got, Ok, []);
    assert g'[..d] == g2[..d + 1][..d] == g1[..d + 1][..d] == g;
  }

  lemma {:induction false} CommittedIsWalkable(w: World, g: Net, c: nat, hops: seq<Text>)
    requires Inv(w, g) && Committed(w, g, c, hops)
    ensures Walkable(w, g[c].peer, hops)
    decreases |hops|
  {
    hide PeerOf, ValidUtf8, Encode, AgentOk, ParentOk, AimOf;
    assert ProcOk(w, g, c);
    if |hops| == 1 {
      assert hops[1..] == [];
    } else {
      CommittedIsWalkable(w, g, g[c].child.value, hops[1..]);
    }
  }

  lemma OnlyPassableSucceeds(w: World, g: Net, d: nat, me: PeerId, p: Plan)
    requires Reached(w, g) && p.jump != [] && Established(g, d, me, p)
    ensures Establishable(w, me, p)
  {
    hide ValidUtf8, Encode, Decode, TakeMessage, PeerOf, FirstPeer, DialHops;
    var acts :| Run(w, acts) == Some(g);
    var back :| ReadResult(g[d].agent.caller.got, Ok, back);
    NoFalseOk(w, acts, g, d, back);
    RunKeeps(w, acts);
    var hops, r := DialHops(w, p.jump, p.target), g[d].child.value;
    CommittedIsWalkable(w, g, r, hops);
    assert ProcOk(w, g, d) && ProcOk(w, g, r);
    HopsWereRead(w, g[r].agent.session);
    var payload :| ReadChain(Took(g[r].agent), hops, payload);
    ChainIsTheOpeners(w, g, d, r, hops, payload);
    WriteThenRead(Chain(hops), payload);
  }

  /** A dialer can ever read Ok if and only if its first jump address names a peer, so do all its other
      jump addresses and its target as they are printed and parsed, none of them the peer just before it on
      the way, and its chain frame is within the bound. Where it can, it can after any run. */
  lemma EstablishableExactly(w: World, g: Net, me: PeerId, p: Plan)
    requires Reached(w, g) && p.jump != []
    ensures Establishable(w, me, p) <==> exists g', d :: Reached(w, g') && Established(g', d, me, p)
    ensures Establishable(w, me, p) <==> exists g', d :: Reached(w, g') && g <= g' && Established(g', d, me, p)
  {
    hide Run, Reached, Establishable, Established;
    if Establishable(w, me, p) {
      var g' := PlanCanSucceed(w, g, me, p);
    }
    if g', d :| Reached(w, g') && Established(g', d, me, p) {
      OnlyPassableSucceeds(w, g', d, me, p);
    }
  }

  /** A circuit address through the very relay that is the last jump: the relay would have to open a stream
      to itself, so no run establishes the chain. */
  lemma TargetBehindTheLastJump(w: World, g: Net, d: nat, me: PeerId, p: Plan)
    requires Reached(w, g) && p.jump != []
    requires forall a: Multiaddr :: w.parse(w.show(a)) == Some(a)
    requires FirstPeer(p.target) == FirstPeer(p.jump[|p.jump| - 1])
    ensures !Established(g, d, me, p)
  {
    hide Run, Reached, Established, Encode, ValidUtf8, FirstPeer, PeerOf;
    if Established(g, d, me, p) {
      OnlyPassableSucceeds(w, g, d, me, p);
      var route, first := p.jump[1..] + [p.target], FirstPeer(p.jump[0]).value;
      if |p.jump| == 1 {
        WalkableStep(w, first, HopTexts(w, route), 0);
        ShownPeer(w, p.target);
      } else {
        WalkableStep(w, first, HopTexts(w, route), |route| - 1);
        ShownPeer(w, p.target);
        ShownPeer(w, p.jump[|p.jump| - 1]);
      }
    }
  }

  lemma ShownPeer(w: World, a: Multiaddr)
    requires w.parse(w.show(a)) == Some(a)
    ensures PeerOf(w, w.show(a)) == FirstPeer(a)
  {}

  lemma {:induction false} WalkableStep(w: World, at: PeerId, hops: seq<Text>, i: nat)
    requires Walkable(w, at, hops) && i < |hops|
    ensures PeerOf(w, hops[i]).Some?
    ensures PeerOf(w, hops[i]) != if i == 0 then Some(at) else PeerOf(w, hops[i - 1])
    decreases |hops|
  {
    hide PeerOf;
    if i == 0 {
    } else {
      WalkableStep(w, PeerOf(w, hops[0]).value, hops[1..], i - 1);
    }
  }
}
