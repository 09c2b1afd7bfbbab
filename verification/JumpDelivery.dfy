/** What the ends of streams tell: a bridge that has come to its end has delivered everything, and a
    chain that ends in silence has a cause at its earliest unreached hop. */
module JumpDelivery {
  import opened Wrappers
  import opened Bytes
  import opened Frames
  import opened Addresses
  import opened JumpSession
  import opened JumpNetwork
  import opened JumpTheorems
  import opened JumpOutcome
  import opened JumpProgress

  // ---------- An end is seen only behind everything that was written ----------

  /** The handler has found the end of its inbound stream. */
  predicate SeenIn(s: Session) {
    s.over == Some(ChainCutShort) || (s.phase.Bridging? && s.phase.inEnded)
  }

  predicate SeenBack(s: Session) { s.phase.Bridging? && s.phase.backEnded }

  /** The dialer has found the end of its stream; if its session has closed, it has. */
  predicate HeardOut(c: Caller) { c.over == Some(Closed) || (c.phase.Talking? && c.phase.backEnded) }

  predicate AllTaken(g: Net, i: nat)
    requires i < |g|
  {
    g[i].broken
    || (g[i].parent.Some? && g[i].parent.value < |g| && DownEnded(g[g[i].parent.value].agent)
        && Took(g[i].agent) == Sent(g[g[i].parent.value].agent))
  }

  predicate AllGot(g: Net, i: nat)
    requires i < |g|
  {
    g[i].child.Some? && g[i].child.value < |g|
    && (g[g[i].child.value].broken
        || (UpEnded(g[g[i].child.value].agent) && Got(g[i].agent) == Gave(g[g[i].child.value].agent)))
  }

  predicate SeenOk(g: Net, i: nat)
    requires i < |g|
  {
    match g[i].agent
    case Relay(s) => (SeenIn(s) ==> AllTaken(g, i)) && (SeenBack(s) ==> AllGot(g, i))
    case Dialer(c) => (HeardOut(c) ==> AllGot(g, i)) && (c.over == Some(Closed) ==> c.phase.Talking?)
    case Far(_) => true
  }

  ghost predicate Seen(w: World, g: Net) {
    Inv(w, g) && forall i: nat | i < |g| :: SeenOk(g, i)
  }

  lemma DownStaysEnded(w: World, a: Agent, e: Event)
    requires DownEnded(a) && NextAgent(w, a, e).Some?
    ensures DownEnded(NextAgent(w, a, e).value) && Sent(NextAgent(w, a, e).value) == Sent(a)
  {
    hide ValidUtf8, TakeMessage, PeerOf, Wanted, ChainRead, OpenReturned, ResultRead, FirstPeer, DialOpened,
         DialResultRead;
    AgentLogs(w, a, e);
  }

  /** What one event of a handler can do to its own ends. */
  lemma EndsAreFound(w: World, s: Session, e: Event)
    requires Next(w, s, e).Some?
    ensures var s' := Next(w, s, e).value;
      && (SeenIn(s') ==> e.EndIn? || (SeenIn(s) && !e.Take?))
      && (SeenBack(s') ==> e.EndBack? || (SeenBack(s) && !e.Get?))
  {
    hide ValidUtf8, TakeMessage, PeerOf, Wanted, HopRefusal, Encode;
  }

  lemma EndIsHeard(w: World, c: Caller, e: Event)
    requires NextDial(w, c, e).Some?
    ensures HeardOut(NextDial(w, c, e).value) ==> e.EndBack? || (HeardOut(c) && !e.Get?)
    ensures NextDial(w, c, e).value.over == Some(Closed) ==> c.phase.Talking? && NextDial(w, c, e).value.phase.Talking?
  {
    hide ValidUtf8, TakeMessage, FirstPeer, Wanted, ChainFrame, Encode;
  }

  lemma DialerSeen(w: World, g: Net, i: nat, e: Event, c': Caller)
    requires Seen(w, g) && i < |g| && g[i].agent.Dialer? && Possible(g, i, e) && e != Open(Opened)
    requires NextDial(w, g[i].agent.caller, e) == Some(c')
    ensures SeenOk(g[i := g[i].(agent := Dialer(c'))], i)
  {
    hide NextDial, AgentOk, AimOf, UpEnded, DownEnded, HeardOut;
    assert ProcOk(w, g, i) && SeenOk(g, i);
    DialLogs(w, g[i].agent.caller, e);
    EndIsHeard(w, g[i].agent.caller, e);
    if g[i].child.Some? {
      assert ProcOk(w, g, g[i].child.value);
    }
  }

  lemma SelfSeen(w: World, g: Net, i: nat, e: Event, s': Session)
    requires Seen(w, g) && i < |g| && g[i].agent.Relay? && Possible(g, i, e) && e != Open(Opened)
    requires Next(w, g[i].agent.session, e) == Some(s')
    ensures SeenOk(g[i := g[i].(agent := Relay(s'))], i)
  {
    hide Next, AgentOk, AimOf, UpEnded, DownEnded, SeenIn, SeenBack;
    var s := g[i].agent.session;
    assert ProcOk(w, g, i) && SeenOk(g, i);
    EndsAreFound(w, s, e);
    SessionLogs(w, s, e);
    if g[i].child.Some? {
      assert ProcOk(w, g, g[i].child.value);
    }
  }

  lemma OtherSeen(w: World, g: Net, i: nat, e: Event, a: Agent, j: nat)
    requires Seen(w, g) && i < |g| && j < |g| && j != i && NextAgent(w, g[i].agent, e) == Some(a)
    ensures SeenOk(g[i := g[i].(agent := a)], j)
  {
    hide NextAgent, AgentOk, AimOf, UpEnded, DownEnded, SeenIn, SeenBack, Took, Gave, Sent, Got;
    assert SeenOk(g, j);
    if DownEnded(g[i].agent) {
      DownStaysEnded(w, g[i].agent, e);
    }
    if UpEnded(g[i].agent) {
      EndedStaysEnded(w, g[i].agent, e);
    }
  }

  lemma OpenSeen(w: World, g: Net, i: nat, a: Agent, x: Proc, j: nat)
    requires Seen(w, g) && i < |g| && j <= |g| && NextAgent(w, g[i].agent, Open(Opened)) == Some(a) && g[i].child.None?
    requires x.agent == Accepted(x.via)
    ensures SeenOk(g[i := g[i].(agent := a, child := Some(|g|))] + [x], j)
  {
    hide NextAgent, AgentOk, AimOf, UpEnded, DownEnded, Took, Gave, Sent, Got;
    if DownEnded(g[i].agent) {
      DownStaysEnded(w, g[i].agent, Open(Opened));
    }
    if UpEnded(g[i].agent) {
      EndedStaysEnded(w, g[i].agent, Open(Opened));
    }
    if j < |g| {
      assert SeenOk(g, j) && ProcOk(w, g, j);
      if j == i {
        OpensBeforeTheBridge(w, g[i].agent, a);
      }
    }
  }

  lemma OpensBeforeTheBridge(w: World, a: Agent, a': Agent)
    requires NextAgent(w, a, Open(Opened)) == Some(a')
    ensures a'.Relay? ==> !SeenIn(a'.session) && !SeenBack(a'.session)
    ensures a'.Dialer? ==> !HeardOut(a'.caller) && a'.caller.over != Some(Closed)
  {
    hide ValidUtf8, TakeMessage, PeerOf, Wanted, HopRefusal, Encode;
  }

  lemma SeenKeeps(w: World, g: Net, act: Action)
    requires Seen(w, g) && Step(w, g, act).Some?
    ensures Seen(w, Step(w, g, act).value)
  {
    hide NextAgent, AimOf, Possible, SeenOk;
    StepKeeps(w, g, act);
    var g' := Step(w, g, act).value;
    forall j: nat | j < |g'| ensures SeenOk(g', j) {
      if !act.Act? {
        RootSeen(w, g, act, j);
      } else {
        var a := NextAgent(w, g[act.i].agent, act.e).value;
        if act.e == Open(Opened) {
          OpenIsFirst(g, act.i);
          OpenSeen(w, g, act.i, a, g'[|g|], j);
        } else if j != act.i {
          OtherSeen(w, g, act.i, act.e, a, j);
        } else {
          OwnSeen(w, g, j, act.e, a);
        }
      }
    }
  }

  lemma OpenIsFirst(g: Net, i: nat)
    requires i < |g| && Possible(g, i, Open(Opened))
    ensures g[i].child.None?
  {}

  lemma OwnSeen(w: World, g: Net, i: nat, e: Event, a: Agent)
    requires Seen(w, g) && i < |g| && Possible(g, i, e) && e != Open(Opened) && NextAgent(w, g[i].agent, e) == Some(a)
    ensures SeenOk(g[i := g[i].(agent := a)], i)
  {
    hide Possible, Next, NextDial, NextFar;
    if g[i].agent.Relay? {
      SelfSeen(w, g, i, e, a.session);
    } else if g[i].agent.Dialer? {
      DialerSeen(w, g, i, e, a.caller);
    }
  }

  lemma RootSeen(w: World, g: Net, act: Action, j: nat)
    requires Seen(w, g) && !act.Act? && Step(w, g, act).Some? && j < |Step(w, g, act).value|
    ensures SeenOk(Step(w, g, act).value, j)
  {
    hide AimOf, NextAgent, Possible, SeenIn, SeenBack, UpEnded, DownEnded, AgentOk;
    if j < |g| {
      assert SeenOk(g, j);
    }
  }

  lemma {:induction false} RunSees(w: World, acts: seq<Action>)
    requires Run(w, acts).Some?
    ensures Seen(w, Run(w, acts).value) && Ends(w, Run(w, acts).value)
  {
    hide Step, Inv, SeenOk;
    RunEnds(w, acts);
    if acts == [] {
    } else {
      RunSees(w, acts[..|acts| - 1]);
      SeenKeeps(w, Run(w, acts[..|acts| - 1]).value, acts[|acts| - 1]);
    }
  }

  // ---------- Delivery ----------

  /** Every relay from `c` on, up to the one with the tunnel stream, has ended its bridge. */
  predicate AllBridged(g: Net, c: nat)
    decreases if c < |g| then |g| - c else 0
  {
    c < |g| && g[c].agent.Relay? && g[c].agent.session.over == Some(Bridged)
    && g[c].child.Some? && c < g[c].child.value < |g|
    && (g[g[c].child.value].via.Tunnel? || AllBridged(g, g[c].child.value))
  }

  /** A relay whose bridge has ended, between streams that were not lost: what it holds is what its
      neighbours wrote, and it has written all of it. */
  lemma BridgedRelay(w: World, g: Net, c: nat)
    requires Seen(w, g) && Ends(w, g) && AllBridged(g, c) && !Disturbed(g, c)
    ensures c < |g| && g[c].agent.Relay? && g[c].child.Some? && g[c].child.value < |g|
    ensures g[c].parent.Some? && g[c].parent.value < c < g[c].child.value && g[c].via.Jump?
    ensures g[c].agent.session.phase.Bridging?
    ensures var s, p, d := g[c].agent.session, g[c].parent.value, g[c].child.value;
      && s.phase.hops != []
      && s.took == Sent(g[p].agent) && s.got == Gave(g[d].agent)
      && exists downOut, upOut :: Relayed(s.phase.hops, s.took, s.gave, s.sent, s.got, [], [], downOut, upOut)
    ensures var d := g[c].child.value;
      && g[d].parent == Some(c) && !g[d].broken && (g[d].via.Tunnel? <==> |g[c].agent.session.phase.hops| == 1)
      && (g[d].via.Tunnel? ==> g[d].agent.Far? && !HasOpened(g[d].agent))
      && (g[d].via.Jump? ==> AllBridged(g, d) && !Disturbed(g, d))
  {
    hide ValidUtf8, Encode, TakeMessage, PeerOf, FirstPeer, Relayed, UpEnded, DownEnded;
    assert ProcOk(w, g, c) && EndOk(w, g, c) && SeenOk(g, c) && ProcOk(w, g, g[c].child.value);
    assert SeenIn(g[c].agent.session) && SeenBack(g[c].agent.session);
  }

  lemma {:induction false} BridgesDeliver(w: World, g: Net, c: nat)
    requires Seen(w, g) && Ends(w, g) && AllBridged(g, c) && !Disturbed(g, c)
    ensures TunnelEnd(g, c).Some? && TunnelEnd(g, c).value < |g| && g[c].agent.session.phase.Bridging?
    ensures var t := TunnelEnd(g, c).value;
      && g[t].parent.Some? && g[t].parent.value < |g|
      && ReadChain(Took(g[c].agent), g[c].agent.session.phase.hops, Sent(g[g[t].parent.value].agent))
      && Gave(g[c].agent) == OK_FRAME + Gave(g[t].agent)
    decreases |g| - c
  {
    hide ValidUtf8, Encode, Decode, TakeMessage, PeerOf, FirstPeer, Disturbed, Seen, Ends, AllBridged;
    BridgedRelay(w, g, c);
    var s, d := g[c].agent.session, g[c].child.value;
    var hops := s.phase.hops;
    var downOut, upOut :| Relayed(hops, s.took, s.gave, s.sent, s.got, [], [], downOut, upOut);
    assert downOut + [] == downOut && upOut + [] == upOut;
    if |hops| == 1 {
      assert s.sent == [] + downOut == downOut;
    } else {
      BridgedRelay(w, g, d);
      BridgesDeliver(w, g, d);
      var t := TunnelEnd(g, d).value;
      HeaderFits(s.took, hops, downOut);
      WriteThenRead(Chain(hops[1..]), downOut);
      OkFits();
      WriteThenRead(Result(Ok), Gave(g[t].agent));
    }
  }

  /** When every bridge of a dialer's chain has ended and no stream on the way was lost, all that the dialer
      wrote behind its chain frame was sent on the tunnel stream, and all that the far program wrote was
      given back behind the Ok. */
  lemma EverythingIsDelivered(w: World, acts: seq<Action>, g: Net, d: nat)
    requires Run(w, acts) == Some(g) && d < |g| && g[d].agent.Dialer? && g[d].child.Some?
    requires AllBridged(g, g[d].child.value) && !Disturbed(g, g[d].child.value)
    ensures var c, r := g[d].agent.caller, g[d].child.value;
      && c.jump != [] && ChainFrame(w, c.jump, c.target).Some? && TunnelEnd(g, r).Some? && TunnelEnd(g, r).value < |g|
      && var t := TunnelEnd(g, r).value;
        && g[t].parent.Some? && g[t].parent.value < |g|
        && c.sent == ChainFrame(w, c.jump, c.target).value + Sent(g[g[t].parent.value].agent)
        && Gave(g[r].agent) == OK_FRAME + Gave(g[t].agent)
  {
    hide ValidUtf8, Encode, Decode, TakeMessage, PeerOf, FirstPeer, HopTexts, Run, Disturbed, AllBridged, Relayed;
    RunSees(w, acts);
    assert ProcOk(w, g, d);
    var r := g[d].child.value;
    assert ProcOk(w, g, r);
    BridgedRelay(w, g, r);
    BridgesDeliver(w, g, r);
    var t := TunnelEnd(g, r).value;
    ChainIsTheOpeners(w, g, d, r, g[r].agent.session.phase.hops, Sent(g[g[t].parent.value].agent));
  }

  /** From a relay that writes no more upward, on streams that were not lost: all that the far program wrote
      has been given, behind the Ok. */
  lemma {:induction false} EndedUpward(w: World, g: Net, c: nat)
    requires Seen(w, g) && Ends(w, g) && c < |g| && g[c].agent.Relay? && !Disturbed(g, c)
    requires Reply(g[c].agent.session) == Some(Ok) && UpEnded(g[c].agent)
    ensures TunnelEnd(g, c).Some? && TunnelEnd(g, c).value < |g|
    ensures Gave(g[c].agent) == OK_FRAME + Gave(g[TunnelEnd(g, c).value].agent)
    decreases |g| - c
  {
    hide ValidUtf8, Encode, Decode, TakeMessage, PeerOf, FirstPeer, Frame;
    UpwardRelay(w, g, c);
    var s, d := g[c].agent.session, g[c].child.value;
    var downOut, upOut :| Relayed(s.phase.hops, s.took, s.gave, s.sent, s.got, s.phase.down, [], downOut, upOut);
    assert upOut + [] == upOut;
    if |s.phase.hops| == 1 {
    } else {
      ResultIsTheRelays(w, g, c, d, Ok, upOut);
      EndedUpward(w, g, d);
      OkFits();
      WriteThenRead(Result(Ok), Gave(g[TunnelEnd(g, d).value].agent));
    }
  }

  lemma UpwardRelay(w: World, g: Net, c: nat)
    requires Seen(w, g) && Ends(w, g) && c < |g| && g[c].agent.Relay? && !Disturbed(g, c)
    requires Reply(g[c].agent.session) == Some(Ok) && UpEnded(g[c].agent)
    ensures var s := g[c].agent.session;
      && s.phase.Bridging? && s.phase.hops != []
      && exists downOut, upOut ::
        Relayed(s.phase.hops, s.took, s.gave, s.sent, s.got, s.phase.down, [], downOut, upOut)
    ensures g[c].via.Jump? && g[c].child.Some? && c < g[c].child.value < |g|
    ensures var s, d := g[c].agent.session, g[c].child.value;
      && g[d].parent == Some(c) && !Disturbed(g, d) && UpEnded(g[d].agent) && s.got == Gave(g[d].agent)
      && (g[d].via.Tunnel? <==> |s.phase.hops| == 1) && (g[d].via.Jump? ==> g[d].agent.Relay?)
  {
    hide ValidUtf8, Encode, Decode, TakeMessage, PeerOf, FirstPeer, Relayed;
    assert ProcOk(w, g, c) && EndOk(w, g, c) && SeenOk(g, c);
    if g[c].agent.session.over == Some(Aborted) {
      AbortedMeansDisturbed(w, g, c);
    }
    assert ProcOk(w, g, g[c].child.value);
  }

  /** A dialer whose session has closed, with no stream on the way lost, has got the Ok and everything that
      the far program wrote. */
  lemma ClosedDialerHasEverything(w: World, acts: seq<Action>, g: Net, d: nat)
    requires Run(w, acts) == Some(g) && d < |g| && g[d].agent.Dialer? && g[d].agent.caller.over == Some(Closed)
    ensures g[d].child.Some? && g[d].child.value < |g|
    ensures var r := g[d].child.value;
      !Disturbed(g, r) ==>
        && TunnelEnd(g, r).Some? && TunnelEnd(g, r).value < |g|
        && g[d].agent.caller.got == OK_FRAME + Gave(g[TunnelEnd(g, r).value].agent)
  {
    hide ValidUtf8, Encode, Decode, TakeMessage, PeerOf, FirstPeer, HopTexts, Run, TunnelEnd, Reply, UpEnded;
    RunSees(w, acts);
    assert ProcOk(w, g, d) && SeenOk(g, d);
    var c, r := g[d].agent.caller, g[d].child.value;
    assert ProcOk(w, g, r);
    if !Disturbed(g, r) {
      var back :| ReadResult(c.got, Ok, back);
      ResultIsTheRelays(w, g, d, r, Ok, back);
      EndedUpward(w, g, r);
    }
  }

  // ---------- The cause of a silent end ----------

  /** Every hop before one was reached, and the relay before that one has ended for a cause of its own. */
  ghost predicate FailsAtAHop(w: World, g: Net, c: nat, hops: seq<Text>)
    decreases |hops|
  {
    && c < |g| && hops != [] && g[c].agent.Relay?
    && if !HasOpened(g[c].agent) then SilentCause(w, g[c].agent.session, hops)
       else
         && g[c].child.Some? && g[c].child.value < |g| && PeerOf(w, hops[0]) == Some(g[g[c].child.value].peer)
         && FailsAtAHop(w, g, g[c].child.value, hops[1..])
  }

  /** A handler that writes no more has written its whole chain frame, unless it was aborted. */
  lemma SentWhole(w: World, s: Session)
    requires Disciplined(w, s) && EndingFits(w, s) && HasOpened(Relay(s)) && |s.phase.hops| > 1
    requires DownEnded(Relay(s)) && s.over != Some(Aborted)
    ensures Wanted(s.sent) == 0
  {
    hide ValidUtf8, Encode, Decode, TakeMessage, PeerOf, Wanted;
    var f := Header(s.phase.hops).value;
    assert f <= s.sent;
    StartsWhole(Chain(s.phase.hops[1..]), f, s.sent);
  }

  lemma StartsWhole(m: Message, f: bytes, log: bytes)
    requires Written(m) == Some(f) && f <= log
    ensures Wanted(log) == 0
  {
    hide Encode;
    Be32RoundTrip(|Encode(m)|);
    assert f[..4] == Be32(|Encode(m)|) && log[..4] == f[..4];
  }

  lemma {:induction false} SilenceHasACause(w: World, g: Net, p: nat, c: nat, hops: seq<Text>)
    requires Seen(w, g) && Ends(w, g) && p < |g| && c < |g| && g[c].parent == Some(p) && g[c].agent.Relay?
    requires Told(w, g[p].agent) == Some(hops) && hops != []
    requires DownEnded(g[p].agent) ==> Wanted(Sent(g[p].agent)) == 0
    requires DecidedByEarliest(w, g, c, hops, Silent) && !Disturbed(g, c)
    ensures FailsAtAHop(w, g, c, hops)
    decreases |hops|
  {
    hide ValidUtf8, Encode, Decode, TakeMessage, PeerOf, FirstPeer, HopTexts, HopRefusal, Wanted, SilentCause;
    assert ProcOk(w, g, c) && EndOk(w, g, c) && SeenOk(g, c);
    var s := g[c].agent.session;
    if s.over == Some(Aborted) {
      AbortedMeansDisturbed(w, g, c);
      assert false;
    } else if !HasOpened(g[c].agent) {
      assert !CutOff(s);
    } else {
      var d := g[c].child.value;
      assert ProcOk(w, g, d);
      TellsTheRest(w, g, p, c, hops);
      if DownEnded(g[c].agent) {
        SentWhole(w, s);
      }
      SilenceHasACause(w, g, c, d, hops[1..]);
    }
  }

  /** A relay that has opened a jump stream tells it the hops behind its first. */
  lemma TellsTheRest(w: World, g: Net, p: nat, c: nat, hops: seq<Text>)
    requires Inv(w, g) && p < |g| && c < |g| && g[c].parent == Some(p) && g[c].agent.Relay? && HasOpened(g[c].agent)
    requires Told(w, g[p].agent) == Some(hops) && hops != []
    ensures g[c].agent.session.phase.hops == hops && (|hops| > 1 ==> Told(w, g[c].agent) == Some(hops[1..]))
  {
    hide ValidUtf8, Encode, Decode, TakeMessage, PeerOf, FirstPeer, HopTexts, Told;
    assert ProcOk(w, g, c);
    HopsWereRead(w, g[c].agent.session);
    var payload :| ReadChain(Took(g[c].agent), g[c].agent.session.phase.hops, payload);
    ChainIsTheOpeners(w, g, p, c, g[c].agent.session.phase.hops, payload);
    assert Told(w, g[c].agent) == if |hops| > 1 then Some(hops[1..]) else None by { ToldIs(w, g[c].agent); }
  }

  lemma ToldIs(w: World, a: Agent)
    requires a.Relay? && HasOpened(a)
    ensures Told(w, a) == if |a.session.phase.hops| > 1 then Some(a.session.phase.hops[1..]) else None
  {}

  /** A dialer that has lost its stream, though no stream on the way was lost: the relay before the earliest
      hop that was not reached has ended without a result, for one of the causes listed. */
  lemma LostHasACause(w: World, acts: seq<Action>, g: Net, d: nat)
    requires Run(w, acts) == Some(g) && d < |g| && g[d].agent.Dialer? && g[d].agent.caller.over == Some(Lost)
    ensures g[d].child.Some? && g[d].agent.caller.jump != []
    ensures var c, r := g[d].agent.caller, g[d].child.value;
      Disturbed(g, r) || FailsAtAHop(w, g, r, DialHops(w, c.jump, c.target))
  {
    hide ValidUtf8, Encode, Decode, TakeMessage, PeerOf, FirstPeer, HopTexts, Run, PathFate, Disturbed,
         DecidedByEarliest, FailsAtAHop;
    RunSees(w, acts);
    assert ProcOk(w, g, d) && EndOk(w, g, d);
    var c, r := g[d].agent.caller, g[d].child.value;
    assert ProcOk(w, g, r);
    OutcomeIsTheEarliestFailure(w, acts, g, d);
    DialFate(w, acts, g, d);
    WholeFrameWantsNothing(Chain(DialHops(w, c.jump, c.target)), c.sent);
    if !Disturbed(g, r) {
      SilenceHasACause(w, g, d, r, DialHops(w, c.jump, c.target));
    }
  }
}
