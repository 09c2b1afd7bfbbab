/** No deadlock: until a dialer has its verdict, it or a relay on its chain has an event of its own to come,
    on the way to its verdict or its bridge; and of those events there is a bounded number. */
module JumpProgress {
  import opened Wrappers
  import opened Bytes
  import opened Frames
  import opened Addresses
  import opened JumpSession
  import opened JumpNetwork
  import opened JumpTheorems

  /** A move of the protocol itself: a read, a write, an end seen, or the code between them. */
  predicate Inner(e: Event) { !e.Open? && !e.Close? && !e.Abort? }

  ghost predicate CanMove(w: World, g: Net, i: nat) {
    exists e :: Inner(e) && Step(w, g, Act(i, e)).Some?
  }

  /** The relay is inside its retry loop: what comes next is the answer of open_stream. */
  predicate IsOpening(g: Net, i: nat) {
    i < |g| && g[i].agent.Relay? && g[i].agent.session.phase.Opening? && g[i].agent.session.over.None?
  }

  /** Some process from `c` on, along the streams, is on its way to its verdict or its bridge and can move,
      or is opening its stream. What other programs, or ended bridges, can do is not counted. */
  ghost predicate Alive(w: World, g: Net, c: nat)
    decreases if c < |g| then |g| - c else 0
  {
    c < |g| && ((OnItsWay(g[c].agent) && CanMove(w, g, c)) || IsOpening(g, c)
      || (g[c].child.Some? && g[c].child.value > c && Alive(w, g, g[c].child.value)))
  }

  lemma Moves(w: World, g: Net, i: nat, e: Event)
    requires i < |g| && Inner(e) && Possible(g, i, e) && NextAgent(w, g[i].agent, e).Some?
    ensures CanMove(w, g, i)
  {
    hide Possible, NextAgent;
    assert Step(w, g, Act(i, e)).Some?;
  }

  /** A relay with something to write upstream, or nothing left to wait for, can move. */
  lemma WriterMoves(w: World, g: Net, c: nat)
    requires Inv(w, g) && c < |g| && g[c].agent.Relay? && g[c].agent.session.over.None?
    requires var s := g[c].agent.session;
      s.phase.RefusingEmpty? || s.phase.RefusingHop? || s.phase.PassingError?
        || s.phase.SayingOk? || s.phase.Forwarding?
    ensures CanMove(w, g, c)
  {
    hide ValidUtf8, Encode, Decode, TakeMessage, PeerOf, FirstPeer;
    assert ProcOk(w, g, c);
    var todo := g[c].agent.session.phase.todo;
    if todo == [] {
      Moves(w, g, c, Compute);
    } else if g[c].agent.session.phase.Forwarding? {
      Moves(w, g, c, Send(todo));
    } else {
      Moves(w, g, c, Give(todo));
    }
  }

  /** A reader with something queued can read. */
  lemma QueuedIsRead(w: World, g: Net, p: nat, c: nat)
    requires Inv(w, g) && p < c < |g| && g[p].child == Some(c) && WaitsForResult(w, g, p)
    requires Wanted(Got(g[p].agent)) > 0 && UpQueue(g, c) != []
    ensures CanMove(w, g, p)
  {
    hide ValidUtf8, Encode, Decode, TakeMessage, PeerOf, FirstPeer, Wanted, UpQueue, AgentOk;
    var b := UpQueue(g, c)[..1];
    Moves(w, g, p, Get(b));
  }

  /** The process has sent a whole chain frame and waits for the result. */
  ghost predicate WaitsForResult(w: World, g: Net, p: nat)
    requires p < |g|
  {
    match g[p].agent
    case Relay(s) => s.over.None? && s.phase.ReadingResult?
    case Dialer(c) => c.over.None? && c.phase.AwaitingResult? && c.jump != []
    case Far(_) => false
  }

  lemma WaiterHasSent(w: World, g: Net, p: nat)
    requires Inv(w, g) && p < |g| && WaitsForResult(w, g, p)
    ensures g[p].child.Some? && p < g[p].child.value < |g|
    ensures var c := g[p].child.value; g[c].parent == Some(p) && g[c].agent.Relay?
    ensures Told(w, g[p].agent).Some? && Written(Chain(Told(w, g[p].agent).value)) == Some(Sent(g[p].agent))
  {
    hide ValidUtf8, Encode, Decode, TakeMessage, PeerOf, FirstPeer, HopTexts;
    assert ProcOk(w, g, p);
    assert ProcOk(w, g, g[p].child.value);
  }

  lemma ReaderMoves(w: World, g: Net, p: nat, c: nat)
    requires Inv(w, g) && p < |g| && WaitsForResult(w, g, p) && g[p].child == Some(c) && c < |g|
    requires g[c].agent.Relay? && g[c].agent.session.over.None? && g[c].agent.session.phase.ReadingChain?
    ensures CanMove(w, g, c)
  {
    hide ValidUtf8, Encode, Decode, TakeMessage, PeerOf, FirstPeer, Told;
    WaiterHasSent(w, g, p);
    assert ProcOk(w, g, c);
    var s := g[c].agent.session;
    if Wanted(s.took) == 0 {
      Moves(w, g, c, Compute);
    } else {
      if DownQueue(g, c) == [] {
        assert s.took == Sent(g[p].agent);
        WholeFrameWantsNothing(Chain(Told(w, g[p].agent).value), s.took);
        assert false;
      }
      Moves(w, g, c, Take(DownQueue(g, c)[..1]));
    }
  }

  lemma WholeFrameWantsNothing(m: Message, f: bytes)
    requires Written(m) == Some(f)
    ensures Wanted(f) == 0
  {
    hide Encode;
    Be32RoundTrip(|Encode(m)|);
    assert f[..4] == Be32(|Encode(m)|);
  }

  lemma {:induction false} WaiterIsAlive(w: World, g: Net, p: nat)
    requires Inv(w, g) && p < |g| && WaitsForResult(w, g, p)
    ensures Alive(w, g, p)
    decreases |g| - p
  {
    hide ValidUtf8, Encode, Decode, TakeMessage, PeerOf, FirstPeer, Wanted, HopTexts, CanMove, Told, Frame, Written;
    WaiterHasSent(w, g, p);
    var c := g[p].child.value;
    var s := g[c].agent.session;
    assert ProcOk(w, g, p) && ProcOk(w, g, c);
    if Wanted(Got(g[p].agent)) == 0 {
      Moves(w, g, p, Compute);
    } else if UpQueue(g, c) != [] {
      QueuedIsRead(w, g, p, c);
    } else if UpEnded(g[c].agent) {
      Moves(w, g, p, EndBack);
    } else {
      match s.phase
      case ReadingChain => ReaderMoves(w, g, p, c);
      case Opening(_) =>
      case ReadingResult(_) => WaiterIsAlive(w, g, c);
      case Bridging(_, _, _, _, _) =>
        GivesOneResult(w, s);
        BridgeHasSaidOk(w, g, p, c);
        assert false;
      case _ => WriterMoves(w, g, c);
    }
  }

  lemma BridgeHasSaidOk(w: World, g: Net, p: nat, c: nat)
    requires Inv(w, g) && p < |g| && c < |g| && g[c].parent == Some(p) && g[c].agent.Relay?
    requires g[c].agent.session.phase.Bridging? && UpQueue(g, c) == [] && Arriving(Got(g[p].agent))
    ensures Wanted(Got(g[p].agent)) == 0
  {
    hide ValidUtf8, Encode, Decode, TakeMessage, PeerOf, FirstPeer, Got;
    assert ProcOk(w, g, c);
    var got := Got(g[p].agent);
    assert OK_FRAME <= got;
    OkIsWritten();
    WholeFrameWantsNothing(Result(Ok), OK_FRAME);
    assert got[..4] == OK_FRAME[..4];
  }

  /** In every state of every run: as long as a dialer that has its stream has no verdict, it can move,
      or a process along its chain can, or one is waiting for open_stream to answer. */
  lemma NoDeadlock(w: World, acts: seq<Action>, g: Net, d: nat)
    requires Run(w, acts) == Some(g) && d < |g| && g[d].agent.Dialer? && g[d].agent.caller.over.None?
    requires g[d].agent.caller.phase.WritingChain? || g[d].agent.caller.phase.AwaitingResult?
    ensures Alive(w, g, d)
  {
    hide ValidUtf8, Encode, Decode, TakeMessage, PeerOf, FirstPeer, HopTexts, Run, CanMove, Wanted;
    RunKeeps(w, acts);
    assert ProcOk(w, g, d);
    var c := g[d].agent.caller;
    if c.phase.AwaitingResult? {
      WaiterIsAlive(w, g, d);
    } else if c.phase.todo == [] {
      Moves(w, g, d, Compute);
    } else {
      Moves(w, g, d, Send(c.phase.todo));
    }
  }

  // ---------- Handlers come to an end ----------

  /** Rank of a handler, compared lexicographically: what is still ahead of it, and within that how much. */
  datatype Rank = Rank(stage: nat, left: nat)

  predicate Below(a: Rank, b: Rank) { a.stage < b.stage || (a.stage == b.stage && a.left < b.left) }

  function RankOf(s: Session): Rank {
    if s.over.Some? then Rank(0, 0)
    else match s.phase
      case ReadingChain => Rank(if |s.took| < 4 then 8 else 7, Wanted(s.took))
      case Opening(_) => Rank(6, if |s.attempts| < ATTEMPTS then ATTEMPTS - |s.attempts| else 0)
      case Forwarding(_, todo) => Rank(5, |todo|)
      case ReadingResult(_) => Rank(if |s.got| < 4 then 4 else 3, Wanted(s.got))
      case Bridging(_, _, _, _, _) => Rank(1, 0)
      case _ => Rank(2, |s.phase.todo|)
  }

  lemma ReadingRanks(got: bytes, b: bytes)
    requires Arriving(got) && b != [] && |b| <= Wanted(got)
    ensures |got + b| < 4 || |got| >= 4 ==> Wanted(got + b) < Wanted(got)
  {
    if |got| >= 4 {
      assert (got + b)[..4] == got[..4];
    }
  }

  /** Every event before the bridge brings a handler strictly closer to its end or to the bridge, so it
      cannot go on forever before either. */
  lemma HandlerAdvances(w: World, s: Session, e: Event)
    requires Disciplined(w, s) && !s.phase.Bridging? && Next(w, s, e).Some?
    ensures Below(RankOf(Next(w, s, e).value), RankOf(s))
  {
    hide ValidUtf8, Encode, Decode, TakeMessage, PeerOf, HopRefusal, Wanted, ReadChain, ReadResult, Linked, MaySayOk;
    match e
    case Take(b) => ReadingRanks(s.took, b);
    case Get(b) => ReadingRanks(s.got, b);
    case _ =>
  }

  // ---------- And so do chains ----------

  /** More than is ever left within a stage: frames are no longer than a u32 length and its 4 bytes. */
  const STAGE := U32_SIZE + 100_000

  function Weight(r: Rank): nat { r.stage * STAGE + r.left }

  /** The dialer's rank, up to its verdict. */
  function DialRank(c: Caller): Rank {
    if c.over.Some? then Rank(0, 0)
    else match c.phase
      case Starting => Rank(4, 0)
      case WritingChain(todo) => Rank(3, |todo|)
      case AwaitingResult => Rank(if |c.got| < 4 then 2 else 1, Wanted(c.got))
      case Talking(_, _, _) => Rank(0, 0)
  }

  /** What an agent still has to do before its bridge, or its verdict; other programs are not counted. */
  function Ahead(a: Agent): nat {
    match a
    case Relay(s) => Weight(RankOf(s))
    case Dialer(c) => Weight(DialRank(c))
    case Far(_) => 0
  }

  /** Events of this agent count as long as it is on its way there. */
  predicate OnItsWay(a: Agent) {
    match a
    case Relay(s) => !s.phase.Bridging?
    case Dialer(c) => !c.phase.Talking?
    case Far(_) => false
  }

  const AT_MOST := 9 * STAGE

  lemma WantedIsBounded(got: bytes)
    ensures Wanted(got) <= MAX_FRAME + 4
  {}

  lemma LeftIsBounded(w: World, s: Session)
    requires Disciplined(w, s)
    ensures RankOf(s).left < STAGE && RankOf(s).stage <= 8
  {
    hide ValidUtf8, Encode, Decode, TakeMessage, PeerOf, HopRefusal, Wanted;
    WantedIsBounded(s.took);
    WantedIsBounded(s.got);
    match s.phase
    case RefusingEmpty(todo) => TodoIsBounded(s.gave, todo, Result(Error(EMPTY_CHAIN)));
    case RefusingHop(_, m, todo) => TodoIsBounded(s.gave, todo, Result(Error(m)));
    case PassingError(_, m, todo) => TodoIsBounded(s.gave, todo, Result(Error(m)));
    case Forwarding(hops, todo) => TodoIsBounded(s.sent, todo, Chain(hops[1..]));
    case SayingOk(_, todo) =>
      OkIsWritten();
      TodoIsBounded(s.gave, todo, Result(Ok));
    case _ =>
  }

  lemma TodoIsBounded(log: bytes, todo: bytes, m: Message)
    requires Some(log + todo) == Written(m)
    ensures |todo| < STAGE
  {
    hide Encode;
    assert |log + todo| == |log| + |todo|;
  }

  lemma DialLeftIsBounded(w: World, c: Caller)
    requires DialOk(w, c)
    ensures DialRank(c).left < STAGE && DialRank(c).stage <= 4
  {
    hide ValidUtf8, Encode, Decode, TakeMessage, FirstPeer, Wanted, DialHops;
    WantedIsBounded(c.got);
    if c.phase.WritingChain? && c.over.None? {
      TodoIsBounded(c.sent, c.phase.todo, Chain(DialHops(w, c.jump, c.target)));
    }
  }

  lemma DialAdvances(w: World, c: Caller, e: Event)
    requires DialOk(w, c) && !c.phase.Talking? && NextDial(w, c, e).Some?
    ensures Below(DialRank(NextDial(w, c, e).value), DialRank(c))
  {
    hide ValidUtf8, Encode, Decode, TakeMessage, FirstPeer, Wanted, ChainFrame;
    if e.Get? {
      ReadingRanks(c.got, e.b);
    }
  }

  lemma BelowIsLighter(a: Rank, b: Rank)
    requires Below(a, b) && a.left < STAGE
    ensures Weight(a) < Weight(b)
  {
    assert a.stage < b.stage ==> a.stage * STAGE + STAGE <= b.stage * STAGE;
  }

  /** Every event of an agent on its way takes at least one from what is ahead of it; no event adds. */
  lemma EventsLighten(w: World, a: Agent, e: Event)
    requires AgentOk(w, a) && NextAgent(w, a, e).Some?
    ensures var a' := NextAgent(w, a, e).value;
      if OnItsWay(a) then Ahead(a') < Ahead(a) else !OnItsWay(a')
  {
    hide Disciplined, DialOk, Next, NextDial, RankOf, DialRank, Weight;
    AgentStepKeeps(w, a, e);
    match a
    case Relay(s) =>
      if s.phase.Bridging? {
        StaysBridging(w, s, e);
      } else {
        HandlerAdvances(w, s, e);
        LeftIsBounded(w, Next(w, s, e).value);
        BelowIsLighter(RankOf(Next(w, s, e).value), RankOf(s));
      }
    case Dialer(c) =>
      if c.phase.Talking? {
        StaysTalking(w, c, e);
      } else {
        DialAdvances(w, c, e);
        DialLeftIsBounded(w, NextDial(w, c, e).value);
        BelowIsLighter(DialRank(NextDial(w, c, e).value), DialRank(c));
      }
    case Far(_) =>
  }

  lemma StaysBridging(w: World, s: Session, e: Event)
    requires s.phase.Bridging? && Next(w, s, e).Some?
    ensures Next(w, s, e).value.phase.Bridging?
  {}

  lemma StaysTalking(w: World, c: Caller, e: Event)
    requires c.phase.Talking? && NextDial(w, c, e).Some?
    ensures NextDial(w, c, e).value.phase.Talking?
  {}

  /** How many events of process `i` a run has while that is on its way to its bridge or its verdict. */
  function Events(w: World, acts: seq<Action>, i: nat): nat {
    if acts == [] then 0
    else
      var g, last := Run(w, acts[..|acts| - 1]), acts[|acts| - 1];
      Events(w, acts[..|acts| - 1], i)
      + if g.Some? && i < |g.value| && last.Act? && last.i == i && OnItsWay(g.value[i].agent) then 1 else 0
  }

  lemma AtMostInAll(w: World, a: Agent)
    requires AgentOk(w, a)
    ensures Ahead(a) <= AT_MOST
  {
    hide Disciplined, DialOk;
    match a
    case Relay(s) => LeftIsBounded(w, s);
    case Dialer(c) => DialLeftIsBounded(w, c);
    case Far(_) =>
  }

  /** In every run, the events of a process on its way are bounded, whatever the others do. */
  lemma {:induction false} EventsAreBounded(w: World, acts: seq<Action>, i: nat)
    requires Run(w, acts).Some?
    ensures var g := Run(w, acts).value;
      if i < |g| then Events(w, acts, i) + (if OnItsWay(g[i].agent) then Ahead(g[i].agent) else 0) <= AT_MOST
      else Events(w, acts, i) == 0
  {
    hide Step, Ahead, OnItsWay, AgentOk, NextAgent;
    if acts == [] {
    } else {
      var front, act := acts[..|acts| - 1], acts[|acts| - 1];
      EventsAreBounded(w, front, i);
      RunKeeps(w, front);
      RunKeeps(w, acts);
      var g, g' := Run(w, front).value, Run(w, acts).value;
      if i < |g| {
        assert ProcOk(w, g, i);
        StepLightens(w, g, act, i);
      } else if i < |g'| {
        assert ProcOk(w, g', i);
        AtMostInAll(w, g'[i].agent);
      }
    }
  }

  /** One step: the agent of a process is another, and lighter, only by an event of its own. */
  lemma StepLightens(w: World, g: Net, act: Action, i: nat)
    requires Inv(w, g) && Step(w, g, act).Some? && i < |g|
    ensures i < |Step(w, g, act).value|
    ensures var a, a' := g[i].agent, Step(w, g, act).value[i].agent;
      if !(act.Act? && act.i == i) then a' == a
      else if OnItsWay(a) then Ahead(a') < Ahead(a)
      else !OnItsWay(a')
  {
    hide NextAgent, Ahead, OnItsWay, AgentOk, AimOf, Possible;
    assert ProcOk(w, g, i);
    if act.Act? && act.i == i {
      EventsLighten(w, g[i].agent, act.e);
    }
  }

  /** Events of the relays from `c` on, each on its way to its bridge. */
  function PathEvents(w: World, acts: seq<Action>, g: Net, c: nat): nat
    decreases if c < |g| then |g| - c else 0
  {
    if c >= |g| || !g[c].agent.Relay? then 0
    else
      Events(w, acts, c)
      + if g[c].child.Some? && g[c].child.value > c then PathEvents(w, acts, g, g[c].child.value) else 0
  }

  lemma {:induction false} PathEventsAreBounded(w: World, acts: seq<Action>, g: Net, c: nat)
    requires Run(w, acts) == Some(g)
    ensures PathEvents(w, acts, g, c) <= SpentBy(g, c).handlers * AT_MOST
    decreases if c < |g| then |g| - c else 0
  {
    hide Run, Events;
    if c >= |g| || !g[c].agent.Relay? {
    } else {
      EventsAreBounded(w, acts, c);
      if g[c].child.Some? && g[c].child.value > c {
        PathEventsAreBounded(w, acts, g, g[c].child.value);
      }
    }
  }

  /** A dialer's verdict takes a bounded number of events, over its whole path and in every run: no more
      than a constant for itself and for each of its jump addresses. */
  lemma VerdictIsBounded(w: World, acts: seq<Action>, g: Net, d: nat)
    requires Run(w, acts) == Some(g) && d < |g| && g[d].agent.Dialer? && g[d].child.Some?
    ensures var n := |g[d].agent.caller.jump|;
      Events(w, acts, d) + PathEvents(w, acts, g, g[d].child.value) <= (n + 1) * AT_MOST
  {
    hide Run, Events, PathEvents, SpentBy;
    EventsAreBounded(w, acts, d);
    PathEventsAreBounded(w, acts, g, g[d].child.value);
    DialCosts(w, acts, g, d);
    var n, h := |g[d].agent.caller.jump|, SpentBy(g, g[d].child.value).handlers;
    assert h * AT_MOST <= n * AT_MOST;
  }
}
