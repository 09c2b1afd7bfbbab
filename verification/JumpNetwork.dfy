/** Any number of dialers, relays and other programs, joined by libp2p streams, in any interleaving
    of single reads and writes.

    Process `i` of the network is the acceptor of stream `i`, opened by its parent. Either end keeps
    the bytes it has exchanged: what the opener has sent and the acceptor has not yet taken is the
    stream's downward queue, what the acceptor gave and the opener has not yet got is its upward queue. */
module JumpNetwork {
  import opened Wrappers
  import opened Bytes
  import opened Frames
  import opened Addresses
  import opened JumpSession

  // ---------- The dialer (the --jump branch of `run_dial`) ----------

  datatype DialPhase =
    | Starting
    | WritingChain(todo: bytes)
    | AwaitingResult
    | Talking(todo: bytes, stdinEnded: bool, backEnded: bool)

  datatype DialEnding =
    | NotStarted | OpenFailed | ChainTooLong | Lost | Rejected(message: Text) | ModeUnsupported | Closed | Interrupted

  datatype Caller = Caller(
    jump: seq<Multiaddr>, target: Multiaddr, netcat: bool,
    phase: DialPhase, sent: bytes, got: bytes, over: Option<DialEnding>)

  /** The hops sent to the first relay: the further jump addresses, then the target. */
  function HopTexts(w: World, addrs: seq<Multiaddr>): (hops: seq<Text>)
    ensures |hops| == |addrs|
    ensures forall i | 0 <= i < |addrs| :: hops[i] == w.show(addrs[i])
  {
    seq(|addrs|, i requires 0 <= i < |addrs| => w.show(addrs[i]))
  }

  function DialHops(w: World, jump: seq<Multiaddr>, target: Multiaddr): seq<Text>
    requires jump != []
  {
    HopTexts(w, jump[1..] + [target])
  }

  function ChainFrame(w: World, jump: seq<Multiaddr>, target: Multiaddr): Option<bytes>
    requires jump != []
  {
    Written(Chain(DialHops(w, jump, target)))
  }

  const NETCAT_FRAME: bytes := Frame(Encode(Request(Netcat)))

  function StopDial(c: Caller, e: DialEnding): Caller { c.(over := Some(e)) }

  function DialOpened(w: World, c: Caller): Caller
    requires c.jump != []
  {
    match ChainFrame(w, c.jump, c.target)
    case Some(f) => c.(phase := WritingChain(f))
    case None => StopDial(c.(phase := WritingChain([])), ChainTooLong)
  }

  function DialResultRead(c: Caller): Caller {
    match TakeMessage(ResultKind, c.got)
    case Received(m, _) =>
      if m.result.Error? then StopDial(c, Rejected(m.result.message))
      else if c.netcat then c.(phase := Talking(NETCAT_FRAME, false, false))
      else StopDial(c, ModeUnsupported)
    case _ => StopDial(c, Lost)
  }

  function NextDial(w: World, c: Caller, e: Event): Option<Caller> {
    if c.over.Some? || c.jump == [] then None
    else if e.Abort? then Some(StopDial(c, Interrupted))
    else match c.phase
      case Starting =>
        (match e
         case Close => Some(StopDial(c, NotStarted))
         case Open(a) =>
           if FirstPeer(c.jump[0]).None? then None
           else if a.Refused? then Some(StopDial(c, OpenFailed))
           else Some(DialOpened(w, c))
         case _ => None)
      case WritingChain(todo) =>
        (match e
         case Send(b) =>
           if Writes(todo, b) then Some(c.(sent := c.sent + b, phase := WritingChain(todo[|b|..]))) else None
         case Compute => if todo == [] then Some(c.(phase := AwaitingResult)) else None
         case _ => None)
      case AwaitingResult =>
        (match e
         case Get(b) => if b != [] && |b| <= Wanted(c.got) then Some(c.(got := c.got + b)) else None
         case EndBack => if Wanted(c.got) > 0 then Some(StopDial(c, Lost)) else None
         case Compute => if Wanted(c.got) == 0 then Some(DialResultRead(c)) else None
         case _ => None)
      case Talking(todo, stdinEnded, backEnded) =>
        (match e
         case Send(b) =>
           if todo != [] then
             if Writes(todo, b) then Some(c.(sent := c.sent + b, phase := c.phase.(todo := todo[|b|..]))) else None
           else if b != [] && !stdinEnded then Some(c.(sent := c.sent + b))
           else None
         case Get(b) => if b != [] && !backEnded then Some(c.(got := c.got + b)) else None
         case EndIn => if todo == [] then Some(c.(phase := c.phase.(stdinEnded := true))) else None
         case EndBack => Some(c.(phase := c.phase.(backEnded := true)))
         case Compute => if stdinEnded && backEnded then Some(StopDial(c, Closed)) else None
         case _ => None)
  }

  ghost predicate DialOk(w: World, c: Caller) {
    && c.jump != []
    && (c.phase.Starting? || FirstPeer(c.jump[0]).Some?)
    && match c.phase
      case Starting => c.sent == [] && c.got == []
      case WritingChain(todo) =>
        && c.got == []
        && if ChainFrame(w, c.jump, c.target).None? then c.sent == [] && c.over.Some?
           else Some(c.sent + todo) == ChainFrame(w, c.jump, c.target)
      case AwaitingResult => Some(c.sent) == ChainFrame(w, c.jump, c.target) && Arriving(c.got)
      case Talking(todo, _, _) =>
        && ChainFrame(w, c.jump, c.target).Some?
        && (exists stdin ::
              Spoken(ChainFrame(w, c.jump, c.target).value, c.sent + todo, stdin) && (todo != [] ==> stdin == []))
        && (exists back :: ReadResult(c.got, Ok, back))
  }

  /** `sent` is a chain frame, the netcat request, and what came from stdin. */
  ghost predicate Spoken(chain: bytes, sent: bytes, stdin: bytes) {
    sent == chain + (NETCAT_FRAME + stdin)
  }

  lemma DialStepKeeps(w: World, c: Caller, e: Event)
    requires DialOk(w, c) && NextDial(w, c, e).Some?
    ensures DialOk(w, NextDial(w, c, e).value)
  {
    hide ValidUtf8, Encode, FirstPeer, TakeMessage, ChainFrame, Spoken, Wanted;
    if c.phase.Talking? {
      DialTalkKeeps(w, c, e);
    } else if e.Open? {
      assert forall todo: bytes :: [] + todo == todo;
    } else if e.Send? {
      WrittenPart(c.sent, c.phase.todo, e.b);
    } else if e.Get? {
      ArrivingStep(c.got, e.b);
    } else if c.phase.AwaitingResult? && e.Compute? {
      DialResultKeeps(w, c);
    } else {
      assert c.sent + [] == c.sent;
    }
  }

  lemma DialResultKeeps(w: World, c: Caller)
    requires DialOk(w, c) && c.phase.AwaitingResult? && c.over.None? && Wanted(c.got) == 0
    ensures DialOk(w, DialResultRead(c))
  {
    hide ValidUtf8, Encode, FirstPeer, TakeMessage, ChainFrame;
    var none: bytes := [];
    assert NETCAT_FRAME + none == NETCAT_FRAME;
    var r := TakeMessage(ResultKind, c.got);
    if r.Received? && r.message.result.Ok? && c.netcat {
      assert ReadResult(c.got, Ok, r.rest);
      assert Spoken(ChainFrame(w, c.jump, c.target).value, c.sent + NETCAT_FRAME, none);
    }
  }

  lemma DialTalkKeeps(w: World, c: Caller, e: Event)
    requires DialOk(w, c) && NextDial(w, c, e).Some? && c.phase.Talking?
    ensures DialOk(w, NextDial(w, c, e).value)
  {
    hide ValidUtf8, Encode, FirstPeer, TakeMessage, ChainFrame;
    var c' := NextDial(w, c, e).value;
    var chain := ChainFrame(w, c.jump, c.target).value;
    var todo := c.phase.todo;
    var stdin :| Spoken(chain, c.sent + todo, stdin) && (todo != [] ==> stdin == []);
    var back :| ReadResult(c.got, Ok, back);
    if e.Send? {
      if todo != [] {
        WrittenPart(c.sent, todo, e.b);
        assert Spoken(chain, c'.sent + c'.phase.todo, stdin);
      } else {
        assert c.sent + [] == c.sent && c'.sent + [] == c'.sent;
        assert NETCAT_FRAME + (stdin + e.b) == NETCAT_FRAME + stdin + e.b;
        assert Spoken(chain, c'.sent + c'.phase.todo, stdin + e.b);
      }
    } else if e.Get? {
      PayloadGrows(ResultKind, c.got, e.b);
      assert ReadResult(c'.got, Ok, back + e.b);
    }
  }

  // ---------- Programs that are not part of the chain protocol ----------

  /** A listener at the end of a tunnel stream, or a client that opens a jump stream on its own: it may
      read and write anything. */
  datatype FarEnd = FarEnd(
    aim: Option<PeerId>, joined: bool,
    took: bytes, gave: bytes, sent: bytes, got: bytes, upEnded: bool, downEnded: bool)

  function NextFar(f: FarEnd, e: Event): Option<FarEnd> {
    match e
    case Take(b) => Some(f.(took := f.took + b))
    case Get(b) => if f.joined then Some(f.(got := f.got + b)) else None
    case Give(b) => if f.upEnded then None else Some(f.(gave := f.gave + b))
    case Send(b) => if f.joined && !f.downEnded then Some(f.(sent := f.sent + b)) else None
    case Open(a) =>
      if f.aim.None? || f.joined then None else if a.Refused? then Some(f) else Some(f.(joined := true))
    case EndIn => Some(f)
    case EndBack => Some(f)
    case Compute => Some(f.(upEnded := true))
    case Close => Some(f.(downEnded := true))
    case Abort => Some(f.(upEnded := true, downEnded := true))
  }

  // ---------- The network ----------

  datatype Agent = Relay(session: Session) | Dialer(caller: Caller) | Far(far: FarEnd)

  function Took(a: Agent): bytes {
    match a case Relay(s) => s.took case Dialer(_) => [] case Far(f) => f.took
  }

  function Gave(a: Agent): bytes {
    match a case Relay(s) => s.gave case Dialer(_) => [] case Far(f) => f.gave
  }

  function Sent(a: Agent): bytes {
    match a case Relay(s) => s.sent case Dialer(c) => c.sent case Far(f) => f.sent
  }

  function Got(a: Agent): bytes {
    match a case Relay(s) => s.got case Dialer(c) => c.got case Far(f) => f.got
  }

  /** The agent will write no more on its inbound stream. */
  predicate UpEnded(a: Agent) {
    match a
    case Relay(s) => s.over.Some? || (s.phase.Bridging? && s.phase.backEnded && s.phase.up == [])
    case Dialer(c) => c.over.Some?
    case Far(f) => f.upEnded
  }

  /** The agent will write no more on its outbound stream. */
  predicate DownEnded(a: Agent) {
    match a
    case Relay(s) => s.over.Some? || (s.phase.Bridging? && s.phase.inEnded && s.phase.down == [])
    case Dialer(c) => c.over.Some? || (c.phase.Talking? && c.phase.stdinEnded && c.phase.todo == [])
    case Far(f) => f.downEnded
  }

  predicate HasOpened(a: Agent) {
    match a
    case Relay(s) =>
      s.phase.Forwarding? || s.phase.ReadingResult? || s.phase.PassingError? || s.phase.SayingOk? || s.phase.Bridging?
    case Dialer(c) => !c.phase.Starting?
    case Far(f) => f.joined
  }

  datatype Via = Jump | Tunnel
  datatype Aim = Nowhere | At(peer: PeerId, via: Via)

  function RelayAim(w: World, hops: seq<Text>): Aim {
    if hops == [] then Nowhere
    else match PeerOf(w, hops[0])
      case None => Nowhere
      case Some(p) => At(p, if |hops| == 1 then Tunnel else Jump)
  }

  /** To which peer, and with which protocol, the agent opens its outbound stream. */
  function AimOf(w: World, a: Agent): Aim {
    match a
    case Relay(s) =>
      (match s.phase
       case ReadingChain => Nowhere
       case RefusingEmpty(_) => Nowhere
       case _ => RelayAim(w, s.phase.hops))
    case Dialer(c) =>
      if c.jump == [] || FirstPeer(c.jump[0]).None? then Nowhere else At(FirstPeer(c.jump[0]).value, Jump)
    case Far(f) => if f.aim.None? then Nowhere else At(f.aim.value, Jump)
  }

  function NextAgent(w: World, a: Agent, e: Event): Option<Agent> {
    match a
    case Relay(s) => (match Next(w, s, e) case None => None case Some(s') => Some(Relay(s')))
    case Dialer(c) => (match NextDial(w, c, e) case None => None case Some(c') => Some(Dialer(c')))
    case Far(f) => (match NextFar(f, e) case None => None case Some(f') => Some(Far(f')))
  }

  datatype Proc = Proc(agent: Agent, parent: Option<nat>, child: Option<nat>, peer: PeerId, via: Via, broken: bool)

  type Net = seq<Proc>

  datatype Action =
    | Act(i: nat, e: Event)
    | StartDial(peer: PeerId, jump: seq<Multiaddr>, target: Multiaddr, netcat: bool)
    | StartClient(peer: PeerId, aim: PeerId)
    | Break(i: nat)   // stream i is lost, for both ends and at any time

  /** Bytes on their way down to process i, oldest first. */
  function DownQueue(g: Net, i: nat): bytes {
    if i < |g| && g[i].parent.Some? && g[i].parent.value < |g|
       && |Took(g[i].agent)| <= |Sent(g[g[i].parent.value].agent)|
    then Sent(g[g[i].parent.value].agent)[|Took(g[i].agent)|..] else []
  }

  /** Bytes on their way up from process i, oldest first. */
  function UpQueue(g: Net, i: nat): bytes {
    if i < |g| && g[i].parent.Some? && g[i].parent.value < |g|
       && |Got(g[g[i].parent.value].agent)| <= |Gave(g[i].agent)|
    then Gave(g[i].agent)[|Got(g[g[i].parent.value].agent)|..] else []
  }

  /** Streams are FIFO: reads take from the front of a queue, and see its end only once the writer is
      done and the queue is empty, or when the stream is lost. */
  predicate Possible(g: Net, i: nat, e: Event)
    requires i < |g|
  {
    var p := g[i];
    var hasChild := p.child.Some? && p.child.value < |g|;
    match e
    case Take(b) => p.parent.Some? && b <= DownQueue(g, i)
    case Get(b) => hasChild && b <= UpQueue(g, p.child.value)
    case Give(_) => p.parent.Some?
    case Send(_) => hasChild
    case Open(_) => p.child.None?
    case EndIn =>
      !p.agent.Relay? || p.broken
      || (p.parent.Some? && p.parent.value < |g| && DownEnded(g[p.parent.value].agent) && DownQueue(g, i) == [])
    case EndBack =>
      hasChild && (g[p.child.value].broken || (UpEnded(g[p.child.value].agent) && UpQueue(g, p.child.value) == []))
    case Abort =>
      !p.agent.Relay? || p.broken || (hasChild && g[p.child.value].broken)
    case _ => true
  }

  function Accepted(via: Via): Agent {
    match via
    case Jump => Relay(FRESH)
    case Tunnel => Far(FarEnd(None, false, [], [], [], [], false, false))
  }

  function Step(w: World, g: Net, act: Action): Option<Net> {
    match act
    case StartDial(peer, jump, target, netcat) =>
      if jump == [] then None
      else Some(g + [Proc(Dialer(Caller(jump, target, netcat, Starting, [], [], None)), None, None, peer, Jump, false)])
    case StartClient(peer, aim) =>
      Some(g + [Proc(Far(FarEnd(Some(aim), false, [], [], [], [], false, false)), None, None, peer, Jump, false)])
    case Break(i) => if i < |g| then Some(g[i := g[i].(broken := true)]) else None
    case Act(i, e) =>
      if i >= |g| || !Possible(g, i, e) then None
      else match NextAgent(w, g[i].agent, e)
        case None => None
        case Some(a) =>
          if e == Open(Opened) then
            match AimOf(w, g[i].agent)
            case Nowhere => None
            case At(peer, via) =>
              if peer == g[i].peer then None  // no node opens a stream to itself
              else Some(g[i := g[i].(agent := a, child := Some(|g|))]
                        + [Proc(Accepted(via), Some(i), None, peer, via, false)])
          else Some(g[i := g[i].(agent := a)])
  }

  /** The network after a run of actions from nothing, if each of them was possible. */
  function Run(w: World, acts: seq<Action>): Option<Net> {
    if acts == [] then Some([])
    else match Run(w, acts[..|acts| - 1])
      case None => None
      case Some(g) => Step(w, g, acts[|acts| - 1])
  }

  // ---------- The invariant ----------

  ghost predicate AgentOk(w: World, a: Agent) {
    match a
    case Relay(s) => Disciplined(w, s)
    case Dialer(c) => DialOk(w, c)
    case Far(f) => if f.joined then f.aim.Some? else f.sent == [] && f.got == []
  }

  ghost predicate ChildOk(w: World, g: Net, i: nat)
    requires i < |g|
  {
    var p := g[i];
    && (p.child.Some? <==> HasOpened(p.agent))
    && (p.child.Some? ==>
        var c := p.child.value;
        i < c < |g| && g[c].parent == Some(i) && AimOf(w, p.agent) == At(g[c].peer, g[c].via) && g[c].peer != p.peer)
  }

  predicate ParentOk(g: Net, i: nat)
    requires i < |g|
  {
    var p := g[i];
    match p.parent
    case None => !p.agent.Relay? && Took(p.agent) == [] && Gave(p.agent) == []
    case Some(q) =>
      && q < i && g[q].child == Some(i)
      && (if p.via.Jump? then p.agent.Relay? else p.agent.Far? && p.agent.far.aim.None?)
      && Took(p.agent) <= Sent(g[q].agent)
      && Got(g[q].agent) <= Gave(p.agent)
  }

  ghost predicate ProcOk(w: World, g: Net, i: nat)
    requires i < |g|
  {
    AgentOk(w, g[i].agent) && ChildOk(w, g, i) && ParentOk(g, i)
  }

  ghost predicate Inv(w: World, g: Net) {
    forall i: nat | i < |g| :: ProcOk(w, g, i)
  }

  /** An event changes the logs of one agent by exactly the bytes it names. */
  lemma AgentLogs(w: World, a: Agent, e: Event)
    requires NextAgent(w, a, e).Some?
    ensures var a' := NextAgent(w, a, e).value;
      && Took(a') == (if e.Take? then Took(a) + e.b else Took(a))
      && Gave(a') == (if e.Give? then Gave(a) + e.b else Gave(a))
      && Sent(a') == (if e.Send? then Sent(a) + e.b else Sent(a))
      && Got(a') == (if e.Get? then Got(a) + e.b else Got(a))
      && (a'.Relay? <==> a.Relay?) && (a'.Far? <==> a.Far?)
      && (a.Far? ==> a'.far.aim == a.far.aim)
  {
    hide Next, NextDial, ValidUtf8;
    match a
    case Relay(s) => SessionLogs(w, s, e);
    case Dialer(c) => DialLogs(w, c, e);
    case Far(_) =>
  }

  lemma DialLogs(w: World, c: Caller, e: Event)
    requires NextDial(w, c, e).Some?
    ensures var c' := NextDial(w, c, e).value;
      && c'.sent == (if e.Send? then c.sent + e.b else c.sent)
      && c'.got == (if e.Get? then c.got + e.b else c.got)
      && c'.jump == c.jump && c'.target == c.target && c'.netcat == c.netcat
      && !e.Take? && !e.Give?
      && (c'.phase.Starting? <==> c.phase.Starting? && e != Open(Opened))
      && (e == Open(Opened) ==> c.phase.Starting?)
  {
    hide ValidUtf8, FirstPeer, TakeMessage, ChainFrame, Wanted;
  }

  lemma AgentAims(w: World, a: Agent, e: Event)
    requires AgentOk(w, a) && NextAgent(w, a, e).Some?
    ensures var a' := NextAgent(w, a, e).value;
      && (HasOpened(a') <==> HasOpened(a) || e == Open(Opened))
      && (HasOpened(a') ==> AimOf(w, a') == AimOf(w, a))
      && (e == Open(Opened) ==> !HasOpened(a))
  {
    hide Next, NextDial, ValidUtf8, FirstPeer;
    match a
    case Relay(s) => SessionAims(w, s, e);
    case Dialer(c) => DialLogs(w, c, e);
    case Far(_) =>
  }

  lemma SessionAims(w: World, s: Session, e: Event)
    requires Disciplined(w, s) && Next(w, s, e).Some?
    ensures var a, a' := Relay(s), Relay(Next(w, s, e).value);
      && (HasOpened(a') <==> HasOpened(a) || e == Open(Opened))
      && (HasOpened(a') ==> AimOf(w, a') == AimOf(w, a))
      && (e == Open(Opened) ==> !HasOpened(a))
  {
    hide ValidUtf8, PeerOf, TakeMessage, Encode, HopRefusal, Wanted, Linked, ReadChain, ReadResult, MaySayOk;
    if s.phase.Opening? {
      HeaderFits(s.took, s.phase.hops, []);
    }
  }

  lemma AgentStepKeeps(w: World, a: Agent, e: Event)
    requires AgentOk(w, a) && NextAgent(w, a, e).Some?
    ensures AgentOk(w, NextAgent(w, a, e).value)
  {
    match a
    case Relay(s) => SessionStepKeeps(w, s, e);
    case Dialer(c) => DialStepKeeps(w, c, e);
    case Far(f) =>
  }

  lemma Unopened(w: World, a: Agent)
    requires AgentOk(w, a) && !HasOpened(a)
    ensures Sent(a) == [] && Got(a) == []
  {
    hide ValidUtf8, TakeMessage, Encode, FirstPeer, PeerOf;
  }

  /** Reads only ever take what is queued. */
  lemma ReadsStayBehind(g: Net, i: nat, e: Event)
    requires i < |g| && ParentOk(g, i) && Possible(g, i, e)
    requires g[i].child.Some? ==> g[i].child.value < |g| && g[i].child.value > i && ParentOk(g, g[i].child.value)
    ensures e.Take? ==> g[i].parent.Some? && Took(g[i].agent) + e.b <= Sent(g[g[i].parent.value].agent)
    ensures e.Give? ==> g[i].parent.Some?
    ensures e.Get? && g[i].child.Some? && g[g[i].child.value].parent == Some(i) ==>
      Got(g[i].agent) + e.b <= Gave(g[g[i].child.value].agent)
  {
    hide Took, Gave, Sent, Got, UpEnded, DownEnded;
    if e.Take? {
      PrefixExtends(Took(g[i].agent), e.b, Sent(g[g[i].parent.value].agent));
    } else if e.Get? {
      var c := g[i].child.value;
      if g[c].parent == Some(i) {
        PrefixExtends(Got(g[i].agent), e.b, Gave(g[c].agent));
      }
    }
  }

  lemma PrefixExtends(a: bytes, b: bytes, c: bytes)
    requires a <= c && b <= c[|a|..]
    ensures a + b <= c
  {
    assert c == a + c[|a|..];
  }

  /** What an event at `i` leaves true of process `j`. */
  lemma ActKeeps(w: World, g: Net, i: nat, e: Event, a: Agent, j: nat)
    requires Inv(w, g) && i < |g| && j < |g| && Possible(g, i, e)
    requires NextAgent(w, g[i].agent, e) == Some(a) && e != Open(Opened)
    ensures ProcOk(w, g[i := g[i].(agent := a)], j)
  {
    hide NextAgent, AgentOk, AimOf, HasOpened, Took, Gave, Sent, Got, Possible, DownQueue, UpQueue;
    var g' := g[i := g[i].(agent := a)];
    assert ProcOk(w, g, i) && ProcOk(w, g, j);
    AgentStepKeeps(w, g[i].agent, e);
    AgentLogs(w, g[i].agent, e);
    AgentAims(w, g[i].agent, e);
    if g[i].child.Some? {
      assert ProcOk(w, g, g[i].child.value);
    }
    ReadsStayBehind(g, i, e);
  }

  lemma OpenKeeps(w: World, g: Net, i: nat, a: Agent, peer: PeerId, via: Via, j: nat)
    requires Inv(w, g) && i < |g| && j <= |g| && Possible(g, i, Open(Opened))
    requires NextAgent(w, g[i].agent, Open(Opened)) == Some(a) && AimOf(w, g[i].agent) == At(peer, via)
    requires peer != g[i].peer
    ensures ProcOk(w, g[i := g[i].(agent := a, child := Some(|g|))]
      + [Proc(Accepted(via), Some(i), None, peer, via, false)], j)
  {
    hide NextAgent, AgentOk, AimOf, HasOpened, Took, Gave, Sent, Got, DownQueue, UpQueue;
    assert ProcOk(w, g, i);
    AgentStepKeeps(w, g[i].agent, Open(Opened));
    AgentLogs(w, g[i].agent, Open(Opened));
    AgentAims(w, g[i].agent, Open(Opened));
    Unopened(w, g[i].agent);
    AcceptedOk(w, via);
    if j < |g| {
      assert ProcOk(w, g, j);
    }
  }

  lemma AcceptedOk(w: World, via: Via)
    ensures var a := Accepted(via);
      && AgentOk(w, a) && !HasOpened(a) && Took(a) == [] && Gave(a) == []
      && (if via.Jump? then a.Relay? else a.Far? && a.far.aim.None?)
  {}

  lemma StepKeeps(w: World, g: Net, act: Action)
    requires Inv(w, g) && Step(w, g, act).Some?
    ensures Inv(w, Step(w, g, act).value)
  {
    hide AgentOk, AimOf, NextAgent, Possible;
    var g' := Step(w, g, act).value;
    forall j: nat | j < |g'| ensures ProcOk(w, g', j) {
      if act.Act? {
        var a := NextAgent(w, g[act.i].agent, act.e).value;
        if act.e == Open(Opened) {
          var At(peer, via) := AimOf(w, g[act.i].agent);
          OpenKeeps(w, g, act.i, a, peer, via, j);
        } else {
          ActKeeps(w, g, act.i, act.e, a, j);
        }
      } else {
        RootKeeps(w, g, act, j);
      }
    }
  }

  lemma RootKeeps(w: World, g: Net, act: Action, j: nat)
    requires Inv(w, g) && !act.Act? && Step(w, g, act).Some? && j < |Step(w, g, act).value|
    ensures ProcOk(w, Step(w, g, act).value, j)
  {
    hide AimOf, NextAgent, Possible, Disciplined;
    if j < |g| {
      assert ProcOk(w, g, j);
    }
  }

  /** Every state of every run satisfies the invariant. */
  lemma {:induction false} RunKeeps(w: World, acts: seq<Action>)
    requires Run(w, acts).Some?
    ensures Inv(w, Run(w, acts).value)
  {
    hide Step, Inv;
    if acts != [] {
      RunKeeps(w, acts[..|acts| - 1]);
      StepKeeps(w, Run(w, acts[..|acts| - 1]).value, acts[|acts| - 1]);
    } else {
      EmptyOk(w);
    }
  }

  lemma EmptyOk(w: World)
    ensures Inv(w, [])
  {}
}
