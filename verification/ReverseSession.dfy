/** Reverse forwarding as a state machine (src/forward/reverse.rs, src/client/listen.rs,
    src/client/dial.rs): one listener, any number of dialers, clients and other peers, and every
    interleaving of what they do. */
module ReverseSession {
  import opened Wrappers
  import opened Bytes
  import opened Frames
  import opened Addresses
  import opened ReverseAck

  /** What a dialer asks for. */
  datatype Ask = Ask(bindPort: u16, target: Text, gatewayPorts: bool)

  function AskMessage(a: Ask): Message { Request(ReverseForward(a.bindPort, a.target, a.gatewayPorts)) }

  /** What goes with each accepted client: the target, and nothing else of the request. */
  function ReturnMessage(target: Text): Message { Request(ReverseForward(0, target, false)) }

  /** Who opened a tunnel stream: a dialer for its request, the listener for a client of a port it has
      bound, or some other program. */
  datatype Opener = ForRequest(dialer: nat) | ForClient(bind: nat) | Unknown

  /** What `start_reverse_listener` returned, and where its accept loop is. */
  datatype BindResult = Bound(bind: nat) | NotBound(reason: Text)

  /** What the program that accepted a stream is doing with it. */
  datatype Service =
    | Waiting                            // not taken up yet
    | Reading                            // in `read_tunnel_request`
    | Binding(ask: Ask)                  // in `start_reverse_listener`
    | Acking(result: BindResult, todo: bytes)
    | Connecting(target: Text)           // handed to `handle_forward_to_target`
    | Finished

  /** A tunnel stream. Its opener keeps `sent` and `got`, its acceptor `took` and `gave`. */
  datatype Tunnel = Tunnel(
    source: PeerId, dest: PeerId, opener: Opener,
    sent: bytes, took: bytes, gave: bytes, got: bytes, service: Service)

  /** A port that the listener has bound, for the peer and the ask of the request on a stream. It is never
      closed. */
  datatype Bind = Bind(peer: PeerId, ask: Ask, port: u16, stream: nat)

  /** What `TcpListener::bind` came to. */
  datatype BindCall = GotPort(port: u16) | BindFailed(reason: Text)

  datatype Stage = Requesting | Writing | AwaitingAck | Dispatching | Failed

  datatype Dialer = Dialer(peer: PeerId, ask: Ask, stage: Stage, stream: nat)

  datatype State = State(
    me: PeerId, allowed: set<PeerId>, dialers: seq<Dialer>, binds: seq<Bind>, streams: seq<Tunnel>)

  datatype Action =
    | StartDialer(peer: PeerId, ask: Ask)
    | OpenRequest(d: nat)
    | OpenOther(source: PeerId, dest: PeerId)
    | ClientConnects(k: nat)
    | OpenerWrites(i: nat, b: bytes)
    | ListenerTakes(i: nat)
    | DialerTakes(i: nat, d: nat)
    | AcceptorReads(i: nat, b: bytes)
    | AcceptorDecodes(i: nat)
    | ListenerBinds(i: nat, call: BindCall)
    | ListenerAcks(i: nat, b: bytes)
    | AwaitAck(d: nat)
    | DialerReadsAck(d: nat, b: bytes)
    | DialerDecides(d: nat)

  function Start(me: PeerId, allowed: set<PeerId>): State { State(me, allowed, [], [], []) }

  /** What the opener of a stream writes first, if it is one of this protocol's. */
  function FirstMessage(dialers: seq<Dialer>, binds: seq<Bind>, o: Opener): Option<Message> {
    match o
    case ForRequest(d) => if d < |dialers| then Some(AskMessage(dialers[d].ask)) else None
    case ForClient(k) => if k < |binds| then Some(ReturnMessage(binds[k].ask.target)) else None
    case Unknown => None
  }

  /** `log` is part of the frame of `m`; with more behind the frame only if `more`. */
  predicate WritesOnly(log: bytes, m: Message, more: bool) {
    log == [] || (Written(m).Some? && (log <= Written(m).value || (more && Written(m).value <= log)))
  }

  /** A dialer writes its request and nothing else; the listener writes its request and then what the
      client sends; others write anything. */
  predicate MayWrite(s: State, t: Tunnel, b: bytes) {
    t.opener.Unknown?
    || (var m := FirstMessage(s.dialers, s.binds, t.opener);
        m.Some? && WritesOnly(t.sent + b, m.value, t.opener.ForClient?))
  }

  function NewTunnel(source: PeerId, dest: PeerId, opener: Opener): Tunnel {
    Tunnel(source, dest, opener, [], [], [], [], Waiting)
  }

  function OnStream(s: State, i: nat, t: Tunnel): State
    requires i < |s.streams|
  {
    s.(streams := s.streams[i := t])
  }

  function OnDialer(s: State, d: nat, c: Dialer): State
    requires d < |s.dialers|
  {
    s.(dialers := s.dialers[d := c])
  }

  /** What the listener, or a dialer, makes of a request that has arrived. */
  function ServiceFor(listener: bool, took: bytes): (r: Service)
    ensures r.Connecting? || r.Finished? || (r.Binding? && listener)
  {
    match TakeMessage(RequestKind, took)
    case Received(m, _) =>
      (match m.request
       case ReverseForward(p, t, g) => if listener then Binding(Ask(p, t, g)) else Connecting(t)
       case LocalForward(t) => if listener then Connecting(t) else Finished
       case Netcat => Finished)
    case _ => Finished
  }

  /** What decoding makes of a stream, from the request itself: at the listener a netcat session, a target
      to connect to, or a port to bind as asked; at a dialer only the target of a reverse forward. */
  lemma DecodedService(s: State, i: nat, q: TunnelRequest, rest: bytes)
    requires Step(s, AcceptorDecodes(i)).Some?
    ensures var t, t' := s.streams[i], Step(s, AcceptorDecodes(i)).value.streams[i];
      && (TakeMessage(RequestKind, t.took) == Received(Request(q), rest) ==>
            t'.service == match q
              case Netcat => Finished
              case LocalForward(target) => if t.dest == s.me then Connecting(target) else Finished
              case ReverseForward(port, target, gatewayPorts) =>
                if t.dest == s.me then Binding(Ask(port, target, gatewayPorts)) else Connecting(target))
      && (!TakeMessage(RequestKind, t.took).Received? ==> t'.service == Finished)
  {
    hide ValidUtf8, TakeMessage, Wanted;
  }

  function FailureOf(r: BindResult): Option<Text> {
    match r
    case Bound(_) => None
    case NotBound(reason) => Some(reason)
  }

  /** A port can be bound if it is the one asked for, or any one for an ask of port 0, and if no socket
      listens on it yet, be it on the loopback address or on all. */
  predicate CanBind(binds: seq<Bind>, ask: Ask, port: u16) {
    port != 0 && (ask.bindPort == 0 || ask.bindPort == port) && forall k | 0 <= k < |binds| :: binds[k].port != port
  }

  predicate IsAllowed(s: State, p: PeerId) { s.allowed == {} || p in s.allowed }

  /** A step, or `None` where the action is not possible. */
  function Step(s: State, a: Action): Option<State> {
    match a
    case StartDialer(peer, ask) =>
      if peer == s.me then None else Some(s.(dialers := s.dialers + [Dialer(peer, ask, Requesting, 0)]))
    case OpenRequest(d) =>
      if d < |s.dialers| && s.dialers[d].stage.Requesting? then
        Some(s.(dialers := s.dialers[d := s.dialers[d].(stage := Writing, stream := |s.streams|)],
                streams := s.streams + [NewTunnel(s.dialers[d].peer, s.me, ForRequest(d))]))
      else None
    case OpenOther(source, dest) =>
      if source == s.me || source == dest then None
      else Some(s.(streams := s.streams + [NewTunnel(source, dest, Unknown)]))
    case ClientConnects(k) =>
      if k < |s.binds| then Some(s.(streams := s.streams + [NewTunnel(s.me, s.binds[k].peer, ForClient(k))])) else None
    case OpenerWrites(i, b) =>
      if i < |s.streams| && MayWrite(s, s.streams[i], b) then
        Some(OnStream(s, i, s.streams[i].(sent := s.streams[i].sent + b)))
      else None
    case ListenerTakes(i) =>
      if i < |s.streams| && s.streams[i].dest == s.me && s.streams[i].service.Waiting? then
        Some(OnStream(s, i, s.streams[i].(service := if IsAllowed(s, s.streams[i].source) then Reading else Finished)))
      else None
    case DialerTakes(i, d) =>
      if i < |s.streams| && d < |s.dialers| && s.dialers[d].stage.Dispatching?
         && s.streams[i].dest == s.dialers[d].peer && s.streams[i].service.Waiting? then
        Some(OnStream(s, i, s.streams[i].(service := Reading)))
      else None
    case AcceptorReads(i, b) =>
      if i < |s.streams| && s.streams[i].service.Reading? && |b| <= Wanted(s.streams[i].took)
         && s.streams[i].took + b <= s.streams[i].sent then
        Some(OnStream(s, i, s.streams[i].(took := s.streams[i].took + b)))
      else None
    case AcceptorDecodes(i) =>
      if i < |s.streams| && s.streams[i].service.Reading? && Wanted(s.streams[i].took) == 0 then
        Some(OnStream(s, i, s.streams[i].(service := ServiceFor(s.streams[i].dest == s.me, s.streams[i].took))))
      else None
    case ListenerBinds(i, call) =>
      if i < |s.streams| && s.streams[i].service.Binding? then
        var t := s.streams[i];
        match call
        case BindFailed(reason) => Some(OnStream(s, i, t.(service := Acking(NotBound(reason), AckBytes(Some(reason))))))
        case GotPort(port) =>
          if CanBind(s.binds, t.service.ask, port) then
            Some(OnStream(s, i, t.(service := Acking(Bound(|s.binds|), AckBytes(None))))
                 .(binds := s.binds + [Bind(t.source, t.service.ask, port, i)]))
          else None
      else None
    case ListenerAcks(i, b) =>
      if i < |s.streams| && s.streams[i].service.Acking? && b <= s.streams[i].service.todo then
        var t := s.streams[i];
        Some(OnStream(s, i, t.(gave := t.gave + b, service := t.service.(todo := t.service.todo[|b|..]))))
      else None
    case AwaitAck(d) =>
      if d < |s.dialers| && s.dialers[d].stage.Writing? && s.dialers[d].stream < |s.streams|
         && Some(s.streams[s.dialers[d].stream].sent) == Written(AskMessage(s.dialers[d].ask)) then
        Some(OnDialer(s, d, s.dialers[d].(stage := AwaitingAck)))
      else None
    case DialerReadsAck(d, b) =>
      if d < |s.dialers| && s.dialers[d].stage.AwaitingAck? && s.dialers[d].stream < |s.streams|
         && s.streams[s.dialers[d].stream].got + b <= s.streams[s.dialers[d].stream].gave then
        var i := s.dialers[d].stream;
        Some(OnStream(s, i, s.streams[i].(got := s.streams[i].got + b)))
      else None
    case DialerDecides(d) =>
      if d < |s.dialers| && s.dialers[d].stage.AwaitingAck? && s.dialers[d].stream < |s.streams| then
        var accepted := TakeAck(s.streams[s.dialers[d].stream].got) == Accepted;
        Some(OnDialer(s, d, s.dialers[d].(stage := if accepted then Dispatching else Failed)))
      else None
  }

  /** A run from `s`, if every action of it is possible. */
  function Run(s: State, acts: seq<Action>): Option<State>
    decreases |acts|
  {
    if acts == [] then Some(s)
    else match Step(s, acts[0])
      case None => None
      case Some(s') => Run(s', acts[1..])
  }

  /** Which runs are considered: all, or only those in which every dialer with the identity `peer` asks for
      one of `asks`, and other programs open tunnel streams to that peer, or to the listener under its
      identity, only if that is allowed. */
  datatype Rule = Anything | Only(peer: PeerId, asks: set<Ask>, toPeer: bool, asPeer: bool)

  predicate Permits(me: PeerId, rule: Rule, a: Action) {
    rule.Only? ==>
      match a
      case StartDialer(p, ask) => p == rule.peer ==> ask in rule.asks
      case OpenOther(source, dest) =>
        (dest == rule.peer ==> rule.toPeer) && (source == rule.peer && dest == me ==> rule.asPeer)
      case _ => true
  }

  ghost predicate Leads(rule: Rule, s: State, s': State) {
    exists acts :: (forall a | a in acts :: Permits(s.me, rule, a)) && Run(s, acts) == Some(s')
  }

  // ---------- The invariant ----------

  predicate OpenerOk(me: PeerId, dialers: seq<Dialer>, binds: seq<Bind>, i: nat, t: Tunnel) {
    match t.opener
    case Unknown => t.source != me
    case ForRequest(d) =>
      && d < |dialers| && dialers[d].stream == i && !dialers[d].stage.Requesting?
      && t.source == dialers[d].peer && t.source != me && t.dest == me
      && WritesOnly(t.sent, AskMessage(dialers[d].ask), false)
    case ForClient(k) =>
      && k < |binds| && t.source == me && t.dest == binds[k].peer && t.dest != me
      && WritesOnly(t.sent, ReturnMessage(binds[k].ask.target), true)
  }

  predicate LogsOk(t: Tunnel) {
    && t.took <= t.sent && t.got <= t.gave && Arriving(t.took)
    && (t.service.Waiting? ==> t.took == [])
    && (!t.service.Acking? ==> t.gave == [])
    && (t.service.Acking? ==> t.gave + t.service.todo == AckBytes(FailureOf(t.service.result)))
  }

  predicate ServiceOk(me: PeerId, binds: seq<Bind>, i: nat, t: Tunnel) {
    match t.service
    case Waiting => true
    case Reading => true
    case Binding(ask) => t.dest == me && ServiceFor(true, t.took) == Binding(ask)
    case Acking(Bound(k), _) =>
      t.dest == me && k < |binds| && binds[k] == Bind(t.source, binds[k].ask, binds[k].port, i)
        && ServiceFor(true, t.took) == Binding(binds[k].ask)
    case Acking(NotBound(_), _) => t.dest == me && ServiceFor(true, t.took).Binding?
    case Connecting(target) => ServiceFor(t.dest == me, t.took) == Connecting(target)
    case Finished => true
  }

  predicate Dispatches(dialers: seq<Dialer>, p: PeerId) {
    exists d: nat :: d < |dialers| && dialers[d].peer == p && dialers[d].stage.Dispatching?
  }

  predicate TakenOk(s: State, t: Tunnel) {
    !t.service.Waiting? && !t.service.Finished? ==>
      if t.dest == s.me then IsAllowed(s, t.source) else Dispatches(s.dialers, t.dest)
  }

  predicate BindOk(streams: seq<Tunnel>, k: nat, b: Bind) {
    && b.stream < |streams| && streams[b.stream].service.Acking? && streams[b.stream].service.result == Bound(k)
    && b.port != 0 && (b.ask.bindPort == 0 || b.ask.bindPort == b.port)
  }

  predicate DialerOk(me: PeerId, streams: seq<Tunnel>, d: nat, c: Dialer) {
    && c.peer != me
    && (c.stage.Requesting? || (c.stream < |streams| && streams[c.stream].opener == ForRequest(d)))
    && (c.stage.AwaitingAck? || c.stage.Dispatching? ==>
          c.stream < |streams| && Some(streams[c.stream].sent) == Written(AskMessage(c.ask)))
    && (c.stage.Dispatching? ==> TakeAck(streams[c.stream].got) == Accepted)
  }

  predicate StreamInv(s: State, i: nat)
    requires i < |s.streams|
  {
    var t := s.streams[i];
    OpenerOk(s.me, s.dialers, s.binds, i, t) && LogsOk(t) && ServiceOk(s.me, s.binds, i, t) && TakenOk(s, t)
  }

  predicate PortsDiffer(binds: seq<Bind>) {
    forall j, k | 0 <= j < k < |binds| :: binds[j].port != binds[k].port
  }

  ghost predicate Inv(s: State) {
    && (forall i: nat | i < |s.streams| :: StreamInv(s, i))
    && (forall k: nat | k < |s.binds| :: BindOk(s.streams, k, s.binds[k]))
    && PortsDiffer(s.binds)
    && (forall d: nat | d < |s.dialers| :: DialerOk(s.me, s.streams, d, s.dialers[d]))
  }

  /** What no step changes. */
  predicate DialerEvolves(c: Dialer, c': Dialer) {
    c'.peer == c.peer && c'.ask == c.ask
    && (!c.stage.Requesting? ==> !c'.stage.Requesting? && c'.stream == c.stream)
    && (c.stage.Dispatching? ==> c' == c)
  }

  ghost predicate Evolves(s: State, s': State) {
    && s'.me == s.me && s'.allowed == s.allowed && s.binds <= s'.binds
    && |s.streams| <= |s'.streams| && |s.dialers| <= |s'.dialers|
    && (forall d: nat | d < |s.dialers| :: DialerEvolves(s.dialers[d], s'.dialers[d]))
  }

  lemma StepEvolves(s: State, a: Action)
    requires Step(s, a).Some?
    ensures Evolves(s, Step(s, a).value)
  {
    hide ValidUtf8, TakeMessage, Wanted, Written, AckBytes, TakeAck, MayWrite, ServiceFor;
  }

  /** The stream an action is about, if there is one. */
  function Touched(s: State, a: Action): nat {
    match a
    case OpenerWrites(i, _) => i
    case ListenerTakes(i) => i
    case DialerTakes(i, _) => i
    case AcceptorReads(i, _) => i
    case AcceptorDecodes(i) => i
    case ListenerBinds(i, _) => i
    case ListenerAcks(i, _) => i
    case DialerReadsAck(d, _) => if d < |s.dialers| then s.dialers[d].stream else 0
    case _ => |s.streams|
  }

  lemma OthersStay(s: State, a: Action, i: nat)
    requires Step(s, a).Some? && i < |s.streams| && i != Touched(s, a)
    ensures i < |Step(s, a).value.streams| && Step(s, a).value.streams[i] == s.streams[i]
  {
    hide ValidUtf8, TakeMessage, Wanted, Written, AckBytes, TakeAck, MayWrite, ServiceFor;
  }

  lemma OpenerKeeps(s: State, s': State, i: nat, t: Tunnel)
    requires Evolves(s, s') && OpenerOk(s.me, s.dialers, s.binds, i, t)
    ensures OpenerOk(s'.me, s'.dialers, s'.binds, i, t)
  {
    hide WritesOnly;
  }

  lemma TakenKeeps(s: State, s': State, t: Tunnel)
    requires Evolves(s, s') && TakenOk(s, t)
    ensures TakenOk(s', t)
  {
    if Dispatches(s.dialers, t.dest) {
      var d: nat :| d < |s.dialers| && s.dialers[d].peer == t.dest && s.dialers[d].stage.Dispatching?;
      assert DialerEvolves(s.dialers[d], s'.dialers[d]);
    }
  }

  lemma OpenersKeep(s: State, a: Action, i: nat)
    requires Inv(s) && Step(s, a).Some? && i < |Step(s, a).value.streams|
    ensures OpenerOk(s.me, Step(s, a).value.dialers, Step(s, a).value.binds, i, Step(s, a).value.streams[i])
  {
    hide ValidUtf8, TakeMessage, Wanted, Written, AckBytes, TakeAck, ServiceFor, Encode, LogsOk, TakenOk, Arriving;
    var s' := Step(s, a).value;
    StepEvolves(s, a);
    if i < |s.streams| {
      assert StreamInv(s, i);
      OpenerKeeps(s, s', i, s.streams[i]);
      if i != Touched(s, a) {
        OthersStay(s, a, i);
      }
    } else if a.ClientConnects? {
      assert BindOk(s.streams, a.k, s.binds[a.k]);
      assert StreamInv(s, s.binds[a.k].stream);
    }
  }

  lemma LogsKeep(s: State, a: Action, i: nat)
    requires Inv(s) && Step(s, a).Some? && i < |Step(s, a).value.streams|
    ensures LogsOk(Step(s, a).value.streams[i])
  {
    hide ValidUtf8, TakeMessage, Wanted, Written, AckBytes, TakeAck, ServiceFor, MayWrite, OpenerOk, ServiceOk, TakenOk;
    if i < |s.streams| {
      var t := s.streams[i];
      assert StreamInv(s, i);
      if i != Touched(s, a) {
        OthersStay(s, a, i);
      } else if a.AcceptorReads? {
        ArrivingStep(t.took, a.b);
      } else if a.ListenerAcks? {
        assert (t.gave + a.b) + t.service.todo[|a.b|..] == t.gave + t.service.todo;
      } else if a.ListenerBinds? {
        assert forall ack: bytes :: [] + ack == ack;
      }
    }
  }

  lemma ServicesKeep(s: State, a: Action, i: nat)
    requires Inv(s) && Step(s, a).Some? && i < |Step(s, a).value.streams|
    ensures ServiceOk(s.me, Step(s, a).value.binds, i, Step(s, a).value.streams[i])
    ensures TakenOk(Step(s, a).value, Step(s, a).value.streams[i])
  {
    hide ValidUtf8, TakeMessage, Wanted, Written, AckBytes, TakeAck, ServiceFor, MayWrite, OpenerOk, LogsOk, Arriving;
    var s' := Step(s, a).value;
    StepEvolves(s, a);
    if i < |s.streams| {
      assert StreamInv(s, i);
      TakenKeeps(s, s', s.streams[i]);
      if i != Touched(s, a) {
        OthersStay(s, a, i);
      } else if a.DialerTakes? {
        assert DialerOk(s.me, s.streams, a.d, s.dialers[a.d]);
      }
    }
  }

  lemma BindsKeep(s: State, a: Action, k: nat)
    requires Inv(s) && Step(s, a).Some? && k < |Step(s, a).value.binds|
    ensures BindOk(Step(s, a).value.streams, k, Step(s, a).value.binds[k])
  {
    hide ValidUtf8, TakeMessage, Wanted, Written, AckBytes, TakeAck, ServiceFor, Encode, MayWrite;
    StepEvolves(s, a);
    if k < |s.binds| {
      var i := s.binds[k].stream;
      assert BindOk(s.streams, k, s.binds[k]);
      if i != Touched(s, a) {
        OthersStay(s, a, i);
      }
    }
  }

  lemma FullIsFull(log: bytes, b: bytes)
    requires log + b <= log
    ensures b == []
  {
    assert |log + b| == |log| + |b|;
  }

  lemma DialersKeep(s: State, a: Action, d: nat)
    requires Inv(s) && Step(s, a).Some? && d < |Step(s, a).value.dialers|
    ensures DialerOk(s.me, Step(s, a).value.streams, d, Step(s, a).value.dialers[d])
  {
    hide ValidUtf8, TakeMessage, Wanted, Written, AckBytes, TakeAck, ServiceFor, Encode, Arriving;
    var s' := Step(s, a).value;
    StepEvolves(s, a);
    if d < |s.dialers| {
      var c := s.dialers[d];
      assert DialerOk(s.me, s.streams, d, c);
      if !c.stage.Requesting? {
        if c.stream != Touched(s, a) {
          OthersStay(s, a, c.stream);
        } else if a.OpenerWrites? && (c.stage.AwaitingAck? || c.stage.Dispatching?) {
          FullIsFull(s.streams[c.stream].sent, a.b);
          assert s.streams[c.stream].sent + a.b == s.streams[c.stream].sent;
        } else if a.DialerReadsAck? {
          assert DialerOk(s.me, s.streams, a.d, s.dialers[a.d]);
        }
      }
    }
  }

  lemma PortsKeep(s: State, a: Action)
    requires PortsDiffer(s.binds) && Step(s, a).Some?
    ensures PortsDiffer(Step(s, a).value.binds)
  {
    hide ValidUtf8, TakeMessage, Wanted, Written, AckBytes, TakeAck, ServiceFor, MayWrite, IsAllowed;
  }

  lemma StepKeeps(s: State, a: Action)
    requires Inv(s) && Step(s, a).Some?
    ensures Inv(Step(s, a).value)
  {
    hide Step, BindOk, DialerOk, OpenerOk, LogsOk, ServiceOk, TakenOk;
    var s' := Step(s, a).value;
    StepEvolves(s, a);
    forall i: nat | i < |s'.streams| ensures StreamInv(s', i) {
      OpenersKeep(s, a, i);
      LogsKeep(s, a, i);
      ServicesKeep(s, a, i);
      assert StreamInv(s', i);
    }
    PortsKeep(s, a);
    forall k: nat | k < |s'.binds| ensures BindOk(s'.streams, k, s'.binds[k]) {
      BindsKeep(s, a, k);
    }
    forall d: nat | d < |s'.dialers| ensures DialerOk(s'.me, s'.streams, d, s'.dialers[d]) {
      DialersKeep(s, a, d);
    }
  }

  lemma {:induction false} RunKeeps(s: State, acts: seq<Action>)
    requires Inv(s) && Run(s, acts).Some?
    ensures Inv(Run(s, acts).value) && Evolves(s, Run(s, acts).value)
    decreases |acts|
  {
    hide Step, StreamInv, BindOk, DialerOk;
    if acts == [] {
    } else {
      var s' := Step(s, acts[0]).value;
      StepKeeps(s, acts[0]);
      StepEvolves(s, acts[0]);
      RunKeeps(s', acts[1..]);
      var s'' := Run(s, acts).value;
      forall d: nat | d < |s.dialers| ensures DialerEvolves(s.dialers[d], s''.dialers[d]) {
        assert DialerEvolves(s.dialers[d], s'.dialers[d]) && DialerEvolves(s'.dialers[d], s''.dialers[d]);
      }
    }
  }

  ghost predicate Within(rule: Rule, s: State) { Leads(rule, Start(s.me, s.allowed), s) }

  ghost predicate Reachable(s: State) { Within(Anything, s) }

  lemma WithinIsReachable(rule: Rule, s: State)
    requires Within(rule, s)
    ensures Reachable(s)
  {
    hide Run;
    var acts :| (forall a | a in acts :: Permits(s.me, rule, a)) && Run(Start(s.me, s.allowed), acts) == Some(s);
    assert forall a | a in acts :: Permits(s.me, Anything, a);
  }

  /** The invariant holds after every run, and the runs that follow keep what it says of the past. */
  lemma ReachableInv(s: State)
    requires Reachable(s)
    ensures Inv(s)
  {
    hide Step, StreamInv, BindOk, DialerOk, Permits;
    var acts :| (forall a | a in acts :: Permits(s.me, Anything, a)) && Run(Start(s.me, s.allowed), acts) == Some(s);
    RunKeeps(Start(s.me, s.allowed), acts);
  }

  // ---------- Runs within a rule ----------

  predicate Respects(rule: Rule, s: State) {
    rule.Only? ==>
      && (forall d | 0 <= d < |s.dialers| && s.dialers[d].peer == rule.peer :: s.dialers[d].ask in rule.asks)
      && (forall i | 0 <= i < |s.streams| && s.streams[i].opener.Unknown? ::
            && (s.streams[i].dest == rule.peer ==> rule.toPeer)
            && (s.streams[i].source == rule.peer && s.streams[i].dest == s.me ==> rule.asPeer))
  }

  lemma StepRespects(rule: Rule, s: State, a: Action)
    requires Respects(rule, s) && Step(s, a).Some? && Permits(s.me, rule, a)
    ensures Respects(rule, Step(s, a).value)
  {
    hide ValidUtf8, TakeMessage, Wanted, Written, AckBytes, TakeAck, ServiceFor, MayWrite, IsAllowed, CanBind;
  }

  lemma {:induction false} RunRespects(rule: Rule, s: State, acts: seq<Action>)
    requires Respects(rule, s) && Run(s, acts).Some? && forall a | a in acts :: Permits(s.me, rule, a)
    ensures Respects(rule, Run(s, acts).value)
    decreases |acts|
  {
    hide Step, Respects, Permits;
    if acts == [] {
    } else {
      StepRespects(rule, s, acts[0]);
      StepEvolves(s, acts[0]);
      RunRespects(rule, Step(s, acts[0]).value, acts[1..]);
    }
  }

  lemma WithinRespects(rule: Rule, s: State)
    requires Within(rule, s)
    ensures Respects(rule, s)
  {
    hide Step, Permits;
    var acts :| (forall a | a in acts :: Permits(s.me, rule, a)) && Run(Start(s.me, s.allowed), acts) == Some(s);
    RunRespects(rule, Start(s.me, s.allowed), acts);
  }
}
