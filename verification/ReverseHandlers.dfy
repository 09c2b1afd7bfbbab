/** The sequential code of a reverse-forward session, on both sides: what the listener does with one
    tunnel stream (src/client/listen.rs), and what the dialer does before and while it dispatches
    (src/forward/reverse.rs). */
module ReverseHandlers {
  import opened Wrappers
  import opened Bytes
  import opened Frames
  import opened Streams
  import opened Addresses
  import opened ReverseAck
  import opened ReverseSession
  import opened JumpSession
  import opened RelayHandler

  /** What is left on a stream behind what `read_tunnel_request` has read. */
  function RestOf(all: bytes): bytes {
    match TakeMessage(RequestKind, all)
    case Received(_, rest) => rest
    case Oversized(rest) => rest
    case Malformed(rest) => rest
    case Ended => []
  }

  /** And what the session machine has the reader doing then: still reading, if the stream has ended. */
  function AfterReading(listener: bool, all: bytes): Service {
    if TakeMessage(RequestKind, all).Ended? then Reading else ServiceFor(listener, all)
  }

  datatype Requested = Granted | Rejected(reason: bytes) | Broken

  /** How the request ends on a fresh stream: cut off while it is written; or written whole, and then with
      what the ack says, read exactly. */
  predicate RequestDone(ask: Ask, r: Requested, all: bytes, written: bytes, consumed: bytes) {
    var f := Written(AskMessage(ask));
    if r.Broken? then
      || (consumed == [] && (written == [] || (f.Some? && written <= f.value)))
      || (Some(written) == f && TakeAck(all) == CutShort && consumed == all)
    else
      && Some(written) == f && consumed == all[..AckLength(all)]
      && TakeAck(all) == if r.Granted? then Accepted else Refusal(r.reason)
  }

  /** `request_reverse_forward`, from the open stream on: granted means that the whole request is out and
      the first byte that came back is the OK byte. */
  method RequestReverseForward(stream: Stream, ask: Ask) returns (r: Requested)
    modifies stream
    ensures var m := Request(ReverseForward(ask.bindPort, ask.target, ask.gatewayPorts));
      !r.Broken? ==> Written(m).Some? && stream.written == old(stream.written) + Written(m).value
    ensures Written(AskMessage(ask)).None? ==> r == Broken && stream.written == old(stream.written)
    ensures !r.Broken? || stream.arriving != old(stream.arriving) ==>
      Written(AskMessage(ask)).Some? && stream.written == old(stream.written) + Written(AskMessage(ask)).value
    ensures r.Granted? ==> TakeAck(old(stream.arriving)) == Accepted && stream.arriving == old(stream.arriving)[1..]
    ensures r.Broken? ==> stream.failed || Written(AskMessage(ask)).None? || TakeAck(old(stream.arriving)) == CutShort
    ensures r.Rejected? ==> TakeAck(old(stream.arriving)) == Refusal(r.reason)
    ensures old(stream.written) == [] && old(stream.consumed) == [] ==>
      RequestDone(ask, r, old(stream.arriving), stream.written, stream.consumed)
  {
    hide ValidUtf8, Encode;
    assert forall b: bytes :: [] + b == b;
    ghost var all := stream.arriving;
    var sent := stream.WriteMessage(AskMessage(ask));
    if sent.Failure? {
      return Broken;
    }
    var ack := AwaitReverseAck(stream);
    assert all == all[..AckLength(all)] + all[AckLength(all)..];
    match ack
    case Accepted => r := Granted;
    case Refusal(reason) => r := Rejected(reason);
    case CutShort => r := Broken;
  }

  /** The target a dialer connects an incoming stream to, if any. */
  function TargetOf(arriving: bytes): (r: Option<Text>)
    ensures r.Some? <==>
      TakeMessage(RequestKind, arriving).Received? && TakeMessage(RequestKind, arriving).message.request.ReverseForward?
    ensures r.Some? ==> r.value == TakeMessage(RequestKind, arriving).message.request.reverseTarget
  {
    match ServiceFor(false, arriving)
    case Connecting(t) => Some(t)
    case _ => None
  }

  /** `run_incoming_reverse_handler` on the streams that come in, one after the other: every stream gets
      the target its own request names, whatever the streams before it carried. */
  method RunIncomingReverseHandler(incoming: seq<Stream>) returns (targets: seq<Option<Text>>)
    requires forall i, j | 0 <= i < j < |incoming| :: incoming[i] != incoming[j]
    modifies incoming
    ensures |targets| == |incoming|
    ensures forall i | 0 <= i < |incoming| ::
      && targets[i] == TargetOf(old(incoming[i].arriving))
      && incoming[i].arriving == RestOf(old(incoming[i].arriving))
    ensures forall i | 0 <= i < |incoming| :: incoming[i].written == old(incoming[i].written)
  {
    hide ValidUtf8, TakeMessage;
    targets := [];
    while |targets| < |incoming|
      invariant |targets| <= |incoming|
      invariant forall i | 0 <= i < |targets| ::
        && targets[i] == TargetOf(old(incoming[i].arriving))
        && incoming[i].arriving == RestOf(old(incoming[i].arriving))
      invariant forall i | |targets| <= i < |incoming| :: incoming[i].arriving == old(incoming[i].arriving)
      invariant forall i | 0 <= i < |incoming| :: incoming[i].written == old(incoming[i].written)
    {
      var stream := incoming[|targets|];
      var request := stream.ReadTunnelRequest();
      if request.Failure? {
        targets := targets + [None];
        continue;
      }
      match request.value
      case ReverseForward(_, target, _) => targets := targets + [Some(target)];
      case _ => targets := targets + [None];
    }
  }

  /** The reverse branch of `run_dial`: streams that come in are dispatched only after the request was
      granted; otherwise none is even read from. */
  method RunReverseDial(stream: Stream, ask: Ask, incoming: seq<Stream>)
    returns (r: Requested, targets: seq<Option<Text>>)
    requires stream !in incoming && forall i, j | 0 <= i < j < |incoming| :: incoming[i] != incoming[j]
    modifies stream, incoming
    ensures r.Granted? ==>
      && TakeAck(old(stream.arriving)) == Accepted && Written(AskMessage(ask)).Some?
      && stream.written == old(stream.written) + Written(AskMessage(ask)).value
      && |targets| == |incoming|
      && forall i | 0 <= i < |incoming| ::
        targets[i] == TargetOf(old(incoming[i].arriving)) && incoming[i].arriving == RestOf(old(incoming[i].arriving))
    ensures !r.Granted? ==>
      && targets == []
      && forall i | 0 <= i < |incoming| ::
        incoming[i].arriving == old(incoming[i].arriving) && incoming[i].consumed == old(incoming[i].consumed)
    ensures r.Rejected? ==> TakeAck(old(stream.arriving)) == Refusal(r.reason)
    ensures r.Broken? ==> stream.failed || Written(AskMessage(ask)).None? || TakeAck(old(stream.arriving)) == CutShort
  {
    hide ValidUtf8, Encode, TakeMessage, TakeAck, RequestDone, RestOf, TargetOf;
    r := RequestReverseForward(stream, ask);
    targets := [];
    if r.Granted? {
      targets := RunIncomingReverseHandler(incoming);
    }
  }

  // ---------- The listener ----------

  /** What became of a tunnel stream at the listener. */
  datatype Served = Unauthorized | Unreadable | OnNetcat | OnTarget(target: Text) | Answered(call: BindCall)

  function FailureIn(call: BindCall): Option<Text> {
    if call.BindFailed? then Some(call.reason) else None
  }

  /** What the task for one stream comes to, given the peers that may ask and the ports that are bound. */
  predicate ServeDone(allowed: set<PeerId>, binds: seq<Bind>, peer: PeerId, r: Served,
                      all: bytes, rest: bytes, written: bytes)
  {
    && (r.Unauthorized? <==> allowed != {} && peer !in allowed)
    && rest == (if r.Unauthorized? then all else RestOf(all))
    && (!r.Unauthorized? ==>
          && (r.Unreadable? <==> !TakeMessage(RequestKind, all).Received?)
          && (r.Answered? <==> ServiceFor(true, all).Binding?)
          && (r.OnTarget? <==> ServiceFor(true, all).Connecting?)
          && (r.OnTarget? ==> ServiceFor(true, all) == Connecting(r.target)))
    && (if r.Answered? then
          && written <= AckBytes(FailureIn(r.call))
          && (r.call.GotPort? ==> CanBind(binds, ServiceFor(true, all).ask, r.call.port))
        else written == [])
  }

  class Listener {
    var allowed: set<PeerId>
    var binds: seq<Bind>   // `stream` is the number of the stream with the request
    var streams: nat
    var tried: seq<(bytes, u16)>  // the addresses that were to be bound

    ghost predicate Valid()
      reads this
    {
      PortsDiffer(binds)
    }

    constructor (allowed: set<PeerId>)
      ensures Valid() && this.allowed == allowed && binds == [] && streams == 0 && tried == []
    {
      this.allowed, binds, streams, tried := allowed, [], 0, [];
    }

    /** `TcpListener::bind`, on all addresses or on the loopback address: it may fail, and it does if the
        port is taken. */
    method TryBind(ask: Ask) returns (call: BindCall)
      modifies this`tried
      ensures tried == old(tried) + [(if ask.gatewayPorts then [0, 0, 0, 0] else [127, 0, 0, 1], ask.bindPort)]
      ensures call.GotPort? ==> CanBind(binds, ask, call.port)
    {
      tried := tried + [(if ask.gatewayPorts then [0, 0, 0, 0] else [127, 0, 0, 1], ask.bindPort)];
      var reason: Text := *;
      call := BindFailed(reason);
      var works: bool := *;
      var port: u16 := *;
      if works && CanBind(binds, ask, port) {
        call := GotPort(port);
      }
    }

    /** The task of `run_listen` for one stream. A port is bound only for a peer that may ask, as it asked,
        and before any byte of the ack is out; a peer that may not ask is not even read from. */
    method Serve(peer: PeerId, stream: Stream) returns (r: Served)
      requires Valid()
      modifies this`binds, this`streams, this`tried, stream
      ensures Valid() && streams == old(streams) + 1
      ensures old(stream.written) == [] ==>
        ServeDone(allowed, old(binds), peer, r, old(stream.arriving), stream.arriving, stream.written)
      ensures r.Unauthorized? <==> allowed != {} && peer !in allowed
      ensures stream.arriving == if r.Unauthorized? then old(stream.arriving) else RestOf(old(stream.arriving))
      ensures stream.consumed + stream.arriving == old(stream.consumed + stream.arriving)
      ensures r.Unreadable? <==> !r.Unauthorized? && !TakeMessage(RequestKind, old(stream.arriving)).Received?
      ensures var s := ServiceFor(true, old(stream.arriving));
        && (r.OnTarget? <==> !r.Unauthorized? && s.Connecting?)
        && (r.OnTarget? ==> s == Connecting(r.target))
        && (r.Answered? <==> !r.Unauthorized? && s.Binding?)
        && (if r.Answered? && r.call.GotPort? then
              CanBind(old(binds), s.ask, r.call.port)
                && binds == old(binds) + [Bind(peer, s.ask, r.call.port, old(streams))]
            else binds == old(binds))
      ensures !r.Unauthorized? && TakeMessage(RequestKind, old(stream.arriving)).Received? ==>
        match TakeMessage(RequestKind, old(stream.arriving)).message.request
        case Netcat => r == OnNetcat && tried == old(tried)
        case LocalForward(target) => r == OnTarget(target) && tried == old(tried)
        case ReverseForward(port, target, gatewayPorts) =>
          && r.Answered?
          && tried == old(tried) + [(if gatewayPorts then [0, 0, 0, 0] else [127, 0, 0, 1], port)]
          && (r.call.GotPort? ==>
                binds == old(binds) + [Bind(peer, Ask(port, target, gatewayPorts), r.call.port, old(streams))])
      ensures if !r.Answered? then stream.written == old(stream.written)
        else
          && old(stream.written) <= stream.written <= old(stream.written) + AckBytes(FailureIn(r.call))
          && (!stream.failed ==> stream.written == old(stream.written) + AckBytes(FailureIn(r.call)))
    {
      hide ValidUtf8, TakeMessage, AckBytes;
      assert forall ack: bytes :: [] + ack == ack;
      streams := streams + 1;
      if allowed != {} && peer !in allowed {
        return Unauthorized;
      }
      var request := stream.ReadTunnelRequest();
      if request.Failure? {
        return Unreadable;
      }
      match request.value {
        case Netcat => r := OnNetcat;
        case LocalForward(target) => r := OnTarget(target);
        case ReverseForward(port, target, gatewayPorts) =>
          var ask := Ask(port, target, gatewayPorts);
          var call := TryBind(ask);
          if call.GotPort? {
            binds := binds + [Bind(peer, ask, call.port, streams - 1)];
          }
          var sent := SendReverseAck(stream, FailureIn(call));
          r := Answered(call);
      }
    }
  }

  // ---------- The clients of a bound port ----------

  datatype ClientEnd = NoStream | RequestFailed | CopyFailed | Closed

  /** The task of `start_reverse_listener` for one client: a tunnel stream to the peer that the port was
      bound for, the target of that ask, and then what the client sends. */
  method ServeClient(control: Control, peer: PeerId, target: Text, client: Stream)
    returns (end: ClientEnd, stream: Stream?)
    modifies control, client
    ensures |control.calls| == |old(control.calls)| + 1 && control.calls[..|old(control.calls)|] == old(control.calls)
    ensures var call := control.calls[|old(control.calls)|];
      call.OpenCall? && call.peer == peer && call.tunnel && (call.attempt.Opened? <==> stream != null)
    ensures end == NoStream <==> stream == null
    ensures end == NoStream || end == RequestFailed ==>
      client.arriving == old(client.arriving) && client.written == old(client.written)
    ensures stream != null ==>
      fresh(stream) && WritesOnly(stream.written, Request(ReverseForward(0, target, false)), true)
    ensures stream != null && end != RequestFailed ==>
      && Written(Request(ReverseForward(0, target, false))).Some?
      && Written(Request(ReverseForward(0, target, false))).value <= stream.written
      && stream.written <= Written(Request(ReverseForward(0, target, false))).value + old(client.arriving)
      && old(client.written) <= client.written <= old(client.written) + stream.consumed
    ensures end == Closed ==>
      && client.arriving == [] && stream.arriving == []
      && stream.written == Written(Request(ReverseForward(0, target, false))).value + old(client.arriving)
      && client.written == old(client.written) + stream.consumed
    ensures stream != null && end != Closed ==>
      client.failed || stream.failed || Written(Request(ReverseForward(0, target, false))).None?
  {
    hide ValidUtf8, Encode;
    var attempt;
    stream, attempt := control.OpenStream(peer, true);
    if stream == null {
      return NoStream, null;
    }
    assert forall b: bytes :: [] + b == b;
    var sent := stream.WriteMessage(ReturnMessage(target));
    if sent.Failure? {
      return RequestFailed, stream;
    }
    ghost var f, typed := stream.written, client.arriving;
    var ok, down, up := TunnelCopy(client, stream);
    assert f <= stream.written <= f + down;
    assert f + down <= f + typed by { assert f + typed == f + down + client.arriving; }
    assert ok ==> typed == down by { assert down + [] == down; }
    end := if ok then Closed else CopyFailed;
  }

  /** What such a task writes is what the session machine lets the opener of a client's stream write, in
      whatever pieces it goes out, on a stream to the peer of the bind: each next piece `b` of what was
      `written`, behind the pieces `log`, is a possible write. */
  lemma ClientTaskFitsTheMachine(s: State, k: nat, written: bytes, log: bytes, b: bytes)
    requires k < |s.binds| && WritesOnly(written, ReturnMessage(s.binds[k].ask.target), true)
    requires log + b <= written
    ensures var s' := Step(s, ClientConnects(k));
      && s'.Some? && |s'.value.streams| == |s.streams| + 1
      && s'.value.streams[|s.streams|] == NewTunnel(s.me, s.binds[k].peer, ForClient(k))
      && MayWrite(s'.value, s'.value.streams[|s.streams|].(sent := log), b)
  {
    hide ValidUtf8, Encode, WritesOnly;
    PartsAreAllowed(written, log + b, ReturnMessage(s.binds[k].ask.target));
  }

  lemma PartsAreAllowed(written: bytes, part: bytes, m: Message)
    requires WritesOnly(written, m, true) && part <= written
    ensures WritesOnly(part, m, true)
  {
    hide Written;
  }

  /** The open calls for accepted clients, in order; accept errors have none. */
  function OpensFor(peer: PeerId, attempts: seq<Option<Attempt>>): seq<Call> {
    if attempts == [] then []
    else
      var n := |attempts| - 1;
      OpensFor(peer, attempts[..n]) + if attempts[n].None? then [] else [OpenCall(peer, true, attempts[n].value)]
  }

  lemma OpensGrow(before: seq<Call>, peer: PeerId, attempts: seq<Option<Attempt>>, a: Option<Attempt>)
    ensures before + OpensFor(peer, attempts + [a])
      == before + OpensFor(peer, attempts) + if a.None? then [] else [OpenCall(peer, true, a.value)]
  {
    hide ValidUtf8;
    assert (attempts + [a])[..|attempts|] == attempts;
  }

  /** The accept loop, over what `accept` gives: each accepted client gets exactly one open call, for a
      tunnel stream to the bound peer, and its stream starts with the target of the ask. */
  method AcceptLoop(control: Control, peer: PeerId, target: Text, accepted: seq<Stream?>)
    returns (streams: seq<Stream?>, ghost attempts: seq<Option<Attempt>>)
    requires forall i, j | 0 <= i < j < |accepted| :: accepted[i] != accepted[j] || accepted[i] == null
    modifies control, set c: Stream | c in accepted
    ensures |streams| == |attempts| == |accepted|
    ensures control.calls == old(control.calls) + OpensFor(peer, attempts)
    ensures forall i | 0 <= i < |accepted| ::
      && (attempts[i].Some? <==> accepted[i] != null)
      && (attempts[i] == Some(Opened) <==> streams[i] != null)
    ensures forall i | 0 <= i < |streams| && streams[i] != null ::
      WritesOnly(streams[i].written, ReturnMessage(target), true)
  {
    hide ValidUtf8, Encode, WritesOnly, OpensFor;
    streams, attempts := [], [];
    NoOpensYet(control.calls, peer);
    while |streams| < |accepted|
      invariant |attempts| == |streams| <= |accepted|
      invariant control.calls == old(control.calls) + OpensFor(peer, attempts)
      invariant forall i | 0 <= i < |streams| ::
        && (attempts[i].Some? <==> accepted[i] != null)
        && (attempts[i] == Some(Opened) <==> streams[i] != null)
      invariant forall i | 0 <= i < |streams| && streams[i] != null ::
        fresh(streams[i]) && WritesOnly(streams[i].written, ReturnMessage(target), true)
    {
      var client := accepted[|streams|];
      if client == null {
        OpensGrow(old(control.calls), peer, attempts, None);
        streams, attempts := streams + [null], attempts + [None];
        continue;
      }
      ghost var before := control.calls;
      var end, stream := ServeClient(control, peer, target, client);
      ghost var call := control.calls[|before|];
      assert control.calls == before + [call];
      OpensGrow(old(control.calls), peer, attempts, Some(call.attempt));
      streams, attempts := streams + [stream], attempts + [Some(call.attempt)];
    }
  }

  lemma NoOpensYet(before: seq<Call>, peer: PeerId)
    ensures before + OpensFor(peer, []) == before
  {}
}
