/** `run_dial` with jump addresses, and the choice of its mode (src/client/dial.rs). */
module DialCommand {
  import opened Wrappers
  import opened Bytes
  import opened Frames
  import opened Addresses
  import opened Streams
  import opened JumpSession
  import opened JumpNetwork
  import opened RelayHandler
  import opened TextForms
  import opened SwarmWaits

  datatype DialMode =
    | OnNetcat
    | OnLocalForward(spec: ForwardSpec)
    | OnReverseForward(spec: ForwardSpec, gatewayPorts: bool)
    | OnSocks5(bindPort: u16)

  datatype DialOptions = DialOptions(
    jump: seq<Multiaddr>, target: DialTarget,
    localForward: Option<ForwardSpec>, remoteForward: Option<ForwardSpec>, socks: Option<u16>, gatewayPorts: bool)

  /** `parse_dial_mode`: of several forwarding options, the first in this order counts. */
  function ParseDialMode(o: DialOptions): (m: DialMode)
    ensures m.OnLocalForward? <==> o.localForward.Some?
    ensures m.OnReverseForward? <==> o.localForward.None? && o.remoteForward.Some?
    ensures m.OnLocalForward? ==> m.spec == o.localForward.value
    ensures m.OnReverseForward? ==> m.spec == o.remoteForward.value && m.gatewayPorts == o.gatewayPorts
    ensures m.OnSocks5? <==> o.localForward.None? && o.remoteForward.None? && o.socks.Some?
    ensures m.OnSocks5? ==> m.bindPort == o.socks.value
    ensures m.OnNetcat? <==> o.localForward.None? && o.remoteForward.None? && o.socks.None?
  {
    if o.localForward.Some? then OnLocalForward(o.localForward.value)
    else if o.remoteForward.Some? then OnReverseForward(o.remoteForward.value, o.gatewayPorts)
    else if o.socks.Some? then OnSocks5(o.socks.value)
    else OnNetcat
  }

  // ---------- Runs of the dialer's machine ----------

  function Fresh(o: DialOptions): Caller
    requires o.target.RelayCircuit?
  {
    Caller(o.jump, o.target.addr, ParseDialMode(o).OnNetcat?, Starting, [], [], None)
  }

  function Exec(w: World, start: Caller, events: seq<JumpSession.Event>): Option<Caller> {
    if events == [] then Some(start)
    else match Exec(w, start, events[..|events| - 1])
      case None => None
      case Some(c) => NextDial(w, c, events[|events| - 1])
  }

  /** Some run of the machine takes the dialer with these options here. */
  ghost predicate Reaches(w: World, o: DialOptions, c: Caller)
    requires o.target.RelayCircuit?
  {
    exists events :: Exec(w, Fresh(o), events) == Some(c)
  }

  lemma ReachesFresh(w: World, o: DialOptions)
    requires o.target.RelayCircuit?
    ensures Reaches(w, o, Fresh(o))
  {
    assert Exec(w, Fresh(o), []) == Some(Fresh(o));
  }

  lemma ReachesNext(w: World, o: DialOptions, c: Caller, e: JumpSession.Event, c': Caller)
    requires o.target.RelayCircuit? && Reaches(w, o, c) && NextDial(w, c, e) == Some(c')
    ensures Reaches(w, o, c')
  {
    hide NextDial;
    var events :| Exec(w, Fresh(o), events) == Some(c);
    assert (events + [e])[..|events|] == events;
    assert Exec(w, Fresh(o), events + [e]) == Some(c');
  }

  /** What is left to write is on its way: the phase after `b` of it is out. */
  lemma PutOut(w: World, o: DialOptions, c: Caller, b: bytes)
    requires o.target.RelayCircuit? && Reaches(w, o, c) && c.over.None? && c.jump != []
    requires (c.phase.WritingChain? || c.phase.Talking?) && b <= c.phase.todo
    ensures Reaches(w, o, c.(sent := c.sent + b, phase := c.phase.(todo := c.phase.todo[|b|..])))
  {
    hide Exec, ValidUtf8, Encode, FirstPeer;
    if b == [] {
      assert c.sent + [] == c.sent;
      assert c == c.(sent := c.sent + b, phase := c.phase.(todo := c.phase.todo[|b|..]));
    } else {
      ReachesNext(w, o, c, Send(b), c.(sent := c.sent + b, phase := c.phase.(todo := c.phase.todo[|b|..])));
    }
  }

  lemma ResultGot(w: World, o: DialOptions, c: Caller, seen: bytes)
    requires o.target.RelayCircuit? && Reaches(w, o, c) && c.over.None? && c.jump != []
    requires c.phase.AwaitingResult? && c.got == [] && Arriving(seen)
    ensures Reaches(w, o, c.(got := seen))
  {
    hide Exec, ValidUtf8, FirstPeer;
    assert [] + seen == seen;
    if seen == [] {
      assert c == c.(got := seen);
    } else if |seen| <= 4 {
      ReachesNext(w, o, c, Get(seen), c.(got := seen));
    } else {
      var head := seen[..4];
      assert [] + head == head && head + seen[4..] == seen && head[..4] == head;
      ReachesNext(w, o, c, Get(head), c.(got := head));
      ReachesNext(w, o, c.(got := head), Get(seen[4..]), c.(got := seen));
    }
  }

  lemma ResultIsRead(w: World, o: DialOptions, c: Caller, all: bytes, part: bytes, rest: bytes)
    requires o.target.RelayCircuit? && Reaches(w, o, c) && c.over.None? && c.jump != []
    requires c.phase.AwaitingResult? && c.got == [] && all == part + rest
    requires match TakeMessage(ResultKind, all)
      case Received(_, r) => rest == r
      case Oversized(r) => rest == r
      case Malformed(r) => rest == r
      case Ended => rest == []
    ensures Reaches(w, o, DialResultRead(c.(got := part)))
    ensures match TakeMessage(ResultKind, all)
      case Received(m, _) => TakeMessage(ResultKind, part) == Received(m, [])
      case _ => Unheard(ResultKind, part)
  {
    hide Exec, ValidUtf8, Encode, Decode, Reaches, TakeFrame, Wanted, Arriving, FirstPeer;
    FramePart(all, part, rest);
    ResultGot(w, o, c, part);
    var c' := c.(got := part);
    if TakeMessage(ResultKind, all).Ended? {
      NotYetAll(part);
      ReachesNext(w, o, c', EndBack, StopDial(c', Lost));
    } else {
      ReachesNext(w, o, c', Compute, DialResultRead(c'));
    }
  }

  lemma NotYetAll(part: bytes)
    requires Wanted(part) > 0
    ensures Unheard(ResultKind, part)
  {}

  /** The talk, from its start to its end: `typed` of what stdin gave went out, `back` came in. */
  lemma Talked(w: World, o: DialOptions, c: Caller, typed: bytes, back: bytes)
    requires o.target.RelayCircuit? && Reaches(w, o, c) && c.over.None? && c.jump != []
    requires c.phase == Talking([], false, false)
    ensures var c' := c.(sent := c.sent + typed, got := c.got + back);
      && Reaches(w, o, StopDial(c', Interrupted))
      && Reaches(w, o, StopDial(c'.(phase := Talking([], true, true)), Closed))
  {
    hide Exec, ValidUtf8, Encode, Reaches, FirstPeer;
    assert c.sent + [] == c.sent && c.got + [] == c.got;
    var c1 := c.(sent := c.sent + typed);
    if typed != [] {
      ReachesNext(w, o, c, Send(typed), c1);
    }
    var c2 := c1.(got := c.got + back);
    if back != [] {
      ReachesNext(w, o, c1, Get(back), c2);
    }
    ReachesNext(w, o, c2, Abort, StopDial(c2, Interrupted));
    var c3 := c2.(phase := Talking([], true, false));
    var c4 := c2.(phase := Talking([], true, true));
    ReachesNext(w, o, c2, EndIn, c3);
    ReachesNext(w, o, c3, EndBack, c4);
    ReachesNext(w, o, c4, Compute, StopDial(c4, Closed));
  }

  // ---------- The command ----------

  /** What the dialer has done on its stream when it ends with `r`: netcat only behind an Ok. */
  ghost predicate DialedAndEnded(w: World, o: DialOptions, r: DialEnding, written: bytes, consumed: bytes)
    requires o.jump != [] && o.target.RelayCircuit?
  {
    var chain := ChainFrame(w, o.jump, o.target.addr);
    match r
    case ChainTooLong => chain.None? && written == [] && consumed == []
    case Lost => Some(written) == chain && Unheard(ResultKind, consumed)
    case Rejected(e) => Some(written) == chain && ReadResult(consumed, Error(e), [])
    case ModeUnsupported => Some(written) == chain && ReadResult(consumed, Ok, []) && !ParseDialMode(o).OnNetcat?
    case Closed =>
      && chain.Some? && ParseDialMode(o).OnNetcat?
      && (exists stdin :: Spoken(chain.value, written, stdin)) && (exists back :: ReadResult(consumed, Ok, back))
    case Interrupted =>
      && chain.Some?
      && ((written <= chain.value && consumed == [])
          || (ParseDialMode(o).OnNetcat? && chain.value <= written && (exists back :: ReadResult(consumed, Ok, back))
              && (written <= chain.value + NETCAT_FRAME || exists stdin :: Spoken(chain.value, written, stdin))))
    case _ => false
  }

  /** A stream is given up only where a write has failed or no result came back; and what is typed goes
      out, and what comes back is shown, whole if the session closes. */
  ghost predicate Accounted(r: DialEnding, stream: Stream, stdio: Stream, typed: bytes, shown: bytes)
    reads stream, stdio
  {
    && (r == Interrupted ==> stream.failed || stdio.failed)
    && (r != Closed && r != Interrupted ==> stdio.arriving == typed && stdio.written == shown)
    && (r == Closed ==>
          && stdio.arriving == [] && stream.arriving == [] && shown <= stdio.written
          && |typed| <= |stream.written| && stream.written[|stream.written| - |typed|..] == typed
          && ReadResult(stream.consumed, Ok, stdio.written[|shown|..]))
  }

  /** The texts of the hops, pushed one after the other. */
  method CollectHops(w: World, jump: seq<Multiaddr>, target: Multiaddr) returns (hops: seq<Text>)
    requires jump != []
    ensures hops == DialHops(w, jump, target)
  {
    hops := [];
    var rest := jump[1..];
    for k := 0 to |rest|
      invariant |hops| == k
      invariant forall i | 0 <= i < k :: hops[i] == w.show(rest[i])
    {
      hops := hops + [w.show(rest[k])];
    }
    hops := hops + [w.show(target)];
  }

  /** The state of the machine belongs to what the code has exchanged on its stream. */
  predicate SameDialLogs(c: Caller, r: DialEnding, stream: Stream?)
    reads stream
  {
    && c.over == Some(r)
    && c.sent == (if stream == null then [] else stream.written)
    && c.got == (if stream == null then [] else stream.consumed)
  }

  /** The jump branch. Its run is one of the machine's: everything that the dialer writes, and how it ends,
      is settled by its options, by what comes back, and by whether its calls work. No stream is opened
      unless the target is a multiaddr and the first relay has been identified. */
  method RunDialThroughJumps(w: World, o: DialOptions, swarm: Swarm, control: Control, stdio: Stream)
    returns (r: DialEnding, stream: Stream?)
    requires o.jump != [] && swarm.Valid()
    modifies swarm, control, stdio
    ensures o.target.RelayCircuit? ==> exists c :: Reaches(w, o, c) && SameDialLogs(c, r, stream)
    ensures stream == null ==> r == NotStarted || r == OpenFailed
    ensures r == NotStarted ==> stream == null && control.calls == old(control.calls)
    ensures !o.target.RelayCircuit? ==> r == NotStarted && swarm.dialed == old(swarm.dialed)
    ensures r != NotStarted ==>
      && FirstPeer(o.jump[0]).Some? && Identifies(old(swarm.now), old(swarm.trace))
      && |control.calls| == |old(control.calls)| + 1 && control.calls[..|old(control.calls)|] == old(control.calls)
      && var call := control.calls[|old(control.calls)|];
        call.OpenCall? && call.peer == FirstPeer(o.jump[0]).value
        && !call.tunnel && (call.attempt.Opened? <==> stream != null)
    ensures stream != null ==>
      fresh(stream) && o.target.RelayCircuit? && DialedAndEnded(w, o, r, stream.written, stream.consumed)
    ensures r == NotStarted ==>
      !o.target.RelayCircuit? || FirstPeer(o.jump[0]).None? || swarm.refused
      || !Identifies(old(swarm.now), old(swarm.trace))
    ensures stream != null ==> Accounted(r, stream, stdio, old(stdio.arriving), old(stdio.written))
  {
    hide Exec, Reaches, DialHops;
    if !o.target.RelayCircuit? {
      return NotStarted, null;
    }
    var hops := CollectHops(w, o.jump, o.target.addr);
    var identified := swarm.ConnectAndIdentify(o.jump[0]);
    ghost var start := Fresh(o);
    ReachesFresh(w, o);
    if !identified.Identified? || FirstPeer(o.jump[0]).None? {
      ReachesNext(w, o, start, Close, StopDial(start, NotStarted));
      return NotStarted, null;
    }
    var attempt;
    stream, attempt := control.OpenStream(FirstPeer(o.jump[0]).value, false);
    if stream == null {
      ReachesNext(w, o, start, Open(attempt), StopDial(start, OpenFailed));
      return OpenFailed, null;
    }
    ReachesNext(w, o, start, Open(Opened), DialOpened(w, start));
    ghost var c;
    r, c := TalkThroughJumps(w, o, hops, stream, stdio);
    assert Reaches(w, o, c) && SameDialLogs(c, r, stream);
  }

  method TalkThroughJumps(w: World, o: DialOptions, hops: seq<Text>, stream: Stream, stdio: Stream)
    returns (r: DialEnding, ghost c: Caller)
    requires o.jump != [] && o.target.RelayCircuit? && hops == DialHops(w, o.jump, o.target.addr)
    requires Reaches(w, o, DialOpened(w, Fresh(o)))
    requires stream != stdio && stream.written == [] && stream.consumed == []
    modifies stream, stdio
    ensures Reaches(w, o, c) && SameDialLogs(c, r, stream)
    ensures r != NotStarted && r != OpenFailed
    ensures DialedAndEnded(w, o, r, stream.written, stream.consumed)
    ensures Accounted(r, stream, stdio, old(stdio.arriving), old(stdio.written))
  {
    hide ValidUtf8, Encode, TakeMessage, DialHops, Exec, Reaches, FirstPeer;
    assert forall b: bytes :: [] + b == b;
    c := DialOpened(w, Fresh(o));
    var sent := stream.WriteMessage(Chain(hops));
    if sent == Failure(InvalidData) {
      return ChainTooLong, c;
    }
    var f := Frame(Encode(Chain(hops)));
    PutOut(w, o, c, stream.written);
    c := c.(sent := stream.written, phase := WritingChain(f[|stream.written|..]));
    if sent.Failure? {
      ReachesNext(w, o, c, Abort, StopDial(c, Interrupted));
      return Interrupted, StopDial(c, Interrupted);
    }
    ReachesNext(w, o, c, Compute, c.(phase := AwaitingResult));
    r, c := HearResult(w, o, stream, stdio, c.(phase := AwaitingResult));
  }

  /** The result, and what it leads to. */
  method HearResult(w: World, o: DialOptions, stream: Stream, stdio: Stream, ghost start: Caller)
    returns (r: DialEnding, ghost c: Caller)
    requires o.jump != [] && o.target.RelayCircuit? && stream != stdio
    requires Some(stream.written) == ChainFrame(w, o.jump, o.target.addr) && stream.consumed == []
    requires Reaches(w, o, start) && start == Fresh(o).(phase := AwaitingResult, sent := stream.written)
    modifies stream, stdio
    ensures Reaches(w, o, c) && SameDialLogs(c, r, stream)
    ensures r != NotStarted && r != OpenFailed
    ensures DialedAndEnded(w, o, r, stream.written, stream.consumed)
    ensures Accounted(r, stream, stdio, old(stdio.arriving), old(stdio.written))
  {
    hide ValidUtf8, Encode, TakeMessage, ChainFrame, Exec, Reaches, FirstPeer, ParseDialMode;
    c := start;
    ghost var all := stream.arriving;
    assert stream.consumed + all == all;
    var result := stream.ReadJumpResult();
    ResultIsRead(w, o, c, all, stream.consumed, stream.arriving);
    c := DialResultRead(c.(got := stream.consumed));
    if result.Failure? {
      return Lost, c;
    }
    if result.value.Error? {
      return Rejected(result.value.message), c;
    }
    if !ParseDialMode(o).OnNetcat? {
      return ModeUnsupported, c;
    }
    r, c := Converse(w, o, stream, stdio, c);
  }

  /** The netcat request, and then stdin and stdout, behind the Ok. */
  method Converse(w: World, o: DialOptions, stream: Stream, stdio: Stream, ghost start: Caller)
    returns (r: DialEnding, ghost c: Caller)
    requires o.jump != [] && o.target.RelayCircuit? && ParseDialMode(o).OnNetcat?
    requires stream != stdio && Some(stream.written) == ChainFrame(w, o.jump, o.target.addr)
    requires ReadResult(stream.consumed, Ok, [])
    requires Reaches(w, o, start) && start.over.None? && start.jump != []
    requires start.phase == Talking(NETCAT_FRAME, false, false)
    requires start.sent == stream.written && start.got == stream.consumed
    modifies stream, stdio
    ensures Reaches(w, o, c) && SameDialLogs(c, r, stream)
    ensures r == Interrupted || r == Closed
    ensures DialedAndEnded(w, o, r, stream.written, stream.consumed)
    ensures Accounted(r, stream, stdio, old(stdio.arriving), old(stdio.written))
  {
    hide ValidUtf8, Encode, TakeMessage, ChainFrame, Exec, Reaches, Frame, FirstPeer;
    ghost var chain, heard := stream.written, stream.consumed;
    NetcatFits();
    var sent := stream.WriteMessage(Request(Netcat));
    ghost var out := stream.written[|chain|..];
    PartOut(chain, stream.written, NETCAT_FRAME);
    PutOut(w, o, start, out);
    c := start.(sent := stream.written, phase := Talking(NETCAT_FRAME[|out|..], false, false));
    if sent.Failure? {
      ReachesNext(w, o, c, Abort, StopDial(c, Interrupted));
      return Interrupted, StopDial(c, Interrupted);
    }
    ghost var asked := stream.written;
    assert asked[|chain|..] == NETCAT_FRAME;
    var ok, stdin, back := TunnelCopy(stdio, stream);
    ghost var typed := stream.written[|asked|..];
    PartOut(asked, stream.written, stdin);
    Talked(w, o, c, typed, back);
    assert Spoken(chain, stream.written, typed);
    PayloadGrows(ResultKind, heard, back);
    assert [] + back == back;
    assert ReadResult(stream.consumed, Ok, back);
    c := c.(sent := stream.written, got := stream.consumed);
    if ok {
      return Closed, StopDial(c.(phase := Talking([], true, true)), Closed);
    }
    return Interrupted, StopDial(c, Interrupted);
  }

  lemma PartOut(before: bytes, after: bytes, todo: bytes)
    requires before <= after <= before + todo
    ensures after == before + after[|before|..] && after[|before|..] <= todo
    ensures after == before + todo ==> after[|before|..] == todo
  {
    assert (before + todo)[|before|..] == todo;
  }

  lemma NetcatFits()
    ensures |Encode(Request(Netcat))| < U32_SIZE
  {}
}
