/** What holds after every run of a reverse-forward session. */
module ReverseTheorems {
  import opened Wrappers
  import opened Bytes
  import opened Frames
  import opened ReverseAck
  import opened ReverseSession

  // ---------- Safety ----------

  /** Every port is bound for a peer that asked for it, and with exactly what it asked: its request
      stream came from that peer, past the allow list, and carries the ask. No stream has two ports. */
  lemma PortsAreBoundForTheirAskers(s: State, k: nat)
    requires Reachable(s) && k < |s.binds|
    ensures var b := s.binds[k];
      && b.stream < |s.streams|
      && var t := s.streams[b.stream];
        && t.source == b.peer && b.peer != s.me && t.dest == s.me && IsAllowed(s, b.peer)
        && t.took <= t.sent
        && TakeMessage(RequestKind, t.took).Received? && TakeMessage(RequestKind, t.took).message == AskMessage(b.ask)
        && ServiceFor(true, t.took) == Binding(b.ask)
        && !t.opener.ForClient?
        && (t.opener.ForRequest? ==>
              && t.opener.dialer < |s.dialers| && s.dialers[t.opener.dialer].peer == b.peer
              && s.dialers[t.opener.dialer].ask == b.ask && |Encode(AskMessage(b.ask))| <= MAX_FRAME)
    ensures forall k': nat :: k' < |s.binds| && s.binds[k'].stream == s.binds[k].stream ==> k' == k
    ensures s.binds[k].port != 0 && (s.binds[k].ask.bindPort == 0 || s.binds[k].ask.bindPort == s.binds[k].port)
  {
    hide ValidUtf8, Encode, Decode, Wanted, TakeFrame, Frame;
    ReachableInv(s);
    var b := s.binds[k];
    assert BindOk(s.streams, k, b);
    assert StreamInv(s, b.stream);
    var t := s.streams[b.stream];
    if t.opener.ForRequest? {
      var ask := s.dialers[t.opener.dialer].ask;
      NothingIsNoMessage(RequestKind);
      var f := Written(AskMessage(ask)).value;
      SameMessage(AskMessage(ask), f, t.sent, t.took, AskMessage(b.ask), TakeMessage(RequestKind, t.took).rest);
    }
    forall k': nat | k' < |s.binds| && s.binds[k'].stream == b.stream ensures k' == k {
      assert BindOk(s.streams, k', s.binds[k']);
    }
  }

  /** The listener opens streams only for clients of a port it has bound, to the very peer the port was
      bound for, and each carries the target of that ask before anything a client sent. */
  lemma ReturnStreamsBelongToABind(s: State, i: nat)
    requires Reachable(s) && i < |s.streams| && s.streams[i].source == s.me
    ensures var t := s.streams[i];
      && t.opener.ForClient? && t.opener.bind < |s.binds|
      && t.dest == s.binds[t.opener.bind].peer && t.dest != s.me
      && WritesOnly(t.sent, ReturnMessage(s.binds[t.opener.bind].ask.target), true)
  {
    hide ValidUtf8, Encode, Decode, Wanted;
    ReachableInv(s);
    assert StreamInv(s, i);
  }

  /** A dialer dispatches only after its own request was granted: it has read the OK byte, and the
      listener has bound a port for its identity and with its ask. */
  lemma DispatchingMeansBound(s: State, d: nat)
    requires Reachable(s) && d < |s.dialers| && s.dialers[d].stage.Dispatching?
    ensures s.dialers[d].stream < |s.streams|
    ensures var t := s.streams[s.dialers[d].stream];
      && t.got == [REVERSE_OK]
      && t.service.Acking? && t.service.todo == [] && t.service.result.Bound?
      && t.service.result.bind < |s.binds|
      && s.binds[t.service.result.bind]
         == Bind(s.dialers[d].peer, s.dialers[d].ask, s.binds[t.service.result.bind].port, s.dialers[d].stream)
  {
    hide ValidUtf8, Encode, Decode, Wanted;
    ReachableInv(s);
    var c := s.dialers[d];
    assert DialerOk(s.me, s.streams, d, c);
    var t := s.streams[c.stream];
    assert StreamInv(s, c.stream);
    var failure := FailureOf(t.service.result);
    assert AckBytes(failure) == t.gave + t.service.todo;
    assert t.got <= AckBytes(failure);
    AckAgreement(failure, t.got);
    assert AckBytes(failure) == [REVERSE_OK];
    PortsAreBoundForTheirAskers(s, t.service.result.bind);
  }

  /** Once the listener has answered, the dialer decides to dispatch exactly when a port was bound and
      some of the ack got through. */
  lemma DecisionIsTheBindResult(s: State, d: nat)
    requires Reachable(s) && Step(s, DialerDecides(d)).Some?
    requires s.streams[s.dialers[d].stream].service.Acking?
    ensures var t := s.streams[s.dialers[d].stream];
      Step(s, DialerDecides(d)).value.dialers[d].stage.Dispatching? <==> t.service.result.Bound? && t.got != []
  {
    hide ValidUtf8, Encode, Decode, Wanted, TakeAck;
    ReachableInv(s);
    assert DialerOk(s.me, s.streams, d, s.dialers[d]);
    var t := s.streams[s.dialers[d].stream];
    assert StreamInv(s, s.dialers[d].stream);
    assert t.got <= AckBytes(FailureOf(t.service.result));
    AckAgreement(FailureOf(t.service.result), t.got);
  }

  lemma WholeFrame(took: bytes)
    requires Arriving(took) && TakeMessage(RequestKind, took).Received?
    ensures TakeMessage(RequestKind, took).rest == []
  {}

  /** A return stream that was dispatched goes to the target of the port its client came in on, at a
      dialer that the port was bound for, with nothing read of it but the request: all that the client
      sends is still to be copied. If that port is the dialer's own, the target is
      the one the dialer asked for. */
  lemma DispatchedTargets(s: State, i: nat)
    requires Reachable(s) && i < |s.streams| && s.streams[i].source == s.me && s.streams[i].service.Connecting?
    ensures s.streams[i].opener.ForClient?
    ensures var k := s.streams[i].opener.bind;
      && k < |s.binds| && s.binds[k].peer == s.streams[i].dest
      && s.streams[i].service.target == s.binds[k].ask.target
      && Some(s.streams[i].took) == Written(ReturnMessage(s.binds[k].ask.target))
      && Dispatches(s.dialers, s.streams[i].dest)
      && (forall d: nat | d < |s.dialers| && s.dialers[d].stage.Dispatching? ::
            s.dialers[d].stream == s.binds[k].stream ==> s.streams[i].service.target == s.dialers[d].ask.target)
  {
    hide ValidUtf8, Encode, Decode, Wanted;
    ReachableInv(s);
    ReturnStreamsBelongToABind(s, i);
    assert StreamInv(s, i);
    var t := s.streams[i];
    var k := t.opener.bind;
    var m := ReturnMessage(s.binds[k].ask.target);
    var r := TakeMessage(RequestKind, t.took);
    NothingIsNoMessage(RequestKind);
    SameMessage(m, Written(m).value, t.sent, t.took, r.message, r.rest);
    WholeFrame(t.took);
    assert Written(m).value + [] == Written(m).value;
    PortsAreBoundForTheirAskers(s, k);
    forall d: nat | d < |s.dialers| && s.dialers[d].stage.Dispatching? && s.dialers[d].stream == s.binds[k].stream
      ensures t.service.target == s.dialers[d].ask.target
    {
      DispatchingMeansBound(s, d);
    }
  }

  // ---------- A port is bound once ----------

  /** The port a stream was granted is the one it asked for, if it asked for one. */
  lemma PortOfStream(s: State, i: nat)
    requires Inv(s) && i < |s.streams| && s.streams[i].service.Acking?
    ensures s.streams[i].service.result.Bound? ==> exists k: nat ::
      && k < |s.binds| && s.binds[k].stream == i && ServiceFor(true, s.streams[i].took) == Binding(s.binds[k].ask)
      && (s.binds[k].ask.bindPort == 0 || s.binds[k].ask.bindPort == s.binds[k].port)
  {
    hide ValidUtf8, TakeMessage, Written;
    assert StreamInv(s, i);
    if s.streams[i].service.result.Bound? {
      assert BindOk(s.streams, s.streams[i].service.result.bind, s.binds[s.streams[i].service.result.bind]);
    }
  }

  /** A port that is bound stays bound, in every continuation: whoever asks for it, before or after, on
      another stream than the one it was bound for, is refused, and reads no OK. */
  lemma BoundPortStaysTaken(s: State, s': State, k: nat, i: nat)
    requires Reachable(s) && Leads(Anything, s, s') && k < |s.binds|
    requires i < |s'.streams| && i != s.binds[k].stream && s'.streams[i].service.Acking?
    requires ServiceFor(true, s'.streams[i].took).Binding?
    requires ServiceFor(true, s'.streams[i].took).ask.bindPort == s.binds[k].port
    ensures k < |s'.binds| && s'.binds[k] == s.binds[k]
    ensures s'.streams[i].service.result.NotBound? && TakeAck(s'.streams[i].got) != Accepted
  {
    hide ValidUtf8, Encode, Decode, Wanted, Step, TakeAck, Permits, TakeMessage, Frame;
    ReachableInv(s);
    var acts :| (forall a | a in acts :: Permits(s.me, Anything, a)) && Run(s, acts) == Some(s');
    RunKeeps(s, acts);
    var t := s'.streams[i];
    assert BindOk(s.streams, k, s.binds[k]) && StreamInv(s', i);
    PortOfStream(s', i);
    assert t.got <= AckBytes(FailureOf(t.service.result));
    AckAgreement(FailureOf(t.service.result), t.got);
  }

  /** So no two dialers are ever granted the same port. */
  lemma SamePortIsGrantedOnce(s: State, d: nat, d': nat)
    requires Reachable(s) && d < |s.dialers| && d' < |s.dialers|
    requires s.dialers[d].stage.Dispatching? && s.dialers[d'].stage.Dispatching?
    requires s.dialers[d].ask.bindPort == s.dialers[d'].ask.bindPort != 0
    ensures d == d'
  {
    hide ValidUtf8, Encode, Decode, Wanted, TakeAck;
    ReachableInv(s);
    DispatchingMeansBound(s, d);
    DispatchingMeansBound(s, d');
    var k, k' := s.streams[s.dialers[d].stream].service.result.bind,
      s.streams[s.dialers[d'].stream].service.result.bind;
    PortsAreBoundForTheirAskers(s, k);
    PortsAreBoundForTheirAskers(s, k');
    assert DialerOk(s.me, s.streams, d, s.dialers[d]) && DialerOk(s.me, s.streams, d', s.dialers[d']);
  }
}
