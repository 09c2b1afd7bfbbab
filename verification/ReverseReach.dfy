/** What runs of a reverse-forward session can reach, and so which targets a dialer can be handed. */
module ReverseReach {
  import opened Wrappers
  import opened Bytes
  import opened Postcard
  import opened Frames
  import opened Addresses
  import opened ReverseAck
  import opened ReverseSession
  import opened ReverseTheorems

  /** What the listener sends with a client is never longer than a request it could read. */
  lemma ReturnRequestFits(took: bytes, ask: Ask)
    requires ServiceFor(true, took) == Binding(ask)
    ensures |Encode(ReturnMessage(ask.target))| <= MAX_FRAME
  {
    hide ValidUtf8;
    var body := TakeFrame(took).body;
    IntegerLimits();
    TakeVarintUses(body, U32_WIDTH, U32_TOP);
    var rest := TakeVarint(body, U32_WIDTH, U32_TOP).rest;
    TakeVarintUses(rest, U16_WIDTH, U16_TOP);
    TakeTextUses(TakeVarint(rest, U16_WIDTH, U16_TOP).rest);
  }

  /** The same for a target that a dialer has made out. */
  lemma DispatchedTargetFits(took: bytes, target: Text)
    requires ServiceFor(false, took) == Connecting(target)
    ensures |Encode(ReturnMessage(target))| <= MAX_FRAME
  {
    hide ValidUtf8, Encode, TakeMessage;
    ReturnRequestFits(took, ServiceFor(true, took).ask);
  }

  lemma {:induction false} RunAppend(s: State, acts: seq<Action>, more: seq<Action>)
    requires Run(s, acts).Some?
    ensures Run(s, acts + more) == Run(Run(s, acts).value, more)
    decreases |acts|
  {
    hide Step;
    if acts == [] {
      assert acts + more == more;
    } else {
      assert (acts + more)[1..] == acts[1..] + more;
      RunAppend(Step(s, acts[0]).value, acts[1..], more);
    }
  }

  lemma LeadsOn(rule: Rule, s: State, s': State, s'': State)
    requires Leads(rule, s, s') && Leads(rule, s', s'') && s'.me == s.me
    ensures Leads(rule, s, s'')
  {
    hide Step, Permits;
    var acts :| (forall a | a in acts :: Permits(s.me, rule, a)) && Run(s, acts) == Some(s');
    var more :| (forall a | a in more :: Permits(s.me, rule, a)) && Run(s', more) == Some(s'');
    RunAppend(s, acts, more);
    assert forall a | a in acts + more :: Permits(s.me, rule, a);
  }

  lemma Takes(rule: Rule, s: State, a: Action, s': State)
    requires Step(s, a) == Some(s') && Permits(s.me, rule, a)
    ensures Leads(rule, s, s')
  {
    hide Step, Permits;
    assert Run(s', []) == Some(s');
    assert Run(s, [a]) == Some(s');
    assert forall x | x in [a] :: Permits(s.me, rule, x);
  }

  /** A whole frame on a stream that is being read can be read and made out. */
  lemma FrameArrives(rule: Rule, s: State, i: nat, body: bytes)
    requires i < |s.streams| && s.streams[i].service.Reading? && s.streams[i].took == []
    requires |body| <= MAX_FRAME && s.streams[i].sent == Frame(body)
    ensures var t := s.streams[i];
      Leads(rule, s, OnStream(s, i, t.(took := Frame(body), service := ServiceFor(t.dest == s.me, Frame(body)))))
  {
    hide ValidUtf8, Decode, ServiceFor, Run, Leads;
    var t := s.streams[i];
    var f := Frame(body);
    Be32RoundTrip(|body|);
    var s1 := OnStream(s, i, t.(took := f[..4]));
    assert [] + f[..4] == f[..4] <= f;
    Takes(rule, s, AcceptorReads(i, f[..4]), s1);
    assert f[..4] == Be32(|body|) && f[..4][..4] == f[..4];
    var s2 := OnStream(s1, i, t.(took := f));
    assert f[..4] + f[4..] == f;
    Takes(rule, s1, AcceptorReads(i, f[4..]), s2);
    var s3 := OnStream(s2, i, t.(took := f, service := ServiceFor(t.dest == s.me, f)));
    Takes(rule, s2, AcceptorDecodes(i), s3);
    LeadsOn(rule, s, s1, s2);
    LeadsOn(rule, s, s2, s3);
    assert s3.streams == s.streams[i := s3.streams[i]];
  }

  function Served(s: State, k: nat, f: bytes): State
    requires k < |s.binds|
  {
    var b := s.binds[k];
    s.(streams := s.streams + [Tunnel(s.me, b.peer, ForClient(k), f, f, [], [], Connecting(b.ask.target))])
  }

  /** However a state was reached: a client of any bound port can be handed to any dispatching dialer of
      the identity it was bound for, with the target of that bind. */
  lemma ClientsReachTheirPeer(rule: Rule, s: State, d: nat, k: nat)
    requires Reachable(s) && k < |s.binds|
    requires d < |s.dialers| && s.dialers[d].stage.Dispatching? && s.dialers[d].peer == s.binds[k].peer
    ensures var f := Written(ReturnMessage(s.binds[k].ask.target));
      f.Some? && Leads(rule, s, Served(s, k, f.value))
  {
    hide ValidUtf8, Encode, Decode, Run, Leads, Wanted, TakeMessage;
    var b := s.binds[k];
    var m := ReturnMessage(b.ask.target);
    var i := |s.streams|;
    PortsAreBoundForTheirAskers(s, k);
    ReturnRequestFits(s.streams[b.stream].took, b.ask);
    var f := Frame(Encode(m));
    var s1 := s.(streams := s.streams + [NewTunnel(s.me, b.peer, ForClient(k))]);
    Takes(rule, s, ClientConnects(k), s1);
    var s2 := OnStream(s1, i, s1.streams[i].(sent := f));
    assert [] + f == f;
    Takes(rule, s1, OpenerWrites(i, f), s2);
    var s3 := OnStream(s2, i, s2.streams[i].(service := Reading));
    Takes(rule, s2, DialerTakes(i, d), s3);
    FrameArrives(rule, s3, i, Encode(m));
    WriteThenRead(m, []);
    assert f + [] == f;
    var s4 := OnStream(s3, i, s3.streams[i].(took := f, service := ServiceFor(false, f)));
    assert ServiceFor(false, f) == Connecting(b.ask.target);
    LeadsOn(rule, s, s1, s2);
    LeadsOn(rule, s, s2, s3);
    LeadsOn(rule, s, s3, s4);
    assert s4.streams == Served(s, k, f).streams;
  }

  /** The state after a new dialer has been granted its request. */
  function Granted(s: State, peer: PeerId, ask: Ask, port: u16, f: bytes): State {
    var i := |s.streams|;
    s.(dialers := s.dialers + [Dialer(peer, ask, Dispatching, i)],
       binds := s.binds + [Bind(peer, ask, port, i)],
       streams := s.streams + [Tunnel(peer, s.me, ForRequest(|s.dialers|), f, f, [REVERSE_OK], [REVERSE_OK],
                                      Acking(Bound(|s.binds|), []))])
  }

  /** However a state was reached: a new dialer whose identity is allowed, whose request is within the
      reader's bound, and for whose ask a port is free, can be granted it. */
  lemma RequestsCanBeGranted(rule: Rule, s: State, peer: PeerId, ask: Ask, port: u16)
    requires peer != s.me && IsAllowed(s, peer) && |Encode(AskMessage(ask))| <= 65_536 && CanBind(s.binds, ask, port)
    requires Permits(s.me, rule, StartDialer(peer, ask))
    ensures Leads(rule, s, Granted(s, peer, ask, port, Frame(Encode(AskMessage(ask)))))
  {
    hide ValidUtf8, Encode, Decode, Run, Leads, Wanted, TakeMessage, CanBind;
    var m := AskMessage(ask);
    var f := Frame(Encode(m));
    var i, d := |s.streams|, |s.dialers|;
    var s1 := s.(dialers := s.dialers + [Dialer(peer, ask, Requesting, 0)]);
    Takes(rule, s, StartDialer(peer, ask), s1);
    var s2 := s.(dialers := s.dialers + [Dialer(peer, ask, Writing, i)],
                 streams := s.streams + [NewTunnel(peer, s.me, ForRequest(d))]);
    assert s1.dialers[d := Dialer(peer, ask, Writing, i)] == s2.dialers;
    Takes(rule, s1, OpenRequest(d), s2);
    LeadsOn(rule, s, s1, s2);
    AskArrives(rule, s2, i, ask);
    var s5 := OnStream(s2, i, s2.streams[i].(sent := f, took := f, service := Binding(ask)));
    LeadsOn(rule, s, s2, s5);
    AckIsReceived(rule, s5, i, d, port);
    assert s5.dialers[d := s5.dialers[d].(stage := Dispatching)] == Granted(s, peer, ask, port, f).dialers;
    LeadsOn(rule, s, s5, Answered(s5, i, d, port));
    assert Answered(s5, i, d, port).streams == Granted(s, peer, ask, port, f).streams;
  }

  /** The request on a fresh stream of an allowed peer, be it a dialer's or another program's, can be
      written, taken up and made out. */
  lemma AskArrives(rule: Rule, s: State, i: nat, ask: Ask)
    requires i < |s.streams| && s.streams[i] == NewTunnel(s.streams[i].source, s.me, s.streams[i].opener)
    requires s.streams[i].opener.Unknown?
      || FirstMessage(s.dialers, s.binds, s.streams[i].opener) == Some(AskMessage(ask))
    requires IsAllowed(s, s.streams[i].source) && |Encode(AskMessage(ask))| <= MAX_FRAME
    ensures var f := Frame(Encode(AskMessage(ask)));
      Leads(rule, s, OnStream(s, i, s.streams[i].(sent := f, took := f, service := Binding(ask))))
  {
    hide ValidUtf8, Encode, Decode, Run, Leads, Wanted, TakeMessage;
    var m := AskMessage(ask);
    var f := Frame(Encode(m));
    var s3 := OnStream(s, i, s.streams[i].(sent := f));
    assert [] + f == f;
    Takes(rule, s, OpenerWrites(i, f), s3);
    var s4 := OnStream(s3, i, s3.streams[i].(service := Reading));
    Takes(rule, s3, ListenerTakes(i), s4);
    FrameArrives(rule, s4, i, Encode(m));
    WriteThenRead(m, []);
    assert f + [] == f;
    var s5 := OnStream(s4, i, s4.streams[i].(took := f, service := Binding(ask)));
    assert ServiceFor(true, f) == Binding(ask);
    LeadsOn(rule, s, s3, s4);
    LeadsOn(rule, s, s4, s5);
    assert s5.streams == s.streams[i := s5.streams[i]];
  }

  function Answered(s: State, i: nat, d: nat, port: u16): State
    requires i < |s.streams| && s.streams[i].service.Binding? && d < |s.dialers|
  {
    var t := s.streams[i];
    s.(dialers := s.dialers[d := s.dialers[d].(stage := Dispatching)],
       binds := s.binds + [Bind(t.source, t.service.ask, port, i)],
       streams := s.streams[i := t.(gave := [REVERSE_OK], got := [REVERSE_OK],
         service := Acking(Bound(|s.binds|), []))])
  }

  lemma AckIsReceived(rule: Rule, s: State, i: nat, d: nat, port: u16)
    requires i < |s.streams| && s.streams[i].service.Binding? && s.streams[i].gave == [] && s.streams[i].got == []
    requires d < |s.dialers| && s.dialers[d].stage.Writing? && s.dialers[d].stream == i
    requires Some(s.streams[i].sent) == Written(AskMessage(s.dialers[d].ask))
    requires CanBind(s.binds, s.streams[i].service.ask, port)
    ensures Leads(rule, s, Answered(s, i, d, port))
  {
    hide CanBind, ValidUtf8, Encode, Decode, Run, Leads, Wanted, TakeMessage, Written, MayWrite, ServiceFor, NewTunnel;
    var ok := [REVERSE_OK];
    var t := s.streams[i];
    var s1 := OnStream(s, i, t.(service := Acking(Bound(|s.binds|), ok)))
      .(binds := s.binds + [Bind(t.source, t.service.ask, port, i)]);
    Takes(rule, s, ListenerBinds(i, GotPort(port)), s1);
    var s2 := OnStream(s1, i, s1.streams[i].(gave := ok, service := Acking(Bound(|s.binds|), [])));
    assert [] + ok == ok && ok[1..] == [];
    Takes(rule, s1, ListenerAcks(i, ok), s2);
    AckIsAccepted(rule, s2, i, d);
    LeadsOn(rule, s, s1, s2);
    var s5 := Accepting(s2, i, d);
    LeadsOn(rule, s, s2, s5);
    assert s5.streams == Answered(s, i, d, port).streams;
  }

  function Accepting(s: State, i: nat, d: nat): State
    requires i < |s.streams| && d < |s.dialers|
  {
    OnDialer(OnStream(s, i, s.streams[i].(got := [REVERSE_OK])), d, s.dialers[d].(stage := Dispatching))
  }

  lemma AckIsAccepted(rule: Rule, s: State, i: nat, d: nat)
    requires i < |s.streams| && s.streams[i].gave == [REVERSE_OK] && s.streams[i].got == []
    requires d < |s.dialers| && s.dialers[d].stage.Writing? && s.dialers[d].stream == i
    requires Some(s.streams[i].sent) == Written(AskMessage(s.dialers[d].ask))
    ensures Leads(rule, s, Accepting(s, i, d))
  {
    hide ValidUtf8, Encode, Decode, Run, Leads, Wanted, TakeMessage, Written, MayWrite, ServiceFor, NewTunnel;
    var ok := [REVERSE_OK];
    var s1 := OnDialer(s, d, s.dialers[d].(stage := AwaitingAck));
    Takes(rule, s, AwaitAck(d), s1);
    var s2 := OnStream(s1, i, s1.streams[i].(got := ok));
    assert [] + ok == ok;
    Takes(rule, s1, DialerReadsAck(d, ok), s2);
    var s3 := OnDialer(s2, d, s2.dialers[d].(stage := Dispatching));
    Takes(rule, s2, DialerDecides(d), s3);
    LeadsOn(rule, s, s1, s2);
    LeadsOn(rule, s, s2, s3);
    assert s3.dialers == Accepting(s, i, d).dialers;
  }

  /** Some client stream of the ports bound so far is dispatched with this target, at a dialer of `peer`. */
  ghost predicate DispatchesTo(s: State, binds: nat, peer: PeerId, target: Text) {
    exists i: nat :: i < |s.streams| && s.streams[i].source == s.me && s.streams[i].dest == peer
      && s.streams[i].opener.ForClient? && s.streams[i].opener.bind < binds
        && s.streams[i].service == Connecting(target)
  }

  /** Which targets a dispatching dialer can still be handed by the listener for the ports bound so far:
      exactly those of the ports bound for its identity. What comes from other programs, or through ports
      bound later, is not limited by this. */
  lemma TargetsAreThoseBound(s: State, d: nat, target: Text)
    requires Reachable(s) && d < |s.dialers| && s.dialers[d].stage.Dispatching?
    ensures (exists s' :: Leads(Anything, s, s') && DispatchesTo(s', |s.binds|, s.dialers[d].peer, target))
      <==> (exists k: nat :: k < |s.binds| && s.binds[k].peer == s.dialers[d].peer && s.binds[k].ask.target == target)
  {
    hide Step, Run, Encode, Written, ServiceFor, TakeMessage, ValidUtf8, StreamInv, BindOk, DialerOk;
    var peer := s.dialers[d].peer;
    if k: nat :| k < |s.binds| && s.binds[k].peer == peer && s.binds[k].ask.target == target {
      ClientsReachTheirPeer(Anything, s, d, k);
      var f := Written(ReturnMessage(target)).value;
      assert Served(s, k, f).streams[|s.streams|].service == Connecting(target);
    }
    if s' :| Leads(Anything, s, s') && DispatchesTo(s', |s.binds|, peer, target) {
      var acts :| (forall a | a in acts :: Permits(s.me, Anything, a)) && Run(s, acts) == Some(s');
      ReachableInv(s);
      RunKeeps(s, acts);
      LeadsOn(Anything, Start(s.me, s.allowed), s, s');
      var i: nat :| i < |s'.streams| && s'.streams[i].source == s'.me && s'.streams[i].dest == peer
        && s'.streams[i].opener.ForClient? && s'.streams[i].opener.bind < |s.binds|
          && s'.streams[i].service == Connecting(target);
      DispatchedTargets(s', i);
      assert s'.binds[s'.streams[i].opener.bind] == s.binds[s'.streams[i].opener.bind];
    }
  }

  // ---------- No target is safe from other programs ----------

  /** Some stream to `peer` is connected, or to be connected, to this target. */
  predicate ConnectsAt(s: State, peer: PeerId, target: Text) {
    exists i | 0 <= i < |s.streams| :: s.streams[i].dest == peer && s.streams[i].service == Connecting(target)
  }

  function Handed(s: State, source: PeerId, peer: PeerId, target: Text, f: bytes): State {
    s.(streams := s.streams + [Tunnel(source, peer, Unknown, f, f, [], [], Connecting(target))])
  }

  lemma OtherThanTheListener(s: State, d: nat)
    requires Reachable(s) && d < |s.dialers|
    ensures s.dialers[d].peer != s.me
  {
    hide StreamInv;
    ReachableInv(s);
    assert DialerOk(s.me, s.streams, d, s.dialers[d]);
  }

  /** However a state was reached: any program that can open a tunnel stream to a dispatching dialer can
      have it connect to any target whose request is within the bound, with no port bound for it. */
  lemma OtherProgramsReachADialer(rule: Rule, s: State, d: nat, source: PeerId, target: Text)
    requires Reachable(s) && d < |s.dialers| && s.dialers[d].stage.Dispatching?
    requires source != s.me && source != s.dialers[d].peer
    requires |Encode(ReturnMessage(target))| <= 65_536
    requires Permits(s.me, rule, OpenOther(source, s.dialers[d].peer))
    ensures Leads(rule, s, Handed(s, source, s.dialers[d].peer, target, Frame(Encode(ReturnMessage(target)))))
  {
    hide ValidUtf8, Encode, Decode, Run, Leads, Wanted, TakeMessage;
    OtherThanTheListener(s, d);
    var peer, m, i := s.dialers[d].peer, ReturnMessage(target), |s.streams|;
    var f := Frame(Encode(m));
    var s1 := s.(streams := s.streams + [NewTunnel(source, peer, Unknown)]);
    Takes(rule, s, OpenOther(source, peer), s1);
    var s2 := OnStream(s1, i, s1.streams[i].(sent := f));
    assert [] + f == f;
    Takes(rule, s1, OpenerWrites(i, f), s2);
    var s3 := OnStream(s2, i, s2.streams[i].(service := Reading));
    Takes(rule, s2, DialerTakes(i, d), s3);
    FrameArrives(rule, s3, i, Encode(m));
    WriteThenRead(m, []);
    assert f + [] == f;
    var s4 := OnStream(s3, i, s3.streams[i].(took := f, service := ServiceFor(false, f)));
    assert ServiceFor(false, f) == Connecting(target);
    LeadsOn(rule, s, s1, s2);
    LeadsOn(rule, s, s2, s3);
    LeadsOn(rule, s, s3, s4);
    assert s4.streams == Handed(s, source, peer, target, f).streams;
  }

  /** The state after another program, under the identity `peer`, has had a port bound. */
  function Impersonated(s: State, peer: PeerId, ask: Ask, port: u16, f: bytes): State {
    s.(binds := s.binds + [Bind(peer, ask, port, |s.streams|)],
       streams := s.streams + [Tunnel(peer, s.me, Unknown, f, f, [], [], Acking(Bound(|s.binds|), [REVERSE_OK]))])
  }

  lemma OtherProgramsCanBind(rule: Rule, s: State, peer: PeerId, ask: Ask, port: u16)
    requires peer != s.me && IsAllowed(s, peer) && |Encode(AskMessage(ask))| <= MAX_FRAME && CanBind(s.binds, ask, port)
    requires Permits(s.me, rule, OpenOther(peer, s.me))
    ensures Leads(rule, s, Impersonated(s, peer, ask, port, Frame(Encode(AskMessage(ask)))))
  {
    hide ValidUtf8, Encode, Decode, Run, Leads, Wanted, TakeMessage, CanBind;
    var f, i := Frame(Encode(AskMessage(ask))), |s.streams|;
    var s1 := s.(streams := s.streams + [NewTunnel(peer, s.me, Unknown)]);
    Takes(rule, s, OpenOther(peer, s.me), s1);
    AskArrives(rule, s1, i, ask);
    var s2 := OnStream(s1, i, s1.streams[i].(sent := f, took := f, service := Binding(ask)));
    LeadsOn(rule, s, s1, s2);
    var s3 := OnStream(s2, i, s2.streams[i].(service := Acking(Bound(|s.binds|), [REVERSE_OK])))
      .(binds := s.binds + [Bind(peer, ask, port, i)]);
    Takes(rule, s2, ListenerBinds(i, GotPort(port)), s3);
    LeadsOn(rule, s, s2, s3);
    assert s3.streams == Impersonated(s, peer, ask, port, f).streams;
  }

  /** A later dialer of the same identity makes its own target reachable at an earlier one, through the
      listener, as long as a port is free for its ask. */
  lemma LaterAsksReachADialer(s: State, d: nat, ask: Ask, port: u16)
    requires Reachable(s) && d < |s.dialers| && s.dialers[d].stage.Dispatching?
    requires |Encode(AskMessage(ask))| <= 65_536 && CanBind(s.binds, ask, port)
    ensures exists s' :: Leads(Anything, s, s') && DispatchesTo(s', |s.binds| + 1, s.dialers[d].peer, ask.target)
  {
    hide Step, Run, Encode, CanBind;
    var peer, k := s.dialers[d].peer, |s.binds|;
    DispatchingMeansBound(s, d);
    PortsAreBoundForTheirAskers(s, s.streams[s.dialers[d].stream].service.result.bind);
    var s1 := Granted(s, peer, ask, port, Frame(Encode(AskMessage(ask))));
    RequestsCanBeGranted(Anything, s, peer, ask, port);
    LeadsOn(Anything, Start(s.me, s.allowed), s, s1);
    ClientsReachTheirPeer(Anything, s1, d, k);
    var f := Written(ReturnMessage(ask.target)).value;
    var s2 := Served(s1, k, f);
    LeadsOn(Anything, s, s1, s2);
    assert s2.streams[|s1.streams|].service == Connecting(ask.target);
  }

  /** Ports outlive the dialers they were bound for: a dialer can be handed a target it never asked for,
      the one that an earlier dialer of the same identity asked for; two such dialers are granted their
      asks exactly if they do not ask for the same port. */
  lemma LaterDialerGetsAnEarlierTarget(me: PeerId, allowed: set<PeerId>, peer: PeerId, earlier: Ask, later: Ask)
    returns (s: State)
    requires peer != me && (allowed == {} || peer in allowed)
    requires |Encode(AskMessage(earlier))| <= 65_536 && |Encode(AskMessage(later))| <= 65_536
    requires earlier.bindPort == 0 || earlier.bindPort != later.bindPort
    ensures Reachable(s) && s.me == me && s.allowed == allowed
    ensures |s.dialers| == 2 && s.dialers[1].peer == peer && s.dialers[1].ask == later
    ensures s.dialers[1].stage.Dispatching?
    ensures exists s' :: Leads(Anything, s, s') && DispatchesTo(s', 1, peer, earlier.target)
  {
    hide Step, Run, Encode;
    var s0 := Start(me, allowed);
    var p, q := TwoPorts(earlier, later);
    var s1 := Granted(s0, peer, earlier, p, Frame(Encode(AskMessage(earlier))));
    RequestsCanBeGranted(Anything, s0, peer, earlier, p);
    s := Granted(s1, peer, later, q, Frame(Encode(AskMessage(later))));
    RequestsCanBeGranted(Anything, s1, peer, later, q);
    LeadsOn(Anything, s0, s1, s);
    ClientsReachTheirPeer(Anything, s, 1, 0);
    var f := Written(ReturnMessage(earlier.target)).value;
    assert Served(s, 0, f).streams[|s.streams|].service == Connecting(earlier.target);
  }

  /** Ports for two asks in turn. */
  lemma TwoPorts(earlier: Ask, later: Ask) returns (p: u16, q: u16)
    requires earlier.bindPort == 0 || earlier.bindPort != later.bindPort
    ensures p != 0 && q != 0 && p != q
    ensures (earlier.bindPort == 0 || earlier.bindPort == p) && (later.bindPort == 0 || later.bindPort == q)
  {
    q := if later.bindPort != 0 then later.bindPort else if earlier.bindPort == 1 then 2 else 1;
    p := if earlier.bindPort != 0 then earlier.bindPort else if q == 2 then 3 else 2;
  }

  // ---------- Exactly which targets a peer can be handed ----------

  predicate MayAsk(allowed: set<PeerId>, rule: Rule)
    requires rule.Only?
  {
    (allowed == {} || rule.peer in allowed) && exists ask | ask in rule.asks :: |Encode(AskMessage(ask))| <= 65_536
  }

  predicate AsksFor(rule: Rule, target: Text)
    requires rule.Only?
  {
    exists ask | ask in rule.asks :: ask.target == target && |Encode(AskMessage(ask))| <= 65_536
  }

  /** What a rule lets a peer be handed: a target that one of its own dialers asks for; and, if other
      programs may open streams to it, or ask under its identity, any target at all that fits. */
  predicate CanBeHanded(allowed: set<PeerId>, rule: Rule, target: Text)
    requires rule.Only?
  {
    && MayAsk(allowed, rule)
    && (AsksFor(rule, target) || ((rule.toPeer || rule.asPeer) && |Encode(ReturnMessage(target))| <= 65_536))
  }

  /** A dispatching dialer's ask is one of those allowed to it, and fits. */
  lemma DispatchingMayAsk(rule: Rule, s: State, d: nat)
    requires rule.Only? && Within(rule, s) && d < |s.dialers| && s.dialers[d].stage.Dispatching?
    requires s.dialers[d].peer == rule.peer
    ensures MayAsk(s.allowed, rule)
  {
    hide ValidUtf8, Encode, TakeMessage;
    WithinIsReachable(rule, s);
    WithinRespects(rule, s);
    ReachableInv(s);
    DispatchingMeansBound(s, d);
    PortsAreBoundForTheirAskers(s, s.streams[s.dialers[d].stream].service.result.bind);
    assert DialerOk(s.me, s.streams, d, s.dialers[d]);
    assert s.dialers[d].ask in rule.asks;
  }

  lemma HandedOnlyWhatCanBe(rule: Rule, s: State, i: nat)
    requires rule.Only? && rule.peer != s.me && Within(rule, s)
    requires i < |s.streams| && s.streams[i].dest == rule.peer && s.streams[i].service.Connecting?
    ensures CanBeHanded(s.allowed, rule, s.streams[i].service.target)
  {
    hide ValidUtf8, Encode, TakeMessage, MayAsk;
    WithinIsReachable(rule, s);
    WithinRespects(rule, s);
    ReachableInv(s);
    assert StreamInv(s, i);
    var t := s.streams[i];
    var d: nat :| d < |s.dialers| && s.dialers[d].peer == t.dest && s.dialers[d].stage.Dispatching?;
    DispatchingMayAsk(rule, s, d);
    DispatchedTargetFits(t.took, t.service.target);
    if t.opener.ForClient? {
      DispatchedTargets(s, i);
      var b := s.binds[t.opener.bind];
      PortsAreBoundForTheirAskers(s, t.opener.bind);
      var o := s.streams[b.stream].opener;
      if o.ForRequest? {
        assert s.dialers[o.dialer].ask in rule.asks;
      }
    }
  }

  /** A run of at least one dialer of the peer, up to its dispatching. */
  lemma FirstGrant(rule: Rule, me: PeerId, allowed: set<PeerId>, ask: Ask, port: u16) returns (s: State)
    requires rule.Only? && rule.peer != me && ask in rule.asks && (allowed == {} || rule.peer in allowed)
    requires |Encode(AskMessage(ask))| <= MAX_FRAME && CanBind([], ask, port)
    ensures Within(rule, s) && s.me == me && s.allowed == allowed
    ensures s.dialers == [Dialer(rule.peer, ask, Dispatching, 0)] && s.binds == [Bind(rule.peer, ask, port, 0)]
  {
    hide Encode, Run, Leads;
    var s0 := Start(me, allowed);
    RequestsCanBeGranted(rule, s0, rule.peer, ask, port);
    s := Granted(s0, rule.peer, ask, port, Frame(Encode(AskMessage(ask))));
  }

  lemma WhatCanBeHandedIs(rule: Rule, me: PeerId, allowed: set<PeerId>, target: Text) returns (s: State)
    requires rule.Only? && rule.peer != me && CanBeHanded(allowed, rule, target)
    ensures Within(rule, s) && s.me == me && s.allowed == allowed && ConnectsAt(s, rule.peer, target)
  {
    hide Encode, Run, Leads, Step, Written, CanBind;
    var start, peer := Start(me, allowed), rule.peer;
    var own := AsksFor(rule, target);
    var ask :| ask in rule.asks && |Encode(AskMessage(ask))| <= MAX_FRAME && (own ==> ask.target == target);
    var p := SomePort(ask);
    var s1 := FirstGrant(rule, me, allowed, ask, p);
    if own {
      s := OwnTargetIsHanded(rule, s1);
    } else if rule.toPeer {
      var other := PeerId(me.multihash + peer.multihash + [0]);
      assert |other.multihash| > |me.multihash| && |other.multihash| > |peer.multihash|;
      WithinIsReachable(rule, s1);
      OtherProgramsReachADialer(rule, s1, 0, other, target);
      s := Handed(s1, other, peer, target, Frame(Encode(ReturnMessage(target))));
      LeadsOn(rule, start, s1, s);
      assert s.streams[|s1.streams|].service == Connecting(target);
    } else {
      var theirs := Ask(0, target, false);
      var q := if p == 1 then 2 else 1;
      AnotherPort(s1.binds, theirs, q);
      assert AskMessage(theirs) == ReturnMessage(target);
      OtherProgramsCanBind(rule, s1, peer, theirs, q);
      var s2 := Impersonated(s1, peer, theirs, q, Frame(Encode(AskMessage(theirs))));
      LeadsOn(rule, start, s1, s2);
      WithinIsReachable(rule, s2);
      ClientsReachTheirPeer(rule, s2, 0, 1);
      s := Served(s2, 1, Written(ReturnMessage(target)).value);
      LeadsOn(rule, start, s2, s);
      assert s.streams[|s2.streams|].service == Connecting(target);
    }
  }

  lemma SomePort(ask: Ask) returns (p: u16)
    ensures CanBind([], ask, p)
  {
    p := if ask.bindPort == 0 then 1 else ask.bindPort;
  }

  lemma AnotherPort(binds: seq<Bind>, ask: Ask, q: u16)
    requires |binds| == 1 && q != 0 && binds[0].port != q && ask.bindPort == 0
    ensures CanBind(binds, ask, q)
  {}

  lemma OwnTargetIsHanded(rule: Rule, s: State) returns (s': State)
    requires rule.Only? && Within(rule, s) && |s.dialers| == 1 && |s.binds| == 1
    requires s.dialers[0].stage.Dispatching? && s.dialers[0].peer == s.binds[0].peer == rule.peer
    ensures Within(rule, s') && s'.me == s.me && s'.allowed == s.allowed
    ensures ConnectsAt(s', rule.peer, s.binds[0].ask.target)
  {
    hide Encode, Run, Leads, Step, Written;
    WithinIsReachable(rule, s);
    ClientsReachTheirPeer(rule, s, 0, 0);
    s' := Served(s, 0, Written(ReturnMessage(s.binds[0].ask.target)).value);
    LeadsOn(rule, Start(s.me, s.allowed), s, s');
    assert s'.streams[|s.streams|].service == Connecting(s.binds[0].ask.target);
  }

  /** Exactly which targets a peer can be handed, over all the runs within a rule. */
  lemma HandedExactly(rule: Rule, me: PeerId, allowed: set<PeerId>, target: Text)
    requires rule.Only? && rule.peer != me
    ensures (exists s :: Within(rule, s) && s.me == me && s.allowed == allowed && ConnectsAt(s, rule.peer, target))
      <==> CanBeHanded(allowed, rule, target)
  {
    hide Within, CanBeHanded;
    if CanBeHanded(allowed, rule, target) {
      var s := WhatCanBeHandedIs(rule, me, allowed, target);
    }
    if s :| Within(rule, s) && s.me == me && s.allowed == allowed && ConnectsAt(s, rule.peer, target) {
      var i :| 0 <= i < |s.streams| && s.streams[i].dest == rule.peer && s.streams[i].service == Connecting(target);
      HandedOnlyWhatCanBe(rule, s, i);
    }
  }

  /** So a peer is safe from targets it did not ask for if all its dialers ask for the same one, no other
      program opens tunnel streams to it, and none asks the listener under its identity. */
  lemma OnlyTheAskedTarget(me: PeerId, peer: PeerId, asks: set<Ask>, target: Text, s: State, i: nat)
    requires peer != me && forall ask | ask in asks :: ask.target == target
    requires Within(Only(peer, asks, false, false), s) && s.me == me
    requires i < |s.streams| && s.streams[i].dest == peer && s.streams[i].service.Connecting?
    ensures s.streams[i].service.target == target
  {
    HandedOnlyWhatCanBe(Only(peer, asks, false, false), s, i);
  }

  /** Each of the three conditions is needed: without any one of them, whatever the dialer asks for and
      whatever the other target is, some run hands it that one. */
  lemma EachConditionIsNeeded(me: PeerId, allowed: set<PeerId>, peer: PeerId, ask: Ask, target: Text, rule: Rule)
    requires peer != me && (allowed == {} || peer in allowed)
    requires |Encode(AskMessage(ask))| <= 65_536 && |Encode(ReturnMessage(target))| <= 65_536
    requires rule == Only(peer, {ask}, true, false) || rule == Only(peer, {ask}, false, true)
      || rule == Only(peer, {ask, Ask(0, target, false)}, false, false)
    ensures exists s :: Within(rule, s) && s.me == me && s.allowed == allowed && ConnectsAt(s, peer, target)
  {
    hide Encode, Within;
    assert ask in rule.asks;
    assert AskMessage(Ask(0, target, false)) == ReturnMessage(target);
    var s := WhatCanBeHandedIs(rule, me, allowed, target);
  }
}
