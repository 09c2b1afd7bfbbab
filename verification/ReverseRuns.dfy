/** What the sequential code of a reverse-forward session does is what the session machine does: each
    outcome that the contracts in ReverseHandlers allow is reached by a run, with the same logs. */
module ReverseRuns {
  import opened Wrappers
  import opened Bytes
  import opened Frames
  import opened Addresses
  import opened ReverseAck
  import opened ReverseSession
  import opened ReverseReach
  import opened ReverseHandlers

  /** A reader takes what it has been sent, up to where a read function stops, and makes of it what it is. */
  lemma RequestIsRead(s: State, i: nat, part: bytes, rest: bytes)
    requires i < |s.streams| && s.streams[i].service.Reading? && s.streams[i].took == []
    requires s.streams[i].sent == part + rest && rest == RestOf(s.streams[i].sent)
    ensures Leads(Anything, s, OnStream(s, i, s.streams[i].(took := part,
      service := AfterReading(s.streams[i].dest == s.me, s.streams[i].sent))))
  {
    hide ValidUtf8, Encode, Decode, TakeFrame, Run, Leads, Wanted, Arriving;
    var t := s.streams[i];
    FramePart(t.sent, part, rest);
    PartIsTaken(s, i, part);
    var s1 := OnStream(s, i, t.(took := part));
    if !TakeMessage(RequestKind, t.sent).Ended? {
      SameService(t.sent, part, t.dest == s.me);
      var s2 := OnStream(s1, i, t.(took := part, service := ServiceFor(t.dest == s.me, part)));
      Takes(Anything, s1, AcceptorDecodes(i), s2);
      LeadsOn(Anything, s, s1, s2);
      assert s2.streams == s.streams[i := s2.streams[i]];
    } else {
      assert t.service == Reading;
    }
  }

  lemma SameService(all: bytes, part: bytes, listener: bool)
    requires all == part + RestOf(all) && !TakeMessage(RequestKind, all).Ended?
    ensures ServiceFor(listener, part) == ServiceFor(listener, all)
  {
    hide ValidUtf8, Encode, Decode, TakeFrame, Wanted, Arriving;
    FramePart(all, part, RestOf(all));
  }

  /** In two reads, as `read_exact` asks for them. */
  lemma PartIsTaken(s: State, i: nat, part: bytes)
    requires i < |s.streams| && s.streams[i].service.Reading? && s.streams[i].took == []
    requires part <= s.streams[i].sent && Arriving(part)
    ensures Leads(Anything, s, OnStream(s, i, s.streams[i].(took := part)))
  {
    hide ValidUtf8, Run, Leads, ServiceFor;
    var t := s.streams[i];
    var s' := OnStream(s, i, t.(took := part));
    assert [] + part == part;
    if |part| <= 4 {
      Takes(Anything, s, AcceptorReads(i, part), s');
    } else {
      var head := part[..4];
      assert [] + head == head && head + part[4..] == part && head[..4] == head;
      var s1 := OnStream(s, i, t.(took := head));
      Takes(Anything, s, AcceptorReads(i, head), s1);
      assert s1.streams[i := t.(took := part)] == s'.streams;
      Takes(Anything, s1, AcceptorReads(i, part[4..]), s');
      LeadsOn(Anything, s, s1, s');
    }
  }

  // ---------- The dialer's request ----------

  /** What `request_reverse_forward` writes, the dialer of the machine can write. */
  lemma RequestIsWritten(s: State, d: nat, i: nat, written: bytes)
    requires d < |s.dialers| && i < |s.streams| && s.streams[i].opener == ForRequest(d) && s.streams[i].sent == []
    requires var f := Written(AskMessage(s.dialers[d].ask)); written == [] || (f.Some? && written <= f.value)
    ensures Leads(Anything, s, OnStream(s, i, s.streams[i].(sent := written)))
  {
    hide ValidUtf8, Encode, Run, Leads;
    assert [] + written == written;
    Takes(Anything, s, OpenerWrites(i, written), OnStream(s, i, s.streams[i].(sent := written)));
  }

  /** Whenever the whole request is out and the ack, or the part of it that comes, has been given: the
      dialer of the machine reads as much of it as the code, and dispatches exactly if the code was granted. */
  lemma AckIsRead(s: State, d: nat, i: nat, r: Requested, all: bytes, written: bytes, consumed: bytes)
    requires d < |s.dialers| && s.dialers[d].stage.Writing? && s.dialers[d].stream == i && i < |s.streams|
    requires s.streams[i].sent == written && s.streams[i].got == [] && all <= s.streams[i].gave
    requires RequestDone(s.dialers[d].ask, r, all, written, consumed)
    requires Some(written) == Written(AskMessage(s.dialers[d].ask)) && (r.Broken? ==> consumed == all)
    requires r.Broken? ==> TakeAck(all) == CutShort
    ensures Leads(Anything, s, OnDialer(OnStream(s, i, s.streams[i].(got := consumed)), d,
      s.dialers[d].(stage := if r.Granted? then Dispatching else Failed)))
  {
    hide ValidUtf8, Encode, Run, Leads, Written;
    var s1 := OnDialer(s, d, s.dialers[d].(stage := AwaitingAck));
    Takes(Anything, s, AwaitAck(d), s1);
    var s2 := OnStream(s1, i, s1.streams[i].(got := consumed));
    assert [] + consumed == consumed;
    Takes(Anything, s1, DialerReadsAck(d, consumed), s2);
    AckPart(all);
    var s3 := OnDialer(s2, d, s2.dialers[d].(stage := if r.Granted? then Dispatching else Failed));
    Takes(Anything, s2, DialerDecides(d), s3);
    LeadsOn(Anything, s, s1, s2);
    LeadsOn(Anything, s, s2, s3);
    assert s3.dialers == s.dialers[d := s3.dialers[d]];
  }

  lemma AckPart(all: bytes)
    ensures TakeAck(all[..AckLength(all)]) == Accepted <==> TakeAck(all) == Accepted
  {
    var part := all[..AckLength(all)];
    assert part != [] ==> part[0] == all[0];
  }

  // ---------- The listener's task ----------

  /** What the machine's stream is after `Serve`. */
  function ServedAs(r: Served, bind: nat, t: Tunnel, part: bytes, written: bytes): Tunnel {
    match r
    case Unauthorized => t.(service := Finished)
    case Answered(call) =>
      if written <= AckBytes(FailureIn(call)) then
        t.(took := part, gave := written, service := Acking(
             if call.GotPort? then Bound(bind) else NotBound(call.reason), AckBytes(FailureIn(call))[|written|..]))
      else t
    case _ => t.(took := part, service := AfterReading(true, t.sent))
  }

  lemma ServeIsARun(s: State, i: nat, r: Served, rest: bytes, written: bytes)
    requires i < |s.streams| && s.streams[i].dest == s.me && s.streams[i].service.Waiting?
    requires s.streams[i].took == [] && s.streams[i].gave == []
    requires ServeDone(s.allowed, s.binds, s.streams[i].source, r, s.streams[i].sent, rest, written)
    ensures var t := s.streams[i];
      && |rest| <= |t.sent|
      && var part := t.sent[..|t.sent| - |rest|];
      var s' := OnStream(s, i, ServedAs(r, |s.binds|, t, part, written));
      Leads(Anything, s, if !(r.Answered? && r.call.GotPort?) then s'
        else s'.(binds := s.binds + [Bind(t.source, ServiceFor(true, t.sent).ask, r.call.port, i)]))
  {
    hide ValidUtf8, Encode, Decode, TakeMessage, Run, Leads, AckBytes, CanBind;
    var t := s.streams[i];
    if r.Unauthorized? {
      Takes(Anything, s, ListenerTakes(i), OnStream(s, i, t.(service := Finished)));
    } else {
      RestIsBehind(t.sent);
      var part := t.sent[..|t.sent| - |rest|];
      assert t.sent == part + rest;
      var s1 := OnStream(s, i, t.(service := Reading));
      Takes(Anything, s, ListenerTakes(i), s1);
      RequestIsRead(s1, i, part, rest);
      var s2 := OnStream(s, i, t.(took := part, service := AfterReading(true, t.sent)));
      assert s1.streams[i := s2.streams[i]] == s2.streams;
      LeadsOn(Anything, s, s1, s2);
      if r.Answered? {
        AnswerIsGiven(s2, i, r.call, written);
        var s3 := Answering(s2, i, r.call, written);
        LeadsOn(Anything, s, s2, s3);
        assert s3.streams == s.streams[i := ServedAs(r, |s.binds|, t, part, written)];
      }
    }
  }

  lemma RestIsBehind(all: bytes)
    ensures |RestOf(all)| <= |all| && all[|all| - |RestOf(all)|..] == RestOf(all)
  {
    hide ValidUtf8, Decode;
  }

  function Answering(s: State, i: nat, call: BindCall, written: bytes): State
    requires i < |s.streams| && s.streams[i].service.Binding? && written <= AckBytes(FailureIn(call))
  {
    var t := s.streams[i];
    var s' := OnStream(s, i, t.(gave := written, service := Acking(
                if call.GotPort? then Bound(|s.binds|) else NotBound(call.reason),
                AckBytes(FailureIn(call))[|written|..])));
    if call.GotPort? then s'.(binds := s.binds + [Bind(t.source, t.service.ask, call.port, i)]) else s'
  }

  lemma AnswerIsGiven(s: State, i: nat, call: BindCall, written: bytes)
    requires i < |s.streams| && s.streams[i].service.Binding? && s.streams[i].gave == []
    requires call.GotPort? ==> CanBind(s.binds, s.streams[i].service.ask, call.port)
    requires written <= AckBytes(FailureIn(call))
    ensures Leads(Anything, s, Answering(s, i, call, written))
  {
    hide ValidUtf8, Encode, Decode, TakeMessage, Run, Leads, AckBytes, CanBind;
    var t := s.streams[i];
    var s1 := Answering(s, i, call, []);
    assert AckBytes(FailureIn(call))[0..] == AckBytes(FailureIn(call));
    assert s1.streams[i].(gave := t.gave) == s1.streams[i];
    Takes(Anything, s, ListenerBinds(i, call), s1);
    var s2 := Answering(s, i, call, written);
    assert [] + written == written;
    assert s1.streams[i := s2.streams[i]] == s2.streams;
    Takes(Anything, s1, ListenerAcks(i, written), s2);
    LeadsOn(Anything, s, s1, s2);
  }

  // ---------- The dialer's dispatching ----------

  /** The machine's state after the loop has dealt with these of its streams. */
  function Dispatched(s: State, streams: seq<nat>): State
    decreases |streams|
  {
    if streams == [] || streams[0] >= |s.streams| then s
    else
      var t := s.streams[streams[0]];
      if |RestOf(t.sent)| > |t.sent| then s
      else Dispatched(OnStream(s, streams[0], t.(took := t.sent[..|t.sent| - |RestOf(t.sent)|],
                                                 service := AfterReading(false, t.sent))), streams[1..])
  }

  /** Whatever streams come in, one after the other. */
  lemma {:induction false} DispatchingIsARun(s: State, d: nat, streams: seq<nat>)
    requires d < |s.dialers| && s.dialers[d].stage.Dispatching? && s.dialers[d].peer != s.me
    requires forall j, k | 0 <= j < k < |streams| :: streams[j] != streams[k]
    requires forall i | i in streams ::
      && i < |s.streams| && s.streams[i].dest == s.dialers[d].peer
      && s.streams[i].service.Waiting? && s.streams[i].took == []
    ensures Leads(Anything, s, Dispatched(s, streams))
    decreases |streams|
  {
    hide ValidUtf8, Encode, Decode, TakeMessage, Leads;
    if streams == [] {
      StaysPut(s);
    } else {
      var i := streams[0];
      assert i in streams;
      var t := s.streams[i];
      RestIsBehind(t.sent);
      var part := t.sent[..|t.sent| - |RestOf(t.sent)|];
      assert t.sent == part + RestOf(t.sent);
      var s1 := OnStream(s, i, t.(service := Reading));
      Takes(Anything, s, DialerTakes(i, d), s1);
      RequestIsRead(s1, i, part, RestOf(t.sent));
      var s2 := OnStream(s, i, t.(took := part, service := AfterReading(false, t.sent)));
      assert s2.streams == s1.streams[i := s2.streams[i]];
      LeadsOn(Anything, s, s1, s2);
      assert forall j | j in streams[1..] :: j in streams && j != i;
      DispatchingIsARun(s2, d, streams[1..]);
      LeadsOn(Anything, s, s2, Dispatched(s2, streams[1..]));
    }
  }

  lemma StaysPut(s: State)
    ensures Leads(Anything, s, s)
  {
    var none: seq<Action> := [];
    assert Run(s, none) == Some(s) && forall a | a in none :: Permits(s.me, Anything, a);
  }
}
