/** `handle_jump_request` as the code runs it, and the proof that each of its runs is a run of the
    session machine that the network of JumpNetwork is made of. */
module RelayHandler {
  import opened Wrappers
  import opened Bytes
  import opened Frames
  import opened Addresses
  import opened Streams
  import opened JumpSession

  // ---------- Runs of the machine ----------

  /** The machine's state after these events, if each was possible. */
  function Exec(w: World, events: seq<Event>): Option<Session> {
    if events == [] then Some(FRESH)
    else match Exec(w, events[..|events| - 1])
      case None => None
      case Some(s) => Next(w, s, events[|events| - 1])
  }

  ghost predicate Reaches(w: World, s: Session) {
    exists events :: Exec(w, events) == Some(s)
  }

  lemma ReachesFresh(w: World)
    ensures Reaches(w, FRESH)
  {
    assert Exec(w, []) == Some(FRESH);
  }

  lemma ReachesNext(w: World, s: Session, e: Event, s': Session)
    requires Reaches(w, s) && Next(w, s, e) == Some(s')
    ensures Reaches(w, s')
  {
    hide Next;
    var events :| Exec(w, events) == Some(s);
    assert (events + [e])[..|events|] == events;
    assert Exec(w, events + [e]) == Some(s');
  }

  /** Every state the machine reaches is disciplined. */
  lemma {:induction false} ExecKeeps(w: World, events: seq<Event>)
    requires Exec(w, events).Some?
    ensures Disciplined(w, Exec(w, events).value)
  {
    hide Next, Disciplined;
    if events != [] {
      ExecKeeps(w, events[..|events| - 1]);
      SessionStepKeeps(w, Exec(w, events[..|events| - 1]).value, events[|events| - 1]);
    } else {
      FreshOk(w);
    }
  }

  lemma FreshOk(w: World)
    ensures Disciplined(w, FRESH)
  {}

  lemma ReachedIsDisciplined(w: World, s: Session)
    requires Reaches(w, s)
    ensures Disciplined(w, s)
  {
    hide Disciplined, Exec;
    var events :| Exec(w, events) == Some(s);
    ExecKeeps(w, events);
  }

  /** A chain frame, or the part of one that has arrived, is read in two reads. */
  lemma ChainTaken(w: World, seen: bytes)
    requires Arriving(seen)
    ensures Reaches(w, FRESH.(took := seen))
  {
    hide Exec, ValidUtf8;
    ReachesFresh(w);
    assert [] + seen == seen;
    if 0 < |seen| <= 4 {
      ReachesNext(w, FRESH, Take(seen), FRESH.(took := seen));
    } else if |seen| > 4 {
      var head := seen[..4];
      assert [] + head == head && head + seen[4..] == seen && head[..4] == head;
      ReachesNext(w, FRESH, Take(head), FRESH.(took := head));
      ReachesNext(w, FRESH.(took := head), Take(seen[4..]), FRESH.(took := seen));
    }
  }

  lemma ResultGot(w: World, s: Session, seen: bytes)
    requires Reaches(w, s) && s.phase.ReadingResult? && s.over.None? && s.got == [] && Arriving(seen)
    ensures Reaches(w, s.(got := seen))
  {
    hide Exec, ValidUtf8, TakeMessage;
    assert [] + seen == seen;
    if seen == [] {
      assert s == s.(got := seen);
    } else if |seen| <= 4 {
      ReachesNext(w, s, Get(seen), s.(got := seen));
    } else {
      var head := seen[..4];
      assert [] + head == head && head + seen[4..] == seen && head[..4] == head;
      ReachesNext(w, s, Get(head), s.(got := head));
      ReachesNext(w, s.(got := head), Get(seen[4..]), s.(got := seen));
    }
  }

  /** What is left to write is on its way: the phase after `b` of it is out. */
  function Advanced(p: Phase, b: bytes): Phase
    requires (p.RefusingEmpty? || p.RefusingHop? || p.PassingError? || p.SayingOk? || p.Forwarding?) && b <= p.todo
  {
    p.(todo := p.todo[|b|..])
  }

  lemma Given(w: World, s: Session, b: bytes)
    requires Reaches(w, s) && s.over.None? && s.gave == []
    requires s.phase.RefusingEmpty? || s.phase.RefusingHop? || s.phase.PassingError? || s.phase.SayingOk?
    requires b <= s.phase.todo
    ensures Reaches(w, s.(gave := b, phase := Advanced(s.phase, b)))
  {
    hide Exec, ValidUtf8, Encode;
    assert [] + b == b;
    if b == [] {
      assert s == s.(gave := b, phase := Advanced(s.phase, b));
    } else {
      ReachesNext(w, s, Give(b), s.(gave := b, phase := Advanced(s.phase, b)));
    }
  }

  lemma Forwarded(w: World, s: Session, b: bytes)
    requires Reaches(w, s) && s.over.None? && s.sent == [] && s.phase.Forwarding? && b <= s.phase.todo
    ensures Reaches(w, s.(sent := b, phase := Advanced(s.phase, b)))
  {
    hide Exec, ValidUtf8, Encode;
    assert [] + b == b;
    if b == [] {
      assert s == s.(sent := b, phase := Advanced(s.phase, b));
    } else {
      ReachesNext(w, s, Send(b), s.(sent := b, phase := Advanced(s.phase, b)));
    }
  }

  // ---------- What the handler is given ----------

  /** What a handler asks of the rest of its program, in order: a dial command to the relay's swarm loop,
      a stream to a peer, a pause in milliseconds. */
  datatype Call = DialCommand(addr: Multiaddr) | OpenCall(peer: PeerId, tunnel: bool, attempt: Attempt)
    | Pause(millis: nat)

  class Control {
    var calls: seq<Call>
    var slept: nat    // milliseconds
    var closed: bool  // the channel for dial commands is

    constructor ()
      ensures calls == [] && slept == 0 && !closed
    {
      calls, slept, closed := [], 0, false;
    }

    method SendDial(addr: Multiaddr) returns (open: bool)
      modifies this`calls, this`closed
      ensures calls == if open then old(calls) + [DialCommand(addr)] else old(calls)
      ensures closed == (old(closed) || !open)
    {
      open := *;
      open := open && !closed;
      if open {
        calls := calls + [DialCommand(addr)];
      } else {
        closed := true;
      }
    }

    /** `open_stream`: fails, or gives a stream on which anything may arrive. */
    method OpenStream(peer: PeerId, tunnel: bool) returns (stream: Stream?, attempt: Attempt)
      modifies this`calls
      ensures calls == old(calls) + [OpenCall(peer, tunnel, attempt)]
      ensures attempt.Opened? <==> stream != null
      ensures stream != null ==> fresh(stream) && stream.consumed == [] && stream.written == [] && !stream.failed
    {
      var works: bool := *;
      if works {
        var arriving: bytes := *;
        stream := new Stream(arriving, []);
        attempt := Opened;
      } else {
        var error: Text := *;
        stream, attempt := null, Refused(error);
      }
      calls := calls + [OpenCall(peer, tunnel, attempt)];
    }

    method Sleep(millis: nat)
      modifies this`calls, this`slept
      ensures slept == old(slept) + millis && calls == old(calls) + [Pause(millis)]
    {
      calls, slept := calls + [Pause(millis)], slept + millis;
    }
  }

  /** The pause that follows the n-th refusal. */
  function PauseAfter(n: nat): seq<Call> { if n == 0 then [] else [Pause(500 * n)] }

  /** The attempts of one handler: all to the same peer, with the same protocol, and with growing pauses
      between them. */
  function CallsOf(peer: PeerId, tunnel: bool, attempts: seq<Attempt>): seq<Call> {
    if attempts == [] then []
    else
      var n := |attempts| - 1;
      CallsOf(peer, tunnel, attempts[..n]) + PauseAfter(n) + [OpenCall(peer, tunnel, attempts[n])]
  }

  lemma CallsGrow(before: seq<Call>, peer: PeerId, tunnel: bool, attempts: seq<Attempt>, a: Attempt)
    ensures before + CallsOf(peer, tunnel, attempts + [a])
      == before + CallsOf(peer, tunnel, attempts) + PauseAfter(|attempts|) + [OpenCall(peer, tunnel, a)]
  {
    hide ValidUtf8;
    var all := attempts + [a];
    assert all[..|attempts|] == attempts && all[|attempts|] == a;
    Regroup(before, CallsOf(peer, tunnel, attempts), PauseAfter(|attempts|), [OpenCall(peer, tunnel, a)]);
  }

  lemma NoCallsYet(before: seq<Call>, peer: PeerId, tunnel: bool)
    ensures before + CallsOf(peer, tunnel, []) + PauseAfter(0) == before
  {}

  lemma Regroup(a: seq<Call>, b: seq<Call>, c: seq<Call>, d: seq<Call>)
    ensures a + (b + c + d) == a + b + c + d
  {
    hide ValidUtf8;
  }

  // ---------- The handler ----------

  /** The chain frame is read: the machine has taken the same bytes and stands where the code stands. */
  lemma ChainIsRead(w: World, all: bytes, part: bytes, rest: bytes)
    requires all == part + rest
    requires match TakeMessage(ChainKind, all)
      case Received(_, r) => rest == r
      case Oversized(r) => rest == r
      case Malformed(r) => rest == r
      case Ended => rest == []
    ensures var s := FRESH.(took := part);
      match TakeMessage(ChainKind, all)
      case Ended => Reaches(w, Stop(s, ChainCutShort))
      case Received(m, _) => TakeMessage(ChainKind, part) == Received(m, []) && Reaches(w, s)
        && Reaches(w, ChainRead(w, s))
      case _ => Reaches(w, Stop(s, UnreadableChain))
  {
    hide Exec, ValidUtf8, Encode, Decode, Reaches, TakeFrame, Wanted, Arriving, PeerOf;
    FramePart(all, part, rest);
    ChainTaken(w, part);
    var s := FRESH.(took := part);
    if TakeMessage(ChainKind, all).Ended? {
      ReachesNext(w, s, EndIn, Stop(s, ChainCutShort));
    } else {
      ReachesNext(w, s, Compute, ChainRead(w, s));
    }
  }

  lemma ResultIsRead(w: World, s: Session, all: bytes, part: bytes, rest: bytes)
    requires Reaches(w, s) && s.phase.ReadingResult? && s.over.None? && s.got == [] && all == part + rest
    requires match TakeMessage(ResultKind, all)
      case Received(_, r) => rest == r
      case Oversized(r) => rest == r
      case Malformed(r) => rest == r
      case Ended => rest == []
    ensures var s' := s.(got := part);
      match TakeMessage(ResultKind, all)
      case Received(m, _) => TakeMessage(ResultKind, part) == Received(m, []) && Reaches(w, ResultRead(s'))
      case _ => Reaches(w, Stop(s', NoResult))
  {
    hide Exec, ValidUtf8, Encode, Decode, Reaches, TakeFrame, Wanted, Arriving;
    FramePart(all, part, rest);
    ResultGot(w, s, part);
    var s' := s.(got := part);
    if TakeMessage(ResultKind, all).Ended? {
      ReachesNext(w, s', EndBack, Stop(s', NoResult));
    } else {
      ReachesNext(w, s', Compute, ResultRead(s'));
    }
  }

  /** The bridge, from its start to its end: `took` and `got` came in, `sent` and `gave` of them went out. */
  lemma BridgeRun(w: World, s: Session, took: bytes, sent: bytes, got: bytes, gave: bytes)
    requires Reaches(w, s) && s.over.None? && s.phase.Bridging?
    requires s.phase == Bridging(s.phase.hops, [], [], false, false)
    requires sent <= took && gave <= got
    ensures var s' := s.(took := s.took + took, sent := s.sent + sent, got := s.got + got, gave := s.gave + gave,
                         phase := Bridging(s.phase.hops, took[|sent|..], got[|gave|..], false, false));
      && Reaches(w, Stop(s', Aborted))
      && (sent == took && gave == got ==>
        Reaches(w, Stop(s'.(phase := Bridging(s.phase.hops, [], [], true, true)), Bridged)))
  {
    hide Exec, ValidUtf8, Encode, Reaches, TakeMessage, Wanted;
    var hops := s.phase.hops;
    assert [] + took == took && [] + got == got;
    var s1 := s.(took := s.took + took, phase := Bridging(hops, took, [], false, false));
    if took != [] { ReachesNext(w, s, Take(took), s1); } else { assert s1 == s by { assert s.took + took == s.took; } }
    var s2 := s1.(sent := s.sent + sent, phase := Bridging(hops, took[|sent|..], [], false, false));
    if sent != [] { ReachesNext(w, s1, Send(sent), s2); }
      else { assert s2 == s1 by { assert s.sent + sent == s.sent; } }
    var s3 := s2.(got := s.got + got, phase := Bridging(hops, took[|sent|..], got, false, false));
    if got != [] { ReachesNext(w, s2, Get(got), s3); } else { assert s3 == s2 by { assert s.got + got == s.got; } }
    var s4 := s3.(gave := s.gave + gave, phase := Bridging(hops, took[|sent|..], got[|gave|..], false, false));
    if gave != [] { ReachesNext(w, s3, Give(gave), s4); }
      else { assert s4 == s3 by { assert s.gave + gave == s.gave; } }
    ReachesNext(w, s4, Abort, Stop(s4, Aborted));
    if sent == took && gave == got {
      assert took[|sent|..] == [] && got[|gave|..] == [];
      var s5 := s4.(phase := Bridging(hops, [], [], true, false));
      var s6 := s4.(phase := Bridging(hops, [], [], true, true));
      ReachesNext(w, s4, EndIn, s5);
      ReachesNext(w, s5, EndBack, s6);
      ReachesNext(w, s6, Compute, Stop(s6, Bridged));
    }
  }

  /** What is to be written next, behind the last answer of open_stream: a refusal, the remaining chain,
      or, at the last hop, Ok. */
  predicate PreparesFor(w: World, s: Session, hops: seq<Text>, refusal: Option<Text>)
    requires hops != []
  {
    var f := if refusal.Some? then Written(Result(Error(refusal.value))) else Header(hops);
    match f
    case None => s.over == Some(Unwritable) && s.phase == Opening(hops)
    case Some(todo) =>
      && s.over.None?
      && s.phase == (if refusal.Some? then RefusingHop(hops, refusal.value, todo)
                     else if |hops| == 1 then SayingOk(hops, OK_FRAME)
                     else Forwarding(hops, todo))
  }

  /** The retry loop: up to ten calls, with growing pauses. `s` is the machine's state behind the last
      answer, and what the code cannot reach behind its loop is not reached. */
  method OpenWithRetries(w: World, ghost start: Session, peer: PeerId, tunnel: bool, control: Control)
    returns (outbound: Stream?, error: Text, ghost s: Session)
    requires Reaches(w, start) && start.phase.Opening? && start.over.None? && start.attempts == [] && start.slept == 0
    requires start.phase.hops != [] && PeerOf(w, start.phase.hops[0]) == Some(peer)
    modifies control
    ensures Reaches(w, s)
    ensures control.calls == old(control.calls) + CallsOf(peer, tunnel, s.attempts)
    ensures control.slept == old(control.slept) + s.slept
    ensures outbound != null ==>
      fresh(outbound) && outbound.consumed == [] && outbound.written == [] && !outbound.failed
    ensures s == start.(attempts := s.attempts, slept := s.slept, phase := s.phase, over := s.over)
    ensures 1 <= |s.attempts| <= 10 && (outbound != null <==> s.attempts[|s.attempts| - 1] == Opened)
    ensures forall i | 0 <= i < |s.attempts| - 1 :: s.attempts[i].Refused?
    ensures outbound == null ==> |s.attempts| == 10 && s.slept == 22_500 && s.attempts[9] == Refused(error)
    ensures PreparesFor(w, s, start.phase.hops, if outbound == null then Some(HopRefusal(w, peer, error)) else None)
  {
    hide Exec, Encode, Reaches, PeerOf, HopRefusal, CallsOf, ValidUtf8;
    outbound, error, s := null, Ascii(""), start;
    NoCallsYet(control.calls, peer, tunnel);
    for attempt := 0 to ATTEMPTS
      invariant Reaches(w, s) && |s.attempts| == attempt < ATTEMPTS
      invariant s == start.(attempts := s.attempts, slept := s.slept)
      invariant control.calls == old(control.calls) + CallsOf(peer, tunnel, s.attempts) + PauseAfter(attempt)
      invariant control.slept == old(control.slept) + s.slept
      invariant outbound == null && s.slept == 250 * attempt * (attempt + 1)
      invariant forall i | 0 <= i < |s.attempts| :: s.attempts[i].Refused?
    {
      ghost var before := s;
      var stream, a := control.OpenStream(peer, tunnel);
      s := OpenReturned(w, before, a);
      ReachesNext(w, before, Open(a), s);
      CallsGrow(old(control.calls), peer, tunnel, before.attempts, a);
      if a.Opened? {
        outbound := stream;
        break;
      }
      if attempt < ATTEMPTS - 1 {
        control.Sleep(500 * (attempt + 1));
      } else {
        return null, a.error, s;
      }
    }
    assert outbound != null;
  }

  /** Writes the result that the machine is about to write. */
  method GiveResult(w: World, inbound: Stream, m: Message, ghost start: Session) returns (ok: bool, ghost s: Session)
    requires Reaches(w, start) && start.over.None? && start.gave == [] && inbound.written == []
    requires start.phase.RefusingEmpty? || start.phase.RefusingHop? || start.phase.PassingError?
      || start.phase.SayingOk?
    requires Written(m) == Some(start.phase.todo)
    modifies inbound`written, inbound`failed
    ensures if ok then inbound.failed == old(inbound.failed) else inbound.failed
    ensures Reaches(w, s) && s.gave == inbound.written
    ensures s.gave <= start.phase.todo && s.phase == Advanced(start.phase, s.gave)
    ensures s == start.(gave := s.gave, phase := s.phase, over := if ok then None else Some(Aborted))
    ensures ok ==> s.gave == start.phase.todo && s.phase.todo == []
  {
    hide Exec, Encode, Reaches;
    var todo := start.phase.todo;
    var r := inbound.WriteMessage(m);
    assert [] + todo == todo && todo[|todo|..] == [];
    Given(w, start, inbound.written);
    s := start.(gave := inbound.written, phase := Advanced(start.phase, inbound.written));
    ok := r.Success?;
    if !ok {
      ReachesNext(w, s, Abort, Stop(s, Aborted));
      s := Stop(s, Aborted);
    }
  }

  /** The end of a handler that has written this refusal. */
  function EndingOf(p: Phase): Ending
    requires p.RefusingEmpty? || p.RefusingHop? || p.PassingError?
  {
    if p.RefusingEmpty? then EmptyChain else if p.RefusingHop? then HopRefused else ErrorPassed
  }

  /** Writes an error result, if its length fits, and returns. */
  method Refuse(w: World, inbound: Stream, why: Ending, m: Message, ghost start: Session)
    returns (end: Ending, ghost s: Session)
    requires Reaches(w, start) && start.gave == [] && inbound.written == []
    requires if Written(m).None? then start.over == Some(Unwritable)
      else start.over.None? && (start.phase.RefusingEmpty? || start.phase.RefusingHop? || start.phase.PassingError?)
           && Some(start.phase.todo) == Written(m) && why == EndingOf(start.phase)
    modifies inbound`written, inbound`failed
    ensures if end == Aborted then inbound.failed else end == (if Written(m).None? then Unwritable else why)
    ensures Reaches(w, s) && s.over == Some(end) && s.gave == inbound.written
    ensures s == start.(gave := s.gave, phase := s.phase, over := s.over)
    ensures Written(m).None? ==> s == start
    ensures Written(m).Some? ==> s.gave <= start.phase.todo && s.phase == Advanced(start.phase, s.gave)
  {
    hide Exec, Encode, Reaches;
    s := start;
    if Written(m).None? {
      return Unwritable, s;
    }
    var ok;
    ok, s := GiveResult(w, inbound, m, start);
    if !ok {
      return Aborted, s;
    }
    ReachesNext(w, s, Compute, Stop(s, why));
    end, s := why, Stop(s, why);
  }

  /** Writes the remaining chain downstream and reads the result. */
  method AskDownstream(w: World, outbound: Stream, hops: seq<Text>, ghost start: Session)
    returns (answer: Option<JumpResult>, end: Ending, ghost s: Session)
    requires Reaches(w, start) && start.over.None? && start.sent == [] && start.got == []
    requires outbound.written == [] && outbound.consumed == []
    requires start.phase.Forwarding? && hops != [] && start.phase.hops == hops
    requires Written(Chain(hops[1..])) == Some(start.phase.todo)
    modifies outbound
    ensures answer.None? ==> (end == Aborted && outbound.failed) || end == NoResult
    ensures Reaches(w, s) && s.sent == outbound.written && s.got == outbound.consumed
    ensures s == start.(sent := s.sent, got := s.got, phase := s.phase, over := s.over)
    ensures match answer
      case None => s.over == Some(end) && (s.phase.Forwarding? || s.phase.ReadingResult?) && s.phase.hops == hops
      case Some(Ok) => s.over.None? && s.phase == SayingOk(hops, OK_FRAME)
      case Some(Error(m)) =>
        var f := Written(Result(Error(m)));
        if f.None? then s.over == Some(Unwritable) && s.phase == ReadingResult(hops)
        else s.over.None? && s.phase == PassingError(hops, m, f.value)
  {
    hide Exec, Encode, Decode, TakeMessage, Reaches;
    var todo := Written(Chain(hops[1..])).value;
    var r := outbound.WriteMessage(Chain(hops[1..]));
    assert [] + todo == todo && todo[|todo|..] == [];
    Forwarded(w, start, outbound.written);
    s := start.(sent := outbound.written, phase := Advanced(start.phase, outbound.written));
    if r.Failure? {
      ReachesNext(w, s, Abort, Stop(s, Aborted));
      s := Stop(s, Aborted);
      return None, Aborted, s;
    }
    ghost var waiting := s.(phase := ReadingResult(hops));
    ReachesNext(w, s, Compute, waiting);
    ghost var all := outbound.arriving;
    var result := outbound.ReadJumpResult();
    ResultIsRead(w, waiting, all, outbound.consumed, outbound.arriving);
    s := waiting.(got := outbound.consumed);
    end := NoResult;
    if result.Failure? {
      s := Stop(s, NoResult);
      return None, NoResult, s;
    }
    s := ResultRead(s);
    answer := Some(result.value);
  }

  /** What the code has exchanged is what the machine has exchanged. */
  twostate predicate SameLogs(s: Session, inbound: Stream, new outbound: Stream?, control: Control)
    reads inbound, outbound, control
  {
    && s.took == inbound.consumed && s.gave == inbound.written
    && s.sent == (if outbound == null then [] else outbound.written)
    && s.got == (if outbound == null then [] else outbound.consumed)
    && control.slept == old(control.slept) + s.slept
  }

  /** The rest of the handler, once the dial command is out. */
  method ForwardAndBridge(w: World, inbound: Stream, control: Control, hops: seq<Text>, nextPeer: PeerId,
                          ghost start: Session)
    returns (end: Ending, outbound: Stream?, ghost s: Session)
    requires Reaches(w, start) && start == FRESH.(took := start.took, phase := Opening(hops))
    requires start.took == inbound.consumed && inbound.written == []
    requires hops != [] && PeerOf(w, hops[0]) == Some(nextPeer)
    modifies inbound, control
    ensures end == Aborted ==> inbound.failed || (outbound != null && outbound.failed)
    ensures end != DialChannelClosed
    ensures Reaches(w, s) && s.over == Some(end) && !s.phase.ReadingChain? && !s.phase.RefusingEmpty?
    ensures s.phase.hops == hops
    ensures SameLogs(s, inbound, outbound, control)
    ensures outbound != null ==> fresh(outbound)
    ensures old(inbound.consumed + inbound.arriving) == inbound.consumed + inbound.arriving
    ensures s.attempts != [] && control.calls == old(control.calls) + CallsOf(nextPeer, |hops| == 1, s.attempts)
  {
    hide Exec, Encode, Decode, TakeMessage, Reaches, HopRefusal, PeerOf, CallsOf, ValidUtf8, Frame;
    var remaining := hops[1..];
    var error;
    outbound, error, s := OpenWithRetries(w, start, nextPeer, remaining == [], control);
    if outbound == null {
      end, s := Refuse(w, inbound, HopRefused, Result(Error(HopRefusal(w, nextPeer, error))), s);
      return;
    }
    if remaining != [] {
      if Written(Chain(remaining)).None? {
        return Unwritable, outbound, s;
      }
      var answer;
      answer, end, s := AskDownstream(w, outbound, hops, s);
      if answer.None? {
        return;
      }
      if answer.value.Error? {
        end, s := Refuse(w, inbound, ErrorPassed, Result(Error(answer.value.message)), s);
        return;
      }
    }
    end, s := SayOkAndBridge(w, inbound, outbound, s);
  }

  method SayOkAndBridge(w: World, inbound: Stream, outbound: Stream, ghost start: Session)
    returns (end: Ending, ghost s: Session)
    requires inbound != outbound
    requires Reaches(w, start) && start.over.None? && start.phase.SayingOk? && start.phase.todo == OK_FRAME
    requires start.gave == []
    requires inbound.written == [] && start.took == inbound.consumed
    requires start.sent == outbound.written && start.got == outbound.consumed
    modifies inbound, outbound
    ensures end == Bridged || (end == Aborted && (inbound.failed || outbound.failed))
    ensures Reaches(w, s) && s.over == Some(end)
    ensures s.took == inbound.consumed && s.gave == inbound.written && s.sent == outbound.written
    ensures s.got == outbound.consumed
    ensures s.attempts == start.attempts && s.slept == start.slept
    ensures (s.phase.SayingOk? || s.phase.Bridging?) && s.phase.hops == start.phase.hops
    ensures old(inbound.consumed + inbound.arriving) == inbound.consumed + inbound.arriving
  {
    hide Exec, Encode, Reaches;
    OkIsWritten();
    var ok;
    ok, s := GiveResult(w, inbound, Result(Ok), start);
    if !ok {
      return Aborted, s;
    }
    ghost var hops := start.phase.hops;
    ReachesNext(w, s, Compute, s.(phase := Bridging(hops, [], [], false, false)));
    s := s.(phase := Bridging(hops, [], [], false, false));
    ghost var sentBefore, gaveBefore := outbound.written, inbound.written;
    ghost var down, up;
    ok, down, up := TunnelCopy(inbound, outbound);
    ghost var sent, gave := outbound.written[|sentBefore|..], inbound.written[|gaveBefore|..];
    CopiedPart(sentBefore, outbound.written, down);
    CopiedPart(gaveBefore, inbound.written, up);
    BridgeRun(w, s, down, sent, up, gave);
    s := s.(took := inbound.consumed, sent := outbound.written, got := outbound.consumed, gave := inbound.written);
    if ok {
      end := Bridged;
      s := Stop(s.(phase := Bridging(hops, [], [], true, true)), Bridged);
    } else {
      end := Aborted;
      s := Stop(s.(phase := Bridging(hops, down[|sent|..], up[|gave|..], false, false)), Aborted);
    }
  }

  lemma CopiedPart(before: bytes, after: bytes, read: bytes)
    requires before <= after <= before + read
    ensures after == before + after[|before|..] && after[|before|..] <= read
    ensures after == before + read ==> after[|before|..] == read
  {
    assert (before + read)[|before|..] == read;
  }

  /** All that a handler asks for is for its own hop: first the dial command, then the attempts, with the
      tunnel protocol for the last hop only; or nothing at all. */
  predicate AsksForOwnHop(w: World, s: Session, before: seq<Call>, after: seq<Call>) {
    if s.attempts == [] then after == before
    else
      && !s.phase.ReadingChain? && !s.phase.RefusingEmpty? && s.phase.hops != [] && PeerOf(w, s.phase.hops[0]).Some?
      && after == before + [DialCommand(w.parse(s.phase.hops[0]).value)]
           + CallsOf(PeerOf(w, s.phase.hops[0]).value, |s.phase.hops| == 1, s.attempts)
  }

  lemma NothingAsked(w: World, s: Session, calls: seq<Call>)
    requires s.attempts == []
    ensures AsksForOwnHop(w, s, calls, calls)
  {}

  lemma OwnHopAsked(w: World, s: Session, hops: seq<Text>, addr: Multiaddr, calls: seq<Call>)
    requires !s.phase.ReadingChain? && !s.phase.RefusingEmpty? && s.phase.hops == hops && hops != []
    requires w.parse(hops[0]) == Some(addr) && FirstPeer(addr).Some? && s.attempts != []
    ensures AsksForOwnHop(w, s, calls,
      calls + [DialCommand(addr)] + CallsOf(FirstPeer(addr).value, |hops| == 1, s.attempts))
  {}

  lemma ChainReadCases(w: World, s: Session, hops: seq<Text>)
    requires ReadChain(s.took, hops, [])
    ensures ChainRead(w, s) ==
      if hops == [] then s.(phase := RefusingEmpty(Written(Result(Error(EMPTY_CHAIN))).value))
      else if PeerOf(w, hops[0]).None? then Stop(s, BadHop)
      else s.(phase := Opening(hops))
    ensures Written(Result(Error(EMPTY_CHAIN))).Some?
  {
    hide TakeMessage, PeerOf, Encode;
    EmptyRefusalIsWritten();
  }

  /** The handler, once it has read its chain. */
  method ServeChain(w: World, inbound: Stream, control: Control, hops: seq<Text>, ghost start: Session)
    returns (end: Ending, outbound: Stream?, ghost s: Session)
    requires start == FRESH.(took := inbound.consumed) && inbound.written == []
    requires Reaches(w, ChainRead(w, start)) && ReadChain(start.took, hops, [])
    modifies inbound, control
    ensures end == Aborted ==> inbound.failed || (outbound != null && outbound.failed)
    ensures end == DialChannelClosed ==> control.closed
    ensures Reaches(w, s) && s.over == Some(end)
    ensures SameLogs(s, inbound, outbound, control)
    ensures outbound != null ==> fresh(outbound)
    ensures old(inbound.consumed + inbound.arriving) == inbound.consumed + inbound.arriving
    ensures AsksForOwnHop(w, s, old(control.calls), control.calls)
  {
    hide Exec, Encode, Decode, TakeMessage, Reaches, HopRefusal, FirstPeer, CallsOf, AsksForOwnHop, ChainRead,
         Written, ValidUtf8;
    outbound, s := null, ChainRead(w, start);
    ChainReadCases(w, start, hops);
    if hops == [] {
      end, s := Refuse(w, inbound, EmptyChain, Result(Error(EMPTY_CHAIN)), s);
      NothingAsked(w, s, control.calls);
      return;
    }
    var nextHop := w.parse(hops[0]);
    var nextPeer := if nextHop.None? then None else FirstPeer(nextHop.value);
    if nextPeer.None? {
      NothingAsked(w, s, control.calls);
      return BadHop, outbound, s;
    }
    end, outbound, s := ServeHop(w, inbound, control, hops, nextHop.value, s);
  }

  /** The handler, once it knows where the next hop is. */
  method ServeHop(w: World, inbound: Stream, control: Control, hops: seq<Text>, nextHop: Multiaddr,
                  ghost start: Session)
    returns (end: Ending, outbound: Stream?, ghost s: Session)
    requires start == FRESH.(took := inbound.consumed, phase := Opening(hops)) && inbound.written == []
    requires hops != [] && w.parse(hops[0]) == Some(nextHop) && FirstPeer(nextHop).Some?
    requires Reaches(w, start)
    modifies inbound, control
    ensures end == Aborted ==> inbound.failed || (outbound != null && outbound.failed)
    ensures end == DialChannelClosed ==> control.closed
    ensures Reaches(w, s) && s.over == Some(end)
    ensures SameLogs(s, inbound, outbound, control)
    ensures outbound != null ==> fresh(outbound)
    ensures old(inbound.consumed + inbound.arriving) == inbound.consumed + inbound.arriving
    ensures AsksForOwnHop(w, s, old(control.calls), control.calls)
  {
    hide Exec, Encode, Decode, TakeMessage, Reaches, HopRefusal, FirstPeer, CallsOf, AsksForOwnHop;
    outbound := null;
    var open := control.SendDial(nextHop);
    if !open {
      end, s := DialChannelClosed, Stop(start, DialChannelClosed);
      ReachesNext(w, start, Close, s);
      NothingAsked(w, s, control.calls);
      return;
    }
    end, outbound, s := ForwardAndBridge(w, inbound, control, hops, FirstPeer(nextHop).value, start);
    OwnHopAsked(w, s, hops, nextHop, old(control.calls));
  }

  /** `handle_jump_request`. Its run is one of the machine's, so that its logs are disciplined, and its
      end is one of the machine's endings. */
  method HandleJumpRequest(w: World, inbound: Stream, control: Control)
    returns (end: Ending, outbound: Stream?, ghost s: Session)
    requires inbound.consumed == [] && inbound.written == []
    modifies inbound, control
    ensures end == Aborted ==> inbound.failed || (outbound != null && outbound.failed)
    ensures end == DialChannelClosed ==> control.closed
    ensures Reaches(w, s) && Disciplined(w, s) && s.over == Some(end)
    ensures s.phase.RefusingHop? ==> |s.attempts| == 10 && AllRefused(s.attempts)
    ensures SameLogs(s, inbound, outbound, control)
    ensures outbound != null ==> fresh(outbound)
    ensures old(inbound.arriving) == inbound.consumed + inbound.arriving
    ensures AsksForOwnHop(w, s, old(control.calls), control.calls)
  {
    hide Exec, Encode, Decode, TakeMessage, Reaches, Disciplined, FirstPeer, ChainRead;
    outbound := null;
    var chain := inbound.ReadJumpChain();
    ChainIsRead(w, old(inbound.arriving), inbound.consumed, inbound.arriving);
    s := FRESH.(took := inbound.consumed);
    if chain.Failure? {
      end := if chain.error.UnexpectedEof? then ChainCutShort else UnreadableChain;
      s := Stop(s, end);
    } else {
      end, outbound, s := ServeChain(w, inbound, control, chain.value, s);
    }
    ReachedIsDisciplined(w, s);
    RefusedTenTimes(w, s);
  }

  lemma RefusedTenTimes(w: World, s: Session)
    requires Disciplined(w, s)
    ensures s.phase.RefusingHop? ==> |s.attempts| == 10 && AllRefused(s.attempts)
  {}

  lemma EmptyRefusalIsWritten()
    ensures Written(Result(Error(EMPTY_CHAIN))).Some?
  {
    assert |EMPTY_CHAIN| == 15;
  }
}
