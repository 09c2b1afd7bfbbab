/** How a jump chain ends for its dialer: the earliest hop that fails decides. */
module JumpOutcome {
  import opened Wrappers
  import opened Bytes
  import opened Frames
  import opened Addresses
  import opened JumpSession
  import opened JumpNetwork
  import opened JumpTheorems

  // ---------- Why handlers return ----------

  /** The message made when all ten attempts at the first hop have been refused. */
  function TenthRefusal(w: World, s: Session, hops: seq<Text>): Option<Text> {
    if hops != [] && PeerOf(w, hops[0]).Some? && |s.attempts| == 10 && AllRefused(s.attempts)
    then Some(HopRefusal(w, PeerOf(w, hops[0]).value, s.attempts[9].error)) else None
  }

  /** In which phases a handler returns, and for which reasons. */
  ghost predicate EndingFits(w: World, s: Session) {
    s.over.Some? ==>
      var e := s.over.value;
      match s.phase
      case ReadingChain =>
        && (e == UnreadableChain ==> Wanted(s.took) == 0 && Unheard(ChainKind, s.took))
        && (e == ChainCutShort ==> Wanted(s.took) > 0)
        && (e == BadHop ==> exists hops :: ReadChain(s.took, hops, []) && hops != [] && PeerOf(w, hops[0]).None?)
        && (e == ChainCutShort || e == UnreadableChain || e == BadHop || e == Aborted)
      case RefusingEmpty(todo) => e == Aborted || (e == EmptyChain && todo == [])
      case Opening(hops) =>
        e == Aborted || (e == DialChannelClosed && s.attempts == [])
        || (e == Unwritable && TenthRefusal(w, s, hops).Some?
          && Written(Result(Error(TenthRefusal(w, s, hops).value))).None?)
      case RefusingHop(_, _, todo) => e == Aborted || (e == HopRefused && todo == [])
      case Forwarding(_, _) => e == Aborted
      case ReadingResult(_) => e == Aborted || (e == NoResult && Unheard(ResultKind, s.got))
      case PassingError(_, _, todo) => e == Aborted || (e == ErrorPassed && todo == [])
      case SayingOk(_, _) => e == Aborted
      case Bridging(_, down, up, inEnded, backEnded) =>
        e == Aborted || (e == Bridged && inEnded && backEnded && down == [] && up == [])
  }

  lemma EndingKeeps(w: World, s: Session, e: Event)
    requires Disciplined(w, s) && EndingFits(w, s) && Next(w, s, e).Some?
    ensures EndingFits(w, Next(w, s, e).value)
  {
    hide ValidUtf8, TakeMessage, PeerOf, Encode, HopRefusal, Wanted, OpenReturned, ChainRead, ResultRead;
    match s.phase
    case ReadingChain => if e.Compute? { ChainReadEnds(w, s); }
    case Opening(_) => if e.Open? { OpenReturnedEnds(w, s, e.attempt); }
    case ReadingResult(_) => if e.Compute? { ResultReadEnds(w, s); }
      else if e.EndBack? { ShortIsUnheard(ResultKind, s.got); }
    case _ =>
  }

  lemma ShortIsUnheard(kind: Kind, seen: bytes)
    requires Wanted(seen) > 0
    ensures Unheard(kind, seen)
  {}

  lemma ChainReadEnds(w: World, s: Session)
    requires Disciplined(w, s) && s.phase.ReadingChain? && s.over.None? && Wanted(s.took) == 0
    ensures EndingFits(w, ChainRead(w, s))
  {
    hide ValidUtf8, Decode, PeerOf, TakeFrame;
    ArrivedPrefix(s.took, []);
    var m := TakeMessage(ChainKind, s.took);
    if m.Received? {
      assert ReadChain(s.took, m.message.hops, []);
    }
    EmptyChainFits();
  }

  lemma EmptyChainFits()
    ensures |EMPTY_CHAIN| == 15 && |Encode(Result(Error(EMPTY_CHAIN)))| == 17
  {}

  lemma OpenReturnedEnds(w: World, s: Session, a: Attempt)
    requires Disciplined(w, s) && s.phase.Opening? && s.over.None?
    ensures EndingFits(w, OpenReturned(w, s, a))
  {
    hide ValidUtf8, TakeMessage, PeerOf, Encode, HopRefusal;
    HeaderFits(s.took, s.phase.hops, []);
    AttemptsGrow(s.attempts, a);
  }

  lemma ResultReadEnds(w: World, s: Session)
    requires Disciplined(w, s) && s.phase.ReadingResult? && s.over.None?
    ensures EndingFits(w, ResultRead(s))
  {
    hide ValidUtf8, Decode, Encode, TakeFrame;
    var r := TakeMessage(ResultKind, s.got);
    if r.Received? && r.message.result.Error? {
      HeardErrorFits(s.got, r.message.result.message, r.rest);
    }
  }

  lemma HeardErrorFits(got: bytes, e: Text, back: bytes)
    requires ReadResult(got, Error(e), back)
    ensures |Encode(Result(Error(e)))| <= MAX_FRAME && Written(Result(Error(e))).Some?
  {
    ReencodedErrorFits(TakeFrame(got).body, e);
  }

  // ---------- Why readers give up ----------

  /** Why the opener of stream `c`, having read `got` from it, need not expect a result. */
  predicate GaveUp(g: Net, c: nat, got: bytes)
    requires c < |g|
  {
    g[c].broken || Wanted(got) == 0 || (UpEnded(g[c].agent) && got == Gave(g[c].agent))
  }

  ghost predicate EndOk(w: World, g: Net, i: nat)
    requires i < |g|
  {
    var hasChild := g[i].child.Some? && g[i].child.value < |g|;
    match g[i].agent
    case Relay(s) =>
      && EndingFits(w, s)
      && (s.over == Some(NoResult) ==> hasChild && GaveUp(g, g[i].child.value, s.got))
      && (s.over == Some(Aborted) ==> g[i].broken || (hasChild && g[g[i].child.value].broken))
    case Dialer(c) =>
      c.over == Some(Lost) ==>
        && c.phase.AwaitingResult? && Unheard(ResultKind, c.got)
        && hasChild && GaveUp(g, g[i].child.value, c.got)
    case Far(_) => true
  }

  ghost predicate Ends(w: World, g: Net) {
    Inv(w, g) && forall i: nat | i < |g| :: EndOk(w, g, i)
  }

  lemma EndedStaysEnded(w: World, a: Agent, e: Event)
    requires UpEnded(a) && NextAgent(w, a, e).Some?
    ensures UpEnded(NextAgent(w, a, e).value) && Gave(NextAgent(w, a, e).value) == Gave(a)
  {
    hide ValidUtf8, TakeMessage, PeerOf, Wanted, ChainRead, OpenReturned, ResultRead, FirstPeer, DialOpened,
         DialResultRead;
    AgentLogs(w, a, e);
  }

  /** What a step leaves of a process it does not concern. */
  lemma OthersStay(w: World, g: Net, g': Net, act: Action, c: nat)
    requires Step(w, g, act) == Some(g') && c < |g|
    ensures |g| <= |g'| && (g[c].broken ==> g'[c].broken)
    ensures g'[c].agent == g[c].agent
      || (act.Act? && act.i == c && NextAgent(w, g[c].agent, act.e) == Some(g'[c].agent))
    ensures g'[c].child == g[c].child || (act == Act(c, Open(Opened)) && g[c].child.None?)
  {
    hide NextAgent, AimOf, ValidUtf8, DownQueue, UpQueue, UpEnded, DownEnded;
  }

  /** Events of a process leave its opener's reason to give up standing. */
  lemma GaveUpStands(w: World, g: Net, g': Net, act: Action, c: nat, got: bytes)
    requires Step(w, g, act) == Some(g') && c < |g| && GaveUp(g, c, got)
    ensures GaveUp(g', c, got)
  {
    hide NextAgent, UpEnded, Gave, AimOf, Wanted, Step;
    OthersStay(w, g, g', act, c);
    if g'[c].agent != g[c].agent && UpEnded(g[c].agent) {
      EndedStaysEnded(w, g[c].agent, act.e);
    }
  }

  lemma RelayEndOk(w: World, g: Net, i: nat, e: Event, s': Session)
    requires Ends(w, g) && i < |g| && g[i].agent.Relay? && Possible(g, i, e)
    requires Next(w, g[i].agent.session, e) == Some(s')
    ensures EndingFits(w, s')
    ensures s'.over == Some(NoResult) ==>
      g[i].child.Some? && g[i].child.value < |g| && GaveUp(g, g[i].child.value, s'.got)
    ensures s'.over == Some(Aborted) ==>
      g[i].broken || (g[i].child.Some? && g[i].child.value < |g| && g[g[i].child.value].broken)
  {
    hide ValidUtf8, TakeMessage, PeerOf, Encode, HopRefusal, Wanted, EndingFits, UpEnded, DownEnded, Disciplined, AimOf;
    assert ProcOk(w, g, i) && EndOk(w, g, i);
    var s := g[i].agent.session;
    EndingKeeps(w, s, e);
    if e.EndBack? {
      assert ProcOk(w, g, g[i].child.value);
    }
  }

  lemma DialEndOk(w: World, g: Net, i: nat, e: Event, c': Caller)
    requires Ends(w, g) && i < |g| && g[i].agent.Dialer? && Possible(g, i, e)
    requires NextDial(w, g[i].agent.caller, e) == Some(c')
    ensures c'.over == Some(Lost) ==>
      && c'.phase.AwaitingResult? && Unheard(ResultKind, c'.got)
      && g[i].child.Some? && g[i].child.value < |g| && GaveUp(g, g[i].child.value, c'.got)
  {
    hide ValidUtf8, TakeMessage, PeerOf, Encode, UpEnded, DownEnded, FirstPeer, AimOf, ChainFrame, Wanted;
    assert ProcOk(w, g, i) && EndOk(w, g, i);
    if e.EndBack? {
      assert ProcOk(w, g, g[i].child.value);
      if g[i].agent.caller.phase.AwaitingResult? {
        ShortIsUnheard(ResultKind, c'.got);
      }
    }
  }

  lemma EndsKeep(w: World, g: Net, act: Action)
    requires Ends(w, g) && Step(w, g, act).Some?
    ensures Ends(w, Step(w, g, act).value)
  {
    hide NextAgent, AimOf, Possible, GaveUp, EndingFits, Disciplined, DialOk, Wanted, TakeMessage, ValidUtf8,
         UpEnded, Gave;
    StepKeeps(w, g, act);
    var g' := Step(w, g, act).value;
    forall j: nat | j < |g'| ensures EndOk(w, g', j) {
      if j < |g| {
        EndStepKeeps(w, g, act, j);
      } else {
        NewEndOk(w, g, act);
      }
    }
  }

  lemma NewEndOk(w: World, g: Net, act: Action)
    requires Step(w, g, act).Some?
    ensures var g' := Step(w, g, act).value; |g| < |g'| ==> |g'| == |g| + 1 && EndOk(w, g', |g|)
  {
    hide NextAgent, AimOf, Possible, GaveUp, Wanted, TakeMessage, ValidUtf8;
  }

  lemma EndStepKeeps(w: World, g: Net, act: Action, j: nat)
    requires Ends(w, g) && Step(w, g, act).Some? && j < |g|
    ensures EndOk(w, Step(w, g, act).value, j)
  {
    hide AimOf, Possible, GaveUp, EndingFits, AgentOk, Wanted, TakeMessage, ValidUtf8, Next, NextDial, NextFar, Step;
    var g' := Step(w, g, act).value;
    assert ProcOk(w, g, j) && EndOk(w, g, j);
    OthersStay(w, g, g', act, j);
    if g'[j].agent != g[j].agent {
      ActIsPossible(w, g, g', act);
      match g[j].agent
      case Relay(s) => RelayEndOk(w, g, j, act.e, Next(w, s, act.e).value);
      case Dialer(c) => DialEndOk(w, g, j, act.e, NextDial(w, c, act.e).value);
      case Far(_) =>
    }
    if g[j].child.Some? {
      var c := g[j].child.value;
      OthersStay(w, g, g', act, c);
      var got := Got(g'[j].agent);
      if GaveUp(g, c, got) {
        GaveUpStands(w, g, g', act, c, got);
      }
    }
  }

  lemma ActIsPossible(w: World, g: Net, g': Net, act: Action)
    requires Step(w, g, act) == Some(g') && act.Act?
    ensures act.i < |g| && Possible(g, act.i, act.e)
  {
    hide NextAgent, AimOf, Possible;
  }

  lemma {:induction false} RunEnds(w: World, acts: seq<Action>)
    requires Run(w, acts).Some?
    ensures Ends(w, Run(w, acts).value)
  {
    hide Step, Ends;
    if acts != [] {
      RunEnds(w, acts[..|acts| - 1]);
      EndsKeep(w, Run(w, acts[..|acts| - 1]).value, acts[|acts| - 1]);
    } else {
      NothingEnded(w);
    }
  }

  lemma NothingEnded(w: World)
    ensures Ends(w, [])
  {}

  // ---------- The earliest failing hop ----------

  /** What the hops from `c` on have come to, looking only at how each relay fared with its own hop:
      not yet decided; a tunnel stream opened; a refusal that its opener can read; or a silent end. */
  datatype Fate = Pending | Ready | Refusal(message: Text) | Silent

  function PathFate(g: Net, c: nat): Fate
    decreases if c < |g| then |g| - c else 0
  {
    if c >= |g| || !g[c].agent.Relay? then Pending
    else
      var s := g[c].agent.session;
      match s.phase
      case ReadingChain => if s.over.Some? then Silent else Pending
      case RefusingEmpty(_) => Refusal(EMPTY_CHAIN)
      case Opening(_) => if s.over.Some? then Silent else Pending
      case RefusingHop(_, m, _) => if |Encode(Result(Error(m)))| <= 65_536 then Refusal(m) else Silent
      case _ =>
        if g[c].child.None? || g[c].child.value <= c || g[c].child.value >= |g| then Pending
        else if g[g[c].child.value].agent.Relay? then PathFate(g, g[c].child.value)
        else Ready
  }

  /** A stream along the way from `c` on has been lost. */
  predicate Disturbed(g: Net, c: nat)
    decreases if c < |g| then |g| - c else 0
  {
    c < |g| && (g[c].broken || (g[c].child.Some? && g[c].child.value > c && Disturbed(g, g[c].child.value)))
  }

  lemma AbortedMeansDisturbed(w: World, g: Net, c: nat)
    requires Ends(w, g) && c < |g| && g[c].agent.Relay? && g[c].agent.session.over == Some(Aborted)
    ensures Disturbed(g, c)
  {
    hide AgentOk, EndingFits, ValidUtf8;
    assert ProcOk(w, g, c) && EndOk(w, g, c);
  }

  /** A result that has been read is the fate of the path it came up. */
  lemma {:induction false} ResultIsFate(w: World, g: Net, p: nat, c: nat, r: JumpResult, back: bytes)
    requires Inv(w, g) && p < |g| && c < |g| && g[c].parent == Some(p) && g[c].agent.Relay?
    requires ReadResult(Got(g[p].agent), r, back)
    ensures PathFate(g, c) == if r.Ok? then Ready else Refusal(r.message)
    decreases |g| - c
  {
    hide ValidUtf8, Encode, Decode, TakeMessage, PeerOf, FirstPeer, Committed;
    ResultIsTheRelays(w, g, p, c, r, back);
    assert ProcOk(w, g, c);
    var s := g[c].agent.session;
    if !HasOpened(g[c].agent) {
    } else {
      var d := g[c].child.value;
      assert ProcOk(w, g, d);
      if |s.phase.hops| > 1 {
        var back' :| ReadResult(s.got, r, back');
        ResultIsFate(w, g, c, d, r, back');
      }
    }
  }

  lemma WholeFrameIsHeard(m: Message, f: bytes, later: bytes)
    requires Written(m) == Some(f) && |Encode(m)| <= MAX_FRAME
    ensures !Unheard(KindOf(m), f + later) && !Unheard(KindOf(m), f)
  {
    hide ValidUtf8, Encode, Decode, TakeFrame;
    WriteThenRead(m, later);
    WriteThenRead(m, []);
    assert f + [] == f;
  }

  /** A result that a handler writes can be read by its opener, except for a refusal that is too long. */
  lemma ReplyFits(w: World, s: Session)
    requires Disciplined(w, s) && Reply(s).Some?
    ensures s.phase.RefusingHop? || |Encode(Result(Reply(s).value))| <= MAX_FRAME
  {
    hide ValidUtf8, Encode, TakeMessage, PeerOf;
    match s.phase
    case RefusingEmpty(_) => EmptyChainFits();
    case PassingError(_, m, _) => HeardErrorFits(s.got, m, []);
    case _ => OkFits();
  }

  lemma OkFits()
    ensures |Encode(Result(Ok))| == 1
  {}

  /** A handler that has returned without giving its opener a whole result: its path has gone silent, or
      a stream was lost. */
  lemma {:induction false} SilenceIsFate(w: World, g: Net, p: nat, c: nat)
    requires Ends(w, g) && p < |g| && c < |g| && g[c].parent == Some(p) && g[c].agent.Relay?
    requires GaveUp(g, c, Got(g[p].agent)) && Unheard(ResultKind, Got(g[p].agent)) && Arriving(Got(g[p].agent))
    ensures PathFate(g, c) == Silent || Disturbed(g, c)
    decreases |g| - c
  {
    hide ValidUtf8, Encode, Decode, TakeMessage, PeerOf, FirstPeer, Wanted, Reply, Got;
    assert ProcOk(w, g, c) && EndOk(w, g, c);
    var s := g[c].agent.session;
    var got := Got(g[p].agent);
    if g[c].broken {
    } else if Wanted(got) == 0 {
      UnreadableIsFate(w, g, p, c);
    } else if s.over == Some(Aborted) {
      AbortedMeansDisturbed(w, g, c);
    } else if s.over == Some(NoResult) {
      var d := g[c].child.value;
      assert ProcOk(w, g, d);
      LostIsFate(w, g, c, d);
      SilenceIsFate(w, g, c, d);
    } else {
      SilentEnd(w, s);
    }
  }

  lemma LostIsFate(w: World, g: Net, c: nat, d: nat)
    requires Ends(w, g) && c < d < |g| && g[c].child == Some(d) && g[c].agent.Relay?
    requires g[c].agent.session.over == Some(NoResult)
    ensures g[d].parent == Some(c) && g[d].agent.Relay?
    ensures GaveUp(g, d, Got(g[c].agent)) && Unheard(ResultKind, Got(g[c].agent)) && Arriving(Got(g[c].agent))
    ensures PathFate(g, c) == PathFate(g, d)
  {
    hide ValidUtf8, Encode, TakeMessage, PeerOf, FirstPeer, Wanted, Arriving;
    assert ProcOk(w, g, c) && EndOk(w, g, c) && ProcOk(w, g, d);
  }

  /** A handler that has written all it will, and of which no result can be read, failed at its own hop. */
  lemma SilentEnd(w: World, s: Session)
    requires Disciplined(w, s) && EndingFits(w, s) && UpEnded(Relay(s)) && Unheard(ResultKind, s.gave)
    requires s.over != Some(Aborted) && s.over != Some(NoResult)
    ensures s.over.Some?
    ensures s.phase.ReadingChain? || s.phase.Opening?
      || (s.phase.RefusingHop? && |Encode(Result(Error(s.phase.message)))| > MAX_FRAME)
  {
    hide ValidUtf8, Encode, Decode, TakeMessage, PeerOf, FirstPeer;
    GivesOneResult(w, s);
    if Reply(s).Some? && |Encode(Result(Reply(s).value))| <= MAX_FRAME {
      var f := Written(Result(Reply(s).value)).value;
      if s.phase.Bridging? {
        assert s.gave == f + s.gave[|f|..] by { OkIsWritten(); }
        WholeFrameIsHeard(Result(Reply(s).value), f, s.gave[|f|..]);
      } else if s.over.Some? && !s.phase.SayingOk? {
        assert s.gave + [] == s.gave;
        WholeFrameIsHeard(Result(Reply(s).value), f, []);
      }
    } else if Reply(s).Some? {
      ReplyFits(w, s);
    }
  }

  lemma UnreadableIsFate(w: World, g: Net, p: nat, c: nat)
    requires Ends(w, g) && p < |g| && c < |g| && g[c].parent == Some(p) && g[c].agent.Relay?
    requires Wanted(Got(g[p].agent)) == 0 && Unheard(ResultKind, Got(g[p].agent)) && Arriving(Got(g[p].agent))
    ensures PathFate(g, c) == Silent
  {
    hide ValidUtf8, Encode, Decode, TakeMessage, PeerOf, FirstPeer, Got;
    assert ProcOk(w, g, c);
    var s := g[c].agent.session;
    GivesOneResult(w, s);
    if Reply(s).Some? {
      ArrivedFrame(Result(Reply(s).value), Written(Result(Reply(s).value)).value, s.gave, Got(g[p].agent));
      ReplyFits(w, s);
    }
  }

  /** The dialer's verdict, in every run: Ok only if the tunnel stream was opened; an error only if it is,
      byte for byte, the refusal of the earliest failing hop; and a lost stream only if that hop ended
      silently, or some stream along the way was lost. */
  lemma OutcomeIsTheEarliestFailure(w: World, acts: seq<Action>, g: Net, d: nat)
    requires Run(w, acts) == Some(g) && d < |g| && g[d].agent.Dialer? && g[d].child.Some?
    ensures var c, r := g[d].agent.caller, g[d].child.value;
      && ((exists back :: ReadResult(c.got, Ok, back)) ==> PathFate(g, r) == Ready)
      && (forall e, back :: ReadResult(c.got, Error(e), back) ==> PathFate(g, r) == Refusal(e))
      && (c.over == Some(Lost) ==> PathFate(g, r) == Silent || Disturbed(g, r))
  {
    hide ValidUtf8, Encode, Decode, TakeMessage, PeerOf, FirstPeer, Run, PathFate, Disturbed;
    RunEnds(w, acts);
    assert ProcOk(w, g, d) && EndOk(w, g, d);
    var c, r := g[d].agent.caller, g[d].child.value;
    assert ProcOk(w, g, r);
    forall x: JumpResult, back | ReadResult(c.got, x, back)
      ensures PathFate(g, r) == if x.Ok? then Ready else Refusal(x.message)
    {
      ResultIsFate(w, g, d, r, x, back);
    }
    if c.over == Some(Lost) {
      SilenceIsFate(w, g, d, r);
    }
  }

  /** A handler's own part in a fate stays what it is. */
  lemma OwnPartIsFinal(w: World, s: Session, e: Event)
    requires Next(w, s, e).Some?
    ensures var s' := Next(w, s, e).value;
      && s.over.None?
      && (s.phase.RefusingEmpty? ==> s'.phase.RefusingEmpty?)
      && (s.phase.RefusingHop? ==> s'.phase.RefusingHop? && s'.phase.message == s.phase.message)
      && (HasOpened(Relay(s)) ==> HasOpened(Relay(s')))
  {
    hide ValidUtf8, TakeMessage, PeerOf, Encode, HopRefusal, Wanted;
  }

  /** Decided is decided: no step changes a fate that is not pending any more. */
  lemma {:induction false} FateIsFinal(w: World, g: Net, act: Action, c: nat)
    requires Inv(w, g) && Step(w, g, act).Some? && PathFate(g, c) != Pending
    ensures PathFate(Step(w, g, act).value, c) == PathFate(g, c)
    decreases if c < |g| then |g| - c else 0
  {
    hide ValidUtf8, Encode, AimOf, Next, Step, AgentOk, ParentOk;
    var g' := Step(w, g, act).value;
    assert ProcOk(w, g, c);
    OthersStay(w, g, g', act, c);
    if g'[c].agent != g[c].agent {
      OwnPartIsFinal(w, g[c].agent.session, act.e);
    }
    if HasOpened(g[c].agent) {
      var d := g[c].child.value;
      OthersStay(w, g, g', act, d);
      if g[d].agent.Relay? {
        FateIsFinal(w, g, act, d);
      }
    }
  }

  // ---------- What a fate says about the hops ----------

  /** How a relay that has not opened its stream accounts for the fate of the path, given the hops its opener sent. */
  predicate OwnFate(w: World, s: Session, hops: seq<Text>, fate: Fate)
    requires hops != []
  {
    match fate
    case Ready => false
    case Pending => s.over.None? && (s.phase.ReadingChain? || s.phase.Opening?)
    case Refusal(m) => s.phase.RefusingHop? && TenthRefusal(w, s, hops) == Some(m)
      && |Encode(Result(Error(m)))| <= 65_536
    case Silent => SilentCause(w, s, hops) || CutOff(s)
  }

  /** Why a relay ends without a result that its opener can read: the hop names no peer; the chain frame
      is beyond the bound; the swarm takes no dial commands; or the hop was refused ten times, and the
      frame of the refusal is beyond the bound. */
  predicate SilentCause(w: World, s: Session, hops: seq<Text>)
    requires hops != []
  {
    || (s.over == Some(BadHop) && s.phase.ReadingChain? && PeerOf(w, hops[0]).None?)
    || (s.over == Some(UnreadableChain) && s.phase.ReadingChain? && |Encode(Chain(hops))| > 65_536)
    || (s.over == Some(DialChannelClosed) && s.phase.Opening? && s.attempts == [])
    || (((s.over == Some(Unwritable) && s.phase.Opening?) || s.phase.RefusingHop?)
        && TenthRefusal(w, s, hops).Some? && |Encode(Result(Error(TenthRefusal(w, s, hops).value)))| > 65_536)
  }

  /** It was stopped before it had dealt with its hop: its chain ended too early, or a stream was lost. */
  predicate CutOff(s: Session) {
    (s.over == Some(ChainCutShort) && s.phase.ReadingChain?)
    || (s.over == Some(Aborted) && (s.phase.ReadingChain? || s.phase.Opening?))
  }

  /** Every hop before the one that accounts for the fate was reached, and that one was not; or all were. */
  ghost predicate DecidedByEarliest(w: World, g: Net, c: nat, hops: seq<Text>, fate: Fate)
    decreases |hops|
  {
    && c < |g| && hops != [] && g[c].agent.Relay?
    && if !HasOpened(g[c].agent) then OwnFate(w, g[c].agent.session, hops, fate)
       else
         && g[c].child.Some? && g[c].child.value < |g|
         && PeerOf(w, hops[0]) == Some(g[g[c].child.value].peer)
         && if |hops| == 1 then fate == Ready && g[g[c].child.value].via.Tunnel?
            else DecidedByEarliest(w, g, g[c].child.value, hops[1..], fate)
  }

  /** A relay never finds an unreadable or empty chain on a stream of this protocol, unless the frame
      that the dialer itself sent is beyond the bound. */
  lemma ChainsAreReadable(w: World, g: Net, p: nat, c: nat)
    requires Ends(w, g) && p < |g| && c < |g| && g[c].parent == Some(p) && g[c].agent.Relay?
    requires Told(w, g[p].agent).Some? && Told(w, g[p].agent).value != []
    ensures var s, hops := g[c].agent.session, Told(w, g[p].agent).value;
      && !s.phase.RefusingEmpty?
      && (s.over == Some(UnreadableChain) ==> g[p].agent.Dialer? && |Encode(Chain(hops))| > 65_536)
  {
    hide ValidUtf8, Encode, Decode, TakeMessage, PeerOf, FirstPeer, HopTexts;
    assert ProcOk(w, g, p) && ProcOk(w, g, c) && EndOk(w, g, c);
    var s := g[c].agent.session;
    var hops := Told(w, g[p].agent).value;
    if s.phase.RefusingEmpty? {
      ChainIsTheOpeners(w, g, p, c, [], []);
      assert false;
    }
    SendsOneChain(w, g[p].agent);
    if s.over == Some(UnreadableChain) {
      var f := Written(Chain(hops));
      if f.Some? {
        ArrivedFrame(Chain(hops), f.value, Sent(g[p].agent), s.took);
      }
      if g[p].agent.Relay? {
        var sp := g[p].agent.session;
        HopsWereRead(w, sp);
        var payload :| ReadChain(sp.took, sp.phase.hops, payload);
        HeaderFits(sp.took, sp.phase.hops, payload);
      }
    }
  }

  /** The fate of a path is decided by the earliest hop that was not reached. */
  lemma {:induction false} FateIsDecidedByEarliest(w: World, g: Net, p: nat, c: nat, hops: seq<Text>)
    requires Ends(w, g) && p < |g| && c < |g| && g[c].parent == Some(p) && g[c].agent.Relay?
    requires Told(w, g[p].agent) == Some(hops) && hops != []
    ensures DecidedByEarliest(w, g, c, hops, PathFate(g, c))
    decreases |hops|
  {
    hide ValidUtf8, Encode, Decode, TakeMessage, PeerOf, FirstPeer, HopTexts, HopRefusal, Frame, Header;
    assert ProcOk(w, g, c) && EndOk(w, g, c);
    var s := g[c].agent.session;
    ChainsAreReadable(w, g, p, c);
    HopsWereRead(w, s);
    if !s.phase.ReadingChain? {
      var payload :| ReadChain(s.took, s.phase.hops, payload);
      ChainIsTheOpeners(w, g, p, c, s.phase.hops, payload);
    } else if s.over == Some(BadHop) {
      var hops' :| ReadChain(s.took, hops', []) && hops' != [] && PeerOf(w, hops'[0]).None?;
      ChainIsTheOpeners(w, g, p, c, hops', []);
    }
    if !HasOpened(g[c].agent) {
    } else {
      var d := g[c].child.value;
      assert ProcOk(w, g, d);
      if |hops| > 1 {
        FateIsDecidedByEarliest(w, g, c, d, hops[1..]);
      }
    }
  }

  /** For a dialer: the fate of its chain is decided by the earliest of its hops that was not reached. */
  lemma DialFate(w: World, acts: seq<Action>, g: Net, d: nat)
    requires Run(w, acts) == Some(g) && d < |g| && g[d].agent.Dialer? && g[d].child.Some?
    ensures var c, r := g[d].agent.caller, g[d].child.value;
      && c.jump != []
      && DecidedByEarliest(w, g, r, DialHops(w, c.jump, c.target), PathFate(g, r))
  {
    hide ValidUtf8, Encode, Decode, TakeMessage, PeerOf, FirstPeer, HopTexts, Run, PathFate;
    RunEnds(w, acts);
    assert ProcOk(w, g, d);
    var c, r := g[d].agent.caller, g[d].child.value;
    assert ProcOk(w, g, r);
    FateIsDecidedByEarliest(w, g, d, r, DialHops(w, c.jump, c.target));
  }

  /** In every run: however a client frames its chain, no relay behind the first finds a chain it cannot
      read, and no relay on a dialer's path finds an empty one. */
  lemma ForwardedChainsFit(w: World, acts: seq<Action>, g: Net, c: nat)
    requires Run(w, acts) == Some(g) && c < |g| && g[c].agent.Relay?
    requires g[c].parent.Some? && g[c].parent.value < |g|
    ensures g[g[c].parent.value].agent.Relay? ==>
      g[c].agent.session.over != Some(UnreadableChain) && !g[c].agent.session.phase.RefusingEmpty?
    ensures g[g[c].parent.value].agent.Dialer? ==> !g[c].agent.session.phase.RefusingEmpty?
  {
    hide ValidUtf8, Encode, Decode, TakeMessage, PeerOf, FirstPeer, HopTexts, Run;
    RunEnds(w, acts);
    var p := g[c].parent.value;
    assert ProcOk(w, g, c) && ProcOk(w, g, p);
    if !g[p].agent.Far? {
      ChainsAreReadable(w, g, p, c);
    }
  }

  // ---------- One handler's session ----------

  /** `log` is part of one result frame; only behind a whole Ok can it go on. */
  predicate PartOfResult(log: bytes, r: JumpResult) {
    var f := Written(Result(r));
    f.Some? && (log <= f.value || (r.Ok? && f.value <= log))
  }

  /** Over its whole run a handler: reads one chain frame and, unless it has said Ok, nothing behind it;
      writes upstream at most one result, with nothing before it, and more only behind an Ok; says Ok only
      with a whole downstream Ok in hand, or, at the last hop, with its tunnel stream open; and writes
      payload downstream only behind its own Ok. */
  lemma HandlerDiscipline(w: World, acts: seq<Action>, g: Net, i: nat)
    requires Run(w, acts) == Some(g) && i < |g| && g[i].agent.Relay?
    ensures var s := g[i].agent.session;
      && (OK_FRAME <= s.gave || Arriving(s.took))
      && (s.gave == [] || exists r :: PartOfResult(s.gave, r))
      && (s.gave != [] && Reply(s) == Some(Ok) ==>
            && HasOpened(g[i].agent) && g[i].child.Some? && g[i].child.value < |g|
            && (g[g[i].child.value].via.Tunnel? || exists back :: ReadResult(s.got, Ok, back)))
      && (HasOpened(g[i].agent) && !(OK_FRAME <= s.gave) ==>
            s.phase.hops != [] && Header(s.phase.hops).Some? && s.sent <= Header(s.phase.hops).value)
  {
    hide ValidUtf8, Encode, Decode, TakeMessage, PeerOf, FirstPeer, Run;
    RunKeeps(w, acts);
    assert ProcOk(w, g, i);
    var s := g[i].agent.session;
    GivesOneResult(w, s);
    OneChainArrives(w, s);
    if HasOpened(g[i].agent) {
      assert ProcOk(w, g, g[i].child.value);
      if s.phase.Forwarding? {
        assert s.sent <= s.sent + s.phase.todo;
      }
    }
    if Reply(s).Some? {
      assert PartOfResult(s.gave, Reply(s).value);
    }
  }

  lemma OneChainArrives(w: World, s: Session)
    requires Disciplined(w, s)
    ensures OK_FRAME <= s.gave || Arriving(s.took)
  {
    hide ValidUtf8, Encode, Decode, PeerOf;
  }
}
