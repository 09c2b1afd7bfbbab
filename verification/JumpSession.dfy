/** One jump request as a relay handles it (src/relay.rs, `handle_jump_request`), and the dialer that
    starts a chain (src/client/dial.rs, `--jump` branch), as state machines over single reads and
    writes. Each machine keeps the bytes it has exchanged at its ends. */
module JumpSession {
  import opened Wrappers
  import opened Bytes
  import opened Frames
  import opened Addresses

  /** Text forms that the code takes from libp2p. */
  datatype World = World(parse: Text -> Option<Multiaddr>, show: Multiaddr -> Text, peerText: PeerId -> Text)

  /** `next_peer`: the peer a relay opens its stream to, for a hop. */
  function PeerOf(w: World, hop: Text): Option<PeerId> {
    var addr := w.parse(hop);
    if addr.None? then None else FirstPeer(addr.value)
  }

  const ATTEMPTS := 10

  /** "empty hop chain" */
  const EMPTY_CHAIN: Text := Ascii("empty hop chain")

  function Joined(a: Text, b: Text): Text {
    Utf8Concat(a, b);
    a + b
  }

  const HOP_FAILED: Text := Ascii("failed to connect to hop ")

  /** The message made at a hop that could not be reached. */
  function HopRefusal(w: World, peer: PeerId, error: Text): Text {
    Joined(Joined(Joined(HOP_FAILED, w.peerText(peer)), Ascii(": ")), error)
  }

  /** Its parts: a text of 25 bytes, the peer, and behind a colon and a space the last error. */
  lemma RefusalText(w: World, peer: PeerId, error: Text)
    ensures HopRefusal(w, peer, error) == HOP_FAILED + w.peerText(peer) + [58, 32] + error
    ensures |HOP_FAILED| == 25 && |EMPTY_CHAIN| == 15
  {
    hide ValidUtf8, Ascii;
    ColonAndSpace();
    Lengths();
  }

  /** The bytes of the two texts. */
  lemma HopFailedText()
    ensures HOP_FAILED == [102, 97, 105, 108, 101, 100, 32, 116, 111, 32, 99, 111,
                           110, 110, 101, 99, 116, 32, 116, 111, 32, 104, 111, 112, 32]
  {
    hide ValidUtf8;
    var s := "failed to connect to hop ";
    assert s[0] as int == 102 && s[1] as int == 97 && s[2] as int == 105 && s[3] as int == 108 && s[4] as int == 101;
    assert s[5] as int == 100 && s[6] as int == 32 && s[7] as int == 116 && s[8] as int == 111 && s[9] as int == 32;
    assert s[10] as int == 99 && s[11] as int == 111 && s[12] as int == 110;
    assert s[13] as int == 110 && s[14] as int == 101;
    assert s[15] as int == 99 && s[16] as int == 116 && s[17] as int == 32;
    assert s[18] as int == 116 && s[19] as int == 111;
    assert s[20] as int == 32 && s[21] as int == 104 && s[22] as int == 111;
    assert s[23] as int == 112 && s[24] as int == 32;
    Lengths();
  }

  lemma EmptyChainText()
    ensures EMPTY_CHAIN == [101, 109, 112, 116, 121, 32, 104, 111, 112, 32, 99, 104, 97, 105, 110]
  {
    hide ValidUtf8;
    var s := "empty hop chain";
    assert s[0] as int == 101 && s[1] as int == 109 && s[2] as int == 112 && s[3] as int == 116 && s[4] as int == 121;
    assert s[5] as int == 32 && s[6] as int == 104 && s[7] as int == 111 && s[8] as int == 112 && s[9] as int == 32;
    assert s[10] as int == 99 && s[11] as int == 104 && s[12] as int == 97;
    assert s[13] as int == 105 && s[14] as int == 110;
    Lengths();
  }

  lemma Lengths()
    ensures |HOP_FAILED| == 25 && |EMPTY_CHAIN| == 15
  {
    hide ValidUtf8;
  }

  lemma ColonAndSpace()
    ensures Ascii(": ") == [58, 32]
  {
    hide ValidUtf8;
    var s := ": ";
    assert s[0] as int == 58 && s[1] as int == 32;
  }

  const OK_FRAME: bytes := Frame(Encode(Result(Ok)))

  lemma OkIsWritten()
    ensures Written(Result(Ok)) == Some(OK_FRAME)
  {}

  datatype Attempt = Opened | Refused(error: Text)

  datatype Phase =
    | ReadingChain
    | RefusingEmpty(todo: bytes)
    | Opening(hops: seq<Text>)
    | RefusingHop(hops: seq<Text>, message: Text, todo: bytes)
    | Forwarding(hops: seq<Text>, todo: bytes)
    | ReadingResult(hops: seq<Text>)
    | PassingError(hops: seq<Text>, message: Text, todo: bytes)
    | SayingOk(hops: seq<Text>, todo: bytes)
    | Bridging(hops: seq<Text>, down: bytes, up: bytes, inEnded: bool, backEnded: bool)

  /** Why a handler has returned. */
  datatype Ending =
    | ChainCutShort | UnreadableChain | EmptyChain | BadHop | DialChannelClosed
    | HopRefused | Unwritable | NoResult | ErrorPassed | Bridged | Aborted

  datatype Session = Session(
    phase: Phase,
    took: bytes,              // read from the inbound stream
    gave: bytes,              // written to the inbound stream
    attempts: seq<Attempt>,
    slept: nat,               // milliseconds of backoff
    sent: bytes,              // written to the outbound stream
    got: bytes,               // read from the outbound stream
    over: Option<Ending>)

  datatype Event =
    | Take(b: bytes)          // a read from the inbound stream gives b
    | Give(b: bytes)          // a write to the inbound stream takes b
    | Send(b: bytes)          // a write to the outbound stream takes b
    | Get(b: bytes)           // a read from the outbound stream gives b
    | EndIn                   // a read from the inbound stream finds its end
    | EndBack                 // a read from the outbound stream finds its end
    | Open(attempt: Attempt)  // open_stream returns
    | Compute                 // the step between two awaits
    | Close                   // the swarm's dial channel is closed, or its setup failed
    | Abort                   // a read or write fails, or the task is gone

  const FRESH: Session := Session(ReadingChain, [], [], [], 0, [], [], None)

  /** `b` is what a write takes of `todo`. */
  predicate Writes(todo: bytes, b: bytes) { b != [] && b <= todo }

  function Stop(s: Session, e: Ending): Session { s.(over := Some(e)) }

  function ChainRead(w: World, s: Session): (r: Session)
    ensures r == s.(phase := r.phase, over := r.over)
  {
    match TakeMessage(ChainKind, s.took)
    case Received(m, _) =>
      if m.hops == [] then
        match Written(Result(Error(EMPTY_CHAIN)))
        case Some(f) => s.(phase := RefusingEmpty(f))
        case None => Stop(s, Unwritable)
      else if PeerOf(w, m.hops[0]).None? then Stop(s, BadHop)
      else s.(phase := Opening(m.hops))
    case _ => Stop(s, UnreadableChain)
  }

  function OpenReturned(w: World, s: Session, a: Attempt): (r: Session)
    requires s.phase.Opening? && s.phase.hops != [] && PeerOf(w, s.phase.hops[0]).Some?
    ensures r == s.(phase := r.phase, over := r.over, attempts := r.attempts, slept := r.slept)
  {
    var hops := s.phase.hops;
    var n := |s.attempts|;
    var s' := s.(attempts := s.attempts + [a]);
    match a
    case Opened =>
      if |hops| == 1 then s'.(phase := SayingOk(hops, OK_FRAME))
      else (match Written(Chain(hops[1..]))
            case Some(f) => s'.(phase := Forwarding(hops, f))
            case None => Stop(s', Unwritable))
    case Refused(error) =>
      if n < ATTEMPTS - 1 then s'.(slept := s.slept + 500 * (n + 1))
      else
        var message := HopRefusal(w, PeerOf(w, hops[0]).value, error);
        match Written(Result(Error(message)))
        case Some(f) => s'.(phase := RefusingHop(hops, message, f))
        case None => Stop(s', Unwritable)
  }

  function ResultRead(s: Session): (r: Session)
    requires s.phase.ReadingResult?
    ensures r == s.(phase := r.phase, over := r.over)
  {
    match TakeMessage(ResultKind, s.got)
    case Received(m, _) =>
      if m.result.Ok? then s.(phase := SayingOk(s.phase.hops, OK_FRAME))
      else (match Written(m)
            case Some(f) => s.(phase := PassingError(s.phase.hops, m.result.message, f))
            case None => Stop(s, Unwritable))
    case _ => Stop(s, NoResult)
  }

  /** The handler's next state on an event, or None where the code is not waiting for it. */
  function Next(w: World, s: Session, e: Event): Option<Session> {
    if s.over.Some? then None
    else if e.Abort? then Some(Stop(s, Aborted))
    else match s.phase
      case ReadingChain =>
        (match e
         case Take(b) => if b != [] && |b| <= Wanted(s.took) then Some(s.(took := s.took + b)) else None
         case EndIn => if Wanted(s.took) > 0 then Some(Stop(s, ChainCutShort)) else None
         case Compute => if Wanted(s.took) == 0 then Some(ChainRead(w, s)) else None
         case _ => None)
      case RefusingEmpty(todo) =>
        (match e
         case Give(b) =>
           if Writes(todo, b) then Some(s.(gave := s.gave + b, phase := RefusingEmpty(todo[|b|..]))) else None
         case Compute => if todo == [] then Some(Stop(s, EmptyChain)) else None
         case _ => None)
      case Opening(hops) =>
        (match e
         case Close => if s.attempts == [] then Some(Stop(s, DialChannelClosed)) else None
         case Open(a) => if hops != [] && PeerOf(w, hops[0]).Some? then Some(OpenReturned(w, s, a)) else None
         case _ => None)
      case RefusingHop(hops, m, todo) =>
        (match e
         case Give(b) =>
           if Writes(todo, b) then Some(s.(gave := s.gave + b, phase := RefusingHop(hops, m, todo[|b|..]))) else None
         case Compute => if todo == [] then Some(Stop(s, HopRefused)) else None
         case _ => None)
      case Forwarding(hops, todo) =>
        (match e
         case Send(b) =>
           if Writes(todo, b) then Some(s.(sent := s.sent + b, phase := Forwarding(hops, todo[|b|..]))) else None
         case Compute => if todo == [] then Some(s.(phase := ReadingResult(hops))) else None
         case _ => None)
      case ReadingResult(hops) =>
        (match e
         case Get(b) => if b != [] && |b| <= Wanted(s.got) then Some(s.(got := s.got + b)) else None
         case EndBack => if Wanted(s.got) > 0 then Some(Stop(s, NoResult)) else None
         case Compute => if Wanted(s.got) == 0 then Some(ResultRead(s)) else None
         case _ => None)
      case PassingError(hops, m, todo) =>
        (match e
         case Give(b) =>
           if Writes(todo, b) then Some(s.(gave := s.gave + b, phase := PassingError(hops, m, todo[|b|..]))) else None
         case Compute => if todo == [] then Some(Stop(s, ErrorPassed)) else None
         case _ => None)
      case SayingOk(hops, todo) =>
        (match e
         case Give(b) =>
           if Writes(todo, b) then Some(s.(gave := s.gave + b, phase := SayingOk(hops, todo[|b|..]))) else None
         case Compute => if todo == [] then Some(s.(phase := Bridging(hops, [], [], false, false))) else None
         case _ => None)
      case Bridging(hops, down, up, inEnded, backEnded) =>
        (match e
         case Take(b) =>
           if b != [] && !inEnded then Some(s.(took := s.took + b, phase := s.phase.(down := down + b))) else None
         case Send(b) =>
           if Writes(down, b) then Some(s.(sent := s.sent + b, phase := s.phase.(down := down[|b|..]))) else None
         case Get(b) =>
           if b != [] && !backEnded then Some(s.(got := s.got + b, phase := s.phase.(up := up + b))) else None
         case Give(b) =>
           if Writes(up, b) then Some(s.(gave := s.gave + b, phase := s.phase.(up := up[|b|..]))) else None
         case EndIn => if inEnded then None else Some(s.(phase := s.phase.(inEnded := true)))
         case EndBack => if backEnded then None else Some(s.(phase := s.phase.(backEnded := true)))
         case Compute => if inEnded && backEnded && down == [] && up == [] then Some(Stop(s, Bridged)) else None
         case _ => None)
  }

  /** An event changes the logs by exactly the bytes it names. */
  lemma SessionLogs(w: World, s: Session, e: Event)
    requires Next(w, s, e).Some?
    ensures var s' := Next(w, s, e).value;
      && s'.took == (if e.Take? then s.took + e.b else s.took)
      && s'.gave == (if e.Give? then s.gave + e.b else s.gave)
      && s'.sent == (if e.Send? then s.sent + e.b else s.sent)
      && s'.got == (if e.Get? then s.got + e.b else s.got)
  {
    hide ChainRead, OpenReturned, ResultRead, PeerOf, ValidUtf8;
  }

  // ---------- What every state of a handler satisfies ----------

  function BackoffBefore(n: nat): nat { if n == 0 then 0 else BackoffBefore(n - 1) + 500 * n }

  /** `took` is one readable chain frame holding `hops`, followed by `payload`. */
  predicate ReadChain(took: bytes, hops: seq<Text>, payload: bytes) {
    TakeMessage(ChainKind, took) == Received(Chain(hops), payload)
  }

  predicate ReadResult(got: bytes, r: JumpResult, payload: bytes) {
    TakeMessage(ResultKind, got) == Received(Result(r), payload)
  }

  /** What a handler writes downstream before any payload. */
  function Header(hops: seq<Text>): Option<bytes>
    requires hops != []
  {
    if |hops| == 1 then Some([]) else Written(Chain(hops[1..]))
  }

  predicate AllRefused(attempts: seq<Attempt>) {
    forall a | a in attempts :: a.Refused?
  }

  /** A chain was read, its first hop names a peer, and a stream to that peer was opened within ten attempts. */
  predicate Linked(w: World, s: Session, hops: seq<Text>) {
    && hops != [] && PeerOf(w, hops[0]).Some?
    && 0 < |s.attempts| <= 10
    && s.attempts[|s.attempts| - 1] == Opened && AllRefused(s.attempts[..|s.attempts| - 1])
    && s.slept == BackoffBefore(|s.attempts| - 1)
  }

  /** What has been read from below allows saying Ok: the downstream result, or nothing at the last hop. */
  predicate MaySayOk(got: bytes, hops: seq<Text>, back: bytes)
    requires hops != []
  {
    if |hops| == 1 then got == back else ReadResult(got, Ok, back)
  }

  ghost predicate Disciplined(w: World, s: Session) {
    match s.phase
    case ReadingChain =>
      Arriving(s.took) && s.gave == [] && s.attempts == [] && s.slept == 0 && s.sent == [] && s.got == []
    case RefusingEmpty(todo) =>
      && ReadChain(s.took, [], []) && Some(s.gave + todo) == Written(Result(Error(EMPTY_CHAIN)))
      && s.attempts == [] && s.slept == 0 && s.sent == [] && s.got == []
    case Opening(hops) =>
      && ReadChain(s.took, hops, []) && hops != [] && PeerOf(w, hops[0]).Some?
      && s.gave == [] && s.sent == [] && s.got == []
      && AllRefused(s.attempts) && |s.attempts| <= 10 && (|s.attempts| == 10 ==> s.over.Some?)
      && s.slept == BackoffBefore(if |s.attempts| < 10 then |s.attempts| else 9)
    case RefusingHop(hops, m, todo) =>
      && ReadChain(s.took, hops, []) && hops != [] && PeerOf(w, hops[0]).Some?
      && |s.attempts| == 10 && AllRefused(s.attempts) && s.slept == BackoffBefore(9)
      && m == HopRefusal(w, PeerOf(w, hops[0]).value, s.attempts[9].error)
      && Some(s.gave + todo) == Written(Result(Error(m)))
      && s.sent == [] && s.got == []
    case Forwarding(hops, todo) =>
      && ReadChain(s.took, hops, []) && Linked(w, s, hops) && |hops| > 1
      && Some(s.sent + todo) == Header(hops) && s.got == [] && s.gave == []
    case ReadingResult(hops) =>
      && ReadChain(s.took, hops, []) && Linked(w, s, hops) && |hops| > 1
      && Some(s.sent) == Header(hops) && Arriving(s.got) && s.gave == []
    case PassingError(hops, m, todo) =>
      && ReadChain(s.took, hops, []) && Linked(w, s, hops) && |hops| > 1
      && Some(s.sent) == Header(hops) && ReadResult(s.got, Error(m), [])
      && Some(s.gave + todo) == Written(Result(Error(m)))
    case SayingOk(hops, todo) =>
      && ReadChain(s.took, hops, []) && Linked(w, s, hops)
      && Some(s.sent) == Header(hops) && MaySayOk(s.got, hops, [])
      && s.gave + todo == OK_FRAME
    case Bridging(hops, down, up, _, _) =>
      && Linked(w, s, hops)
      && exists downOut, upOut :: Relayed(hops, s.took, s.gave, s.sent, s.got, down, up, downOut, upOut)
  }

  /** Payload read from one end is payload written to the other, plus what the copy loop holds. */
  ghost predicate Relayed(hops: seq<Text>, took: bytes, gave: bytes, sent: bytes, got: bytes,
                          down: bytes, up: bytes, downOut: bytes, upOut: bytes)
    requires hops != []
  {
    && ReadChain(took, hops, downOut + down)
    && Header(hops).Some? && sent == Header(hops).value + downOut
    && MaySayOk(got, hops, upOut + up)
    && gave == OK_FRAME + upOut
  }

  // ---------- Discipline is kept by every event ----------

  lemma ChainReadKeeps(w: World, s: Session)
    requires Disciplined(w, s) && s.phase.ReadingChain? && s.over.None? && Wanted(s.took) == 0
    ensures Disciplined(w, ChainRead(w, s))
  {
    hide ValidUtf8, Decode, Encode, PeerOf, TakeFrame;
    assert forall todo: bytes :: [] + todo == todo;
    ArrivedPrefix(s.took, []);
  }

  /** The frame for the remaining hops is always within the reader's bound. */
  lemma HeaderFits(took: bytes, hops: seq<Text>, payload: bytes)
    requires ReadChain(took, hops, payload) && hops != []
    ensures |Encode(Chain(hops[1..]))| < 65_536 && Header(hops).Some?
  {
    RemainingChainIsShorter(TakeFrame(took).body, hops);
  }

  lemma AttemptsGrow(attempts: seq<Attempt>, a: Attempt)
    ensures (attempts + [a])[..|attempts|] == attempts
    ensures AllRefused(attempts + [a]) <==> AllRefused(attempts) && a.Refused?
  {
    assert a in attempts + [a] && forall x | x in attempts :: x in attempts + [a];
  }

  lemma OpenReturnedKeeps(w: World, s: Session, a: Attempt)
    requires Disciplined(w, s) && s.phase.Opening? && s.over.None?
    ensures Disciplined(w, OpenReturned(w, s, a))
  {
    hide ValidUtf8, Decode, Encode, PeerOf, HopRefusal, TakeFrame, Frame;
    var s' := OpenReturned(w, s, a);
    assert forall todo: bytes :: [] + todo == todo;
    HeaderFits(s.took, s.phase.hops, []);
    AttemptsGrow(s.attempts, a);
  }

  lemma ResultReadKeeps(w: World, s: Session)
    requires Disciplined(w, s) && s.phase.ReadingResult? && s.over.None? && Wanted(s.got) == 0
    ensures Disciplined(w, ResultRead(s))
  {
    hide ValidUtf8, Decode, Encode, PeerOf, TakeFrame;
    assert forall todo: bytes :: [] + todo == todo;
    ArrivedPrefix(s.got, []);
  }

  lemma BridgeReads(hops: seq<Text>, took: bytes, gave: bytes, sent: bytes, got: bytes,
                    down: bytes, up: bytes, downOut: bytes, upOut: bytes, b: bytes)
    requires hops != [] && Relayed(hops, took, gave, sent, got, down, up, downOut, upOut)
    ensures Relayed(hops, took + b, gave, sent, got, down + b, up, downOut, upOut)
    ensures Relayed(hops, took, gave, sent, got + b, down, up + b, downOut, upOut)
  {
    hide ValidUtf8, TakeMessage, Encode;
    PayloadGrows(ChainKind, took, b);
    PayloadGrows(ResultKind, got, b);
    assert downOut + down + b == downOut + (down + b);
    assert upOut + up + b == upOut + (up + b);
  }

  lemma BridgeWrites(hops: seq<Text>, took: bytes, gave: bytes, sent: bytes, got: bytes,
                     down: bytes, up: bytes, downOut: bytes, upOut: bytes, b: bytes)
    requires hops != [] && Relayed(hops, took, gave, sent, got, down, up, downOut, upOut)
    ensures Writes(down, b) ==> Relayed(hops, took, gave, sent + b, got, down[|b|..], up, downOut + b, upOut)
    ensures Writes(up, b) ==> Relayed(hops, took, gave + b, sent, got, down, up[|b|..], downOut, upOut + b)
  {
    hide ValidUtf8, TakeMessage, Encode;
    if Writes(down, b) {
      assert downOut + down == downOut + b + down[|b|..];
    }
    if Writes(up, b) {
      assert upOut + up == upOut + b + up[|b|..];
    }
  }

  lemma BridgeKeeps(w: World, s: Session, e: Event)
    requires Disciplined(w, s) && s.phase.Bridging?
    requires Next(w, s, e).Some?
    ensures Disciplined(w, Next(w, s, e).value)
  {
    hide ValidUtf8, Encode, PeerOf, HopRefusal, TakeMessage, ChainRead, OpenReturned, ResultRead, Relayed;
    var Bridging(hops, down, up, _, _) := s.phase;
    var downOut, upOut :| Relayed(hops, s.took, s.gave, s.sent, s.got, down, up, downOut, upOut);
    match e
    case Take(b) => BridgeReads(hops, s.took, s.gave, s.sent, s.got, down, up, downOut, upOut, b);
    case Get(b) => BridgeReads(hops, s.took, s.gave, s.sent, s.got, down, up, downOut, upOut, b);
    case Send(b) => BridgeWrites(hops, s.took, s.gave, s.sent, s.got, down, up, downOut, upOut, b);
    case Give(b) => BridgeWrites(hops, s.took, s.gave, s.sent, s.got, down, up, downOut, upOut, b);
    case _ =>
  }

  lemma WrittenPart(log: bytes, todo: bytes, b: bytes)
    requires Writes(todo, b)
    ensures log + b + todo[|b|..] == log + todo
  {}

  lemma BridgeStarts(w: World, s: Session)
    requires Disciplined(w, s) && s.phase.SayingOk? && s.phase.todo == []
    ensures Disciplined(w, s.(phase := Bridging(s.phase.hops, [], [], false, false)))
  {
    hide ValidUtf8, Encode, PeerOf, TakeMessage;
    assert s.gave + [] == s.gave;
    assert s.sent + [] == s.sent;
    var none: bytes := [];
    assert OK_FRAME + none == OK_FRAME && none + none == none;
    assert Relayed(s.phase.hops, s.took, s.gave, s.sent, s.got, [], [], [], []);
  }

  lemma ReadKeeps(w: World, s: Session, e: Event)
    requires Disciplined(w, s) && !s.phase.Bridging? && (e.Take? || e.Get?)
    requires Next(w, s, e).Some?
    ensures Disciplined(w, Next(w, s, e).value)
  {
    hide ValidUtf8, Decode, Encode, PeerOf, HopRefusal, TakeFrame, Wanted, Arriving;
    if e.Take? {
      ArrivingStep(s.took, e.b);
    } else {
      ArrivingStep(s.got, e.b);
    }
  }

  lemma WriteKeeps(w: World, s: Session, e: Event)
    requires Disciplined(w, s) && !s.phase.Bridging? && (e.Give? || e.Send?)
    requires Next(w, s, e).Some?
    ensures Disciplined(w, Next(w, s, e).value)
  {
    hide ValidUtf8, Decode, Encode, PeerOf, HopRefusal, TakeFrame, Wanted, Arriving;
    if e.Give? {
      WrittenPart(s.gave, s.phase.todo, e.b);
    } else {
      WrittenPart(s.sent, s.phase.todo, e.b);
    }
  }

  /** Whatever happens, and in whatever order, a handler stays disciplined. */
  lemma SessionStepKeeps(w: World, s: Session, e: Event)
    requires Disciplined(w, s)
    requires Next(w, s, e).Some?
    ensures Disciplined(w, Next(w, s, e).value)
  {
    hide ValidUtf8, Decode, Encode, PeerOf, HopRefusal, TakeFrame;
    var s' := Next(w, s, e).value;
    if s.phase.Bridging? {
      BridgeKeeps(w, s, e);
    } else if e.Take? || e.Get? {
      ReadKeeps(w, s, e);
    } else if e.Give? || e.Send? {
      WriteKeeps(w, s, e);
    } else if e.Open? {
      OpenReturnedKeeps(w, s, e.attempt);
    } else if e.Compute? {
      if s.phase.ReadingChain? {
        ChainReadKeeps(w, s);
      } else if s.phase.ReadingResult? {
        ResultReadKeeps(w, s);
      } else if s.phase.SayingOk? {
        BridgeStarts(w, s);
      } else {
        assert s.sent + [] == s.sent;
      }
    }
  }
}
