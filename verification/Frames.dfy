/** The control messages of the jump and tunnel protocols, their encodings, and the
    length-prefixed frames that carry them over a stream. */
module Frames {
  import opened Wrappers
  import opened Bytes
  import opened Postcard

  datatype JumpResult = Ok | Error(message: Text)

  datatype TunnelRequest =
    | Netcat
    | LocalForward(target: Text)
    | ReverseForward(bindPort: u16, reverseTarget: Text, gatewayPorts: bool)

  datatype Message =
    | Chain(hops: seq<Text>)
    | Result(result: JumpResult)
    | Request(request: TunnelRequest)

  datatype Kind = ChainKind | ResultKind | RequestKind

  function KindOf(m: Message): Kind {
    match m
    case Chain(_) => ChainKind
    case Result(_) => ResultKind
    case Request(_) => RequestKind
  }

  const MAX_FRAME := 65_536
  const U32_SIZE := 0x1_0000_0000

  // ---------- Payload encoding ----------

  /** `postcard::to_allocvec`. */
  function Encode(m: Message): bytes {
    match m
    case Chain(hops) => Varint(|hops|) + PutTexts(hops)
    case Result(Ok) => Varint(0)
    case Result(Error(e)) => Varint(1) + PutText(e)
    case Request(Netcat) => Varint(0)
    case Request(LocalForward(t)) => Varint(1) + PutText(t)
    case Request(ReverseForward(p, t, g)) =>
      Varint(2) + (Varint(p) + (PutText(t) + [if g then 1 else 0]))
  }

  function TakeResult(b: bytes): Taken<Message> {
    match TakeVarint(b, U32_WIDTH, U32_TOP)
    case Bad => Bad
    case Got(tag, rest) =>
      if tag == 0 then Got(Result(Ok), rest)
      else if tag == 1 then
        match TakeText(rest)
        case Bad => Bad
        case Got(e, rest') => Got(Result(Error(e)), rest')
      else Bad
  }

  function TakeReverse(b: bytes): Taken<Message> {
    IntegerLimits();
    TakeVarintUses(b, U16_WIDTH, U16_TOP);
    match TakeVarint(b, U16_WIDTH, U16_TOP)
    case Bad => Bad
    case Got(port, rest) =>
      match TakeText(rest)
      case Bad => Bad
      case Got(t, rest') =>
        if rest' == [] || rest'[0] > 1 then Bad
        else Got(Request(ReverseForward(port, t, rest'[0] == 1)), rest'[1..])
  }

  function TakeRequest(b: bytes): Taken<Message> {
    match TakeVarint(b, U32_WIDTH, U32_TOP)
    case Bad => Bad
    case Got(tag, rest) =>
      if tag == 0 then Got(Request(Netcat), rest)
      else if tag == 1 then
        match TakeText(rest)
        case Bad => Bad
        case Got(t, rest') => Got(Request(LocalForward(t)), rest')
      else if tag == 2 then TakeReverse(rest)
      else Bad
  }

  function TakeChain(b: bytes): Taken<Message> {
    match TakeVarint(b, USIZE_WIDTH, USIZE_TOP)
    case Bad => Bad
    case Got(n, rest) =>
      match TakeTexts(rest, n)
      case Bad => Bad
      case Got(hops, rest') => Got(Chain(hops), rest')
  }

  /** `postcard::from_bytes`: what is left of the buffer is ignored by the callers. */
  function Decode(kind: Kind, b: bytes): (r: Taken<Message>)
    ensures r.Got? ==> KindOf(r.value) == kind
  {
    match kind
    case ChainKind => TakeChain(b)
    case ResultKind => TakeResult(b)
    case RequestKind => TakeRequest(b)
  }

  lemma TagRoundTrip(tag: nat, rest: bytes)
    requires tag < 3
    ensures TakeVarint(Varint(tag) + rest, U32_WIDTH, U32_TOP) == Got(tag, rest)
  {
    IntegerLimits();
    VarintRoundTrip(tag, rest, U32_WIDTH, U32_TOP);
  }

  lemma ChainRoundTrip(hops: seq<Text>, tail: bytes)
    requires |Encode(Chain(hops))| < U32_SIZE
    ensures TakeChain(Encode(Chain(hops)) + tail) == Got(Chain(hops), tail)
  {
    hide ValidUtf8, Varint, TakeVarint, TakeTexts;
    IntegerLimits();
    CountFits(hops);
    var rest := PutTexts(hops) + tail;
    assert Encode(Chain(hops)) + tail == Varint(|hops|) + rest;
    VarintRoundTrip(|hops|, rest, USIZE_WIDTH, USIZE_TOP);
    TextsRoundTrip(hops, tail);
  }

  lemma ReverseRoundTrip(p: u16, t: Text, g: bool, tail: bytes)
    requires |PutText(t)| < U32_SIZE
    ensures TakeReverse(Varint(p) + (PutText(t) + [if g then 1 else 0]) + tail)
         == Got(Request(ReverseForward(p, t, g)), tail)
  {
    IntegerLimits();
    var flag: byte := if g then 1 else 0;
    var rest := PutText(t) + ([flag] + tail);
    assert Varint(p) + (PutText(t) + [flag]) + tail == Varint(p) + rest;
    VarintRoundTrip(p, rest, U16_WIDTH, U16_TOP);
    TextRoundTrip(t, [flag] + tail);
    assert ([flag] + tail)[1..] == tail;
  }

  lemma TaggedTextRoundTrip(tag: nat, t: Text, tail: bytes)
    requires tag < 3 && |PutText(t)| < U32_SIZE
    ensures TakeVarint(Varint(tag) + PutText(t) + tail, U32_WIDTH, U32_TOP) == Got(tag, PutText(t) + tail)
    ensures TakeText(PutText(t) + tail) == Got(t, tail)
  {
    assert Varint(tag) + PutText(t) + tail == Varint(tag) + (PutText(t) + tail);
    TagRoundTrip(tag, PutText(t) + tail);
    TextRoundTrip(t, tail);
  }

  lemma ResultRoundTrip(r: JumpResult, tail: bytes)
    requires |Encode(Result(r))| < U32_SIZE
    ensures TakeResult(Encode(Result(r)) + tail) == Got(Result(r), tail)
  {
    if r.Ok? {
      TagRoundTrip(0, tail);
    } else {
      TaggedTextRoundTrip(1, r.message, tail);
    }
  }

  lemma RequestRoundTrip(r: TunnelRequest, tail: bytes)
    requires |Encode(Request(r))| < U32_SIZE
    ensures TakeRequest(Encode(Request(r)) + tail) == Got(Request(r), tail)
  {
    hide ValidUtf8, Varint, TakeVarint;
    match r
    case Netcat => TagRoundTrip(0, tail);
    case LocalForward(t) => TaggedTextRoundTrip(1, t, tail);
    case ReverseForward(p, t, g) =>
      var body := Varint(p) + (PutText(t) + [if g then 1 else 0]);
      assert Encode(Request(r)) + tail == Varint(2) + (body + tail);
      TagRoundTrip(2, body + tail);
      ReverseRoundTrip(p, t, g, tail);
  }

  /** Decoding gives back the encoded value and leaves exactly the bytes behind it. */
  lemma CodecRoundTrip(m: Message, tail: bytes)
    requires |Encode(m)| < U32_SIZE
    ensures Decode(KindOf(m), Encode(m) + tail) == Got(m, tail)
  {
    match m
    case Chain(hops) => ChainRoundTrip(hops, tail);
    case Result(r) => ResultRoundTrip(r, tail);
    case Request(r) => RequestRoundTrip(r, tail);
  }

  /** Whatever chain is decoded, even from non-canonical varints or with bytes to spare, its own
      encoding is no longer, and that of the hops behind the first one is shorter. */
  lemma RemainingChainIsShorter(b: bytes, hops: seq<Text>)
    requires exists rest :: Decode(ChainKind, b) == Got(Chain(hops), rest)
    ensures |Encode(Chain(hops))| <= |b|
    ensures hops != [] ==> |Encode(Chain(hops[1..]))| < |Encode(Chain(hops))|
  {
    TakeVarintUses(b, USIZE_WIDTH, USIZE_TOP);
    var n := TakeVarint(b, USIZE_WIDTH, USIZE_TOP);
    TakeTextsUses(n.rest, n.value);
    if hops != [] {
      VarintLengthMonotone(|hops| - 1, |hops|);
    }
  }

  /** A decoded error is no longer, re-encoded, than the bytes it came from. */
  lemma ReencodedErrorFits(b: bytes, e: Text)
    requires exists rest :: Decode(ResultKind, b) == Got(Result(Error(e)), rest)
    ensures |Encode(Result(Error(e)))| <= |b|
  {
    TakeVarintUses(b, U32_WIDTH, U32_TOP);
    TakeTextUses(TakeVarint(b, U32_WIDTH, U32_TOP).rest);
  }

  // ---------- Frames ----------

  /** What the write functions put on a stream. */
  function Frame(body: bytes): (f: bytes)
    requires |body| < U32_SIZE
    ensures |f| == 4 + |body|
  {
    Be32(|body|) + body
  }

  /** Outcome of reading one frame off a stream that will deliver a given number of bytes and then end. */
  datatype FrameRead =
    | Body(body: bytes, rest: bytes)
    | TooLarge(rest: bytes)
    | Truncated

  function TakeFrame(b: bytes): FrameRead {
    if |b| < 4 then Truncated
    else
      var n := U32(b[..4]);
      if n > MAX_FRAME then TooLarge(b[4..])
      else if |b| < 4 + n then Truncated
      else Body(b[4..4 + n], b[4 + n..])
  }

  /** The bytes on the wire: a big-endian length in four bytes, and then the body. */
  lemma FrameBytes(body: bytes)
    requires |body| < 0x1_0000_0000
    ensures var f := Frame(body);
      && f[0] as int * 0x100_0000 + f[1] as int * 0x1_0000 + f[2] as int * 256 + f[3] as int == |body|
      && f[4..] == body
    ensures Frame(Encode(Result(Ok))) == [0, 0, 0, 1, 0] && Frame(Encode(Request(Netcat))) == [0, 0, 0, 1, 0]
  {
    Be32RoundTrip(|body|);
  }

  /** Bodies, where lengths and numbers have one byte each: tags count from 0, a string is its length and
      its bytes, a list its count and its elements, and the fields of a request are in their order. */
  lemma BodyBytes(t: Text, p: u16, g: bool)
    requires |t| < 128 && p < 128
    ensures Encode(Result(Error(t))) == [1, |t|] + t
    ensures Encode(Request(LocalForward(t))) == [1, |t|] + t
    ensures Encode(Request(ReverseForward(p, t, g))) == [2, p, |t|] + t + [if g then 1 else 0]
  {
    hide ValidUtf8;
    assert Varint(1) == [1] && Varint(2) == [2] && Varint(p) == [p] && Varint(|t|) == [|t|];
    assert [1] + ([|t|] + t) == [1, |t|] + t;
    assert [2] + ([p] + ([|t|] + t + [if g then 1 else 0])) == [2, p, |t|] + t + [if g then 1 else 0];
  }

  lemma ChainBytes(t: Text, u: Text)
    requires |t| < 128 && |u| < 128
    ensures Encode(Chain([])) == [0] && Encode(Chain([t])) == [1, |t|] + t
    ensures Encode(Chain([t, u])) == [2, |t|] + t + ([|u|] + u)
  {
    hide ValidUtf8;
    var none: seq<Text> := [];
    ListBytes(u, none);
    ListBytes(t, none);
    ListBytes(t, [u]);
    assert [u] + none == [u] && [t] + none == [t] && [t] + [u] == [t, u];
    assert PutText(t) == [|t|] + t && PutText(u) == [|u|] + u;
    assert [2] + (([|t|] + t) + ([|u|] + u)) == [2, |t|] + t + ([|u|] + u);
    assert [1] + ([|t|] + t) == [1, |t|] + t;
  }

  /** What is not decoded: tags that there are not, and a flag that is neither 0 nor 1. */
  lemma NotDecoded(tag: byte, t: Text, p: u16, flag: byte, rest: bytes)
    requires tag < 128 && |t| < 128 && p < 128
    ensures tag >= 2 ==> Decode(ResultKind, [tag] + rest) == Bad
    ensures tag >= 3 ==> Decode(RequestKind, [tag] + rest) == Bad
    ensures flag > 1 ==> Decode(RequestKind, [2] + ([p] + (PutText(t) + ([flag] + rest)))) == Bad
  {
    hide ValidUtf8;
    TagIsRead(tag, rest);
    TagIsRead(2, [p] + (PutText(t) + ([flag] + rest)));
    PortIsRead(p, PutText(t) + ([flag] + rest));
    TextRoundTrip(t, [flag] + rest);
  }

  lemma TagIsRead(tag: byte, rest: bytes)
    requires tag < 128
    ensures TakeVarint([tag] + rest, U32_WIDTH, U32_TOP) == Got(tag, rest)
  {
    assert ([tag] + rest)[1..] == rest;
  }

  lemma PortIsRead(p: u16, rest: bytes)
    requires p < 128
    ensures TakeVarint([p] + rest, U16_WIDTH, U16_TOP) == Got(p, rest)
  {
    assert ([p] + rest)[1..] == rest;
  }

  lemma ListBytes(t: Text, ts: seq<Text>)
    ensures PutTexts([t] + ts) == PutText(t) + PutTexts(ts)
  {
    assert ([t] + ts)[1..] == ts;
  }

  /** A frame of any body that fits the length is read back if and only if the body is within 65,536 bytes. */
  lemma FrameRoundTrip(body: bytes, tail: bytes)
    requires |body| < 0x1_0000_0000
    ensures TakeFrame(Frame(body) + tail)
         == if |body| <= 65_536 then Body(body, tail) else TooLarge(body + tail)
  {
    var b := Frame(body) + tail;
    Be32RoundTrip(|body|);
    assert b[..4] == Be32(|body|) && b[4..] == body + tail;
    if |body| <= MAX_FRAME {
      assert b[4..4 + |body|] == body && b[4 + |body|..] == tail;
    }
  }

  /** Outcome of one of the read functions. */
  datatype MessageRead =
    | Received(message: Message, rest: bytes)
    | Oversized(rest: bytes)
    | Malformed(rest: bytes)
    | Ended

  function TakeMessage(kind: Kind, b: bytes): (r: MessageRead)
    ensures r.Received? ==> KindOf(r.message) == kind
  {
    match TakeFrame(b)
    case Truncated => Ended
    case TooLarge(rest) => Oversized(rest)
    case Body(body, rest) =>
      match Decode(kind, body)
      case Bad => Malformed(rest)
      case Got(m, _) => Received(m, rest)
  }

  /** What the writer accepts, the reader gets back if and only if it is within the reader's bound;
      if not, the reader stops right behind the length. */
  lemma WriteThenRead(m: Message, tail: bytes)
    requires |Encode(m)| < 0x1_0000_0000
    ensures var b := Frame(Encode(m)) + tail;
      TakeMessage(KindOf(m), b)
        == if |Encode(m)| <= 65_536 then Received(m, tail) else Oversized(b[4..])
  {
    FrameRoundTrip(Encode(m), tail);
    CodecRoundTrip(m, []);
    assert Encode(m) + [] == Encode(m);
    assert (Frame(Encode(m)) + tail)[4..] == Encode(m) + tail;
  }

  predicate Sendable(ms: seq<Message>) {
    forall m | m in ms :: |Encode(m)| <= 65_536
  }

  function Framed(ms: seq<Message>): bytes
    requires Sendable(ms)
  {
    if ms == [] then [] else Frame(Encode(ms[0])) + Framed(ms[1..])
  }

  datatype Messages = Messages(read: seq<Message>, rest: bytes)

  /** Successive reads, up to the first that fails. */
  function TakeMessages(kinds: seq<Kind>, b: bytes): Messages {
    if kinds == [] then Messages([], b)
    else match TakeMessage(kinds[0], b)
      case Received(m, rest) =>
        var more := TakeMessages(kinds[1..], rest);
        Messages([m] + more.read, more.rest)
      case _ => Messages([], b)
  }

  /** Frames delimit themselves: successive reads give back the messages in order, and leave
      exactly the bytes behind the last one. */
  lemma {:induction false} FramesAreSelfDelimiting(ms: seq<Message>, tail: bytes)
    requires Sendable(ms)
    ensures TakeMessages(seq(|ms|, i requires 0 <= i < |ms| => KindOf(ms[i])), Framed(ms) + tail) == Messages(ms, tail)
  {
    hide Encode, TakeMessage;
    var kinds := seq(|ms|, i requires 0 <= i < |ms| => KindOf(ms[i]));
    if ms == [] {
      assert Framed(ms) + tail == tail;
    } else {
      var rest := Framed(ms[1..]) + tail;
      assert Framed(ms) + tail == Frame(Encode(ms[0])) + rest;
      WriteThenRead(ms[0], rest);
      FramesAreSelfDelimiting(ms[1..], tail);
      assert kinds[1..] == seq(|ms[1..]|, i requires 0 <= i < |ms[1..]| => KindOf(ms[1..][i]));
    }
  }

  // ---------- A frame while it arrives ----------

  /** The bytes `read_exact` still asks for, when `got` is what it has been given so far. */
  function Wanted(got: bytes): nat {
    if |got| < 4 then 4 - |got|
    else
      var n := U32(got[..4]);
      if n > MAX_FRAME || |got| >= 4 + n then 0 else 4 + n - |got|
  }

  /** `got` has been read by the two `read_exact` calls and nothing else. */
  predicate Arriving(got: bytes) {
    |got| >= 4 ==>
      var n := U32(got[..4]);
      if n > MAX_FRAME then |got| == 4 else |got| <= 4 + n
  }

  lemma ArrivingStep(got: bytes, b: bytes)
    requires Arriving(got) && |b| <= Wanted(got)
    ensures Arriving(got + b)
  {
    if |got| >= 4 {
      assert (got + b)[..4] == got[..4];
    }
  }

  /** Reading stops at the same place and with the same result whatever follows on the stream. */
  lemma ArrivedPrefix(got: bytes, later: bytes)
    requires Arriving(got) && Wanted(got) == 0
    ensures TakeFrame(got).Body? ==>
      TakeFrame(got).rest == [] && TakeFrame(got + later) == Body(TakeFrame(got).body, later)
    ensures TakeFrame(got).TooLarge? ==> |got| == 4 && TakeFrame(got + later) == TooLarge(later)
    ensures !TakeFrame(got).Truncated?
  {
    var all := got + later;
    assert all[..4] == got[..4];
    var n := U32(got[..4]);
    if n <= MAX_FRAME {
      assert all[4..4 + n] == got[4..4 + n] && all[4 + n..] == later;
      assert got[4 + n..] == [];
    } else {
      assert all[4..] == later;
    }
  }

  /** What the read functions consume of a stream: the arrived frame, or everything if it is cut short. */
  lemma FramePart(b: bytes, part: bytes, rest: bytes)
    requires b == part + rest
    ensures TakeFrame(b).Body? && rest == TakeFrame(b).rest ==>
      Arriving(part) && Wanted(part) == 0 && TakeFrame(part) == Body(TakeFrame(b).body, [])
    ensures TakeFrame(b).TooLarge? && rest == TakeFrame(b).rest ==>
      Arriving(part) && Wanted(part) == 0 && TakeFrame(part) == TooLarge([])
    ensures TakeFrame(b).Truncated? && rest == [] ==> Arriving(part) && Wanted(part) > 0
  {
    if TakeFrame(b).Truncated? && rest == [] {
      assert part == b;
    } else if !TakeFrame(b).Truncated? && rest == TakeFrame(b).rest {
      var n := U32(b[..4]);
      assert part[..4] == b[..4];
      if n <= MAX_FRAME {
        assert |part| == 4 + n;
        assert part[4..4 + n] == b[4..4 + n];
      }
    }
  }

  // ---------- Both ends of a stream ----------

  /** The frame of a message, unless its length does not fit a u32. */
  function Written(m: Message): Option<bytes> {
    if |Encode(m)| < U32_SIZE then Some(Frame(Encode(m))) else None
  }

  /** `log` and `f` agree as far as both go. */
  predicate Compatible(log: bytes, f: bytes) { log <= f || f <= log }

  /** A reader that has made out a message has made out the one that was written, and its frame whole. */
  lemma SameMessage(m: Message, f: bytes, log: bytes, seen: bytes, m': Message, rest: bytes)
    requires Written(m) == Some(f) && Compatible(log, f) && seen <= log
    requires TakeMessage(KindOf(m), seen) == Received(m', rest)
    ensures m' == m && seen == f + rest && f <= log && |Encode(m)| <= MAX_FRAME
  {
    hide ValidUtf8, Encode, Decode;
    assert seen[..4] == f[..4];
    Be32RoundTrip(|Encode(m)|);
    assert f[..4] == Be32(|Encode(m)|);
    var n := |f|;
    assert seen[..n] == f && seen == f + seen[n..];
    WriteThenRead(m, seen[n..]);
  }

  lemma NothingIsNoMessage(kind: Kind)
    ensures !TakeMessage(kind, []).Received?
  {}

  lemma PayloadGrows(kind: Kind, got: bytes, b: bytes)
    ensures var r := TakeMessage(kind, got);
      r.Received? ==> TakeMessage(kind, got + b) == Received(r.message, r.rest + b)
  {
    var r := TakeFrame(got);
    if r.Body? {
      var n := U32(got[..4]);
      assert (got + b)[..4] == got[..4];
      assert (got + b)[4..4 + n] == got[4..4 + n];
      assert (got + b)[4 + n..] == got[4 + n..] + b;
    }
  }

  predicate Unheard(kind: Kind, seen: bytes) { !TakeMessage(kind, seen).Received? }

  /** A frame of this protocol that has arrived is either the whole message or a length beyond the bound. */
  lemma ArrivedFrame(m: Message, f: bytes, log: bytes, seen: bytes)
    requires Written(m) == Some(f) && Compatible(log, f) && seen <= log
    requires Arriving(seen) && Wanted(seen) == 0
    ensures if |Encode(m)| <= MAX_FRAME then seen == f && TakeMessage(KindOf(m), seen) == Received(m, [])
      else |seen| == 4 && Unheard(KindOf(m), seen)
  {
    hide ValidUtf8, Encode, Decode;
    assert seen[..4] == f[..4];
    Be32RoundTrip(|Encode(m)|);
    assert f[..4] == Be32(|Encode(m)|);
    if |Encode(m)| <= MAX_FRAME {
      assert seen == f;
      WriteThenRead(m, []);
      assert f + [] == f;
    }
  }
}
