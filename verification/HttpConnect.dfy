/** The HTTP CONNECT side of the proxy (src/forward/socks5.rs, `handle_http_connect`): lines are read
    through a buffered reader, which is then dropped, and the socket itself is tunneled. */
module HttpConnect {
  import opened Wrappers
  import opened Bytes
  import opened Frames
  import opened Streams

  // ---------- Text, as `str` sees it ----------

  /** Length of the Unicode White_Space character that `b` starts with, or 0. */
  function SpaceLen(b: bytes): (n: nat)
    ensures n <= |b| && (b != [] && 33 <= b[0] < 127 ==> n == 0)
  {
    if b == [] then 0
    else if 9 <= b[0] <= 13 || b[0] == 32 then 1
    else if |b| >= 2 && b[0] == 0xC2 && (b[1] == 0x85 || b[1] == 0xA0) then 2
    else if |b| >= 3
      && (b[..3] == [0xE1, 0x9A, 0x80] || b[..3] == [0xE2, 0x81, 0x9F] || b[..3] == [0xE3, 0x80, 0x80]) then 3
    else if |b| >= 3 && b[0] == 0xE2 && b[1] == 0x80
      && (0x80 <= b[2] <= 0x8A || 0xA8 <= b[2] <= 0xA9 || b[2] == 0xAF) then 3
    else 0
  }

  /** `trim().is_empty()`. */
  predicate Blank(b: bytes) {
    b == [] || (SpaceLen(b) > 0 && Blank(b[SpaceLen(b)..]))
  }

  /** Bytes up to the next white space, character by character. */
  function WordLen(b: bytes): (n: nat)
    ensures n <= |b| && (b != [] && SpaceLen(b) == 0 ==> n > 0)
  {
    if b == [] || SpaceLen(b) > 0 || Utf8Head(b) == 0 then
      if b != [] && SpaceLen(b) == 0 then |b| else 0
    else Utf8Head(b) + WordLen(b[Utf8Head(b)..])
  }

  /** `split_whitespace()`. */
  function Words(b: bytes): seq<bytes> {
    if b == [] then []
    else if SpaceLen(b) > 0 then Words(b[SpaceLen(b)..])
    else [b[..WordLen(b)]] + Words(b[WordLen(b)..])
  }

  lemma SpaceIsAChar(b: bytes)
    requires ValidUtf8(b) && SpaceLen(b) > 0
    ensures SpaceLen(b) == Utf8Head(b)
  {
    if |b| >= 3 && b[0] >= 0xE0 {
      assert b[..3][0] == b[0] && b[..3][1] == b[1] && b[..3][2] == b[2];
    }
  }

  lemma {:induction false} WordIsText(b: bytes)
    requires ValidUtf8(b)
    ensures ValidUtf8(b[..WordLen(b)]) && ValidUtf8(b[WordLen(b)..])
  {
    hide SpaceLen, Utf8Head;
    if b != [] && SpaceLen(b) == 0 {
      var h, n := Utf8Head(b), WordLen(b);
      WordIsText(b[h..]);
      var word := b[..n];
      assert word[h..] == b[h..][..n - h];
      assert b[n..] == b[h..][n - h..];
      HeadOfPrefix(b, n);
    } else {
      assert b[0..] == b;
    }
  }

  lemma HeadOfPrefix(b: bytes, n: nat)
    requires Utf8Head(b) <= n <= |b| && Utf8Head(b) > 0
    ensures Utf8Head(b[..n]) == Utf8Head(b)
  {
    assert forall i | 0 <= i < n :: b[..n][i] == b[i];
  }

  lemma {:induction false} WordsAreText(b: bytes)
    requires ValidUtf8(b)
    ensures forall i | 0 <= i < |Words(b)| :: ValidUtf8(Words(b)[i])
  {
    if b == [] {
    } else {
      if SpaceLen(b) > 0 {
        SpaceIsAChar(b);
        WordsAreText(b[SpaceLen(b)..]);
      } else {
        WordIsText(b);
        WordsAreText(b[WordLen(b)..]);
      }
    }
  }

  // ---------- What a request means, whatever the chunks it comes in ----------

  const LF: byte := 10

  /** Length of the first line, its newline included. */
  function LineLen(b: bytes): (n: nat)
    ensures n <= |b| && (b != [] ==> n > 0)
  {
    if b == [] then 0 else if b[0] == LF then 1 else 1 + LineLen(b[1..])
  }

  /** Length of the lines up to the first blank one, that one included; None if one of them is not text. */
  function HeadersLen(b: bytes): (r: Option<nat>)
    ensures r.Some? ==> r.value <= |b|
  {
    var line := b[..LineLen(b)];
    if !ValidUtf8(line) then None
    else if Blank(line) then Some(|line|)
    else match HeadersLen(b[|line|..])
      case None => None
      case Some(n) => Some(|line| + n)
  }

  const CONNECT: Text := Ascii("CONNECT")
  const BAD_REQUEST: Text := Ascii("HTTP/1.1 400 Bad Request\r\n\r\n")
  const ESTABLISHED: Text := Ascii("HTTP/1.1 200 Connection established\r\n\r\n")

  /** What the request bytes ask for; `used` is where header consumption stops. */
  datatype Parsed = NotText | NotConnect | Connect(target: Text, used: nat)

  predicate IsConnect(line: bytes) {
    |Words(line)| >= 3 && Words(line)[0] == CONNECT
  }

  function Parse(b: bytes): (p: Parsed)
    ensures p.Connect? ==> p.used <= |b|
  {
    var line := b[..LineLen(b)];
    if !ValidUtf8(line) then NotText
    else if !IsConnect(line) then NotConnect
    else match HeadersLen(b[|line|..])
      case None => NotText
      case Some(n) => WordsAreText(line); Connect(Words(line)[1], |line| + n)
  }

  // ---------- The buffered reader ----------

  const CAPACITY := 8192

  function Joined(chunks: seq<bytes>): bytes {
    if chunks == [] then [] else Joined(chunks[..|chunks| - 1]) + chunks[|chunks| - 1]
  }

  /** Reads give at least a byte, and at most what the buffer holds. */
  predicate Readable(fills: seq<bytes>) {
    forall i | 0 <= i < |fills| :: 0 < |fills[i]| <= 8192
  }

  function Sizes(fills: seq<bytes>): seq<nat> { seq(|fills|, i requires 0 <= i < |fills| => |fills[i]|) }

  /** What the next planned read brings, when those before it have been given. */
  lemma NextPlanned(planned: seq<bytes>, fills: seq<bytes>, base: bytes, all: bytes, consumed: bytes, arriving: bytes)
    requires fills <= planned && Joined(planned) <= all
    requires consumed == base + Joined(fills) && consumed + arriving == base + all
    requires |Joined(fills)| < |Joined(planned)|
    ensures |fills| < |planned| && planned[|fills|] <= arriving
    ensures Sizes(planned[|fills|..]) == [|planned[|fills|]|] + Sizes(planned[|fills| + 1..])
  {
    hide Sizes, Joined;
    var k := |fills|;
    assert k == |planned| ==> fills == planned;
    assert planned[..k] == fills;
    BehindTheBase(base, Joined(fills), arriving, all);
    JoinedPrefix(planned, k + 1);
    JoinedNext(planned, k);
    PrefixBehind(Joined(fills), planned[k], all);
    SizesSplit(planned, k);
  }

  lemma JoinedNext(planned: seq<bytes>, k: nat)
    requires k < |planned|
    ensures Joined(planned[..k + 1]) == Joined(planned[..k]) + planned[k]
  {
    assert planned[..k + 1][..k] == planned[..k];
  }

  lemma SizesSplit(planned: seq<bytes>, k: nat)
    requires k < |planned|
    ensures Sizes(planned[k..]) == [|planned[k]|] + Sizes(planned[k + 1..])
  {}

  lemma JoinedAppend(base: bytes, fills: seq<bytes>, b: bytes)
    ensures base + Joined(fills + [b]) == base + Joined(fills) + b
    ensures Readable(fills) && 0 < |b| <= CAPACITY ==> Readable(fills + [b])
  {
    assert (fills + [b])[..|fills|] == fills;
    assert base + (Joined(fills) + b) == base + Joined(fills) + b;
  }

  lemma BehindTheBase(base: bytes, a: bytes, b: bytes, all: bytes)
    requires base + a + b == base + all
    ensures a + b == all && all[|a|..] == b
  {
    assert (base + a + b)[|base|..] == a + b;
    assert (base + all)[|base|..] == all;
  }

  lemma PrefixBehind(a: bytes, b: bytes, all: bytes)
    requires a + b <= all
    ensures b <= all[|a|..]
  {
    assert (a + b)[|a|..] == b;
  }

  lemma {:induction false} JoinedPrefix(fills: seq<bytes>, k: nat)
    requires k <= |fills|
    ensures Joined(fills[..k]) <= Joined(fills)
  {
    if k == |fills| {
      assert fills[..k] == fills;
    } else {
      var n := |fills| - 1;
      JoinedPrefix(fills[..n], k);
      assert fills[..n][..k] == fills[..k];
    }
  }

  /** So far the reads are those planned, and the plan holds the others. */
  predicate OnPlan(planned: seq<bytes>, fills: seq<bytes>, plan: seq<nat>,
                   base: bytes, coming: bytes, consumed: bytes, arriving: bytes)
  {
    && fills <= planned && Readable(planned) && Joined(planned) <= coming
    && plan == Sizes(planned[|fills|..]) && consumed + arriving == base + coming
  }

  lemma ReadsOnPlan(planned: seq<bytes>, fills: seq<bytes>, plan: seq<nat>,
                    base: bytes, coming: bytes, consumed: bytes, arriving: bytes)
    requires OnPlan(planned, fills, plan, base, coming, consumed, arriving)
    requires consumed == base + Joined(fills) && |coming| - |arriving| < |Joined(planned)|
    ensures plan != [] && 0 < plan[0] <= CAPACITY && plan[0] <= |arriving|
    ensures OnPlan(planned, fills + [arriving[..plan[0]]], plan[1..], base, coming,
                   consumed + arriving[..plan[0]], arriving[plan[0]..])
  {
    assert |consumed + arriving| == |base + coming|;
    NextPlanned(planned, fills, base, coming, consumed, arriving);
    var b := arriving[..plan[0]];
    assert b == planned[|fills|];
    assert fills + [b] == planned[..|fills| + 1];
    assert arriving == b + arriving[plan[0]..];
    assert consumed + b + arriving[plan[0]..] == consumed + arriving;
  }

  /** tokio's BufReader. `fills` lists what its reads from the socket gave; `base` is what had been read
      from the socket before. */
  class BufReader {
    const socket: Stream
    ghost const base: bytes
    ghost const coming: bytes        // what was to come then
    ghost const planned: seq<bytes>  // the reads it may be given
    var buffer: bytes
    ghost var fills: seq<bytes>

    /** All that was read from the socket went through the buffer, which holds what is left of the last
        read, and never all of it. */
    ghost predicate Valid()
      reads this, socket
    {
      && socket.consumed == base + Joined(fills)
      && Readable(fills)
      && (buffer != [] ==> fills != [] && |buffer| < |fills[|fills| - 1]|)
    }

    /** So far the reads are those planned, and the socket has the others in its plan. */
    ghost predicate Follows()
      reads this, socket
    {
      OnPlan(planned, fills, socket.plan, base, coming, socket.consumed, socket.arriving)
    }

    constructor (socket: Stream, ghost planned: seq<bytes>)
      ensures this.socket == socket && base == socket.consumed && buffer == [] && fills == []
      ensures this.planned == planned && coming == socket.arriving
      ensures Valid()
    {
      this.socket, base, buffer, fills := socket, socket.consumed, [], [];
      this.planned, coming := planned, socket.arriving;
      new;
      assert base + Joined([]) == base;
    }

    /** What is still to come, for who reads through this reader. */
    function Ahead(): bytes
      reads this, socket
    {
      buffer + socket.arriving
    }

    /** Bytes that who reads through this reader has had. */
    ghost function Pos(): int
      reads this, socket
    {
      |coming| - |Ahead()|
    }

    method FillBuf()
      requires Valid()
      modifies this`buffer, this`fills, socket`arriving, socket`consumed, socket`plan
      ensures Ahead() == old(Ahead()) && (buffer == [] <==> Ahead() == [])
      ensures old(Follows()) && (old(Ahead()) == [] || old(Pos()) < |Joined(planned)|) ==> Follows()
      ensures socket.consumed == base + Joined(fills) && Readable(fills)
      ensures buffer != [] ==> fills != [] && |buffer| <= |fills[|fills| - 1]|
      ensures socket.consumed + socket.arriving == old(socket.consumed + socket.arriving)
    {
      hide OnPlan, Joined, Readable;
      if buffer == [] {
        assert [] + socket.arriving == socket.arriving;
        Refill();
      }
    }

    method Refill()
      requires buffer == [] && socket.consumed == base + Joined(fills) && Readable(fills)
      modifies this`buffer, this`fills, socket`arriving, socket`consumed, socket`plan
      ensures buffer + socket.arriving == old(socket.arriving) && (buffer == [] <==> old(socket.arriving) == [])
      ensures var goal := |Joined(planned)| - |coming| + |old(socket.arriving)|;
        old(Follows()) && (old(socket.arriving) == [] || 0 < goal) ==> Follows()
      ensures socket.consumed == base + Joined(fills) && Readable(fills)
      ensures buffer != [] ==> fills != [] && |buffer| <= |fills[|fills| - 1]|
      ensures socket.consumed + socket.arriving == old(socket.consumed + socket.arriving)
    {
      hide OnPlan, Joined, Readable, Valid, Ahead, Pos;
      ghost var before, plan, consumed := socket.arriving, socket.plan, socket.consumed;
      ghost var follows := Follows() && before != [] && |coming| - |before| < |Joined(planned)|;
      if follows {
        ReadsOnPlan(planned, fills, plan, base, coming, consumed, before);
      }
      buffer := socket.Read(CAPACITY);
      if buffer == [] {
        assert consumed + [] == consumed;
        return;
      }
      JoinedAppend(base, fills, buffer);
      fills := fills + [buffer];
      assert before[..|buffer|] == buffer && before[|buffer|..] == socket.arriving;
    }

    /** One round of `read_until`: what the buffer has of the line, and whether that completes it. */
    method TakePart() returns (part: bytes, last: bool)
      requires Valid()
      modifies this`buffer, this`fills, socket`arriving, socket`consumed, socket`plan
      ensures Valid()
      ensures old(Ahead()) == part + Ahead()
      ensures old(Follows()) && (old(Ahead()) == [] || old(Pos()) < |Joined(planned)|) ==> Follows()
      ensures last ==> part == old(Ahead())[..LineLen(old(Ahead()))]
      ensures !last ==> part != [] && LF !in part
      ensures socket.consumed + socket.arriving == old(socket.consumed + socket.arriving)
    {
      FillBuf();
      if buffer == [] {
        return [], true;
      }
      var n := LineLen(buffer);
      LinePart(buffer, socket.arriving);
      part, last := buffer[..n], buffer[n - 1] == LF;
      assert buffer == part + buffer[n..];
      buffer := buffer[n..];
    }

    /** `read_line`, before its UTF-8 check: up to the newline, or to the end. */
    method ReadLine() returns (line: bytes)
      requires Valid()
      modifies this`buffer, this`fills, socket`arriving, socket`consumed, socket`plan
      ensures Valid()
      ensures line == old(Ahead())[..LineLen(old(Ahead()))]
      ensures Ahead() == old(Ahead())[|line|..]
      ensures old(Follows()) && old(Pos()) + |line| <= |Joined(planned)| ==> Follows()
      ensures socket.consumed + socket.arriving == old(socket.consumed + socket.arriving)
    {
      hide Valid, LineLen;
      line := [];
      ghost var all := Ahead();
      assert all == line + all;
      var last := false;
      while !last
        invariant Valid()
        invariant all == line + Ahead()
        invariant socket.consumed + socket.arriving == old(socket.consumed + socket.arriving)
        invariant if last then |line| == LineLen(all) else LF !in line
        invariant Pos() == old(Pos()) + |line|
        invariant old(Follows()) && old(Pos()) + LineLen(all) <= |Joined(planned)| ==> Follows()
        decreases !last, |Ahead()|
      {
        ghost var ahead := Ahead();
        LineSplit(line, ahead);
        var part;
        part, last := TakePart();
        line := Appended(line, part, Ahead());
      }
    }
  }

  /** Concatenation, and what the loop of `ReadLine` needs to know of it. */
  function Appended(line: bytes, part: bytes, rest: bytes): (r: bytes)
    ensures r == line + part && r + rest == line + (part + rest)
    ensures LF !in line && LF !in part ==> LF !in r
  {
    line + part
  }

  /** The first line of `seen + b`, when there is no newline in `seen`. */
  lemma {:induction false} LineSplit(seen: bytes, b: bytes)
    requires LF !in seen
    ensures LineLen(seen + b) == |seen| + LineLen(b)
  {
    if seen == [] {
      assert seen + b == b;
    } else {
      assert (seen + b)[1..] == seen[1..] + b;
      LineSplit(seen[1..], b);
    }
  }

  /** A line that ends within `b` ends there also with more to come; otherwise it is all of `b`. */
  lemma {:induction false} LinePart(b: bytes, c: bytes)
    requires b != []
    ensures b[LineLen(b) - 1] == LF ==> LineLen(b + c) == LineLen(b)
    ensures b[LineLen(b) - 1] == LF ==> (b + c)[..LineLen(b)] == b[..LineLen(b)]
    ensures b[LineLen(b) - 1] != LF ==> LineLen(b) == |b| && LF !in b
  {
    if b[0] == LF || |b| == 1 {
    } else {
      assert (b + c)[1..] == b[1..] + c;
      LinePart(b[1..], c);
      assert b == [b[0]] + b[1..];
    }
  }

  // ---------- The handler ----------

  /** One of the reads went past byte `used` of what they gave together. */
  ghost predicate Crossed(fills: seq<bytes>, used: nat) {
    exists k | 0 <= k < |fills| :: CrossedBy(fills, k, used)
  }

  predicate CrossedBy(fills: seq<bytes>, k: nat, used: nat)
    requires k < |fills|
  {
    |Joined(fills[..k])| < used < |Joined(fills[..k + 1])|
  }

  lemma {:induction false} JoinedGrows(fills: seq<bytes>, k: nat)
    requires k <= |fills|
    ensures |Joined(fills[..k])| <= |Joined(fills)|
  {
    if k == |fills| {
      assert fills[..k] == fills;
    } else {
      var n := |fills| - 1;
      JoinedGrows(fills[..n], k);
      assert fills[..n][..k] == fills[..k];
    }
  }

  /** Bytes are left in the buffer exactly when a read went past the end of the headers. */
  lemma LeftoverMeansCrossed(fills: seq<bytes>, used: nat, left: bytes)
    requires |Joined(fills)| == used + |left|
    requires left != [] ==> fills != [] && |left| < |fills[|fills| - 1]|
    ensures left != [] <==> Crossed(fills, used)
  {
    if left != [] {
      var k := |fills| - 1;
      assert fills[..k + 1] == fills;
      assert CrossedBy(fills, k, used);
    } else {
      forall k | 0 <= k < |fills| ensures !CrossedBy(fills, k, used) {
        JoinedGrows(fills, k + 1);
      }
    }
  }

  /** Reads that the reader can be given when `sent` is what the client sends, and that bring it to byte
      `used`: it does not read again once it has got there. */
  predicate Feasible(fills: seq<bytes>, sent: bytes, used: nat) {
    && Readable(fills) && Joined(fills) <= sent && used <= |Joined(fills)|
    && (fills != [] ==> |Joined(fills[..|fills| - 1])| < used)
  }

  /** What the reader has left over is less than its last read, so it had not got there before that. */
  lemma LastReadIsNeeded(fills: seq<bytes>, sent: bytes, used: nat, left: bytes)
    requires Readable(fills) && Joined(fills) <= sent && |Joined(fills)| == used + |left|
    requires left != [] ==> fills != [] && |left| < |fills[|fills| - 1]|
    ensures Feasible(fills, sent, used)
  {}

  /** The request is settled by these bytes: the reader comes to its end, or to its refusal, without
      asking for more. */
  predicate Settled(b: bytes) {
    var line := b[..LineLen(b)];
    EndsLine(line) && (!ValidUtf8(line) || !IsConnect(line) || HeadersSettled(b[|line|..]))
  }

  predicate HeadersSettled(b: bytes) {
    var line := b[..LineLen(b)];
    EndsLine(line) && (!ValidUtf8(line) || Blank(line) || HeadersSettled(b[|line|..]))
  }

  predicate EndsLine(line: bytes) { line != [] && line[|line| - 1] == LF }

  lemma EndedLineStays(b: bytes, c: bytes)
    requires EndsLine(b[..LineLen(b)])
    ensures (b + c)[..LineLen(b + c)] == b[..LineLen(b)]
    ensures (b + c)[LineLen(b + c)..] == b[LineLen(b)..] + c
  {
    LinePart(b, c);
  }

  lemma {:induction false} SettledHeadersStay(b: bytes, c: bytes)
    requires HeadersSettled(b)
    ensures HeadersLen(b + c) == HeadersLen(b)
    decreases |b|
  {
    hide ValidUtf8, Blank, LineLen;
    var line := b[..LineLen(b)];
    EndedLineStays(b, c);
    if !ValidUtf8(line) || Blank(line) {
    } else {
      SettledHeadersStay(b[|line|..], c);
    }
  }

  /** Whatever follows a settled request changes nothing of it. */
  lemma SettledStays(b: bytes, c: bytes)
    requires Settled(b)
    ensures Parse(b + c) == Parse(b)
  {
    hide ValidUtf8, Blank, LineLen, Words, HeadersLen, HeadersSettled;
    var line := b[..LineLen(b)];
    EndedLineStays(b, c);
    if ValidUtf8(line) && IsConnect(line) {
      SettledHeadersStay(b[|line|..], c);
    }
  }

  /** One byte at a time. */
  function Singly(b: bytes): (fills: seq<bytes>)
    ensures Readable(fills) && |fills| == |b|
  {
    if b == [] then [] else Singly(b[..|b| - 1]) + [[b[|b| - 1]]]
  }

  lemma {:induction false} SinglyJoined(b: bytes)
    ensures Joined(Singly(b)) == b
  {
    if b == [] {
    } else {
      SinglyJoined(b[..|b| - 1]);
      assert Singly(b)[..|b| - 1] == Singly(b[..|b| - 1]);
    }
  }

  /** Byte by byte up to the last byte but `1`, and then that byte with `more` behind it, in one read. */
  function UpTo(sent: bytes, used: nat, more: nat): (fills: seq<bytes>)
    requires 0 < used && used + more <= |sent|
  {
    Singly(sent[..used - 1]) + [sent[used - 1..used + more]]
  }

  lemma UpToIsFeasible(sent: bytes, used: nat, more: nat)
    requires 0 < used && used + more <= |sent| && more < CAPACITY
    ensures Feasible(UpTo(sent, used, more), sent, used)
    ensures Crossed(UpTo(sent, used, more), used) <==> more > 0
  {
    hide Singly;
    var fills := UpTo(sent, used, more);
    var last := sent[used - 1..used + more];
    SinglyJoined(sent[..used - 1]);
    assert fills[..|fills| - 1] == Singly(sent[..used - 1]);
    assert Joined(fills) == sent[..used - 1] + last == sent[..used + more];
    LeftoverMeansCrossed(fills, used, last[1..]);
  }

  /** The loss, exactly: of what a client sends before it sees the reply, some reads lose bytes if and only
      if it has sent any behind its header block. And whatever it sends, other reads lose none. */
  lemma LossIsPossibleExactly(sent: bytes, used: nat)
    requires 0 < used <= |sent|
    ensures (exists fills :: Feasible(fills, sent, used) && Crossed(fills, used)) <==> used < |sent|
    ensures exists fills :: Feasible(fills, sent, used) && !Crossed(fills, used)
  {
    hide Crossed, UpTo;
    UpToIsFeasible(sent, used, 0);
    if used < |sent| {
      UpToIsFeasible(sent, used, 1);
    }
    if fills :| Feasible(fills, sent, used) && Crossed(fills, used) {
      CrossedGoesBeyond(fills, used);
    }
  }

  lemma CrossedGoesBeyond(fills: seq<bytes>, used: nat)
    requires Crossed(fills, used)
    ensures used < |Joined(fills)|
  {
    var k :| 0 <= k < |fills| && CrossedBy(fills, k, used);
    JoinedGrows(fills, k + 1);
  }

  /** Reads the request line and the headers, and drops the reader. What is parsed, and how far, depends
      on the bytes alone and not on the chunks they come in; what is lost does depend on the chunks. If the
      socket's plan is any feasible list of reads, then those are the reads. */
  method ReadRequest(socket: Stream, ghost planned: seq<bytes>)
    returns (p: Parsed, ghost fills: seq<bytes>, ghost lost: bytes)
    modifies socket`arriving, socket`consumed, socket`plan
    ensures p == Parse(old(socket.arriving))
    ensures socket.consumed == old(socket.consumed) + Joined(fills)
    ensures socket.consumed + socket.arriving == old(socket.consumed + socket.arriving)
    ensures p.Connect? ==>
      && old(socket.arriving) == old(socket.arriving)[..p.used] + lost + socket.arriving
      && (lost != [] <==> Crossed(fills, p.used))
      && Feasible(fills, old(socket.arriving), p.used)
      && (Feasible(planned, old(socket.arriving), p.used) && old(socket.plan) == Sizes(planned) ==> fills == planned)
  {
    hide Words, Blank, ValidUtf8, LineLen, Crossed, Feasible, Joined, Readable, Sizes, BufReader.Follows;
    ghost var all := socket.arriving;
    var reader := new BufReader(socket, planned);
    assert reader.Ahead() == all;
    if socket.plan == Sizes(planned) {
      StartsOnPlan(reader);
    }
    var line := reader.ReadLine();
    fills, lost := reader.fills, reader.buffer;
    if !ValidUtf8(line) {
      return NotText, fills, lost;
    }
    var words := Words(line);
    if |words| < 3 || words[0] != CONNECT {
      return NotConnect, fills, lost;
    }
    WordsAreText(line);
    var target: Text := words[1];
    var headers := SkipHeaders(reader);
    fills, lost := reader.fills, reader.buffer;
    if headers.None? {
      return NotText, fills, lost;
    }
    var used := |line| + headers.value;
    p := Connect(target, used);
    assert all[|line|..][used - |line|..] == all[used..];
    ReadsAreAccounted(old(socket.consumed), all, socket.consumed, socket.arriving, fills, lost, used);
    if Feasible(planned, all, used) && old(socket.plan) == Sizes(planned) {
      FeasibleGoal(planned, all, used);
      AllWereGiven(reader, used);
    }
  }

  lemma FeasibleGoal(planned: seq<bytes>, all: bytes, used: nat)
    requires Feasible(planned, all, used)
    ensures Readable(planned) && Joined(planned) <= all && used <= |Joined(planned)|
  {}

  /** What was read, what is left of it, and what is still to come. */
  lemma ReadsAreAccounted(base: bytes, all: bytes, consumed: bytes, arriving: bytes, fills: seq<bytes>, left: bytes,
                          used: nat)
    requires used <= |all| && left + arriving == all[used..] && Readable(fills)
    requires consumed == base + Joined(fills) && consumed + arriving == base + all
    requires left != [] ==> fills != [] && |left| < |fills[|fills| - 1]|
    ensures all == all[..used] + left + arriving && used <= |Joined(fills)|
    ensures (left != [] <==> Crossed(fills, used)) && Feasible(fills, all, used)
  {
    hide Joined, Readable;
    Accounted(base, all, consumed, arriving, Joined(fills), left, used);
    LeftoverMeansCrossed(fills, used, left);
    FillsCameFirst(base, all, Joined(fills), arriving);
    LastReadIsNeeded(fills, all, used, left);
  }

  lemma StartsOnPlan(reader: BufReader)
    requires reader.fills == [] && reader.base == reader.socket.consumed && reader.coming == reader.socket.arriving
    requires reader.socket.plan == Sizes(reader.planned)
    ensures Readable(reader.planned) && Joined(reader.planned) <= reader.coming ==> reader.Follows()
  {
    assert reader.planned[0..] == reader.planned;
  }

  /** A reader that has got where it had to, on plan, has been given the whole plan. */
  lemma AllWereGiven(reader: BufReader, used: nat)
    requires reader.Follows() && used <= |Joined(reader.fills)| && Feasible(reader.planned, reader.coming, used)
    ensures reader.fills == reader.planned
  {
    var n, k := |reader.planned|, |reader.fills|;
    if k < n {
      var front := reader.planned[..n - 1];
      assert front[..k] == reader.fills;
      JoinedGrows(front, k);
      assert false;
    }
  }

  lemma FillsCameFirst(base: bytes, all: bytes, fills: bytes, arriving: bytes)
    requires base + fills + arriving == base + all
    ensures fills <= all
  {
    assert all == (base + all)[|base|..] == fills + arriving;
  }

  /** The header loop: line by line, up to the first blank one. The result counts the bytes consumed. */
  method SkipHeaders(reader: BufReader) returns (r: Option<nat>)
    requires reader.Valid()
    modifies reader`buffer, reader`fills, reader.socket`arriving, reader.socket`consumed, reader.socket`plan
    ensures reader.Valid()
    ensures r == HeadersLen(old(reader.Ahead()))
    ensures r.Some? ==> r.value <= |old(reader.Ahead())| && reader.Ahead() == old(reader.Ahead())[r.value..]
    ensures reader.socket.consumed + reader.socket.arriving == old(reader.socket.consumed + reader.socket.arriving)
    ensures old(reader.Follows()) && r.Some? && old(reader.Pos()) + r.value <= |Joined(reader.planned)| ==>
      reader.Follows()
  {
    hide Blank, ValidUtf8, BufReader.Valid, BufReader.Follows, HeadersLen, LineLen, Joined, SpaceLen, Utf8Head;
    ghost var all := reader.Ahead();
    var done: nat := 0;
    assert all[0..] == all;
    ghost var end := HeadersLen(all);
    ghost var goal := |Joined(reader.planned)| - reader.Pos();
    ghost var onPlan := reader.Follows() && end.Some? && end.value <= goal;
    while true
      invariant reader.Valid()
      invariant done <= |all| && reader.Ahead() == all[done..]
      invariant end == Behind(done, HeadersLen(all[done..]))
      invariant reader.Pos() == old(reader.Pos()) + done
      invariant onPlan ==> reader.Follows()
      invariant reader.socket.consumed + reader.socket.arriving == old(reader.socket.consumed + reader.socket.arriving)
      decreases |reader.Ahead()|
    {
      var line := reader.ReadLine();
      assert all[done..][|line|..] == all[done + |line|..];
      HeaderStep(all[done..], line, all[done + |line|..]);
      done := done + |line|;
      if !ValidUtf8(line) {
        return None;
      }
      if Blank(line) {
        return Some(done);
      }
      EmptyIsBlank(line);
    }
  }

  function Behind(n: nat, r: Option<nat>): Option<nat> {
    if r.None? then None else Some(n + r.value)
  }

  lemma HeaderStep(b: bytes, line: bytes, rest: bytes)
    requires line == b[..LineLen(b)] && rest == b[|line|..]
    ensures !ValidUtf8(line) ==> HeadersLen(b).None?
    ensures ValidUtf8(line) && Blank(line) ==> HeadersLen(b) == Some(|line|)
    ensures ValidUtf8(line) && !Blank(line) ==> HeadersLen(b) == Behind(|line|, HeadersLen(rest))
  {
    hide ValidUtf8, Blank, LineLen;
  }

  lemma EmptyIsBlank(line: bytes)
    requires !Blank(line)
    ensures line != []
  {}

  lemma Accounted(base: bytes, all: bytes, consumed: bytes, arriving: bytes, fills: bytes, left: bytes, used: nat)
    requires used <= |all| && left + arriving == all[used..]
    requires consumed == base + fills && consumed + arriving == base + all
    ensures all == all[..used] + left + arriving
    ensures |fills| == used + |left|
  {
    assert all == all[..used] + all[used..];
    assert |consumed + arriving| == |base + all|;
  }

  datatype ProxyEnd = Waiting | Unreadable | BadRequest | NoTunnel | RequestFailed | ReplyFailed | CopyFailed | Finished

  /** `handle_http_connect`; `tunnel` is what open_stream gives. What arrives on the socket is what the
      client sends before it sees the reply; `late` is what it sends after that. A client that has more to
      send, but not before the reply, and has not sent its whole request, is waited for without end. */
  method HandleHttpConnect(socket: Stream, tunnel: Stream?, late: bytes, ghost planned: seq<bytes>)
    returns (end: ProxyEnd, ghost fills: seq<bytes>, ghost lost: bytes)
    requires tunnel != null ==> tunnel != socket && tunnel.written == []
    modifies socket, tunnel
    ensures var early := old(socket.arriving);
      if late != [] && !Settled(early) then end == Waiting && socket.written == old(socket.written)
      else match Parse(early + late)
        case NotText => end == Unreadable && socket.written == old(socket.written)
        case NotConnect =>
          && end == BadRequest && old(socket.written) <= socket.written <= old(socket.written) + BAD_REQUEST
          && (!socket.failed ==> socket.written == old(socket.written) + BAD_REQUEST)
        case Connect(target, used) =>
          if tunnel == null then end == NoTunnel && socket.written == old(socket.written)
          else
            && used <= |early| && Feasible(fills, early, used)
            && (Feasible(planned, early, used) && old(socket.plan) == Sizes(planned) ==> fills == planned)
            && (lost != [] <==> Crossed(fills, used))
            && (used == |early| ==> lost == [])
            && Proxied(target, used, early + late, lost, tunnel.written, end)
            && Answered(old(socket.written), socket.written, old(tunnel.arriving), end)
            && (end == Finished || socket.failed || tunnel.failed || Written(Request(LocalForward(target))).None?)
  {
    hide Parse, Words, Blank, ValidUtf8, Encode, Crossed, Feasible, Settled;
    ghost var early := socket.arriving;
    if late != [] && !Settled(socket.arriving) {
      return Waiting, [], [];
    }
    assert early + [] == early;
    if late != [] {
      SettledStays(early, late);
    }
    var p;
    p, fills, lost := ReadRequest(socket, planned);
    match p
    case NotText => return Unreadable, fills, lost;
    case NotConnect =>
      var r := socket.WriteAll(BAD_REQUEST);
      return BadRequest, fills, lost;
    case Connect(target, used) =>
      if tunnel == null {
        return NoTunnel, fills, lost;
      }
      end := TunnelClient(socket, tunnel, target, late, early, lost, used);
  }

  /** What went into the tunnel: the forward request, then only bytes that were still unread when the
      reader was dropped; all of them if the session finished. The bytes in `lost` never follow. */
  ghost predicate Proxied(target: Text, used: nat, all: bytes, lost: bytes, sent: bytes, end: ProxyEnd) {
    && used + |lost| <= |all| && lost == all[used..used + |lost|]
    && (end == RequestFailed || end == ReplyFailed || end == CopyFailed || end == Finished)
    && (end == RequestFailed
        || Carries(Written(Request(LocalForward(target))), all[used + |lost|..], sent, end == Finished))
  }

  /** What the client was given: the reply, and then what came out of the tunnel. */
  predicate Answered(before: bytes, after: bytes, arriving: bytes, end: ProxyEnd) {
    match end
    case RequestFailed => after == before
    case ReplyFailed => before <= after <= before + ESTABLISHED
    case CopyFailed => before + ESTABLISHED <= after <= before + ESTABLISHED + arriving
    case _ => after == before + ESTABLISHED + arriving
  }

  predicate Carries(request: Option<bytes>, unread: bytes, sent: bytes, whole: bool) {
    && request.Some?
    && request.value <= sent <= request.value + unread
    && (whole ==> sent == request.value + unread)
  }

  /** The rest of the handler, behind the dropped reader: `early` is what the client sent before. */
  method TunnelClient(socket: Stream, stream: Stream, target: Text, late: bytes,
                      ghost early: bytes, ghost lost: bytes, ghost used: nat) returns (end: ProxyEnd)
    requires socket != stream && stream.written == [] && used <= |early|
    requires early == early[..used] + lost + socket.arriving
    modifies socket, stream
    ensures Proxied(target, used, early + late, lost, stream.written, end)
    ensures Answered(old(socket.written), socket.written, old(stream.arriving), end)
    ensures end == Finished || socket.failed || stream.failed || Written(Request(LocalForward(target))).None?
  {
    hide ValidUtf8, Encode, Frame;
    ghost var unread := socket.arriving + late;
    Unread(early, late, lost, socket.arriving, used);
    var r := stream.WriteMessage(Request(LocalForward(target)));
    if r.Failure? {
      return RequestFailed;
    }
    ghost var f := Frame(Encode(Request(LocalForward(target))));
    assert [] + f == f && stream.written == f;
    assert f <= f + unread;
    r := socket.WriteAll(ESTABLISHED);
    if r.Failure? {
      return ReplyFailed;
    }
    socket.Arrive(late);
    ghost var down, up;
    var ok;
    ok, down, up := TunnelCopy(socket, stream);
    assert f + down <= f + unread by { assert f + unread == f + down + socket.arriving; }
    assert ok ==> unread == down by { assert ok ==> down + [] == down; }
    end := if ok then Finished else CopyFailed;
  }

  lemma Unread(early: bytes, late: bytes, lost: bytes, arriving: bytes, used: nat)
    requires used <= |early| && early == early[..used] + lost + arriving
    ensures var all := early + late;
      used + |lost| <= |all| && all[used..used + |lost|] == lost && all[used + |lost|..] == arriving + late
  {
    var all := early + late;
    assert all == early[..used] + lost + (arriving + late);
  }
}
