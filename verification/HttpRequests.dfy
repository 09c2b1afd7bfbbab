/** Which requests the HTTP CONNECT front end accepts (src/forward/socks5.rs), by their characters: the
    words of the first line, the header lines, and the blank line where the headers end. */
module HttpRequests {
  import opened Wrappers
  import opened Bytes
  import opened Unicode
  import opened Frames
  import opened HttpConnect

  // ---------- White space, by code points ----------

  /** What starts with a white space character, does so by its code point. */
  lemma SpaceByScalar(b: bytes)
    requires Utf8Head(b) > 0
    ensures SpaceLen(b) == if WhiteSpace(HeadScalar(b)) then Utf8Head(b) else 0
  {
    if |b| >= 3 {
      assert b[..3] == [b[0], b[1], b[2]];
    }
  }

  predicate AllWhite(b: Text) { forall c | c in Chars(b) :: WhiteSpace(c) }

  predicate NoWhite(b: Text) { forall c | c in Chars(b) :: !WhiteSpace(c) }

  lemma FirstChar(b: Text)
    requires b != []
    ensures Utf8Head(b) > 0 && Chars(b) == [HeadScalar(b)] + Chars(b[Utf8Head(b)..])
  {}

  /** A text is blank exactly if all its characters are white space. */
  lemma {:induction false} BlankByChars(b: Text)
    ensures Blank(b) <==> AllWhite(b)
  {
    hide SpaceLen, Utf8Head, HeadScalar, WhiteSpace, Chars;
    if b == [] {
      NoChars();
    } else {
      FirstChar(b);
      SpaceByScalar(b);
      BlankByChars(b[Utf8Head(b)..]);
      var c, rest := HeadScalar(b), Chars(b[Utf8Head(b)..]);
      assert c in [c] + rest && forall x | x in rest :: x in [c] + rest;
    }
  }

  lemma NoChars()
    ensures Chars([]) == []
  {}

  /** Text without white space is one word. */
  lemma {:induction false} NoWhiteIsSolid(b: Text)
    ensures NoWhite(b) <==> Solid(b)
  {
    hide SpaceLen, Utf8Head, HeadScalar, WhiteSpace, Chars;
    if b == [] {
      NoChars();
    } else {
      FirstChar(b);
      SpaceByScalar(b);
      NoWhiteIsSolid(b[Utf8Head(b)..]);
      var c, rest := HeadScalar(b), Chars(b[Utf8Head(b)..]);
      assert c in [c] + rest && forall x | x in rest :: x in [c] + rest;
    }
  }

  /** Characters without white space. */
  predicate Solid(b: bytes) { ValidUtf8(b) && WordLen(b) == |b| }

  /** A word, then white space, then the rest. */
  lemma {:induction false} WordThenSpace(word: bytes, rest: bytes)
    requires Solid(word) && SpaceLen(rest) > 0
    ensures WordLen(word + rest) == |word|
  {
    if word == [] {
      assert word + rest == rest;
    } else {
      var h := Utf8Head(word);
      Utf8HeadStable(word, rest);
      SpacePrefix(word, rest);
      assert (word + rest)[h..] == word[h..] + rest;
      WordThenSpace(word[h..], rest);
    }
  }

  lemma SpacePrefix(word: bytes, rest: bytes)
    requires word != [] && ValidUtf8(word) && SpaceLen(word) == 0
    ensures SpaceLen(word + rest) == 0
  {
    var b := word + rest;
    assert forall i | 0 <= i < |word| :: b[i] == word[i];
    if |b| >= 3 {
      assert b[..3] == [b[0], b[1], b[2]];
    }
    if |word| >= 3 {
      assert word[..3] == [word[0], word[1], word[2]];
    }
  }

  lemma NextWord(word: bytes, rest: bytes)
    requires word != [] && Solid(word) && SpaceLen(rest) > 0
    ensures Words(word + rest) == [word] + Words(rest)
  {
    WordThenSpace(word, rest);
    SpacePrefix(word, rest);
    assert (word + rest)[..|word|] == word && (word + rest)[|word|..] == rest;
  }

  lemma {:induction false} AsciiIsSolid(b: bytes)
    requires forall i | 0 <= i < |b| :: 33 <= b[i] < 127
    ensures Solid(b)
  {
    AsciiIsUtf8(b);
    if b == [] {
    } else {
      AsciiIsSolid(b[1..]);
    }
  }

  lemma SkipSpace(b: bytes)
    ensures SpaceLen([32] + b) > 0 && Words([32] + b) == Words(b)
  {
    assert ([32] + b)[1..] == b;
  }

  lemma CrlfIsBlank()
    ensures Words(CRLF) == [] && Blank(CRLF) && SpaceLen(CRLF) > 0 && ValidUtf8(CRLF) && LineLen(CRLF) == 2
  {
    assert CRLF[1..] == [10] && [10][1..] == [];
  }

  lemma {:induction false} SolidHasNoNewline(b: bytes)
    requires Solid(b)
    ensures LF !in b
  {
    if b == [] {
    } else {
      var h := Utf8Head(b);
      SolidHasNoNewline(b[h..]);
      assert b == b[..h] + b[h..];
      assert forall i | 0 <= i < h :: b[i] != LF;
    }
  }

  // ---------- Lines of words ----------

  const CRLF: bytes := [13, 10]

  predicate Word(b: bytes) { b != [] && ValidUtf8(b) && NoWhite(b) }

  /** Words with a space between them, and the end of the line. */
  function Line(words: seq<bytes>): bytes
    requires words != []
  {
    if |words| == 1 then words[0] + CRLF else words[0] + ([32] + Line(words[1..]))
  }

  lemma {:induction false} LineWords(words: seq<bytes>)
    requires words != [] && forall i | 0 <= i < |words| :: Word(words[i])
    ensures Words(Line(words)) == words
  {
    hide WordLen, ValidUtf8, Chars, NoWhite;
    var w := words[0];
    NoWhiteIsSolid(w);
    if |words| == 1 {
      CrlfIsBlank();
      NextWord(w, CRLF);
    } else {
      var rest := Line(words[1..]);
      LineWords(words[1..]);
      SkipSpace(rest);
      NextWord(w, [32] + rest);
      assert words == [w] + words[1..];
    }
  }

  lemma {:induction false} LineIsOneLine(words: seq<bytes>)
    requires words != [] && forall i | 0 <= i < |words| :: Word(words[i])
    ensures ValidUtf8(Line(words)) && EndsLine(Line(words)) && LineLen(Line(words)) == |Line(words)|
  {
    hide WordLen, ValidUtf8, Chars, NoWhite;
    var w := words[0];
    NoWhiteIsSolid(w);
    SolidHasNoNewline(w);
    CrlfIsBlank();
    if |words| == 1 {
      Utf8Concat(w, CRLF);
      LineSplit(w, CRLF);
    } else {
      var rest, sp: bytes := Line(words[1..]), [32];
      LineIsOneLine(words[1..]);
      AsciiIsUtf8(sp);
      Utf8Concat(sp, rest);
      Utf8Concat(w, sp + rest);
      LineSplit(sp, rest);
      LineSplit(w, sp + rest);
    }
  }

  lemma ConnectBytes()
    ensures CONNECT == [67, 79, 78, 78, 69, 67, 84]
  {
    assert |CONNECT| == 7;
  }

  /** The first line decides: it is refused exactly if it has fewer than three words, or if the first is not
      CONNECT. */
  lemma FirstLineDecides(words: seq<bytes>, rest: bytes)
    requires words != [] && forall i | 0 <= i < |words| :: Word(words[i])
    ensures Parse(Line(words) + rest).NotConnect? <==> |words| < 3 || words[0] != [67, 79, 78, 78, 69, 67, 84]
  {
    hide LineLen, ValidUtf8, Chars, NoWhite, Line, Words, HeadersLen, Parse;
    var line := Line(words);
    LineIsOneLine(words);
    LineWords(words);
    WholeLine(line, rest);
    Refused(line + rest, line);
    ConnectBytes();
  }

  lemma Refused(b: bytes, line: bytes)
    requires line == b[..LineLen(b)] && ValidUtf8(line)
    ensures Parse(b).NotConnect? <==> !IsConnect(line)
  {
    hide LineLen, ValidUtf8, IsConnect, HeadersLen, Words;
  }

  // ---------- Header blocks ----------

  /** One line of text, with its newline. */
  predicate IsLine(l: bytes) { ValidUtf8(l) && l != [] && l[|l| - 1] == 10 && 10 !in l[..|l| - 1] }

  predicate HeaderLine(l: bytes) { IsLine(l) && !AllWhite(l) }

  predicate BlankLine(l: bytes) { IsLine(l) && AllWhite(l) }

  function Flat(lines: seq<bytes>): bytes {
    if lines == [] then [] else lines[0] + Flat(lines[1..])
  }

  lemma IsLineIsOneLine(l: bytes, rest: bytes)
    requires IsLine(l)
    ensures (l + rest)[..LineLen(l + rest)] == l && (l + rest)[LineLen(l + rest)..] == rest && EndsLine(l)
  {
    hide ValidUtf8;
    var front, end := l[..|l| - 1], [LF];
    assert l == front + end;
    LineSplit(front, end);
    LinePart(l, rest);
  }

  /** The headers end behind the first blank line, whatever header lines come before it and whatever
      follows it. */
  lemma {:induction false} HeadersEndAtTheBlankLine(lines: seq<bytes>, blank: bytes, rest: bytes)
    requires BlankLine(blank) && forall i | 0 <= i < |lines| :: HeaderLine(lines[i])
    ensures HeadersLen(Flat(lines) + (blank + rest)) == Some(|Flat(lines)| + |blank|)
    ensures HeadersSettled(Flat(lines) + (blank + rest))
  {
    hide LineLen, ValidUtf8, Blank, Chars, AllWhite;
    if lines == [] {
      assert [] + (blank + rest) == blank + rest;
      IsLineIsOneLine(blank, rest);
      BlankByChars(blank);
      HeaderStep(blank + rest, blank, rest);
    } else {
      var l, more := lines[0], Flat(lines[1..]) + (blank + rest);
      assert Flat(lines) + (blank + rest) == l + more;
      IsLineIsOneLine(l, more);
      BlankByChars(l);
      HeadersEndAtTheBlankLine(lines[1..], blank, rest);
      HeaderStep(l + more, l, more);
    }
  }

  lemma NoEnd(part: bytes)
    requires 10 !in part
    ensures !EndsLine(part[..LineLen(part)])
  {
    var line := part[..LineLen(part)];
    forall i | 0 <= i < |line| ensures line[i] != LF {
      assert part[i] in part;
    }
  }

  /** Without a blank line, and without the end of the last line, the reader still asks for more. */
  lemma {:induction false} UnfinishedIsNotSettled(lines: seq<bytes>, part: bytes)
    requires 10 !in part && forall i | 0 <= i < |lines| :: HeaderLine(lines[i])
    ensures !HeadersSettled(Flat(lines) + part)
  {
    hide LineLen, ValidUtf8, Blank, Chars, AllWhite;
    if lines == [] {
      assert [] + part == part;
      NoEnd(part);
    } else {
      var l, more := lines[0], Flat(lines[1..]) + part;
      assert Flat(lines) + part == l + more;
      IsLineIsOneLine(l, more);
      BlankByChars(l);
      UnfinishedIsNotSettled(lines[1..], part);
    }
  }

  predicate IsRequest(words: seq<bytes>, lines: seq<bytes>) {
    && |words| >= 3 && words[0] == [67, 79, 78, 78, 69, 67, 84] && (forall i | 0 <= i < |words| :: Word(words[i]))
    && forall i | 0 <= i < |lines| :: HeaderLine(lines[i])
  }

  /** A CONNECT request with any header lines: its target is the second word, and its headers end right
      behind the blank line, before whatever follows: the bytes to be tunneled. */
  lemma RequestIsParsed(words: seq<bytes>, lines: seq<bytes>, blank: bytes, payload: bytes)
    requires IsRequest(words, lines) && BlankLine(blank)
    ensures var head := Line(words) + Flat(lines) + blank;
      Parse(head + payload) == Connect(words[1], |head|) && Settled(head + payload)
  {
    hide LineLen, ValidUtf8, Blank, Chars, AllWhite, NoWhite, Line, Words, HeadersLen, HeadersSettled;
    var line, rest := Line(words), Flat(lines) + (blank + payload);
    assert Line(words) + Flat(lines) + blank + payload == line + rest;
    LineIsOneLine(words);
    LineWords(words);
    WholeLine(line, rest);
    HeadersEndAtTheBlankLine(lines, blank, payload);
    ConnectBytes();
  }

  lemma WholeLine(line: bytes, rest: bytes)
    requires EndsLine(line) && LineLen(line) == |line|
    ensures (line + rest)[..LineLen(line + rest)] == line && (line + rest)[LineLen(line + rest)..] == rest
  {
    LinePart(line, rest);
  }

  /** As long as a request lacks its blank line, it is not settled: with more to come, the front end waits. */
  lemma UnfinishedRequestWaits(words: seq<bytes>, lines: seq<bytes>, part: bytes)
    requires IsRequest(words, lines) && 10 !in part
    ensures !Settled(Line(words) + Flat(lines) + part)
  {
    hide LineLen, ValidUtf8, Blank, Chars, AllWhite, NoWhite, Line, Words, HeadersSettled;
    var line, rest := Line(words), Flat(lines) + part;
    assert Line(words) + Flat(lines) + part == line + rest;
    LineIsOneLine(words);
    LineWords(words);
    WholeLine(line, rest);
    UnfinishedIsNotSettled(lines, part);
    ConnectBytes();
  }

  /** A line that is not text is refused, as the first line or behind any header lines. */
  lemma NotTextIsRefused(words: seq<bytes>, lines: seq<bytes>, bad: bytes, rest: bytes)
    requires IsRequest(words, lines) && bad != [] && bad[|bad| - 1] == 10 && 10 !in bad[..|bad| - 1] && !ValidUtf8(bad)
    ensures Parse(bad + rest) == NotText && Parse(Line(words) + Flat(lines) + (bad + rest)) == NotText
  {
    hide LineLen, ValidUtf8, Blank, Chars, AllWhite, NoWhite, Line, Words, HeadersLen, Parse;
    OneLine(bad, rest);
    NotTextAtAll(bad + rest);
    var line, more := Line(words), Flat(lines) + (bad + rest);
    assert Line(words) + Flat(lines) + (bad + rest) == line + more;
    LineIsOneLine(words);
    LineWords(words);
    WholeLine(line, more);
    HeadersAreText(lines, bad, rest);
    ConnectBytes();
    NotTextBehind(line + more, line, more);
  }

  lemma NotTextAtAll(b: bytes)
    ensures !ValidUtf8(b[..LineLen(b)]) ==> Parse(b) == NotText
  {
    hide ValidUtf8, LineLen, IsConnect, HeadersLen, Words;
  }

  lemma NotTextBehind(b: bytes, line: bytes, more: bytes)
    requires line == b[..LineLen(b)] && more == b[|line|..] && ValidUtf8(line) && IsConnect(line)
    requires HeadersLen(more) == None
    ensures Parse(b) == NotText
  {
    hide ValidUtf8, LineLen, IsConnect, HeadersLen, Words;
  }

  lemma OneLine(l: bytes, rest: bytes)
    requires l != [] && l[|l| - 1] == 10 && 10 !in l[..|l| - 1]
    ensures (l + rest)[..LineLen(l + rest)] == l && (l + rest)[LineLen(l + rest)..] == rest
  {
    var front, end := l[..|l| - 1], [LF];
    assert l == front + end;
    LineSplit(front, end);
    LinePart(l, rest);
  }

  lemma {:induction false} HeadersAreText(lines: seq<bytes>, bad: bytes, rest: bytes)
    requires forall i | 0 <= i < |lines| :: HeaderLine(lines[i])
    requires bad != [] && bad[|bad| - 1] == 10 && 10 !in bad[..|bad| - 1] && !ValidUtf8(bad)
    ensures HeadersLen(Flat(lines) + (bad + rest)) == None
  {
    hide LineLen, ValidUtf8, Blank, Chars, AllWhite, HeadersLen;
    if lines == [] {
      assert [] + (bad + rest) == bad + rest;
      OneLine(bad, rest);
      HeaderStep(bad + rest, bad, rest);
    } else {
      var l, more := lines[0], Flat(lines[1..]) + (bad + rest);
      assert Flat(lines) + (bad + rest) == l + more;
      IsLineIsOneLine(l, more);
      BlankByChars(l);
      HeadersAreText(lines[1..], bad, rest);
      HeaderStep(l + more, l, more);
    }
  }

  /** Headers that end with the input, without a blank line or in the middle of a line, are consumed whole. */
  lemma InputEndsTheHeaders(words: seq<bytes>, lines: seq<bytes>, part: bytes)
    requires IsRequest(words, lines) && 10 !in part && ValidUtf8(part)
    ensures var b := Line(words) + Flat(lines) + part; Parse(b) == Connect(words[1], |b|)
  {
    hide LineLen, ValidUtf8, Blank, Chars, AllWhite, NoWhite, Line, Words, HeadersLen;
    var line, rest := Line(words), Flat(lines) + part;
    assert Line(words) + Flat(lines) + part == line + rest;
    LineIsOneLine(words);
    LineWords(words);
    WholeLine(line, rest);
    InputEndsHeaders(lines, part);
    ConnectBytes();
  }

  lemma {:induction false} InputEndsHeaders(lines: seq<bytes>, part: bytes)
    requires 10 !in part && ValidUtf8(part) && forall i | 0 <= i < |lines| :: HeaderLine(lines[i])
    ensures HeadersLen(Flat(lines) + part) == Some(|Flat(lines)| + |part|)
  {
    hide LineLen, ValidUtf8, Blank, Chars, AllWhite, HeadersLen;
    if lines == [] {
      assert [] + part == part;
      LastPart(part);
      HeaderStep(part, part, []);
      NothingIsBlank();
      HeaderStep([], [], []);
    } else {
      var l, more := lines[0], Flat(lines[1..]) + part;
      assert Flat(lines) + part == l + more;
      IsLineIsOneLine(l, more);
      BlankByChars(l);
      InputEndsHeaders(lines[1..], part);
      HeaderStep(l + more, l, more);
    }
  }

  lemma LastPart(part: bytes)
    requires 10 !in part
    ensures part[..LineLen(part)] == part && part[|part|..] == []
  {
    assert part + [] == part;
    LineSplit(part, []);
  }

  lemma NothingIsBlank()
    ensures Blank([]) && ValidUtf8([]) && LineLen([]) == 0
  {}

  /** For every request and every payload sent with it, ahead of the reply: some reads lose bytes of it, and
      other reads lose none; and if request and payload are within the 8,192 bytes of the buffer, one read
      that brings both loses the whole payload. */
  lemma LossDependsOnTheReads(words: seq<bytes>, lines: seq<bytes>, blank: bytes, payload: bytes)
    requires IsRequest(words, lines) && BlankLine(blank)
    ensures var head := Line(words) + Flat(lines) + blank;
      && Parse(head + payload) == Connect(words[1], |head|)
      && ((exists fills :: Feasible(fills, head + payload, |head|) && Crossed(fills, |head|)) <==> payload != [])
      && (exists fills :: Feasible(fills, head + payload, |head|) && !Crossed(fills, |head|))
      && (payload != [] && |head + payload| <= 8192 ==>
            Feasible([head + payload], head + payload, |head|) && Crossed([head + payload], |head|))
  {
    hide Parse, Line, Flat, Feasible, Crossed, AllWhite, NoWhite;
    var head := Line(words) + Flat(lines) + blank;
    RequestIsParsed(words, lines, blank, payload);
    LossIsPossibleExactly(head + payload, |head|);
    if payload != [] && |head + payload| <= 8192 {
      OneReadBringsAll(head, payload);
    }
  }

  lemma OneReadBringsAll(head: bytes, payload: bytes)
    requires head != [] && payload != [] && |head + payload| <= 8192
    ensures Feasible([head + payload], head + payload, |head|) && Crossed([head + payload], |head|)
  {
    var fills, none: seq<bytes> := [head + payload], [];
    assert fills[..0] == none && Joined(none) + (head + payload) == head + payload;
    LeftoverMeansCrossed(fills, |head|, payload);
  }

  // ---------- The replies ----------

  /** The status is 400 for what is refused and 200 for what is tunneled, and behind the status line comes
      an empty header block. */
  lemma Replies()
    ensures BAD_REQUEST[9..12] == [52, 48, 48] && BAD_REQUEST[24..] == [13, 10, 13, 10]
    ensures ESTABLISHED[9..12] == [50, 48, 48] && ESTABLISHED[35..] == [13, 10, 13, 10]
  {
    Refusal();
    Success();
  }

  lemma Refusal()
    ensures |BAD_REQUEST| == 28
    ensures BAD_REQUEST[9..12] == [52, 48, 48] && BAD_REQUEST[24..] == [13, 10, 13, 10]
  {
    hide ValidUtf8;
    var s := "HTTP/1.1 400 Bad Request\r\n\r\n";
    assert s[9] as int == 52 && s[10] as int == 48 && s[11] as int == 48;
    assert s[24] as int == 13 && s[25] as int == 10 && s[26] as int == 13 && s[27] as int == 10;
  }

  lemma Success()
    ensures |ESTABLISHED| == 39
    ensures ESTABLISHED[9..12] == [50, 48, 48] && ESTABLISHED[35..] == [13, 10, 13, 10]
  {
    hide ValidUtf8;
    var s := "HTTP/1.1 200 Connection established\r\n\r\n";
    assert s[9] as int == 50 && s[10] as int == 48 && s[11] as int == 48;
    assert s[35] as int == 13 && s[36] as int == 10 && s[37] as int == 13 && s[38] as int == 10;
  }
}
