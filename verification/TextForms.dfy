/** Numbers, forward specs, pairing codes and dial targets as text (src/types.rs, src/pairing.rs). */
module TextForms {
  import opened Wrappers
  import opened Bytes
  import opened Addresses
  import opened JumpSession

  const COLON: byte := 58
  const DASH: byte := 45
  const PLUS: byte := 43
  const ZERO: byte := 48

  // ---------- Decimal numbers, as `u8` and `u16` print and parse them ----------

  predicate Digit(b: byte) { 48 <= b <= 57 }

  predicate AllDigits(s: bytes) { forall i | 0 <= i < |s| :: Digit(s[i]) }

  function Value(s: bytes): nat
    requires AllDigits(s)
  {
    if s == [] then 0 else 10 * Value(s[..|s| - 1]) + (s[|s| - 1] - ZERO)
  }

  /** `to_string`. */
  function Show(n: nat): (s: bytes)
    ensures s != [] && AllDigits(s)
  {
    if n < 10 then [ZERO + n] else Show(n / 10) + [ZERO + n % 10]
  }

  /** `parse`: a plus sign is skipped, and any number of leading zeros is fine. */
  function ParseNumber(s: bytes, max: nat): (r: Option<nat>)
    ensures r.Some? ==> r.value <= max
  {
    var t := if s != [] && s[0] == PLUS then s[1..] else s;
    if t != [] && AllDigits(t) && Value(t) <= max then Some(Value(t)) else None
  }

  lemma {:induction false} ShowHasItsValue(n: nat)
    ensures Value(Show(n)) == n
  {
    if n < 10 {
    } else {
      ShowHasItsValue(n / 10);
      assert Show(n)[..|Show(n)| - 1] == Show(n / 10);
    }
  }

  /** Printing is undone by parsing, up to the bound. */
  lemma NumberRoundTrip(n: nat, max: nat)
    ensures ParseNumber(Show(n), max) == if n <= max then Some(n) else None
  {
    ShowHasItsValue(n);
    assert Digit(Show(n)[0]);
  }

  /** The way the number is printed: no sign, and no zero in front. */
  predicate Plain(s: bytes) { s != [] && AllDigits(s) && (s[0] == ZERO ==> |s| == 1) }

  lemma {:induction false} PlainIsShown(s: bytes)
    requires Plain(s)
    ensures Show(Value(s)) == s
  {
    if |s| == 1 {
    } else {
      var front := s[..|s| - 1];
      LeadingDigitCounts(front);
      PlainIsShown(front);
      assert Value(s) / 10 == Value(front) && Value(s) % 10 == s[|s| - 1] - ZERO;
      assert s == front + [s[|s| - 1]];
    }
  }

  lemma {:induction false} LeadingDigitCounts(s: bytes)
    requires s != [] && AllDigits(s) && s[0] != ZERO
    ensures Value(s) > 0
  {
    if |s| == 1 {
    } else {
      LeadingDigitCounts(s[..|s| - 1]);
    }
  }

  lemma {:induction false} ShownIsPlain(n: nat)
    ensures Plain(Show(n))
    ensures n > 0 ==> Show(n)[0] != ZERO
  {
    if n < 10 {
    } else {
      ShownIsPlain(n / 10);
    }
  }

  /** Values are to the base 10, with the digits from 48 on. */
  lemma ValueIsDecimal(s: bytes, d: byte)
    requires AllDigits(s) && 48 <= d <= 57
    ensures Value([]) == 0 && Value(s + [d]) == 10 * Value(s) + (d - 48)
  {
    assert (s + [d])[..|s|] == s;
  }

  /** Exactly these texts are numbers: digits, at least one, perhaps with a plus sign (43) in front, and of a
      value within the bound. */
  lemma NumberAcceptance(s: bytes, max: nat, n: nat)
    ensures ParseNumber(s, max) == Some(n) <==> exists digits ::
      && (s == digits || s == [43] + digits) && digits != [] && (forall i | 0 <= i < |digits| :: 48 <= digits[i] <= 57)
      && Value(digits) == n <= max
  {
    hide Value;
    if ParseNumber(s, max) == Some(n) {
      var digits := if s[0] == PLUS then s[1..] else s;
      assert s[0] == PLUS ==> s == [43] + digits;
    }
    if digits :|
      && (s == digits || s == [43] + digits) && digits != [] && (forall i | 0 <= i < |digits| :: 48 <= digits[i] <= 57)
      && Value(digits) == n <= max
    {
      assert Digit(digits[0]) && ([43] + digits)[1..] == digits;
    }
  }

  // ---------- Cutting text ----------

  /** Index of the first `c`, or the length. */
  function IndexOf(s: bytes, c: byte): (i: nat)
    ensures i <= |s| && c !in s[..i] && (i < |s| ==> s[i] == c)
  {
    if s == [] || s[0] == c then 0
    else
      var i := IndexOf(s[1..], c);
      assert s[..1 + i] == [s[0]] + s[1..][..i];
      1 + i
  }

  lemma {:induction false} IndexOfFirst(before: bytes, c: byte, after: bytes)
    requires c !in before
    ensures IndexOf(before + [c] + after, c) == |before|
  {
    var s := before + [c] + after;
    if before == [] {
    } else {
      assert s[1..] == before[1..] + [c] + after;
      IndexOfFirst(before[1..], c, after);
    }
  }

  lemma {:induction false} AbsentIndex(s: bytes, c: byte)
    requires c !in s
    ensures IndexOf(s, c) == |s|
  {
    if s == [] {
    } else {
      AbsentIndex(s[1..], c);
    }
  }

  /** Both sides of an ASCII character are text. */
  lemma {:induction false} CutsAreText(s: bytes, i: nat)
    requires ValidUtf8(s) && i < |s| && s[i] < 0x80
    ensures ValidUtf8(s[..i]) && ValidUtf8(s[i + 1..])
  {
    var h := Utf8Head(s);
    if i == 0 {
      assert s[..0] == [];
    } else {
      assert h <= i;
      CutsAreText(s[h..], i - h);
      assert s[h..][..i - h] == s[..i][h..];
      assert s[h..][i - h + 1..] == s[i + 1..];
      assert Utf8Head(s[..i]) == h by {
        assert forall j | 0 <= j < i :: s[..i][j] == s[j];
      }
    }
  }

  /** `split`: the parts between the `c`s. */
  function Split(s: bytes, c: byte): (parts: seq<bytes>)
    ensures parts != [] && forall i | 0 <= i < |parts| :: c !in parts[i]
    decreases |s|
  {
    var i := IndexOf(s, c);
    if i == |s| then
      assert s[..i] == s;
      [s]
    else [s[..i]] + Split(s[i + 1..], c)
  }

  function Join(parts: seq<bytes>, c: byte): bytes
    requires parts != []
  {
    if |parts| == 1 then parts[0] else parts[0] + [c] + Join(parts[1..], c)
  }

  lemma {:induction false} SplitThenJoin(s: bytes, c: byte)
    ensures Join(Split(s, c), c) == s
    decreases |s|
  {
    var i := IndexOf(s, c);
    if i == |s| {
    } else {
      SplitThenJoin(s[i + 1..], c);
      assert Split(s, c)[1..] == Split(s[i + 1..], c);
      assert s == s[..i] + [c] + s[i + 1..];
    }
  }

  lemma SplitAtFirst(part: bytes, c: byte, rest: bytes)
    requires c !in part
    ensures Split(part + [c] + rest, c) == [part] + Split(rest, c)
  {
    var s := part + [c] + rest;
    IndexOfFirst(part, c, rest);
    assert s[..|part|] == part;
    assert s[|part| + 1..] == rest;
  }

  lemma {:induction false} JoinThenSplit(parts: seq<bytes>, c: byte)
    requires parts != [] && forall i | 0 <= i < |parts| :: c !in parts[i]
    ensures Split(Join(parts, c), c) == parts
  {
    if |parts| == 1 {
      AbsentIndex(parts[0], c);
    } else {
      JoinThenSplit(parts[1..], c);
      SplitAtFirst(parts[0], c, Join(parts[1..], c));
    }
  }

  // ---------- Forward specs ----------

  datatype ForwardSpec = ForwardSpec(bindPort: u16, target: Text)

  datatype SpecError = MissingSeparator | InvalidPort | InvalidTarget

  datatype SpecResult = Spec(spec: ForwardSpec) | SpecFailed(error: SpecError)

  /** `ForwardSpec::from_str`. */
  function ParseSpec(s: Text): SpecResult {
    var i := IndexOf(s, COLON);
    if i == |s| then SpecFailed(MissingSeparator)
    else
      CutsAreText(s, i);
      var target: Text := s[i + 1..];
      match ParseNumber(s[..i], 0xFFFF)
      case None => SpecFailed(InvalidPort)
      case Some(port) =>
        if target == [] || COLON !in target then SpecFailed(InvalidTarget) else Spec(ForwardSpec(port, target))
  }

  function DisplaySpec(v: ForwardSpec): Text {
    AsciiIsUtf8(Show(v.bindPort) + [COLON]);
    Utf8Concat(Show(v.bindPort) + [COLON], v.target);
    Show(v.bindPort) + [COLON] + v.target
  }

  /** A spec can be parsed from its own text exactly when its target has a colon in it, and comes back
      unchanged; otherwise its target is what is found wrong. */
  lemma SpecRoundTrip(v: ForwardSpec)
    ensures ParseSpec(DisplaySpec(v)) == if COLON in v.target then Spec(v) else SpecFailed(InvalidTarget)
  {
    hide ValidUtf8, Show;
    var port := Show(v.bindPort);
    NumberRoundTrip(v.bindPort, 0xFFFF);
    assert COLON !in port by {
      assert forall i | 0 <= i < |port| :: Digit(port[i]);
    }
    IndexOfFirst(port, COLON, v.target);
    var s := DisplaySpec(v);
    assert s[..|port|] == port && s[|port| + 1..] == v.target;
  }

  /** Exactly these texts are parsed: a number that fits, a colon, and a target with a colon in it. The
      first thing wrong, from the left, is what is reported. */
  lemma SpecAcceptance(s: Text, port: bytes, target: Text)
    requires 58 !in port && s == port + [58] + target
    ensures ParseSpec(s) ==
      if ParseNumber(port, 0xFFFF).None? then SpecFailed(InvalidPort)
      else if 58 !in target then SpecFailed(InvalidTarget)
      else Spec(ForwardSpec(ParseNumber(port, 0xFFFF).value, target))
  {
    hide ValidUtf8, ParseNumber;
    IndexOfFirst(port, COLON, target);
    assert s[..|port|] == port && s[|port| + 1..] == target;
  }

  lemma NoSeparator(s: Text)
    ensures ParseSpec(s) == SpecFailed(MissingSeparator) <==> 58 !in s
  {
    hide ValidUtf8;
    if COLON !in s {
      AbsentIndex(s, COLON);
    }
  }

  lemma PlainIffShown(port: bytes, max: nat)
    requires ParseNumber(port, max).Some?
    ensures Show(ParseNumber(port, max).value) == port <==> Plain(port)
  {
    hide Show, Value;
    ShownIsPlain(ParseNumber(port, max).value);
    if Plain(port) {
      PlainIsShown(port);
    }
  }

  /** A spec is its port, a colon and its target, both as parsed and as displayed. */
  lemma SpecParts(s: Text)
    requires ParseSpec(s).Spec?
    ensures var v, port := ParseSpec(s).spec, s[..IndexOf(s, COLON)];
      && s == port + ([COLON] + v.target) && DisplaySpec(v) == Show(v.bindPort) + ([COLON] + v.target)
      && ParseNumber(port, 0xFFFF) == Some(v.bindPort) && COLON in v.target
  {
    hide ValidUtf8, Show, ParseNumber, IndexOf;
    CutAt(s, IndexOf(s, COLON));
    Regroup(Show(ParseSpec(s).spec.bindPort), [COLON], ParseSpec(s).spec.target);
  }

  lemma CutAt(s: bytes, i: nat)
    requires i < |s|
    ensures s == s[..i] + ([s[i]] + s[i + 1..])
  {}

  lemma Regroup(a: bytes, b: bytes, c: bytes)
    ensures a + b + c == a + (b + c)
  {}

  lemma SameEnding(a: bytes, b: bytes, end: bytes)
    ensures a + end == b + end <==> a == b
  {
    assert |a + end| == |a| + |end| && |b + end| == |b| + |end|;
    assert (a + end)[..|a|] == a && (b + end)[..|b|] == b;
  }

  /** Displaying what was parsed gives a text that parses to the same and that displays as itself; it is
      the original text exactly when the port was written plainly. */
  lemma DisplayNormalises(s: Text)
    requires ParseSpec(s).Spec?
    ensures var shown := DisplaySpec(ParseSpec(s).spec);
      && ParseSpec(shown) == ParseSpec(s)
      && (shown == s <==> Plain(s[..IndexOf(s, COLON)]))
  {
    hide ValidUtf8, Show, ParseNumber, IndexOf, Plain, ParseSpec, DisplaySpec;
    var v := ParseSpec(s).spec;
    SpecRoundTrip(v);
    SpecParts(s);
    var port := s[..IndexOf(s, COLON)];
    PlainIffShown(port, 0xFFFF);
    SameEnding(Show(v.bindPort), port, [COLON] + v.target);
  }

  // ---------- Pairing codes ----------

  /** What the tests of the word list ask of it, as far as it matters here. */
  predicate WordList(words: set<bytes>) {
    forall w | w in words :: |w| >= 3 && forall i | 0 <= i < |w| :: 97 <= w[i] <= 122
  }

  /** `generate_code`, for the number and the words that were drawn. */
  function Code(n: nat, word1: bytes, word2: bytes): bytes {
    Show(n) + [DASH] + (word1 + [DASH] + word2)
  }

  /** `is_pairing_code`. */
  predicate IsPairingCode(words: set<bytes>, s: bytes) {
    var parts := Split(s, DASH);
    && |parts| == 3
    && (var n := ParseNumber(parts[0], 255); n.Some? && n.value <= 99)
    && parts[1] in words && parts[2] in words
  }

  lemma PartsOfThree(a: bytes, b: bytes, c: bytes)
    requires DASH !in a && DASH !in b && DASH !in c
    ensures Split(a + [DASH] + (b + [DASH] + c), DASH) == [a, b, c]
  {
    hide IndexOf, Split;
    SplitAtFirst(a, DASH, b + [DASH] + c);
    SplitAtFirst(b, DASH, c);
    JoinThenSplit([c], DASH);
    assert a + [DASH] + (b + [DASH] + c) == (a + [DASH]) + (b + [DASH] + c);
  }

  /** Exactly these are recognised: a number up to 99, and two words of the list, with dashes (45) between. */
  lemma CodeAcceptance(words: set<bytes>, s: bytes)
    requires WordList(words)
    ensures IsPairingCode(words, s) <==> exists number, word1, word2 ::
      && s == number + [45] + (word1 + [45] + word2) && word1 in words && word2 in words
      && 45 !in number && ParseNumber(number, 255).Some? && ParseNumber(number, 255).value <= 99
  {
    hide ParseNumber, Split, IndexOf;
    if IsPairingCode(words, s) {
      CodeParts(words, s);
      var parts := Split(s, DASH);
      assert s == parts[0] + [45] + (parts[1] + [45] + parts[2]);
    }
    if number, word1, word2 :|
      && s == number + [45] + (word1 + [45] + word2) && word1 in words && word2 in words
      && 45 !in number && ParseNumber(number, 255).Some? && ParseNumber(number, 255).value <= 99
    {
      PartsOfThree(number, word1, word2);
    }
  }

  /** Every code that can be generated is recognised, and what was drawn can be read off it: no two
      draws share a code. */
  lemma GeneratedCodesAreRecognised(words: set<bytes>, n: nat, word1: bytes, word2: bytes)
    requires WordList(words) && n < 100 && word1 in words && word2 in words
    ensures IsPairingCode(words, Code(n, word1, word2))
    ensures Split(Code(n, word1, word2), DASH) == [Show(n), word1, word2] && ParseNumber(Show(n), 255) == Some(n)
  {
    hide Show, ParseNumber, Split;
    assert DASH !in Show(n) by {
      assert forall i | 0 <= i < |Show(n)| :: Digit(Show(n)[i]);
    }
    PartsOfThree(Show(n), word1, word2);
    NumberRoundTrip(n, 255);
  }

  lemma GeneratedCodesAreDistinct(words: set<bytes>, n: nat, word1: bytes, word2: bytes, n': nat, word1': bytes,
                                  word2': bytes)
    requires WordList(words) && n < 100 && word1 in words && word2 in words && n' < 100 && word1' in words
    requires word2' in words
    requires Code(n, word1, word2) == Code(n', word1', word2')
    ensures n == n' && word1 == word1' && word2 == word2'
  {
    hide Show, IsPairingCode;
    GeneratedCodesAreRecognised(words, n, word1, word2);
    GeneratedCodesAreRecognised(words, n', word1', word2');
    var parts := Split(Code(n, word1, word2), DASH);
    assert parts == [Show(n), word1, word2];
    assert parts == [Show(n'), word1', word2'];
    assert parts[0] == Show(n) == Show(n') && parts[1] == word1 == word1' && parts[2] == word2 == word2';
  }

  /** A code as typed is its own rendezvous namespace. So this one, for any two words of the list, is taken
      for a pairing code, although it can never be drawn, and is not the code with the number 7. */
  lemma SignedCodeIsRecognised(words: set<bytes>, word1: bytes, word2: bytes)
    requires WordList(words) && word1 in words && word2 in words
    ensures var s := [PLUS, 55, DASH] + (word1 + [DASH] + word2);
      && IsPairingCode(words, s) && s != Code(7, word1, word2)
      && !exists n: nat, a, b :: n < 100 && a in words && b in words && s == Code(n, a, b)
  {
    hide Value, Show;
    var number: bytes := [PLUS, 55];
    var s := [PLUS, 55, DASH] + (word1 + [DASH] + word2);
    assert s == number + [DASH] + (word1 + [DASH] + word2);
    PartsOfThree(number, word1, word2);
    NumberSeven();
    IndexOfFirst(number, DASH, word1 + [DASH] + word2);
    assert s[..2] == number;
    assert s[0] == PLUS && Digit(Show(7)[0]) && Code(7, word1, word2)[0] == Show(7)[0];
    RecognisedButNotGenerated(words, s);
  }

  lemma NumberSeven()
    ensures ParseNumber([PLUS, 55], 255) == Some(7)
  {
    assert [PLUS, 55][1..] == [55] && [55][..0] == [];
  }

  lemma CodeParts(words: set<bytes>, s: bytes)
    requires IsPairingCode(words, s)
    ensures var parts := Split(s, DASH);
      s == parts[0] + [DASH] + (parts[1] + [DASH] + parts[2]) && s[..IndexOf(s, DASH)] == parts[0]
  {
    hide ParseNumber, IndexOf;
    var parts := Split(s, DASH);
    SplitThenJoin(s, DASH);
    assert Join(parts[1..][1..], DASH) == parts[2];
    assert Join(parts[1..], DASH) == parts[1] + [DASH] + parts[2];
    IndexOfFirst(parts[0], DASH, parts[1] + [DASH] + parts[2]);
  }

  lemma PlainHasItsValue(s: bytes, max: nat)
    requires Plain(s) && ParseNumber(s, max).Some?
    ensures ParseNumber(s, max).value == Value(s) && Show(Value(s)) == s
  {
    hide Value, Show;
    PlainIsShown(s);
  }

  /** Of the recognised codes, those that can be generated are the ones with the number written plainly.
      (A listener can register others, with `--code`.) */
  lemma RecognisedButNotGenerated(words: set<bytes>, s: bytes)
    requires WordList(words) && IsPairingCode(words, s)
    ensures (exists n: nat, word1, word2 :: n < 100 && word1 in words && word2 in words && s == Code(n, word1, word2))
      <==> Plain(s[..IndexOf(s, DASH)])
  {
    hide Show, Value, Split, IndexOf, Plain;
    var parts := Split(s, DASH);
    CodeParts(words, s);
    if Plain(parts[0]) {
      PlainIsShown(parts[0]);
      assert s == Code(Value(parts[0]), parts[1], parts[2]) by { PlainHasItsValue(parts[0], 255); }
    }
    if n: nat, word1, word2 :| n < 100 && word1 in words && word2 in words && s == Code(n, word1, word2) {
      GeneratedCodesAreRecognised(words, n, word1, word2);
      ShownIsPlain(n);
    }
  }

  // ---------- Dial targets ----------

  datatype DialTarget = Mdns(peer: PeerId) | RelayCircuit(addr: Multiaddr) | PairingCode(code: Text)

  datatype Classified = Target(target: DialTarget) | InvalidPeerId | InvalidMultiaddr

  const MDNS: Text := Ascii("/mdns/")

  /** What `from_str` makes of what is not a pairing code. */
  function AfterCode(w: World, parsePeer: bytes -> Option<PeerId>, s: Text): Classified {
    if MDNS <= s then
      var peer := parsePeer(s[|MDNS|..]);
      if peer.None? then InvalidPeerId else Target(Mdns(peer.value))
    else
      var addr := w.parse(s);
      if addr.None? then InvalidMultiaddr else Target(RelayCircuit(addr.value))
  }

  /** `DialTarget::from_str`. */
  function Classify(w: World, parsePeer: bytes -> Option<PeerId>, words: set<bytes>, s: Text): Classified {
    if IsPairingCode(words, s) then Target(PairingCode(s)) else AfterCode(w, parsePeer, s)
  }

  lemma CodesStartWithANumber(words: set<bytes>, s: bytes)
    requires IsPairingCode(words, s)
    ensures s != [] && (Digit(s[0]) || s[0] == PLUS)
  {
    hide Value;
    SplitThenJoin(s, DASH);
    var number := Split(s, DASH)[0];
    assert number != [] && s[0] == number[0];
  }

  /** What a target is taken for: behind `/mdns/` a peer id; else a pairing code, if it is one; else a
      multiaddr. No code starts with a slash, so the checks could as well come in the other order. */
  lemma OrderOfChecksIsIrrelevant(w: World, parsePeer: bytes -> Option<PeerId>, words: set<bytes>, s: Text)
    ensures s != [] && s[0] == 47 ==> !IsPairingCode(words, s)
    ensures var r := Classify(w, parsePeer, words, s);
      if [47, 109, 100, 110, 115, 47] <= s then
        match parsePeer(s[6..])
        case Some(peer) => r == Target(Mdns(peer))
        case None => r == InvalidPeerId
      else if IsPairingCode(words, s) then r == Target(PairingCode(s))
      else
        match w.parse(s)
        case Some(addr) => r == Target(RelayCircuit(addr))
        case None => r == InvalidMultiaddr
  {
    hide ValidUtf8;
    MdnsBytes();
    if IsPairingCode(words, s) {
      CodesStartWithANumber(words, s);
    }
  }

  lemma MdnsBytes()
    ensures MDNS == [47, 109, 100, 110, 115, 47]
  {
    hide ValidUtf8;
    assert |MDNS| == 6;
  }
}
