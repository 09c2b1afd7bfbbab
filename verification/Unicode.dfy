/** UTF-8 by code points (RFC 3629, section 3), and the characters that count as white space. */
module Unicode {
  import opened Bytes

  /** Code points that UTF-8 encodes: all but the surrogates. */
  predicate IsScalar(c: nat) { c <= 0x10_FFFF && !(0xD800 <= c <= 0xDFFF) }

  function Utf8(c: nat): (b: bytes)
    requires IsScalar(c)
    ensures 1 <= |b| <= 4
  {
    if c < 0x80 then [c]
    else if c < 0x800 then [0xC0 + c / 64, 0x80 + c % 64]
    else if c < 0x1_0000 then [0xE0 + c / 4096, 0x80 + c / 64 % 64, 0x80 + c % 64]
    else [0xF0 + c / 0x4_0000, 0x80 + c / 4096 % 64, 0x80 + c / 64 % 64, 0x80 + c % 64]
  }

  /** The code point that a well-formed head stands for. */
  function HeadScalar(b: bytes): nat
    requires Utf8Head(b) > 0
  {
    match Utf8Head(b)
    case 1 => b[0]
    case 2 => (b[0] as int - 0xC0) * 64 + (b[1] as int - 0x80)
    case 3 => (b[0] as int - 0xE0) * 4096 + (b[1] as int - 0x80) * 64 + (b[2] as int - 0x80)
    case _ =>
      (b[0] as int - 0xF0) * 0x4_0000 + (b[1] as int - 0x80) * 4096 + (b[2] as int - 0x80) * 64 + (b[3] as int - 0x80)
  }

  /** Every code point, with anything behind it, is taken for what it is. */
  lemma ScalarIsHead(c: nat, rest: bytes)
    requires IsScalar(c)
    ensures Utf8Head(Utf8(c) + rest) == |Utf8(c)| && HeadScalar(Utf8(c) + rest) == c
  {
    var b := Utf8(c) + rest;
    assert forall i | 0 <= i < |Utf8(c)| :: b[i] == Utf8(c)[i];
    assert c == c / 64 * 64 + c % 64;
    assert c / 64 == c / 4096 * 64 + c / 64 % 64;
    assert c / 4096 == c / 0x4_0000 * 64 + c / 4096 % 64;
  }

  lemma Digit(a: nat, z: nat)
    requires z < 64
    ensures (a * 64 + z) / 64 == a && (a * 64 + z) % 64 == z
  {}

  lemma Quotients(c: nat)
    ensures c / 4096 == c / 64 / 64 && c / 0x4_0000 == c / 64 / 64 / 64
  {}

  /** The bytes of a code point, from its leading digits and its last three digits to the base 64. */
  lemma Digits(a: nat, x: nat, y: nat, z: nat)
    requires x < 64 && y < 64 && z < 64
    ensures (a * 64 + z) / 64 == a && (a * 64 + z) % 64 == z
    ensures var c := (a * 64 + y) * 64 + z;
      c / 4096 == a && c / 64 % 64 == y && c % 64 == z
    ensures var c := ((a * 64 + x) * 64 + y) * 64 + z;
      c / 0x4_0000 == a && c / 4096 % 64 == x && c / 64 % 64 == y && c % 64 == z
  {
    Digit(a, z);
    var ay, ax := a * 64 + y, a * 64 + x;
    var axy := ax * 64 + y;
    Digit(a, y);
    Digit(ay, z);
    Quotients(ay * 64 + z);
    Digit(a, x);
    Digit(ax, y);
    Digit(axy, z);
    Quotients(axy * 64 + z);
  }

  lemma TwoBytes(b: bytes)
    requires Utf8Head(b) == 2
    ensures IsScalar(HeadScalar(b)) && b[..2] == Utf8(HeadScalar(b))
  {
    Digits(b[0] - 0xC0, 0, 0, b[1] - 0x80);
    SameBytes(b, 2, Utf8(HeadScalar(b)));
  }

  lemma ThreeBytes(b: bytes)
    requires Utf8Head(b) == 3
    ensures IsScalar(HeadScalar(b)) && b[..3] == Utf8(HeadScalar(b))
  {
    Digits(b[0] - 0xE0, 0, b[1] - 0x80, b[2] - 0x80);
    assert HeadScalar(b) == ((b[0] as int - 0xE0) * 64 + (b[1] as int - 0x80)) * 64 + (b[2] as int - 0x80);
    SameBytes(b, 3, Utf8(HeadScalar(b)));
  }

  lemma FourBytes(b: bytes)
    requires Utf8Head(b) == 4
    ensures IsScalar(HeadScalar(b)) && b[..4] == Utf8(HeadScalar(b))
  {
    Digits(b[0] - 0xF0, b[1] - 0x80, b[2] - 0x80, b[3] - 0x80);
    assert HeadScalar(b) == (((b[0] as int - 0xF0) * 64 + (b[1] as int - 0x80)) * 64 + (b[2] as int - 0x80)) * 64
                            + (b[3] as int - 0x80);
    SameBytes(b, 4, Utf8(HeadScalar(b)));
  }

  /** And nothing else is taken. */
  lemma HeadIsScalar(b: bytes)
    requires Utf8Head(b) > 0
    ensures IsScalar(HeadScalar(b)) && b[..Utf8Head(b)] == Utf8(HeadScalar(b))
  {
    match Utf8Head(b)
    case 1 =>
    case 2 => TwoBytes(b);
    case 3 => ThreeBytes(b);
    case _ => FourBytes(b);
  }

  lemma SameBytes(b: bytes, n: nat, u: bytes)
    requires n <= |b| && |u| == n && forall i | 0 <= i < n :: b[i] == u[i]
    ensures b[..n] == u
  {}

  function EncodeAll(cs: seq<nat>): bytes
    requires forall c | c in cs :: IsScalar(c)
  {
    if cs == [] then [] else Utf8(cs[0]) + EncodeAll(cs[1..])
  }

  lemma OneMore(c: nat, cs: seq<nat>)
    requires IsScalar(c) && forall c | c in cs :: IsScalar(c)
    ensures EncodeAll([c] + cs) == Utf8(c) + EncodeAll(cs)
  {
    assert ([c] + cs)[1..] == cs;
  }

  /** The characters of a text. */
  function Chars(b: Text): (cs: seq<nat>)
    ensures forall c | c in cs :: IsScalar(c)
  {
    if b == [] then []
    else
      HeadIsScalar(b);
      [HeadScalar(b)] + Chars(b[Utf8Head(b)..])
  }

  /** A text is exactly the encoding of its characters. */
  lemma {:induction false} CharsRoundTrip(b: Text)
    ensures EncodeAll(Chars(b)) == b
  {
    hide Utf8Head, HeadScalar, Utf8;
    if b == [] {
    } else {
      var n := Utf8Head(b);
      HeadIsScalar(b);
      CharsRoundTrip(b[n..]);
      OneMore(HeadScalar(b), Chars(b[n..]));
      assert b == b[..n] + b[n..];
    }
  }

  /** And every list of code points encodes to a text, with those characters. */
  lemma {:induction false} TextRoundTrip(cs: seq<nat>)
    requires forall c | c in cs :: IsScalar(c)
    ensures ValidUtf8(EncodeAll(cs)) && Chars(EncodeAll(cs)) == cs
  {
    if cs == [] {
    } else {
      var b := EncodeAll(cs);
      ScalarIsHead(cs[0], EncodeAll(cs[1..]));
      TextRoundTrip(cs[1..]);
      assert b[Utf8Head(b)..] == EncodeAll(cs[1..]);
    }
  }

  /** The Unicode property White_Space. */
  predicate WhiteSpace(c: nat) {
    || 0x09 <= c <= 0x0D || c == 0x20 || c == 0x85 || c == 0xA0 || c == 0x1680
    || 0x2000 <= c <= 0x200A || c == 0x2028 || c == 0x2029 || c == 0x202F || c == 0x205F || c == 0x3000
  }
}
