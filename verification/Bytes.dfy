/** Optional values, as the Rust standard library has them. */
module Wrappers {
  datatype Option<+T> = None | Some(value: T)
}

/** Octets, big-endian numbers and UTF-8 text. */
module Bytes {
  type byte = x: int | 0 <= x < 256
  type bytes = seq<byte>
  type u16 = x: int | 0 <= x < 0x1_0000

  /** `u32::to_be_bytes`. */
  function Be32(n: nat): (b: bytes)
    requires n < 0x1_0000_0000
    ensures |b| == 4
  {
    [n / 0x100_0000, n / 0x1_0000 % 256, n / 256 % 256, n % 256]
  }

  /** `u32::from_be_bytes`. */
  function U32(b: bytes): (n: nat)
    requires |b| == 4
    ensures n < 0x1_0000_0000
  {
    b[0] as int * 0x100_0000 + b[1] as int * 0x1_0000 + b[2] as int * 256 + b[3] as int
  }

  lemma Be32RoundTrip(n: nat)
    requires n < 0x1_0000_0000
    ensures U32(Be32(n)) == n
  {
    assert n == n / 256 * 256 + n % 256;
    assert n / 256 == n / 0x1_0000 * 256 + n / 256 % 256;
    assert n / 0x1_0000 == n / 0x100_0000 * 256 + n / 0x1_0000 % 256;
  }

  /** `u16::to_be_bytes` and `u16::from_be_bytes`. */
  function Be16(n: nat): (b: bytes)
    requires n < 0x1_0000
    ensures |b| == 2
  {
    [n / 256, n % 256]
  }

  function U16(b: bytes): (n: nat)
    requires |b| == 2
    ensures n < 0x1_0000
  {
    b[0] as int * 256 + b[1] as int
  }

  /** Length in bytes of the well-formed UTF-8 sequence that `b` starts with, or 0 (RFC 3629, section 4). */
  function Utf8Head(b: bytes): (n: nat)
    ensures n <= |b| && n <= 4
    ensures b != [] && b[0] < 0x80 ==> n == 1
  {
    if b == [] then 0
    else if b[0] < 0x80 then 1
    else if |b| >= 2 && 0xC2 <= b[0] <= 0xDF && Tail(b[1]) then 2
    else if |b| >= 3 && 0xE0 <= b[0] <= 0xEF && Tail(b[1]) && Tail(b[2])
      && (b[0] == 0xE0 ==> b[1] >= 0xA0) && (b[0] == 0xED ==> b[1] < 0xA0) then 3
    else if |b| >= 4 && 0xF0 <= b[0] <= 0xF4 && Tail(b[1]) && Tail(b[2]) && Tail(b[3])
      && (b[0] == 0xF0 ==> b[1] >= 0x90) && (b[0] == 0xF4 ==> b[1] < 0x90) then 4
    else 0
  }

  predicate Tail(b: byte) { 0x80 <= b < 0xC0 }

  /** What `str::from_utf8` accepts. */
  predicate ValidUtf8(b: bytes) {
    b == [] || (Utf8Head(b) > 0 && ValidUtf8(b[Utf8Head(b)..]))
  }

  /** A Rust `String`: its bytes. */
  type Text = b: bytes | ValidUtf8(b) witness []

  lemma Utf8HeadStable(a: bytes, b: bytes)
    requires Utf8Head(a) > 0
    ensures Utf8Head(a + b) == Utf8Head(a)
  {
    var c := a + b;
    assert forall i | 0 <= i < |a| :: c[i] == a[i];
  }

  lemma {:induction false} Utf8Concat(a: bytes, b: bytes)
    requires ValidUtf8(a) && ValidUtf8(b)
    ensures ValidUtf8(a + b)
  {
    hide Utf8Head;
    if a == [] {
      assert a + b == b;
    } else {
      var n := Utf8Head(a);
      Utf8HeadStable(a, b);
      Utf8Concat(a[n..], b);
      assert (a + b)[n..] == a[n..] + b;
    }
  }

  lemma {:induction false} AsciiIsUtf8(b: bytes)
    requires forall i | 0 <= i < |b| :: b[i] < 0x80
    ensures ValidUtf8(b)
  {
    if b == [] {
    } else {
      AsciiIsUtf8(b[1..]);
    }
  }

  /** The bytes of an ASCII literal. */
  function Ascii(s: string): (t: Text)
    requires forall i | 0 <= i < |s| :: s[i] < 128 as char
    ensures |t| == |s| && forall i | 0 <= i < |s| :: t[i] == s[i] as int
  {
    var b: bytes := seq(|s|, i requires 0 <= i < |s| => s[i] as int);
    AsciiIsUtf8(b);
    b
  }
}
