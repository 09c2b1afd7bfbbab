/** The Postcard wire format, as far as the three message types use it: varint-encoded
    integers, length-prefixed strings and sequences, tagged unions. */
module Postcard {
  import opened Bytes

  /** Outcome of taking one value off the front of a buffer. */
  datatype Taken<+T> = Bad | Got(value: T, rest: bytes)

  // Maximum encoded length, and the largest last byte, per integer type (usize has 64 bits).
  const U16_WIDTH := 3
  const U16_TOP := 3
  const U32_WIDTH := 5
  const U32_TOP := 15
  const USIZE_WIDTH := 10
  const USIZE_TOP := 1

  function Varint(n: nat): (b: bytes)
    ensures |b| > 0
  {
    if n < 128 then [n] else [n % 128 + 128] + Varint(n / 128)
  }

  function TakeVarint(b: bytes, width: nat, top: nat): Taken<nat> {
    if width == 0 || b == [] then Bad
    else if b[0] < 128 then
      if width == 1 && b[0] > top then Bad else Got(b[0], b[1..])
    else
      match TakeVarint(b[1..], width - 1, top)
      case Bad => Bad
      case Got(n, rest) => Got(b[0] - 128 + 128 * n, rest)
  }

  /** One more than the largest number of an integer type. */
  function VarintLimit(width: nat, top: nat): nat {
    if width == 0 then 0 else if width == 1 then top + 1 else 128 * VarintLimit(width - 1, top)
  }

  lemma LimitGrows(width: nat, top: nat)
    requires width >= 2
    ensures VarintLimit(width, top) >= 128
  {}

  lemma IntegerLimits()
    ensures VarintLimit(U16_WIDTH, U16_TOP) == 0x1_0000
    ensures VarintLimit(U32_WIDTH, U32_TOP) == 0x1_0000_0000
    ensures VarintLimit(USIZE_WIDTH, USIZE_TOP) == 0x1_0000_0000_0000_0000
  {
    assert VarintLimit(5, 1) == 128 * 128 * 128 * 128 * 2;
    assert VarintLimit(9, 1) == 128 * 128 * 128 * 128 * VarintLimit(5, 1);
    assert VarintLimit(3, 15) == 128 * 128 * 16;
  }

  /** The number that groups of seven bits stand for, the lowest first. */
  function Groups(b: bytes): nat {
    if b == [] then 0 else b[0] % 128 + 128 * Groups(b[1..])
  }

  /** The bytes of a varint: seven bits each, the lowest first, and the high bit set on all but the last. */
  lemma {:induction false} VarintBytes(n: nat)
    ensures Groups(Varint(n)) == n
    ensures forall i | 0 <= i < |Varint(n)| :: Varint(n)[i] >= 128 <==> i < |Varint(n)| - 1
    ensures n < 128 ==> Varint(n) == [n]
  {
    if n < 128 {
    } else {
      VarintBytes(n / 128);
      assert Varint(n)[1..] == Varint(n / 128);
    }
  }

  /** A longer form of a number, with a group of zeros to spare, is read as well. */
  lemma LongFormIsRead(n: nat, rest: bytes, width: nat, top: nat)
    requires n < 128 && width >= 2
    ensures TakeVarint([128 + n, 0] + rest, width, top) == Got(n, rest)
  {
    assert ([128 + n, 0] + rest)[1..] == [0] + rest && ([0] + rest)[1..] == rest;
  }

  /** The decoder inverts the encoder exactly on the numbers of the integer type. */
  lemma {:induction false} VarintRoundTrip(n: nat, rest: bytes, width: nat, top: nat)
    requires top < 128
    ensures TakeVarint(Varint(n) + rest, width, top) == Got(n, rest) <==> n < VarintLimit(width, top)
  {
    var b := Varint(n) + rest;
    if n < 128 {
      assert b[1..] == rest;
      if width >= 2 {
        LimitGrows(width, top);
      }
    } else if width > 0 {
      assert b[1..] == Varint(n / 128) + rest;
      VarintRoundTrip(n / 128, rest, width - 1, top);
    }
  }

  /** Whatever is decoded, canonical or not: the bytes used are at least those of the canonical form. */
  lemma {:induction false} TakeVarintUses(b: bytes, width: nat, top: nat)
    requires top < 128
    ensures var r := TakeVarint(b, width, top);
      r.Got? ==>
        && r.value < VarintLimit(width, top)
        && |Varint(r.value)| + |r.rest| <= |b|
        && r.rest == b[|b| - |r.rest|..]
  {
    if width == 0 || b == [] {
    } else {
      if b[0] < 128 {
        if width >= 2 {
          LimitGrows(width, top);
        }
      } else {
        TakeVarintUses(b[1..], width - 1, top);
      }
    }
  }

  function PutText(t: Text): bytes { Varint(|t|) + t }

  function TakeText(b: bytes): Taken<Text> {
    match TakeVarint(b, USIZE_WIDTH, USIZE_TOP)
    case Bad => Bad
    case Got(n, rest) =>
      if |rest| < n || !ValidUtf8(rest[..n]) then Bad else Got(rest[..n], rest[n..])
  }

  lemma TextRoundTrip(t: Text, rest: bytes)
    requires |t| < 0x1_0000_0000
    ensures TakeText(PutText(t) + rest) == Got(t, rest)
  {
    IntegerLimits();
    VarintRoundTrip(|t|, t + rest, USIZE_WIDTH, USIZE_TOP);
    assert PutText(t) + rest == Varint(|t|) + (t + rest);
    assert (t + rest)[..|t|] == t && (t + rest)[|t|..] == rest;
  }

  /** What is not read as a string: bytes that are not UTF-8, and fewer bytes than the length says. */
  lemma NotText(n: byte, b: bytes, rest: bytes)
    requires n < 128
    ensures |b| == n && !ValidUtf8(b) ==> TakeText([n] + (b + rest)) == Bad
    ensures |b| < n ==> TakeText([n] + b) == Bad
  {
    hide ValidUtf8;
    assert ([n] + (b + rest))[1..] == b + rest && ([n] + b)[1..] == b;
    assert |b| == n ==> (b + rest)[..n] == b;
  }

  lemma TakeTextUses(b: bytes)
    ensures var r := TakeText(b);
      r.Got? ==> |PutText(r.value)| + |r.rest| <= |b| && r.rest == b[|b| - |r.rest|..]
  {
    TakeVarintUses(b, USIZE_WIDTH, USIZE_TOP);
  }

  /** The elements of a `Vec<String>`, without their count. */
  function PutTexts(ts: seq<Text>): bytes {
    if ts == [] then [] else PutText(ts[0]) + PutTexts(ts[1..])
  }

  function TakeTexts(b: bytes, n: nat): (r: Taken<seq<Text>>)
    ensures r.Got? ==> |r.value| == n
    decreases n
  {
    if n == 0 then Got([], b)
    else match TakeText(b)
      case Bad => Bad
      case Got(t, rest) =>
        match TakeTexts(rest, n - 1)
        case Bad => Bad
        case Got(ts, rest') => Got([t] + ts, rest')
  }

  lemma {:induction false} TextsRoundTrip(ts: seq<Text>, rest: bytes)
    requires |PutTexts(ts)| < 0x1_0000_0000
    ensures TakeTexts(PutTexts(ts) + rest, |ts|) == Got(ts, rest)
  {
    hide ValidUtf8, Varint, TakeText;
    if ts == [] {
      assert PutTexts(ts) + rest == rest;
    } else {
      var tail := PutTexts(ts[1..]) + rest;
      assert PutTexts(ts) + rest == PutText(ts[0]) + tail;
      TextRoundTrip(ts[0], tail);
      TextsRoundTrip(ts[1..], rest);
      assert [ts[0]] + ts[1..] == ts;
    }
  }

  lemma {:induction false} TakeTextsUses(b: bytes, n: nat)
    ensures var r := TakeTexts(b, n);
      r.Got? ==> |PutTexts(r.value)| + |r.rest| <= |b|
  {
    if n == 0 {
    } else {
      TakeTextUses(b);
      var t := TakeText(b);
      if t.Got? {
        TakeTextsUses(t.rest, n - 1);
        var r := TakeTexts(b, n);
        if r.Got? {
          assert r.value[1..] == TakeTexts(t.rest, n - 1).value;
        }
      }
    }
  }

  lemma {:induction false} CountFits(ts: seq<Text>)
    ensures |ts| <= |PutTexts(ts)|
  {
    if ts == [] {
    } else {
      CountFits(ts[1..]);
    }
  }

  lemma {:induction false} VarintLengthMonotone(m: nat, n: nat)
    requires m <= n
    ensures |Varint(m)| <= |Varint(n)|
  {
    if n < 128 || m < 128 {
    } else {
      VarintLengthMonotone(m / 128, n / 128);
    }
  }
}
