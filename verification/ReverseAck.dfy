/** The ack of a reverse-forward request (src/forward/mod.rs, src/forward/reverse.rs). */
module ReverseAck {
  import opened Wrappers
  import opened Bytes
  import opened Streams

  const REVERSE_OK: byte := 0
  const REVERSE_FAILED: byte := 1

  /** What `send_reverse_ack` has put on the stream when it returns without a write failure. For a reason
      that is too long, that is the status byte alone. */
  function AckBytes(failure: Option<Text>): bytes {
    match failure
    case None => [REVERSE_OK]
    case Some(reason) =>
      if |reason| < 0x1_0000 then [REVERSE_FAILED] + (Be16(|reason|) + reason) else [REVERSE_FAILED]
  }

  datatype Ack = Accepted | Refusal(reason: bytes) | CutShort

  /** What the dialer makes of the bytes that arrive, if no more follow. */
  function TakeAck(b: bytes): Ack {
    if b == [] then CutShort
    else if b[0] == REVERSE_OK then Accepted
    else if |b| < 3 then CutShort
    else
      var n := U16(b[1..3]);
      if |b| < 3 + n then CutShort else Refusal(b[3..3 + n])
  }

  method SendReverseAck(stream: Stream, failure: Option<Text>) returns (r: IoResult<()>)
    modifies stream`written, stream`failed
    ensures old(stream.written) <= stream.written <= old(stream.written) + AckBytes(failure)
    ensures !stream.failed ==> stream.written == old(stream.written) + AckBytes(failure)
    ensures r.Failure? ==> stream.failed || (failure.Some? && |failure.value| >= 0x1_0000)
    ensures r.Success? ==> stream.written == old(stream.written) + AckBytes(failure)
    ensures failure.Some? && |failure.value| >= 0x1_0000 ==> r.Failure?
  {
    match failure
    case None => r := stream.WriteAll([REVERSE_OK]);
    case Some(reason) => r := SendReason(stream, reason);
  }

  method SendReason(stream: Stream, reason: Text) returns (r: IoResult<()>)
    modifies stream`written, stream`failed
    ensures old(stream.written) <= stream.written <= old(stream.written) + AckBytes(Some(reason))
    ensures !stream.failed ==> stream.written == old(stream.written) + AckBytes(Some(reason))
    ensures r.Failure? ==> stream.failed || |reason| >= 0x1_0000
    ensures r.Success? ==> stream.written == old(stream.written) + AckBytes(Some(reason))
    ensures |reason| >= 0x1_0000 ==> r.Failure?
  {
    hide ValidUtf8, Be16;
    if |reason| < 0x1_0000 {
      Stages(stream.written, [REVERSE_FAILED], Be16(|reason|), reason);
    }
    r := stream.WriteAll([REVERSE_FAILED]);
    if r.Failure? {
      return;
    }
    if |reason| >= 0x1_0000 {
      return Failure(InvalidData);
    }
    r := stream.WriteAll(Be16(|reason|));
    if r.Success? {
      r := stream.WriteAll(reason);
    }
  }

  lemma Stages(before: bytes, status: bytes, length: bytes, reason: bytes)
    ensures var all := before + (status + (length + reason));
      before + status <= all && before + status + length <= all && before + status + length + reason == all
  {}

  /** How many of the bytes that arrive an ack takes: all, if it is cut short. */
  function AckLength(b: bytes): (n: nat)
    ensures n <= |b|
  {
    match TakeAck(b)
    case Accepted => 1
    case Refusal(reason) => 3 + |reason|
    case CutShort => |b|
  }

  /** The second half of `request_reverse_forward`. */
  method AwaitReverseAck(stream: Stream) returns (ack: Ack)
    modifies stream`arriving, stream`consumed, stream`plan
    ensures ack == TakeAck(old(stream.arriving))
    ensures stream.arriving == old(stream.arriving)[AckLength(old(stream.arriving))..]
    ensures stream.consumed + stream.arriving == old(stream.consumed + stream.arriving)
  {
    ghost var all := stream.arriving;
    var status := new byte[1];
    var full := stream.ReadExact(status);
    if !full {
      return CutShort;
    }
    if status[0] == REVERSE_OK {
      return Accepted;
    }
    var lenBuf := new byte[2];
    full := stream.ReadExact(lenBuf);
    if !full {
      return CutShort;
    }
    assert all[1..][..2] == all[1..3] && all[1..][2..] == all[3..];
    var reason := new byte[U16(lenBuf[..])];
    full := stream.ReadExact(reason);
    if !full {
      return CutShort;
    }
    assert all[3..][..reason.Length] == all[3..3 + reason.Length]
      && all[3..][reason.Length..] == all[3 + reason.Length..];
    ack := Refusal(reason[..]);
  }

  lemma Be16RoundTrip(n: nat)
    requires n < 0x1_0000
    ensures U16(Be16(n)) == n
  {}

  /** The ack on the wire: a zero byte; or a one, the length of the reason in two bytes, the higher first,
      and the reason. Whatever is not zero is taken for a refusal. */
  lemma AckOnTheWire(reason: Text, b: byte, rest: bytes)
    ensures AckBytes(None) == [0] && TakeAck([0] + rest) == Accepted
    ensures |reason| <= 65_535 ==> AckBytes(Some(reason)) == [1, |reason| / 256, |reason| % 256] + reason
    ensures |reason| > 65_535 ==> AckBytes(Some(reason)) == [1]
    ensures b != 0 && |reason| <= 65_535 ==>
      TakeAck([b, |reason| / 256, |reason| % 256] + (reason + rest)) == Refusal(reason)
  {
    hide ValidUtf8, TakeAck;
    assert TakeAck([0] + rest) == Accepted by { ZeroIsAccepted(rest); }
    if b != 0 && |reason| <= 65_535 {
      RefusalIsTaken(reason, b, rest);
    }
  }

  lemma ZeroIsAccepted(rest: bytes)
    ensures TakeAck([0] + rest) == Accepted
  {}

  lemma RefusalIsTaken(reason: bytes, b: byte, rest: bytes)
    requires b != 0 && |reason| <= 65_535
    ensures TakeAck([b, |reason| / 256, |reason| % 256] + (reason + rest)) == Refusal(reason)
  {
    var all := [b, |reason| / 256, |reason| % 256] + (reason + rest);
    Be16RoundTrip(|reason|);
    assert all[1..3] == Be16(|reason|);
    assert all[3..] == reason + rest && (reason + rest)[..|reason|] == reason;
    assert all[3..3 + |reason|] == all[3..][..|reason|];
  }

  /** The dialer accepts exactly when the bind succeeded and the status byte got through; a reason of up
      to 65,535 bytes is recovered exactly, and a longer one makes the dialer fail, not accept. */
  lemma AckAgreement(failure: Option<Text>, arrived: bytes)
    requires arrived <= AckBytes(failure)
    ensures TakeAck(arrived) == Accepted <==> failure == None && arrived != []
    ensures arrived == AckBytes(failure) && failure.Some? ==>
      TakeAck(arrived) == if |failure.value| < 0x1_0000 then Refusal(failure.value) else CutShort
    ensures arrived != AckBytes(failure) ==> TakeAck(arrived) == CutShort
  {
    var all := AckBytes(failure);
    if failure.Some? && |failure.value| < 0x1_0000 {
      var reason := failure.value;
      Be16RoundTrip(|reason|);
      assert all[1..3] == Be16(|reason|) && all[3..3 + |reason|] == reason;
      if |arrived| >= 3 {
        assert arrived[1..3] == all[1..3];
      }
      if arrived == all {
        assert arrived[3..3 + |reason|] == reason;
      }
    }
  }
}
