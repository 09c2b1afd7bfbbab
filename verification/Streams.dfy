/** One end of a libp2p stream, and the read and write functions of src/jump.rs and src/tunnel.rs. */
module Streams {
  import opened Bytes
  import opened Frames

  datatype IoError = UnexpectedEof | InvalidData | WriteFailed
  datatype IoResult<+T> = Success(value: T) | Failure(error: IoError)

  class Stream {
    var arriving: bytes  // what the other end still delivers before its direction ends
    var plan: seq<nat>   // in which pieces, as far as that is laid down
    var consumed: bytes  // what has been read here
    var written: bytes   // what has been written here
    var failed: bool     // a write has failed here

    constructor (arriving: bytes, plan: seq<nat>)
      ensures this.arriving == arriving && this.plan == plan && consumed == [] && written == [] && !failed
    {
      this.arriving, this.plan, consumed, written, failed := arriving, plan, [], [], false;
    }

    /** One read: some of what arrives, however it is cut into chunks; nothing at the end. A planned chunk
        comes as planned, if there is room and enough to come; a read that cannot keep to the plan ends it. */
    method Read(limit: nat) returns (b: bytes)
      requires limit > 0
      modifies this`arriving, this`consumed, this`plan
      ensures b == [] <==> old(arriving) == []
      ensures |b| <= limit && old(arriving) == b + arriving && consumed == old(consumed) + b
      ensures old(arriving) == [] ==> plan == old(plan)
      ensures old(plan) != [] && 0 < old(plan)[0] <= limit && old(plan)[0] <= |old(arriving)| ==>
        |b| == old(plan)[0] && plan == old(plan)[1..]
    {
      if arriving == [] {
        return [];
      }
      var n: nat := 0;
      if plan != [] && 0 < plan[0] <= limit && plan[0] <= |arriving| {
        n, plan := plan[0], plan[1..];
      } else {
        n :| 0 < n <= limit && n <= |arriving| by { assert 0 < 1 <= limit; }
        plan := [];
      }
      b := arriving[..n];
      arriving, consumed := arriving[n..], consumed + b;
    }

    /** The other end sends more, before its direction ends. */
    method Arrive(b: bytes)
      modifies this`arriving
      ensures arriving == old(arriving) + b
    {
      arriving := arriving + b;
    }

    /** `read_exact`: reads until the buffer is full, and never more. */
    method ReadExact(buf: array<byte>) returns (full: bool)
      modifies this`arriving, this`consumed, this`plan, buf
      ensures old(consumed) + old(arriving) == consumed + arriving
      ensures full <==> buf.Length <= |old(arriving)|
      ensures full ==> buf[..] == old(arriving)[..buf.Length] && arriving == old(arriving)[buf.Length..]
      ensures !full ==> arriving == []
    {
      var filled := 0;
      while filled < buf.Length
        invariant 0 <= filled <= buf.Length
        invariant old(consumed) + old(arriving) == consumed + arriving
        invariant old(arriving) == buf[..filled] + arriving
      {
        var b := Read(buf.Length - filled);
        if b == [] {
          return false;
        }
        ghost var before := buf[..filled];
        forall i | 0 <= i < |b| {
          buf[filled + i] := b[i];
        }
        filled := filled + |b|;
        assert buf[..filled] == before + b;
      }
      full := true;
    }

    /** One write: takes at least one byte, or fails. */
    method Write(b: bytes) returns (n: nat, error: bool)
      requires b != []
      modifies this`written, this`failed
      ensures n <= |b| && written == old(written) + b[..n]
      ensures if error then failed else n > 0 && failed == old(failed)
    {
      error := *;
      n := 0;
      if error {
        failed := true;
      } else {
        n :| 0 < n <= |b|;
      }
      written := written + b[..n];
    }

    /** `write_all`: on failure some of the bytes may be out. */
    method WriteAll(b: bytes) returns (r: IoResult<()>)
      modifies this`written, this`failed
      ensures old(written) <= written <= old(written) + b
      ensures r.Success? ==> written == old(written) + b && failed == old(failed)
      ensures r.Failure? ==> r.error == WriteFailed && failed
    {
      var done := 0;
      while done < |b|
        invariant 0 <= done <= |b|
        invariant written == old(written) + b[..done] && failed == old(failed)
      {
        var n, error := Write(b[done..]);
        assert b[..done + n] == b[..done] + b[done..][..n];
        if error {
          return Failure(WriteFailed);
        }
        done := done + n;
      }
      r := Success(());
    }

    /** The common part of the read functions: a length, a bound check, and that many bytes. */
    method ReadFrame() returns (r: IoResult<bytes>)
      modifies this`arriving, this`consumed, this`plan
      ensures old(consumed) + old(arriving) == consumed + arriving
      ensures match TakeFrame(old(arriving))
        case Body(body, rest) => r == Success(body) && arriving == rest
        case TooLarge(rest) => r == Failure(InvalidData) && arriving == rest
        case Truncated => r == Failure(UnexpectedEof) && arriving == []
      ensures |old(arriving)| >= 4 ==>
        var n := U32(old(arriving)[..4]);
        if n > 65_536 then r == Failure(InvalidData) && arriving == old(arriving)[4..]
        else if |old(arriving)| >= 4 + n then
          r == Success(old(arriving)[4..4 + n]) && arriving == old(arriving)[4 + n..]
        else r == Failure(UnexpectedEof)
      ensures |old(arriving)| < 4 ==> r == Failure(UnexpectedEof)
    {
      var lenBuf := new byte[4];
      var full := ReadExact(lenBuf);
      if !full {
        return Failure(UnexpectedEof);
      }
      var len := U32(lenBuf[..]);
      if len > MAX_FRAME {
        return Failure(InvalidData);
      }
      var buf := new byte[len];
      full := ReadExact(buf);
      if !full {
        return Failure(UnexpectedEof);
      }
      assert old(arriving)[4..][..len] == old(arriving)[4..4 + len];
      assert old(arriving)[4..][len..] == old(arriving)[4 + len..];
      r := Success(buf[..]);
    }

    method ReadMessage(kind: Kind) returns (r: IoResult<Message>)
      modifies this`arriving, this`consumed, this`plan
      ensures old(consumed) + old(arriving) == consumed + arriving
      ensures match TakeMessage(kind, old(arriving))
        case Received(m, rest) => r == Success(m) && arriving == rest
        case Oversized(rest) => r == Failure(InvalidData) && arriving == rest
        case Malformed(rest) => r == Failure(InvalidData) && arriving == rest
        case Ended => r == Failure(UnexpectedEof) && arriving == []
    {
      var frame := ReadFrame();
      match frame
      case Failure(e) => r := Failure(e);
      case Success(body) =>
        match Decode(kind, body)
        case Bad => r := Failure(InvalidData);
        case Got(m, _) => r := Success(m);
    }

    /** The write functions: they refuse only what does not fit a u32 length. */
    method WriteMessage(m: Message) returns (r: IoResult<()>)
      modifies this`written, this`failed
      ensures if r.Success? || r.error == InvalidData then failed == old(failed) else r.error == WriteFailed && failed
      ensures r == Failure(InvalidData) <==> |Encode(m)| >= 0x1_0000_0000
      ensures r == Failure(InvalidData) ==> written == old(written)
      ensures |Encode(m)| < 0x1_0000_0000 ==> old(written) <= written <= old(written) + Frame(Encode(m))
      ensures r.Success? ==> |Encode(m)| < 0x1_0000_0000 && written == old(written) + Frame(Encode(m))
    {
      var body := Encode(m);
      if |body| >= U32_SIZE {
        return Failure(InvalidData);
      }
      ghost var all := written + Frame(body);
      r := WriteAll(Be32(|body|));
      assert all == old(written) + Be32(|body|) + body;
      if r.Success? {
        r := WriteAll(body);
      }
      assert written <= all && (r.Success? ==> written == all);
    }

    method ReadJumpChain() returns (r: IoResult<seq<Text>>)
      modifies this`arriving, this`consumed, this`plan
      ensures old(consumed) + old(arriving) == consumed + arriving
      ensures match TakeMessage(ChainKind, old(arriving))
        case Received(m, rest) => m.Chain? && r == Success(m.hops) && arriving == rest
        case Oversized(rest) => r == Failure(InvalidData) && arriving == rest
        case Malformed(rest) => r == Failure(InvalidData) && arriving == rest
        case Ended => r == Failure(UnexpectedEof) && arriving == []
    {
      var m := ReadMessage(ChainKind);
      r := if m.Failure? then Failure(m.error) else Success(m.value.hops);
    }

    method ReadJumpResult() returns (r: IoResult<JumpResult>)
      modifies this`arriving, this`consumed, this`plan
      ensures old(consumed) + old(arriving) == consumed + arriving
      ensures match TakeMessage(ResultKind, old(arriving))
        case Received(m, rest) => m.Result? && r == Success(m.result) && arriving == rest
        case Oversized(rest) => r == Failure(InvalidData) && arriving == rest
        case Malformed(rest) => r == Failure(InvalidData) && arriving == rest
        case Ended => r == Failure(UnexpectedEof) && arriving == []
    {
      var m := ReadMessage(ResultKind);
      r := if m.Failure? then Failure(m.error) else Success(m.value.result);
    }

    method ReadTunnelRequest() returns (r: IoResult<TunnelRequest>)
      modifies this`arriving, this`consumed, this`plan
      ensures old(consumed) + old(arriving) == consumed + arriving
      ensures match TakeMessage(RequestKind, old(arriving))
        case Received(m, rest) => m.Request? && r == Success(m.request) && arriving == rest
        case Oversized(rest) => r == Failure(InvalidData) && arriving == rest
        case Malformed(rest) => r == Failure(InvalidData) && arriving == rest
        case Ended => r == Failure(UnexpectedEof) && arriving == []
    {
      var m := ReadMessage(RequestKind);
      r := if m.Failure? then Failure(m.error) else Success(m.value.request);
    }
  }

  /** One direction of a copy: of the bytes read, those not yet written wait in the buffer. */
  predicate InFlight(before: bytes, written: bytes, buffer: bytes, read: bytes) {
    written + buffer == before + read && before <= written
  }

  lemma InFlightSteps(before: bytes, written: bytes, buffer: bytes, read: bytes)
    requires InFlight(before, written, buffer, read)
    ensures before <= written <= before + read
    ensures buffer == [] ==> written == before + read
    ensures forall chunk: bytes :: InFlight(before, written, buffer + chunk, read + chunk)
    ensures forall n: nat | n <= |buffer| :: InFlight(before, written + buffer[..n], buffer[n..], read)
  {
    assert written <= written + buffer;
    forall chunk: bytes ensures InFlight(before, written, buffer + chunk, read + chunk) {
      assert written + (buffer + chunk) == written + buffer + chunk;
      assert before + (read + chunk) == before + read + chunk;
    }
    forall n: nat | n <= |buffer| ensures InFlight(before, written + buffer[..n], buffer[n..], read) {
      assert written + buffer[..n] + buffer[n..] == written + buffer;
    }
  }

  /** `tunnel_copy`: moves what arrives at each end to the other, in any interleaving, until both
      directions have ended or a write fails. `down` and `up` are the bytes read at `a` and at `b`. */
  method TunnelCopy(a: Stream, b: Stream) returns (ok: bool, ghost down: bytes, ghost up: bytes)
    requires a != b
    modifies a, b
    ensures a.consumed == old(a.consumed) + down && old(a.arriving) == down + a.arriving
    ensures b.consumed == old(b.consumed) + up && old(b.arriving) == up + b.arriving
    ensures old(b.written) <= b.written <= old(b.written) + down
    ensures old(a.written) <= a.written <= old(a.written) + up
    ensures ok ==> a.arriving == [] && b.written == old(b.written) + down
    ensures ok ==> b.arriving == [] && a.written == old(a.written) + up
    ensures if ok then a.failed == old(a.failed) && b.failed == old(b.failed) else a.failed || b.failed
  {
    hide InFlight;
    var toB, toA: bytes := [], [];
    down, up := [], [];
    NothingInFlight(b.written);
    NothingInFlight(a.written);
    while a.arriving != [] || b.arriving != [] || toB != [] || toA != []
      invariant a.consumed == old(a.consumed) + down && old(a.arriving) == down + a.arriving
      invariant b.consumed == old(b.consumed) + up && old(b.arriving) == up + b.arriving
      invariant InFlight(old(b.written), b.written, toB, down)
      invariant InFlight(old(a.written), a.written, toA, up)
      invariant a.failed == old(a.failed) && b.failed == old(b.failed)
      decreases |a.arriving| + |b.arriving|, |toB| + |toA|
    {
      InFlightSteps(old(b.written), b.written, toB, down);
      InFlightSteps(old(a.written), a.written, toA, up);
      var failed, n := false, 0;
      if {
      case a.arriving != [] =>
        var chunk := a.Read(8192);
        toB, down := toB + chunk, down + chunk;
      case b.arriving != [] =>
        var chunk := b.Read(8192);
        toA, up := toA + chunk, up + chunk;
      case toB != [] =>
        n, failed := b.Write(toB);
        toB := toB[n..];
      case toA != [] =>
        n, failed := a.Write(toA);
        toA := toA[n..];
      }
      if failed {
        InFlightSteps(old(b.written), b.written, toB, down);
        InFlightSteps(old(a.written), a.written, toA, up);
        return false, down, up;
      }
    }
    InFlightSteps(old(b.written), b.written, toB, down);
    InFlightSteps(old(a.written), a.written, toA, up);
    ok := true;
  }

  lemma NothingInFlight(written: bytes)
    ensures InFlight(written, written, [], [])
  {
    assert written + [] == written;
  }
}
