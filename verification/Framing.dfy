/** Length-prefixed frames on a byte stream. */
module Framing {
  import opened Bytes
  import opened Wrappers
  import opened Payload

  const MAX_FRAME: nat := 64 * 1024

  datatype FrameError = FrameTooLarge(got: nat, max: nat) | UnexpectedEof

  function FrameBytes(body: Bytes): Bytes { BigEndian(|body|, 4) + body }

  /** Read one frame off the front: its body and what follows it. */
  function ParseFrame(b: Bytes, max: nat): Result<(Bytes, Bytes), FrameError>
  {
    if |b| < 4 then Err(UnexpectedEof)
    else
      var len := FromBigEndian(b[..4]);
      if len > max || len > MAX_FRAME then Err(FrameTooLarge(len, max))
      else if |b| - 4 < len then Err(UnexpectedEof)
      else Ok((b[4..4 + len], b[4 + len..]))
  }

  /** A frame that fits the reader's cap comes out as it went in, and leaves
      the rest of the stream alone; one that does not fit is refused. */
  lemma {:induction false} FrameRoundTrip(body: Bytes, rest: Bytes, max: nat)
    requires |body| < 0x1_0000_0000
    ensures ParseFrame(FrameBytes(body) + rest, max) ==
            if |body| <= max && |body| <= 65536 then Ok((body, rest)) else Err(FrameTooLarge(|body|, max))
  {
    var b := FrameBytes(body) + rest;
    assert Pow256(4) == 256 * Pow256(3) && Pow256(3) == 256 * Pow256(2) && Pow256(2) == 256 * Pow256(1);
    FromBigEndianInverse(|body|, 4);
    assert b[..4] == BigEndian(|body|, 4);
    assert b[4..4 + |body|] == body && b[4 + |body|..] == rest;
  }

  /** A frame on the wire: four bytes of length, most significant first, then
      the body; 64 KiB at most. */
  lemma {:induction false} FrameLayout(body: Bytes)
    requires |body| <= MAX_FRAME
    ensures var f := FrameBytes(body);
            && |f| == 4 + |body| && f[4..] == body && |body| <= 65536
            && ((f[0] as int * 256 + f[1] as int) * 256 + f[2] as int) * 256 + f[3] as int == |body|
  {
    var f := FrameBytes(body);
    var n := |body|;
    assert Pow256(4) == 256 * Pow256(3) && Pow256(3) == 256 * Pow256(2) && Pow256(2) == 256 * Pow256(1);
    FromBigEndianInverse(n, 4);
    assert f[..4] == BigEndian(n, 4);
    FourBytes(f[..4]);
  }

  lemma {:induction false} FourBytes(b: Bytes)
    requires |b| == 4
    ensures FromBigEndian(b) == ((b[0] as int * 256 + b[1] as int) * 256 + b[2] as int) * 256 + b[3] as int
  {
    assert b[..3][..2] == b[..2] && b[..2][..1] == b[..1] && b[..1][..0] == [];
    assert FromBigEndian(b[..1]) == b[0] as int;
    assert FromBigEndian(b[..2]) == 256 * FromBigEndian(b[..1]) + b[1] as int;
    assert FromBigEndian(b[..3]) == 256 * FromBigEndian(b[..2]) + b[2] as int;
  }

  /** One direction of a connection. */
  class Pipe {
    var data: Bytes

    constructor ()
      ensures data == []
    {
      data := [];
    }

    method WriteFrame(body: Bytes) returns (r: Option<FrameError>)
      modifies this
      ensures r == if |body| > 65536 then Some(FrameTooLarge(|body|, 65536)) else None
      ensures data == if r.None? then old(data) + FrameBytes(body) else old(data)
    {
      if |body| > MAX_FRAME {
        return Some(FrameTooLarge(|body|, MAX_FRAME));
      }
      data := data + BigEndian(|body|, 4);
      data := data + body;
      return None;
    }

    method ReadFrame(max: nat) returns (r: Result<Bytes, FrameError>)
      modifies this
      ensures match ParseFrame(old(data), max)
              case Ok((body, rest)) => r == Ok(body) && data == rest
              case Err(e) => r == Err(e)
    {
      if |data| < 4 {
        return Err(UnexpectedEof);
      }
      var len := FromBigEndian(data[..4]);
      if len > if max < MAX_FRAME then max else MAX_FRAME {
        return Err(FrameTooLarge(len, max));
      }
      if |data| - 4 < len {
        return Err(UnexpectedEof);
      }
      var body := data[4..4 + len];
      data := data[4 + len..];
      return Ok(body);
    }
  }
}
