/** Bytes, byte strings and the errors that the readers of this model report. */
module Bytes {
  type byte = x: int | 0 <= x < 256

  datatype Option<+T> = None | Some(value: T)

  /** What a Go `error` can be, as far as the modelled code tells errors apart.
      `Failure` stands for every other error: a failed request, a cancelled context,
      a chunk timeout, a short chunk. */
  datatype Error =
    | Eof
    | TooShort
    | BadMagic
    | BadHeader
    | BadSeek
    | Closed
    | CannotSeek
    | InvalidRange
    | PartsMismatch
    | Failure(code: nat)

  datatype Result<+T> = Ok(value: T) | Err(error: Error)

  /** A received chunk together with how much of it has been handed out. */
  datatype Buffer = NoBuffer | Buffer(buf: seq<byte>, offset: nat) {
    predicate Valid() {
      NoBuffer? || offset <= |buf|
    }

    predicate IsEmpty() {
      NoBuffer? || |buf| - offset <= 0
    }

    function Rest(): seq<byte>
      requires Valid()
    {
      if NoBuffer? then [] else buf[offset..]
    }

    function Increment(n: nat): Buffer
      requires Buffer?
    {
      Buffer(buf, offset + n)
    }
  }

  function Min(a: int, b: int): int {
    if a <= b then a else b
  }

  function Max(a: int, b: int): int {
    if a >= b then a else b
  }

  function Zeros(n: nat): (z: seq<byte>) {
    seq(n, _ => 0)
  }

  /** The first `n` bytes of `s`, or all of them when there are fewer; a negative `n` sets no limit. */
  function Limited(s: seq<byte>, n: int): seq<byte> {
    if 0 <= n < |s| then s[..n] else s
  }

  /** The bytes of `s` that an open request for (`offset`, `limit`) is entitled to. */
  function Window(s: seq<byte>, offset: nat, limit: int): seq<byte> {
    Limited(s[Min(offset, |s|)..], limit)
  }

  /** Handing out `b` after `a`. */
  lemma Regroup(a: seq<byte>, b: seq<byte>, c: seq<byte>)
    ensures a + (b + c) == a + b + c
  {
  }
}
