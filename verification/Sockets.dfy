/** The ends of a connection, as the stage functions use them. */
module Sockets {
  import opened ByteStrings

  /** One direction of a connection: the bytes sent and not yet taken in. */
  class Pipe {
    var bytes: Bytes

    constructor ()
      ensures bytes == []
    {
      bytes := [];
    }
  }

  /** A call of send or recv: what it was asked to move, and what it moved. */
  datatype Call = Call(asked: nat, moved: nat)

  class Socket {
    const out: Pipe
    const inn: Pipe
    var willing: bool           // a call that can move something does
    ghost var log: seq<Call>    // the calls so far

    constructor (out: Pipe, inn: Pipe, willing: bool)
      ensures this.out == out && this.inn == inn && this.willing == willing && log == []
    {
      this.out, this.inn, this.willing, log := out, inn, willing, [];
    }

    /** A call was made after the first `before` ones, and the last one moved less than it was asked to. */
    ghost predicate CutShort(before: nat)
      reads this`log
    {
      before < |log| && log[|log| - 1].moved < log[|log| - 1].asked
    }

    /** `send()`: takes any number of the bytes, or none with -1. */
    method Send(b: Bytes) returns (n: int)
      modifies out, this`log
      ensures -1 <= n <= |b|
      ensures out.bytes == old(out.bytes) + if n > 0 then b[..n] else []
      ensures log == old(log) + [Call(|b|, if n > 0 then n else 0)]
      ensures willing && b != [] ==> n > 0
    {
      n :| -1 <= n <= |b| && (willing && b != [] ==> n > 0);
      if n > 0 {
        out.bytes := out.bytes + b[..n];
      } else {
        assert out.bytes + [] == out.bytes;
      }
      log := log + [Call(|b|, if n > 0 then n else 0)];
    }

    /** `send()` of a header: all of it or nothing. */
    method SendWhole(b: Bytes) returns (n: int)
      modifies out, this`log
      ensures n == -1 || n == |b|
      ensures out.bytes == old(out.bytes) + if n >= 0 then b else []
      ensures log == old(log) + [Call(|b|, if n >= 0 then n else 0)]
      ensures willing ==> n == |b|
    {
      var go: bool :| willing ==> go;
      n := if go then |b| else -1;
      out.bytes := out.bytes + if n >= 0 then b else [];
      log := log + [Call(|b|, if n >= 0 then n else 0)];
    }

    /** `recv()`: gives any number of the bytes that are there, up to `max`, or none with -1. */
    method Recv(max: nat) returns (n: int, b: Bytes)
      modifies inn, this`log
      ensures -1 <= n <= max && |b| == (if n > 0 then n else 0) && |b| <= |old(inn.bytes)|
      ensures b == old(inn.bytes)[..|b|] && inn.bytes == old(inn.bytes)[|b|..]
      ensures log == old(log) + [Call(max, |b|)]
      ensures willing && max > 0 && old(inn.bytes) != [] ==> n > 0
    {
      n :| -1 <= n <= max && n <= |inn.bytes| && (willing && max > 0 && inn.bytes != [] ==> n > 0);
      b := if n > 0 then inn.bytes[..n] else [];
      inn.bytes := inn.bytes[|b|..];
      log := log + [Call(max, |b|)];
    }

    /** `recv()` of a header: all of it or nothing. */
    method RecvWhole(size: nat) returns (n: int, b: Bytes)
      modifies inn, this`log
      ensures n == -1 || n == size
      ensures |b| == (if n >= 0 then size else 0) && |b| <= |old(inn.bytes)|
      ensures b == old(inn.bytes)[..|b|] && inn.bytes == old(inn.bytes)[|b|..]
      ensures log == old(log) + [Call(size, |b|)]
      ensures willing && size <= |old(inn.bytes)| ==> n == size
    {
      var go: bool :| willing ==> go;
      n := if go && size <= |inn.bytes| then size else -1;
      b := if n >= 0 then inn.bytes[..size] else [];
      inn.bytes := inn.bytes[|b|..];
      log := log + [Call(size, |b|)];
    }
  }

  /** Process-wide: set once the cache has refused an insert (to_skip_insert_cache). */
  class Flags {
    var skipInsert: bool

    constructor (skip: bool)
      ensures skipInsert == skip
    {
      skipInsert := skip;
    }
  }
}
