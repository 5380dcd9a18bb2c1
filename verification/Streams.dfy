/** Copying one stream to another through a buffer. */
module Streams {
  import opened Wrappers
  import opened Storage

  datatype StreamError = EndOfStream | ReaderFailed | WriterFailed | ShortWrite

  /** What one read yields: some bytes, and possibly an error along with them. */
  datatype ReadEvent = ReadEvent(data: seq<Byte>, err: Option<StreamError>)

  predicate ReaderError(err: Option<StreamError>) {
    err.None? || err == Some(EndOfStream) || err == Some(ReaderFailed)
  }

  /** A reader that goes through a script of events, each fitting the buffer it is asked to fill, and is at its end after that. */
  class Reader {
    var script: seq<ReadEvent>
    /** Everything delivered so far, and the error delivered last. */
    ghost var produced: seq<Byte>
    ghost var failure: Option<StreamError>

    constructor (script: seq<ReadEvent>)
      requires forall i :: 0 <= i < |script| ==> ReaderError(script[i].err)
      ensures this.script == script && produced == [] && failure.None? && Valid()
    {
      this.script, this.produced, this.failure := script, [], None;
    }

    predicate Valid()
      reads this
    {
      forall i :: 0 <= i < |script| ==> ReaderError(script[i].err)
    }

    /** Fills at most the buffer; what does not fit is kept for the next read, and so is the error. */
    method Read(buf: array<Byte>) returns (n: nat, err: Option<StreamError>)
      requires Valid() && buf.Length > 0
      modifies this, buf
      ensures Valid() && n <= buf.Length && produced == old(produced) + buf[..n]
      ensures failure == err && ReaderError(err)
      ensures err.None? ==> Remaining(script) < Remaining(old(script))
    {
      if script == [] {
        failure := Some(EndOfStream);
        assert buf[..0] == [];
        return 0, Some(EndOfStream);
      }
      var event := script[0];
      n := Min(buf.Length, |event.data|);
      forall i | 0 <= i < n {
        buf[i] := event.data[i];
      }
      produced := produced + buf[..n];
      RemainingShrinks(script, n);
      if n < |event.data| {
        script := [ReadEvent(event.data[n..], event.err)] + script[1..];
        err := None;
      } else {
        script := script[1..];
        err := event.err;
      }
      failure := err;
    }
  }

  /** How much a reader has left to say. */
  ghost function Remaining(script: seq<ReadEvent>): nat {
    if script == [] then 0 else 1 + |script[0].data| + Remaining(script[1..])
  }

  lemma RemainingShrinks(script: seq<ReadEvent>, n: nat)
    requires script != [] && n <= |script[0].data|
    ensures Remaining(script[1..]) < Remaining(script)
    ensures n > 0 ==> Remaining([ReadEvent(script[0].data[n..], script[0].err)] + script[1..]) < Remaining(script)
  {
    var rest := [ReadEvent(script[0].data[n..], script[0].err)] + script[1..];
    assert rest[1..] == script[1..];
  }

  /** A writer that accepts as much as it likes of what it is given. */
  class Writer {
    ghost var accepted: seq<Byte>
    /** How many writes ended with an error. */
    ghost var failures: nat

    constructor ()
      ensures accepted == [] && failures == 0
    {
      accepted, failures := [], 0;
    }

    method Write(data: seq<Byte>) returns (n: nat, err: Option<StreamError>)
      modifies this
      ensures n <= |data| && accepted == old(accepted) + data[..n]
      ensures err.None? || err == Some(WriterFailed)
      ensures failures == old(failures) + if err.Some? then 1 else 0
    {
      var part: int := *;
      var fails: bool := *;
      n := if 0 <= part < |data| then part else |data|;
      accepted := accepted + data[..n];
      err := if fails then Some(WriterFailed) else None;
      failures := failures + if fails then 1 else 0;
    }
  }

  ghost function Gained(before: seq<Byte>, after: seq<Byte>): seq<Byte>
    requires before <= after
  {
    after[|before|..]
  }

  lemma GainedMore(before: seq<Byte>, after: seq<Byte>, more: seq<Byte>)
    requires before <= after
    ensures before <= after + more && Gained(before, after + more) == Gained(before, after) + more
  {
  }

  /** copyStream: what the writer accepted is a prefix of what the reader produced, as long as the count returned.
      No error means that the reader reached its end and everything it produced was accepted; an error of the
      reader's is reported only once everything produced before it was, and one of the writer's always. */
  method CopyStream(dst: Writer, src: Reader, buf: array<Byte>) returns (n: nat, err: Option<StreamError>)
    requires src.Valid() && buf.Length > 0
    modifies dst, src, buf
    ensures old(dst.accepted) <= dst.accepted && old(src.produced) <= src.produced
    ensures Gained(old(dst.accepted), dst.accepted) <= Gained(old(src.produced), src.produced)
    ensures |Gained(old(dst.accepted), dst.accepted)| == n
    ensures err.None? || err == Some(ReaderFailed) ==> Gained(old(dst.accepted), dst.accepted) == Gained(old(src.produced), src.produced)
    ensures err.None? ==> src.failure == Some(EndOfStream)
    ensures err == Some(ReaderFailed) ==> src.failure == Some(ReaderFailed)
    ensures dst.failures == old(dst.failures) + if err == Some(WriterFailed) then 1 else 0
    ensures err == Some(ShortWrite) ==> n < |Gained(old(src.produced), src.produced)|
    ensures err != Some(EndOfStream)
  {
    n := 0;
    ghost var copied: seq<Byte> := [];
    while true
      invariant src.Valid() && old(dst.accepted) <= dst.accepted && old(src.produced) <= src.produced
      invariant Gained(old(dst.accepted), dst.accepted) == copied == Gained(old(src.produced), src.produced) && |copied| == n
      invariant dst.failures == old(dst.failures)
      decreases Remaining(src.script)
    {
      ghost var produced, accepted := src.produced, dst.accepted;
      var nr, rerr := src.Read(buf);
      GainedMore(old(src.produced), produced, buf[..nr]);
      if nr > 0 {
        var nw, werr := dst.Write(buf[..nr]);
        GainedMore(old(dst.accepted), accepted, buf[..nr][..nw]);
        n := n + nw;
        if werr.Some? {
          return n, werr;
        }
        if nw != nr {
          return n, Some(ShortWrite);
        }
        assert buf[..nr][..nw] == buf[..nr];
        copied := copied + buf[..nr];
      }
      if rerr.Some? {
        if rerr == Some(EndOfStream) {
          return n, None;
        }
        return n, rerr;
      }
    }
  }
}
