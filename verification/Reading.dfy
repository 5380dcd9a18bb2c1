/** Reading a remote file through requests a server may answer short, late, with
    an error, or not at all, one at a time or several in flight. */
module Reading {
  import opened Wrappers
  import opened Storage
  import opened Chunks
  import opened ConnModel
  import opened Protocol
  import opened ProtocolSafety
  import opened ProtocolOrder
  import opened Rely
  import opened Connection
  import opened Pipeline

  datatype ReadError = Eof | Failed

  datatype ReadAnswer = Bytes(data: seq<Byte>) | EndOfFile | ErrorStatus | Undecodable

  const READ_PIPELINE_THRESHOLD: nat := 128 * 1024

  /** The server answers with bytes that are in the file where they were asked for,
      and with nothing, or with end of file, only at or beyond the end. */
  ghost predicate HonestRead(content: seq<Byte>, offset: nat, answer: ReadAnswer) {
    match answer
    case Bytes(data) => |data| <= Available(content, offset) && (data == [] ==> Available(content, offset) == 0)
                        && forall k :: 0 <= k < |data| ==> data[k] == content[offset + k]
    case EndOfFile => Available(content, offset) == 0
    case _ => true
  }

  /** A request for `size` bytes was answered with all of them that there are. */
  ghost predicate Plentiful(content: seq<Byte>, offset: nat, size: nat, answer: ReadAnswer) {
    answer.Bytes? ==> |answer.data| >= Min(size, Available(content, offset))
  }

  predicate IsFailure(answer: ReadAnswer) {
    answer.ErrorStatus? || answer.Undecodable?
  }

  /** What a read of `len` bytes yields when every request is answered with all that was asked for. */
  function FullRead(content: seq<Byte>, offset: nat, len: nat): (nat, Option<ReadError>) {
    var n := Min(len, Available(content, offset));
    (n, if n == 0 then Some(Eof) else None)
  }

  /** What one call into a whole buffer promises whatever the server and the caller do: it delivered `n`
      bytes of the file in order; no error means progress, and end of file is reported alone and only at the true end. */
  ghost predicate Delivered(before: seq<Byte>, after: seq<Byte>, n: nat, err: Option<ReadError>, content: seq<Byte>, offset: nat) {
    && ReadInto(before, after, 0, n, content, offset)
    && (err.None? && |before| > 0 ==> n > 0)
    && (err == Some(Eof) ==> n == 0 && Available(content, offset) == 0)
  }

  /** Copies a reply's data into the buffer, as much of it as there is room for. */
  method CopyInto(buf: array<Byte>, start: nat, size: nat, data: seq<Byte>, ghost content: seq<Byte>, ghost offset: nat) returns (n: nat)
    requires start + size <= buf.Length && HonestRead(content, offset, Bytes(data))
    modifies buf
    ensures n == Min(size, |data|)
    ensures ReadInto(old(buf[..]), buf[..], start, n, content, offset)
  {
    n := Min(size, |data|);
    forall k | 0 <= k < n {
      buf[start + k] := data[k];
    }
    forall p | 0 <= p < buf.Length
      ensures buf[..][p] == if start <= p < start + n then content[offset + p - start] else old(buf[..])[p]
    {
      if start <= p < start + n {
        assert buf[start + (p - start)] == data[p - start];
      }
    }
  }

  /** What is asked for one chunk of a read at `at`. */
  function ReadOf(chunk: Chunk, at: nat): Ask {
    ReadAsk(at + chunk.bufOffset, chunk.size)
  }

  function ReadsOf(chunks: seq<Chunk>, at: nat): (asks: seq<Ask>)
    ensures |asks| == |chunks| && forall i :: 0 <= i < |chunks| ==> asks[i] == ReadOf(chunks[i], at)
  {
    seq(|chunks|, i requires 0 <= i < |chunks| => ReadOf(chunks[i], at))
  }

  lemma ReadsAreWithinLimits(chunks: seq<Chunk>, at: nat, total: nat, limits: Negotiated)
    requires Partition(chunks, total, limits.MaxReadChunk())
    ensures AllAsksWithinLimits(ReadsOf(chunks, at), limits)
  {
    forall i | 0 <= i < |chunks| ensures WithinLimits(ReadsOf(chunks, at)[i], limits) {
      assert IsChunk(chunks[i], total, limits.MaxReadChunk(), i);
    }
  }

  /** An open file on the share: where it stands and the connection it is read through. */
  class File {
    const conn: Conn
    /** The server's file, which nobody changes meanwhile. */
    const content: seq<Byte>
    /** Whether the server always answers a read with all it has, rather than as much as it likes. */
    const generous: bool
    var offset: nat

    constructor (conn: Conn, content: seq<Byte>, generous: bool)
      ensures this.conn == conn && this.content == content && this.generous == generous
      ensures offset == 0
    {
      this.conn, this.content, this.generous := conn, content, generous;
      this.offset := 0;
    }

    /** The server's answer to the read that the message replies to: any honest one, or a failure, which counts as a mishap. */
    method Answer(msg: Message) returns (answer: ReadAnswer)
      requires msg.Reply? && AnsweredBy(conn.world, msg.origin, msg)
      requires msg.origin in conn.diary.asked && conn.diary.asked[msg.origin].ReadAsk?
      modifies conn.mishaps`count
      ensures var ask := conn.diary.asked[msg.origin];
        HonestRead(content, ask.at, answer) && (generous ==> Plentiful(content, ask.at, ask.size, answer))
      ensures conn.mishaps.count == old(conn.mishaps.count) + if IsFailure(answer) then 1 else 0
    {
      var at := conn.diary.asked[msg.origin].at;
      var kind: nat := *;
      if kind == 0 {
        answer := ErrorStatus;
      } else if kind == 1 {
        answer := Undecodable;
      } else if |content| <= at {
        answer := if kind == 2 then EndOfFile else Bytes([]);
      } else {
        var short: int := *;
        answer := Bytes(content[at..if !generous && at < short < |content| then short else |content|]);
      }
      if IsFailure(answer) {
        conn.mishaps.count := conn.mishaps.count + 1;
      }
    }

    /** Nothing went wrong since the count stood at `count`. */
    ghost predicate Smooth(count: nat)
      reads conn.mishaps
    {
      conn.mishaps.count == count
    }

    /** If nothing went wrong since the counts stood at these, no request was given up on. */
    ghost predicate GivesUpForReason(count: nat, abandoned: nat)
      reads conn.mishaps
    {
      Smooth(count) ==> conn.mishaps.abandoned == abandoned
    }

    /** Issues a single read. A short reply is not the end of the file; only an empty one is. */
    method ReadAtChunk(buf: array<Byte>, start: nat, len: nat, at: nat) returns (n: nat, err: Option<ReadError>)
      requires conn.Valid() && Clean(conn.world, conn.diary.mine) && start + len <= buf.Length && len > 0
      modifies conn, conn.mishaps, buf
      ensures conn.Valid() && Clean(conn.world, conn.diary.mine) && Continues(old(conn.diary), conn.diary, 1)
      ensures ReadInto(old(buf[..]), buf[..], start, n, content, at) && n <= len
      ensures err.Some? <==> n == 0
      ensures err == Some(Eof) ==> Available(content, at) == 0
      ensures generous && err != Some(Failed) ==> n >= Min(Min(len, conn.limits.MaxReadChunk()), Available(content, at))
      ensures conn.mishaps.count >= old(conn.mishaps.count) && (err == Some(Failed) <==> !Smooth(old(conn.mishaps.count)))
      ensures GivesUpForReason(old(conn.mishaps.count), old(conn.mishaps.abandoned))
    {
      hide Sound, Clean;
      var readSize := Min(len, conn.limits.MaxReadChunk());
      var outcome, r := conn.SendRecvSettled(ReadAsk(at, readSize));
      if !outcome.Answered? {
        return 0, Some(Failed);
      }
      var answer := Answer(outcome.msg);
      match answer
      case EndOfFile =>
        return 0, Some(Eof);
      case Bytes(data) =>
        n := CopyInto(buf, start, len, data, content, at);
        err := if n == 0 then Some(Eof) else None;
      case _ =>
        return 0, Some(Failed);
    }

    /** Asks again after every short reply, until the range is full or the file ends. */
    method ReadAt(buf: array<Byte>, start: nat, len: nat, at: nat) returns (n: nat, err: Option<ReadError>)
      requires conn.Valid() && Clean(conn.world, conn.diary.mine) && start + len <= buf.Length
      modifies conn, conn.mishaps, buf
      ensures conn.Valid() && Clean(conn.world, conn.diary.mine) && Continues(old(conn.diary), conn.diary, 1)
      ensures ReadInto(old(buf[..]), buf[..], start, n, content, at) && n <= len
      ensures err.None? <==> n == len
      ensures err == Some(Eof) ==> Available(content, at + n) == 0
      ensures conn.mishaps.count >= old(conn.mishaps.count) && (err == Some(Failed) <==> !Smooth(old(conn.mishaps.count)))
      ensures GivesUpForReason(old(conn.mishaps.count), old(conn.mishaps.abandoned))
    {
      hide Sound, Clean;
      n, err := 0, None;
      while n < len
        invariant conn.Valid() && Clean(conn.world, conn.diary.mine) && Continues(old(conn.diary), conn.diary, 1)
        invariant n <= len && ReadInto(old(buf[..]), buf[..], start, n, content, at) && err.None?
        invariant Smooth(old(conn.mishaps.count)) && conn.mishaps.abandoned == old(conn.mishaps.abandoned)
        decreases len - n
      {
        ghost var before, diary := buf[..], conn.diary;
        var m;
        m, err := ReadAtChunk(buf, start + n, len - n, at + n);
        ContinuesOn(old(conn.diary), diary, conn.diary, 1, 1);
        ReadIntoGoesOn(old(buf[..]), before, buf[..], start, n, m, content, at);
        n := n + m;
        if err.Some? {
          return;
        }
      }
    }

    /** Reads chunk by chunk, delivering what it has at the end of the file and reporting that on the next call. */
    method ReadSequential(buf: array<Byte>, at: nat) returns (n: nat, err: Option<ReadError>)
      requires conn.Valid() && Clean(conn.world, conn.diary.mine)
      modifies conn, conn.mishaps, buf
      ensures conn.Valid() && Clean(conn.world, conn.diary.mine) && Continues(old(conn.diary), conn.diary, 1)
      ensures Delivered(old(buf[..]), buf[..], n, err, content, at)
      ensures err != Some(Failed) && buf.Length > 0 ==> (n, err) == FullRead(content, at, buf.Length)
      ensures conn.mishaps.count >= old(conn.mishaps.count) && (err == Some(Failed) <==> !Smooth(old(conn.mishaps.count)))
      ensures GivesUpForReason(old(conn.mishaps.count), old(conn.mishaps.abandoned))
    {
      hide Sound, Clean;
      n, err := 0, None;
      while n < buf.Length
        invariant conn.Valid() && Clean(conn.world, conn.diary.mine) && Continues(old(conn.diary), conn.diary, 1)
        invariant n <= buf.Length && ReadInto(old(buf[..]), buf[..], 0, n, content, at) && err.None?
        invariant Smooth(old(conn.mishaps.count)) && conn.mishaps.abandoned == old(conn.mishaps.abandoned)
        decreases buf.Length - n
      {
        var chunkSize := Min(buf.Length - n, conn.limits.MaxReadChunk());
        ghost var before, diary := buf[..], conn.diary;
        var m;
        m, err := ReadAt(buf, n, chunkSize, at + n);
        ContinuesOn(old(conn.diary), diary, conn.diary, 1, 1);
        ReadIntoGoesOn(old(buf[..]), before, buf[..], 0, n, m, content, at);
        n := n + m;
        if err.Some? {
          assert err.value.Eof? || err.value.Failed?;
          assert err == Some(Eof) ==> n == Min(buf.Length, Available(content, at));
          if err == Some(Eof) && n > 0 {
            err := None;
          }
          return;
        }
      }
    }

    /** Puts one pipelined chunk's reply into the buffer. `ends` says that nothing can follow it: the
        reply was short, or none at all. */
    method PlaceReply(buf: array<Byte>, chunk: Chunk, msg: Message, ghost at: nat) returns (m: nat, failed: bool, ends: bool)
      requires msg.Reply? && AnsweredBy(conn.world, msg.origin, msg) && Recorded(conn.diary, msg.origin, ReadOf(chunk, at))
      requires chunk.bufOffset + chunk.size <= buf.Length && chunk.size > 0
      modifies buf, conn.mishaps`count
      ensures ReadInto(old(buf[..]), buf[..], chunk.bufOffset, m, content, at + chunk.bufOffset) && m <= chunk.size
      ensures failed ==> m == 0 && ends
      ensures ends <==> m < chunk.size
      ensures ends && !failed && m == 0 ==> Available(content, at + chunk.bufOffset) == 0
      ensures generous && !failed ==> m == Min(chunk.size, Available(content, at + chunk.bufOffset))
      ensures conn.mishaps.count == old(conn.mishaps.count) + if failed then 1 else 0
    {
      m, failed, ends := 0, false, true;
      var answer := Answer(msg);
      match answer
      case EndOfFile =>
      case Bytes(data) =>
        m := CopyInto(buf, chunk.bufOffset, chunk.size, data, content, at + chunk.bufOffset);
        ends := m < chunk.size;
      case _ =>
        failed := true;
    }

    /** Waits for the next chunk's reply and places it. When nothing can follow, the replies still to
        come are collected, and every request in hand is settled or given up on. */
    method TakeTurn(buf: array<Byte>, waiting: seq<WireRequest>, chunk: Chunk, ghost at: nat) returns (m: nat, failed: bool, ends: bool)
      requires conn.Valid() && InHand(conn.world, waiting, conn.diary.mine) && waiting != []
      requires Recorded(conn.diary, waiting[0].request, ReadOf(chunk, at))
      requires chunk.bufOffset + chunk.size <= buf.Length && chunk.size > 0
      modifies conn, conn.mishaps, buf
      ensures conn.Valid() && conn.diary == old(conn.diary)
      ensures ReadInto(old(buf[..]), buf[..], chunk.bufOffset, m, content, at + chunk.bufOffset)
      ensures failed ==> ends
      ensures if ends then m < chunk.size else m == chunk.size
      ensures ends && !failed && m == 0 ==> Available(content, at + chunk.bufOffset) == 0
      ensures generous && !failed ==> m == Min(chunk.size, Available(content, at + chunk.bufOffset))
      ensures if ends then Clean(conn.world, conn.diary.mine) else InHand(conn.world, waiting[1..], conn.diary.mine)
      ensures conn.mishaps.count >= old(conn.mishaps.count)
      ensures failed ==> !Smooth(old(conn.mishaps.count))
      ensures !ends ==> Smooth(old(conn.mishaps.count))
      ensures GivesUpForReason(old(conn.mishaps.count), old(conn.mishaps.abandoned))
    {
      hide Sound, InHand, Clean, ReadInto, Recorded;
      ReadNothing(buf[..], chunk.bufOffset, content, at + chunk.bufOffset);
      var event := AwaitNext(conn, waiting);
      m, failed, ends := 0, true, true;
      if IsReply(event) {
        m, failed, ends := PlaceReply(buf, chunk, event.msg, at);
      }
      if event.Down? {
        DownAwaitsNobody(conn);
      } else if event.Stopped? {
        CollectReplies(conn, waiting);
      } else if ends {
        CollectReplies(conn, waiting[1..]);
      }
    }

    /** Keeps several reads in flight at increasing offsets; a short reply ends the call, since the
        ones behind it are already on their way. However it ends, every request it sent is settled or given up on,
        and never were more in flight than the depth allows. */
    method ReadPipelined(buf: array<Byte>, at: nat) returns (n: nat, err: Option<ReadError>)
      requires conn.Valid() && Clean(conn.world, conn.diary.mine)
      modifies conn, conn.mishaps, buf
      ensures conn.Valid() && Clean(conn.world, conn.diary.mine)
      ensures Continues(old(conn.diary), conn.diary, PipelineDepth(conn.limits.maxMpxCount).0)
      ensures Delivered(old(buf[..]), buf[..], n, err, content, at)
      ensures err != Some(Failed) && generous && buf.Length > 0 ==> (n, err) == FullRead(content, at, buf.Length)
      ensures conn.mishaps.count >= old(conn.mishaps.count) && (err == Some(Failed) ==> !Smooth(old(conn.mishaps.count)))
      ensures GivesUpForReason(old(conn.mishaps.count), old(conn.mishaps.abandoned))
      ensures Smooth(old(conn.mishaps.count)) ==> FillsPipeline(conn.diary, conn.limits, buf.Length, conn.limits.MaxReadChunk())
    {
      hide Sound, Clean, InHand, ReadInto, PipelineDepth, NumChunks, AllRecorded, Recorded, ReadOf, Continues, Conn.Valid, WithinLimits;
      var chunks := Cut(buf.Length, conn.limits.MaxReadChunk());
      var asks := ReadsOf(chunks, at);
      ReadsAreWithinLimits(chunks, at, buf.Length, conn.limits);
      ghost var depth := PipelineDepth(conn.limits.maxMpxCount).0;
      var maxPipeline := Min(PipelineDepth(conn.limits.maxMpxCount).0, |chunks|);
      var sent, ok := SendBatch(conn, asks[..maxPipeline]);
      FirstAreRecorded(old(conn.diary), conn.diary, sent, asks, maxPipeline, depth);
      n, err := 0, None;
      ReadNothing(buf[..], 0, content, at);
      if !ok {
        CollectReplies(conn, sent);
        return 0, Some(Failed);
      }

      for i := 0 to |chunks|
        invariant i <= |sent| == Min(|chunks|, maxPipeline + i) && AllRecorded(conn.diary, sent, asks)
        invariant conn.Valid() && InHand(conn.world, sent[i..], conn.diary.mine) && Continues(old(conn.diary), conn.diary, depth)
        invariant n == Covered(buf.Length, conn.limits.MaxReadChunk(), i) && ReadInto(old(buf[..]), buf[..], 0, n, content, at)
        invariant n <= Available(content, at) && Smooth(old(conn.mishaps.count))
        invariant conn.mishaps.abandoned == old(conn.mishaps.abandoned) && conn.diary.peak >= maxPipeline
      {
        assert IsChunk(chunks[i], buf.Length, conn.limits.MaxReadChunk(), i);
        assert sent[i..][1..] == sent[i + 1..];
        EachIsRecorded(conn.diary, sent, asks, i);
        ghost var before := buf[..];
        var m, failed, ends := TakeTurn(buf, sent[i..], chunks[i], at);
        ReadIntoGoesOn(old(buf[..]), before, buf[..], 0, n, m, content, at);
        n := n + m;
        if ends {
          return n, if failed then Some(Failed) else if n > 0 then None else Some(Eof);
        }

        if |sent| < |chunks| {
          ghost var diary := conn.diary;
          var q;
          ok, q := SendNext(conn, sent[i + 1..], asks[|sent|]);
          OneMoreRecorded(diary, conn.diary, sent, q, asks, ok, |sent| - i);
          ContinuesOn(old(conn.diary), diary, conn.diary, depth, |sent| - i);
          if !ok {
            CollectReplies(conn, sent[i + 1..]);
            return n, Some(Failed);
          }
          assert (sent + [q])[i + 1..] == sent[i + 1..] + [q];
          sent := sent + [q];
        }
      }
      NothingInHand(conn.world, conn.diary.mine);
      assert sent[|chunks|..] == [];
    }

    /** Reads at the file's offset and advances it by what was read. */
    method Read(buf: array<Byte>) returns (n: nat, err: Option<ReadError>)
      requires conn.Valid() && Clean(conn.world, conn.diary.mine)
      modifies this, conn, conn.mishaps, buf
      ensures conn.Valid() && Clean(conn.world, conn.diary.mine)
      ensures Continues(old(conn.diary), conn.diary, if buf.Length < 131072 then 1 else PipelineDepth(conn.limits.maxMpxCount).0)
      ensures buf.Length >= 131072 && conn.limits.maxMpxCount > 1 && Smooth(old(conn.mishaps.count)) ==>
        FillsPipeline(conn.diary, conn.limits, buf.Length, conn.limits.MaxReadChunk())
      ensures offset == old(offset) + n
      ensures Delivered(old(buf[..]), buf[..], n, err, content, old(offset))
      ensures buf.Length == 0 ==> n == 0 && err.None?
      ensures err != Some(Failed) && generous && buf.Length > 0 ==> (n, err) == FullRead(content, old(offset), buf.Length)
      ensures conn.mishaps.count >= old(conn.mishaps.count) && (err == Some(Failed) ==> !Smooth(old(conn.mishaps.count)))
      ensures GivesUpForReason(old(conn.mishaps.count), old(conn.mishaps.abandoned))
    {
      hide Sound, Clean;
      if buf.Length == 0 {
        ReadNothing(buf[..], 0, content, offset);
        return 0, None;
      }
      var (_, supportsPipelining) := PipelineDepth(conn.limits.maxMpxCount);
      if !supportsPipelining || buf.Length < READ_PIPELINE_THRESHOLD {
        n, err := ReadSequential(buf, offset);
      } else {
        n, err := ReadPipelined(buf, offset);
      }
      offset := offset + n;
    }
  }

  // ----- Whole runs of reads -----

  /** What one read that delivered something, or nothing, did to the offset. */
  datatype ReadResult = ReadResult(at: nat, data: seq<Byte>)

  ghost predicate IsRead(r: ReadResult, content: seq<Byte>) {
    |r.data| <= Available(content, r.at) && forall k :: 0 <= k < |r.data| ==> r.data[k] == content[r.at + k]
  }

  ghost predicate ConsecutiveReads(results: seq<ReadResult>, content: seq<Byte>) {
    && (forall i :: 0 <= i < |results| ==> IsRead(results[i], content))
    && (forall i :: 0 < i < |results| ==> results[i].at == EndOf(results[i - 1]))
  }

  function EndOf(r: ReadResult): nat {
    r.at + |r.data|
  }

  function Concatenated(results: seq<ReadResult>): seq<Byte> {
    if results == [] then [] else Concatenated(results[..|results| - 1]) + results[|results| - 1].data
  }

  lemma ReadExtends(r: ReadResult, content: seq<Byte>, start: nat)
    requires IsRead(r, content) && start <= r.at <= |content|
    ensures EndOf(r) <= |content| && content[start..r.at] + r.data == content[start..EndOf(r)]
  {
  }

  /** Over any run of reads the results concatenate to consecutive bytes of the file, none lost and none repeated. */
  lemma {:induction false} ReadsLoseNothing(results: seq<ReadResult>, content: seq<Byte>)
    requires results != [] && ConsecutiveReads(results, content) && results[0].at <= |content|
    ensures var end := EndOf(results[|results| - 1]);
      results[0].at <= end <= |content| && Concatenated(results) == content[results[0].at..end]
  {
    hide IsRead;
    var most, last := results[..|results| - 1], results[|results| - 1];
    if most == [] {
      assert content[last.at..last.at] == [] == Concatenated(most);
    } else {
      ReadsLoseNothing(most, content);
    }
    ReadExtends(last, content, results[0].at);
  }

  /** readAll: reads to the end of the file, through whatever buffers, growing them as it goes. */
  method ReadAll(f: File, sizeHint: int) returns (data: seq<Byte>, err: Option<ReadError>)
    requires f.conn.Valid() && Clean(f.conn.world, f.conn.diary.mine)
    modifies f, f.conn, f.conn.mishaps
    ensures f.conn.Valid() && Clean(f.conn.world, f.conn.diary.mine)
    ensures Continues(old(f.conn.diary), f.conn.diary, PipelineDepth(f.conn.limits.maxMpxCount).0)
    ensures f.offset == old(f.offset) + |data|
    ensures old(f.offset) <= |f.content| ==> f.offset <= |f.content| && data == f.content[old(f.offset)..f.offset]
    ensures err != Some(Eof)
    ensures err == Some(Failed) ==> f.conn.mishaps.count > old(f.conn.mishaps.count)
    ensures f.GivesUpForReason(old(f.conn.mishaps.count), old(f.conn.mishaps.abandoned))
    ensures err.None? ==> Available(f.content, f.offset) == 0
  {
    hide Clean, Sound, PipelineDepth;
    data, err := [], None;
    ghost var depth := PipelineDepth(f.conn.limits.maxMpxCount).0;
    var capacity := (if sizeHint < 0 then 0 else sizeHint) + 1;
    while true
      invariant f.conn.Valid() && Clean(f.conn.world, f.conn.diary.mine) && Continues(old(f.conn.diary), f.conn.diary, depth)
      invariant f.offset == old(f.offset) + |data|
      invariant f.conn.mishaps.count >= old(f.conn.mishaps.count)
      invariant f.GivesUpForReason(old(f.conn.mishaps.count), old(f.conn.mishaps.abandoned))
      invariant old(f.offset) <= |f.content| ==> f.offset <= |f.content| && data == f.content[old(f.offset)..f.offset]
      decreases Available(f.content, f.offset)
    {
      if |data| >= capacity {
        var grown: int := *;
        capacity := if grown > |data| then grown else |data| + 1;
      }
      var spare := new Byte[capacity - |data|];
      ghost var before, at, diary := spare[..], f.offset, f.conn.diary;
      var n;
      n, err := f.Read(spare);
      ContinuesOn(old(f.conn.diary), diary, f.conn.diary, depth, depth);
      if at <= |f.content| {
        ReadIntoIsPrefix(before, spare[..], n, f.content, at);
        if old(f.offset) <= |f.content| {
          AdjacentSlices(f.content, old(f.offset), at, at + n);
        }
      }
      assert spare[..][..n] == spare[..n];
      data := data + spare[..n];
      if err.Some? {
        if err == Some(Eof) {
          err := None;
        }
        return;
      }
    }
  }
}
