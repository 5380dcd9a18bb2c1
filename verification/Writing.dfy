/** Writing a remote file through requests the server may carry out in part,
    refuse, or answer late, one at a time or several in flight. */
module Writing {
  import opened Wrappers
  import opened Storage
  import opened Chunks
  import opened ConnModel
  import opened Protocol
  import opened ProtocolSafety
  import opened ProtocolOrder
  import opened Rely
  import opened Connection
  import opened Pipeline

  datatype WriteError = Cancelled | NotSent | ShortWrite | Failed

  datatype WriteAnswer = Wrote(count: nat) | Refused | Garbled

  const WRITE_PIPELINE_THRESHOLD: nat := 256 * 1024

  // ----- What the server's file holds -----

  /** The first `n` bytes of `data` are in the file at `at`, and nothing outside the range of `data` changed. */
  ghost predicate Confirmed(before: seq<Byte>, after: seq<Byte>, at: nat, data: seq<Byte>, n: nat) {
    && n <= |data|
    && (n > 0 ==> at + n <= |after|)
    && (forall p :: at <= p < at + n ==> ByteAt(after, p) == data[p - at])
    && (forall p: nat :: !(at <= p < at + |data|) ==> ByteAt(after, p) == ByteAt(before, p))
    && |before| <= |after| && (|after| == |before| || |after| <= at + |data|)
  }

  lemma ConfirmedNothing(content: seq<Byte>, at: nat, data: seq<Byte>)
    ensures Confirmed(content, content, at, data, 0)
  {
  }

  lemma OverwriteNothing(content: seq<Byte>, at: nat, data: seq<Byte>)
    ensures Overwrite(content, at, data[..0]) == content
  {
  }

  lemma PrefixIsConfirmed(content: seq<Byte>, at: nat, data: seq<Byte>, k: nat)
    requires k <= |data|
    ensures Confirmed(content, Overwrite(content, at, data[..k]), at, data, 0)
    ensures Confirmed(content, Overwrite(content, at, data[..k]), at, data, k)
  {
    hide Overwrite;
    OverwriteBytes(content, at, data[..k]);
  }

  /** What a later piece confirms adds to what is there of those before it. */
  lemma ConfirmedGoesOn(c0: seq<Byte>, c1: seq<Byte>, c2: seq<Byte>, at: nat, data: seq<Byte>, n: nat, piece: seq<Byte>, m: nat)
    requires n + |piece| <= |data| && piece == data[n..n + |piece|]
    requires c1 == Overwrite(c0, at, data[..n]) && Confirmed(c1, c2, at + n, piece, m)
    ensures Confirmed(c0, c2, at, data, n + m)
    ensures c2 == Overwrite(c1, at + n, piece[..m]) ==> c2 == Overwrite(c0, at, data[..n + m])
  {
    hide Overwrite;
    OverwriteBytes(c0, at, data[..n]);
    OverwriteAdjacent(c0, at, data[..n], piece[..m]);
    assert data[..n] + piece[..m] == data[..n + m];
  }

  /** Where the chunks of a transfer end: chunk `j` covers [ends[j], ends[j+1]). */
  ghost predicate Boundaries(ends: seq<nat>, total: nat) {
    && ends != [] && ends[0] == 0
    && forall i, j :: 0 <= i <= j < |ends| ==> ends[i] <= ends[j] <= total
  }

  /** `applied` says how much of each dispatched chunk the server carried out. */
  ghost predicate WithinChunks(applied: seq<nat>, ends: seq<nat>, total: nat) {
    && Boundaries(ends, total) && |applied| < |ends|
    && forall j :: 0 <= j < |applied| ==> WithinChunk(applied[j], ends, j)
  }

  ghost predicate WithinChunk(k: nat, ends: seq<nat>, j: nat) {
    j + 1 < |ends| && ends[j] + k <= ends[j + 1]
  }

  ghost predicate InFull(applied: seq<nat>, ends: seq<nat>, count: nat)
    requires count <= |applied| < |ends|
  {
    forall j :: 0 <= j < count ==> FillsChunk(applied[j], ends, j)
  }

  ghost predicate FillsChunk(k: nat, ends: seq<nat>, j: nat) {
    j + 1 < |ends| && ends[j] + k == ends[j + 1]
  }

  /** The part of chunk `j` that the server carried out. */
  ghost function ChunkPiece(data: seq<Byte>, ends: seq<nat>, j: nat, k: nat): (piece: seq<Byte>)
    requires Boundaries(ends, |data|) && WithinChunk(k, ends, j)
    ensures |piece| == k && forall p :: ends[j] <= p < ends[j] + k ==> piece[p - ends[j]] == data[p]
  {
    assert ends[j + 1] <= |data|;
    data[ends[j]..ends[j] + k]
  }

  /** The file after the server carried out a prefix of each dispatched chunk. */
  ghost function Patched(content: seq<Byte>, at: nat, data: seq<Byte>, ends: seq<nat>, applied: seq<nat>): seq<Byte>
    requires WithinChunks(applied, ends, |data|)
  {
    if applied == [] then content
    else
      var j := |applied| - 1;
      Overwrite(Patched(content, at, data, ends, applied[..j]), at + ends[j], ChunkPiece(data, ends, j, applied[j]))
  }

  lemma {:induction false} PatchedConfirms(content: seq<Byte>, at: nat, data: seq<Byte>, ends: seq<nat>, applied: seq<nat>, i: nat, t: nat)
    requires WithinChunks(applied, ends, |data|) && i <= |applied| && InFull(applied, ends, i)
    requires if i < |applied| then t <= applied[i] else t == 0
    ensures Confirmed(content, Patched(content, at, data, ends, applied), at, data, ends[i] + t)
  {
    hide Overwrite, Confirmed;
    if applied == [] {
      ConfirmedNothing(content, at, data);
    } else {
      var j := |applied| - 1;
      var most := applied[..j];
      assert WithinChunk(applied[j], ends, j) && forall l :: 0 <= l < j ==> most[l] == applied[l];
      var before, piece := Patched(content, at, data, ends, most), ChunkPiece(data, ends, j, applied[j]);
      if i < j {
        assert WithinChunk(applied[i], ends, i);
        PatchedConfirms(content, at, data, ends, most, i, t);
        MoreIsConfirmed(content, before, at, data, ends[i] + t, ends[j], piece, 0);
      } else {
        PatchedConfirms(content, at, data, ends, most, j, 0);
        assert i == j + 1 ==> FillsChunk(applied[j], ends, j);
        MoreIsConfirmed(content, before, at, data, ends[j], ends[j], piece, ends[i] + t - ends[j]);
      }
    }
  }

  /** One more write within the range, at or after what was confirmed, confirms what it adds to. */
  lemma MoreIsConfirmed(before: seq<Byte>, after: seq<Byte>, at: nat, data: seq<Byte>, n: nat, from: nat, piece: seq<Byte>, k: nat)
    requires Confirmed(before, after, at, data, n) && n <= from && from + |piece| <= |data|
    requires forall p :: from <= p < from + |piece| ==> piece[p - from] == data[p]
    requires if n == from then k <= |piece| else k == 0
    ensures Confirmed(before, Overwrite(after, at + from, piece), at, data, n + k)
  {
    hide Overwrite;
    OverwriteBytes(after, at + from, piece);
  }

  /** When every dispatched chunk was carried out in full, the file is the old one with one write over it. */
  lemma {:induction false} PatchedInFull(content: seq<Byte>, at: nat, data: seq<Byte>, ends: seq<nat>, applied: seq<nat>)
    requires WithinChunks(applied, ends, |data|) && InFull(applied, ends, |applied|)
    ensures Patched(content, at, data, ends, applied) == Overwrite(content, at, data[..ends[|applied|]])
  {
    hide Overwrite;
    if applied == [] {
      OverwriteBytes(content, at, []);
      SameBytesSameFile(content, Overwrite(content, at, []));
      assert data[..ends[0]] == [];
    } else {
      var j := |applied| - 1;
      PatchedInFull(content, at, data, ends, applied[..j]);
      assert FillsChunk(applied[j], ends, j) && ends[j + 1] <= |data|;
      OverwriteAdjacent(content, at, data[..ends[j]], data[ends[j]..ends[j + 1]]);
      assert data[..ends[j]] + data[ends[j]..ends[j + 1]] == data[..ends[j + 1]];
    }
  }

  /** A chunk the server carries out only after the call returned cannot disturb what was confirmed. */
  lemma LateChunkDisturbsNothing(before: seq<Byte>, after: seq<Byte>, at: nat, data: seq<Byte>, n: nat, from: nat, k: nat)
    requires Confirmed(before, after, at, data, n) && n <= from && from + k <= |data|
    ensures Confirmed(before, Overwrite(after, at + from, data[from..from + k]), at, data, n)
  {
    MoreIsConfirmed(before, after, at, data, n, from, data[from..from + k], 0);
  }

  lemma PatchedMore(content: seq<Byte>, at: nat, data: seq<Byte>, ends: seq<nat>, applied: seq<nat>, k: nat)
    requires WithinChunks(applied, ends, |data|) && WithinChunk(k, ends, |applied|)
    ensures WithinChunks(applied + [k], ends, |data|)
    ensures var j := |applied|;
      Patched(content, at, data, ends, applied + [k])
        == Overwrite(Patched(content, at, data, ends, applied), at + ends[j], ChunkPiece(data, ends, j, k))
  {
    hide Overwrite, ChunkPiece;
    assert (applied + [k])[..|applied|] == applied;
  }

  lemma NothingDispatched(content: seq<Byte>, at: nat, data: seq<Byte>, ends: seq<nat>)
    requires Boundaries(ends, |data|) && |ends| > 0
    ensures WithinChunks([], ends, |data|) && Patched(content, at, data, ends, []) == content && ends[0] == 0
  {
  }

  /** The chunks of a transfer, as the places they end. */
  ghost function EndsOf(chunks: seq<Chunk>, total: nat, max: nat): seq<nat> {
    seq(|chunks| + 1, i requires 0 <= i => Covered(total, max, i))
  }

  ghost predicate Cuts(chunks: seq<Chunk>, ends: seq<nat>, total: nat) {
    && Boundaries(ends, total) && |ends| == |chunks| + 1 && ends[|chunks|] == total
    && forall j :: 0 <= j < |chunks| ==> IsCut(chunks[j], ends, j)
  }

  ghost predicate IsCut(chunk: Chunk, ends: seq<nat>, j: nat) {
    j + 1 < |ends| && chunk.bufOffset == ends[j] && chunk.size > 0 && ends[j] + chunk.size == ends[j + 1]
  }

  lemma CutsAreWithin(chunks: seq<Chunk>, ends: seq<nat>, total: nat, j: nat)
    requires Cuts(chunks, ends, total) && j < |chunks|
    ensures IsCut(chunks[j], ends, j) && chunks[j].bufOffset + chunks[j].size <= total
  {
    assert IsCut(chunks[j], ends, j);
  }

  lemma AppliedIsWithin(chunks: seq<Chunk>, ends: seq<nat>, applied: seq<nat>, total: nat, j: nat)
    requires Cuts(chunks, ends, total) && WithinChunks(applied, ends, total) && j < |applied|
    ensures applied[j] <= chunks[j].size && ends[j] + chunks[j].size == ends[j + 1]
    ensures applied[j] == chunks[j].size ==> FillsChunk(applied[j], ends, j)
  {
    assert IsCut(chunks[j], ends, j) && WithinChunk(applied[j], ends, j);
  }

  lemma PartitionCuts(chunks: seq<Chunk>, total: nat, max: nat)
    requires Partition(chunks, total, max) && Covered(total, max, |chunks|) == total
    ensures Cuts(chunks, EndsOf(chunks, total, max), total) && EndsOf(chunks, total, max)[0] == 0
  {
    var ends := EndsOf(chunks, total, max);
    forall i, j | 0 <= i <= j < |ends| ensures ends[i] <= ends[j] <= total {
      CoveredIsMonotone(total, max, i, j);
    }
    forall j | 0 <= j < |chunks| ensures IsCut(chunks[j], ends, j) {
      assert IsChunk(chunks[j], total, max, j);
    }
  }

  lemma CoveredIsMonotone(total: nat, max: nat, i: nat, j: nat)
    requires i <= j
    ensures Covered(total, max, i) <= Covered(total, max, j)
  {
    assert i * max <= j * max;
  }

  /** What the call counted is in the file, and when that is all that was dispatched, the file is
      exactly the old one with one write over it. */
  lemma EveryByteIsAccountedFor(content: seq<Byte>, at: nat, data: seq<Byte>, chunks: seq<Chunk>, ends: seq<nat>,
                                applied: seq<nat>, i: nat, w: nat)
    requires Cuts(chunks, ends, |data|) && WithinChunks(applied, ends, |data|)
    requires i <= |applied| && InFull(applied, ends, i)
    requires if i < |applied| then w == 0 || w == applied[i] else w == 0
    ensures Confirmed(content, Patched(content, at, data, ends, applied), at, data, ends[i] + w)
    ensures ends[|applied|] == ends[i] + w ==>
      Patched(content, at, data, ends, applied) == Overwrite(content, at, data[..ends[|applied|]])
  {
    hide Overwrite, Confirmed, Patched;
    PatchedConfirms(content, at, data, ends, applied, i, w);
    if i + 1 < |applied| {
      CutsAreWithin(chunks, ends, |data|, i + 1);
    }
    if ends[|applied|] == ends[i] + w {
      if i < |applied| {
        AppliedIsWithin(chunks, ends, applied, |data|, i);
        assert FillsChunk(applied[i], ends, i);
      }
      PatchedInFull(content, at, data, ends, applied);
    }
  }

  /** What is asked for one chunk of a write of `data` at `at`. */
  function WriteOf(chunk: Chunk, data: seq<Byte>, at: nat): Ask
    requires chunk.bufOffset + chunk.size <= |data|
  {
    WriteAsk(at + chunk.bufOffset, data[chunk.bufOffset..chunk.bufOffset + chunk.size])
  }

  predicate AsksToWrite(d: Diary, r: RequestId, size: nat) {
    r in d.asked && d.asked[r].WriteAsk? && |d.asked[r].data| == size
  }

  /** The requests of the chunks ask for their parts of the write. */
  ghost predicate AreWritesOf(asks: seq<Ask>, chunks: seq<Chunk>, data: seq<Byte>, at: nat) {
    |asks| == |chunks| && forall j :: 0 <= j < |chunks| ==>
      chunks[j].bufOffset + chunks[j].size <= |data| && asks[j] == WriteOf(chunks[j], data, at)
  }

  lemma WritesAreWithinLimits(asks: seq<Ask>, chunks: seq<Chunk>, data: seq<Byte>, at: nat, limits: Negotiated)
    requires AreWritesOf(asks, chunks, data, at) && Partition(chunks, |data|, limits.MaxWriteChunk())
    ensures AllAsksWithinLimits(asks, limits)
  {
    forall i | 0 <= i < |asks| ensures WithinLimits(asks[i], limits) {
      assert IsChunk(chunks[i], |data|, limits.MaxWriteChunk(), i);
    }
  }

  function WritesOf(chunks: seq<Chunk>, data: seq<Byte>, at: nat, ghost ends: seq<nat>): (asks: seq<Ask>)
    requires Cuts(chunks, ends, |data|)
    ensures AreWritesOf(asks, chunks, data, at)
  {
    assert forall j :: 0 <= j < |chunks| ==> IsCut(chunks[j], ends, j) && chunks[j].bufOffset + chunks[j].size <= |data|;
    seq(|chunks|, j requires 0 <= j < |chunks| => WriteOf(chunks[j], data, at))
  }

  /** An open file on the share: where it stands, the connection it is written through, and what the server holds. */
  class File {
    const conn: Conn
    /** Whether the server answers a write with a count only when it carried out all of it. */
    const thorough: bool
    var offset: nat
    /** The server's file, how many bytes were dispatched to it so far, and how much of each request it carried out.
        Only the server's own step changes them. */
    ghost var content: seq<Byte>
    ghost var dispatched: nat
    var carried: map<RequestId, nat>
    /** How many bytes the replies that were read said to be written. Only reading a reply adds to it. */
    ghost var confirmed: nat

    constructor (conn: Conn, thorough: bool, ghost content: seq<Byte>)
      ensures this.conn == conn && this.thorough == thorough
      ensures this.content == content && offset == dispatched == confirmed == 0 && carried == map[]
    {
      this.conn, this.thorough := conn, thorough;
      this.offset, this.content, this.dispatched, this.confirmed, this.carried := 0, content, 0, 0, map[];
    }

    /** The server carried out the first `k` bytes of the request. */
    predicate CarriedOut(r: RequestId, k: nat)
      reads this`carried
    {
      r in carried && carried[r] == k
    }

    /** The server carries out as much as it likes of a write that reached it, whatever becomes of the reply. */
    method ServerCarriesOut(r: RequestId) returns (ghost k: nat)
      requires r in conn.diary.asked && conn.diary.asked[r].WriteAsk?
      modifies this`content, this`dispatched, this`carried
      ensures carried == old(carried)[r := k]
      ensures var ask := conn.diary.asked[r];
        && k <= |ask.data| && content == Overwrite(old(content), ask.at, ask.data[..k])
        && dispatched == old(dispatched) + |ask.data|
    {
      var ask := conn.diary.asked[r];
      var part: int := *;
      var some := if 0 <= part < |ask.data| then part else |ask.data|;
      carried := carried[r := some];
      k := some;
      content := Overwrite(content, ask.at, ask.data[..k]);
      dispatched := dispatched + |ask.data|;
    }

    /** The server's reply to a write: how much of it the server carried out; anything but a count is a mishap. */
    method Answer(msg: Message) returns (answer: WriteAnswer)
      requires msg.Reply? && AnsweredBy(conn.world, msg.origin, msg)
      requires msg.origin in carried && msg.origin in conn.diary.asked && conn.diary.asked[msg.origin].WriteAsk?
      modifies this`confirmed, conn.mishaps`count
      ensures confirmed == old(confirmed) + if answer.Wrote? then answer.count else 0
      ensures answer.Wrote? ==>
        answer.count == carried[msg.origin] && (thorough ==> answer.count == |conn.diary.asked[msg.origin].data|)
      ensures conn.mishaps.count == old(conn.mishaps.count) + if answer.Wrote? then 0 else 1
    {
      var kind: nat := *;
      var k, size := carried[msg.origin], |conn.diary.asked[msg.origin].data|;
      answer := if kind == 0 || (thorough && k != size) then Refused else if kind == 1 then Garbled else Wrote(k);
      if answer.Wrote? {
        confirmed := confirmed + answer.count;
      } else {
        conn.mishaps.count := conn.mishaps.count + 1;
      }
    }

    /** Whether the caller's context has ended by now. */
    method CallerGaveUp() returns (gaveUp: bool)
      modifies conn.mishaps`count, conn.mishaps`impatient
      ensures conn.mishaps.count == old(conn.mishaps.count) + if gaveUp then 1 else 0
      ensures conn.mishaps.impatient == old(conn.mishaps.impatient) + if gaveUp then 1 else 0
    {
      gaveUp := conn.ContextEnded();
      if gaveUp {
        conn.mishaps.count := conn.mishaps.count + 1;
      }
    }

    /** Nothing went wrong since the count stood at `count`. */
    ghost predicate Smooth(count: nat)
      reads conn.mishaps
    {
      conn.mishaps.count == count
    }

    /** What one write of `data` promises whatever the server and the caller do. */
    twostate predicate Written(at: nat, new data: seq<Byte>, n: nat, new err: Option<WriteError>)
      reads this, conn.mishaps
    {
      && Confirmed(old(content), content, at, data, n)
      && confirmed == old(confirmed) + n
      && (dispatched == old(dispatched) + n ==> content == Overwrite(old(content), at, data[..n]))
      && (err.None? ==> n == |data| && dispatched == old(dispatched) + n)
      && conn.mishaps.count >= old(conn.mishaps.count)
      && (Smooth(old(conn.mishaps.count)) ==> conn.mishaps.abandoned == old(conn.mishaps.abandoned))
      && (err.Some? && Smooth(old(conn.mishaps.count)) ==> err == Some(ShortWrite) && !thorough)
      && (err.None? ==> Smooth(old(conn.mishaps.count)))
      && (err == Some(Cancelled) ==> conn.mishaps.impatient > old(conn.mishaps.impatient))
    }

    /** Issues a single write, of at most one chunk however much data it is given. */
    method WriteAt(data: seq<Byte>, at: nat) returns (n: nat, err: Option<WriteError>)
      requires conn.Valid() && Clean(conn.world, conn.diary.mine)
      modifies this`content, this`dispatched, this`carried, this`confirmed, conn, conn.mishaps
      ensures conn.Valid() && Clean(conn.world, conn.diary.mine) && Continues(old(conn.diary), conn.diary, 1)
      ensures confirmed == old(confirmed) + n
      ensures conn.mishaps.impatient == old(conn.mishaps.impatient) + if err == Some(Cancelled) then 1 else 0
      ensures n <= Min(|data|, conn.limits.MaxWriteChunk()) && Confirmed(old(content), content, at, data, n)
      ensures dispatched == old(dispatched) + n ==> content == Overwrite(old(content), at, data[..n])
      ensures conn.mishaps.count >= old(conn.mishaps.count)
      ensures if err.Some? then n == 0 && !Smooth(old(conn.mishaps.count))
              else Smooth(old(conn.mishaps.count)) && conn.mishaps.abandoned == old(conn.mishaps.abandoned)
      ensures err.None? ==> dispatched == old(dispatched) + Min(|data|, conn.limits.MaxWriteChunk())
      ensures err.None? && thorough ==> n == Min(|data|, conn.limits.MaxWriteChunk())
    {
      hide Sound, Clean, Confirmed, Overwrite;
      ConfirmedNothing(content, at, data);
      OverwriteNothing(content, at, data);
      if |data| == 0 {
        return 0, None;
      }
      var writeSize := Min(|data|, conn.limits.MaxWriteChunk());
      var outcome, r := conn.SendRecvSettled(WriteAsk(at, data[..writeSize]));
      if outcome.NotSent? {
        return 0, Some(WriteError.NotSent);
      }
      ghost var before := content;
      ghost var k := ServerCarriesOut(r);
      assert data[..writeSize][..k] == data[..k];
      PrefixIsConfirmed(before, at, data, k);
      if !outcome.Answered? {
        return 0, Some(if outcome.GaveUp? then Cancelled else Failed);
      }
      var answer := Answer(outcome.msg);
      match answer
      case Wrote(count) => return count, None;
      case _ => return 0, Some(Failed);
    }

    /** Writes chunk by chunk; the caller's context is heeded between chunks, not inside one. */
    method WriteSequential(data: seq<Byte>, at: nat) returns (n: nat, err: Option<WriteError>)
      requires conn.Valid() && Clean(conn.world, conn.diary.mine)
      modifies this`content, this`dispatched, this`carried, this`confirmed, conn, conn.mishaps
      ensures conn.Valid() && Clean(conn.world, conn.diary.mine) && Continues(old(conn.diary), conn.diary, 1)
      ensures Written(at, data, n, err)
    {
      hide Sound, Clean, Confirmed, Overwrite;
      n, err := 0, None;
      OverwriteNothing(content, at, data);
      while n < |data|
        invariant conn.Valid() && Clean(conn.world, conn.diary.mine) && Continues(old(conn.diary), conn.diary, 1)
        invariant err.None? && n <= |data| && content == Overwrite(old(content), at, data[..n]) && dispatched == old(dispatched) + n
        invariant Smooth(old(conn.mishaps.count)) && conn.mishaps.abandoned == old(conn.mishaps.abandoned)
        invariant confirmed == old(confirmed) + n && conn.mishaps.impatient == old(conn.mishaps.impatient)
        decreases |data| - n
      {
        PrefixIsConfirmed(old(content), at, data, n);
        var gaveUp := CallerGaveUp();
        if gaveUp {
          return n, Some(Cancelled);
        }
        var chunk := data[n..n + Min(|data| - n, conn.limits.MaxWriteChunk())];
        ghost var before, diary := content, conn.diary;
        var m;
        m, err := WriteAt(chunk, at + n);
        ContinuesOn(old(conn.diary), diary, conn.diary, 1, 1);
        ConfirmedGoesOn(old(content), before, content, at, data, n, chunk, m);
        n := n + m;
        if err.Some? {
          return;
        }
        if m < |chunk| {
          return n, Some(ShortWrite);
        }
      }
      PrefixIsConfirmed(old(content), at, data, n);
    }

    // ----- Several writes in flight -----

    /** The server's file is the one at the start of the transfer with what it carried out of the dispatched chunks. */
    ghost predicate Ledger(start: seq<Byte>, base: nat, at: nat, data: seq<Byte>, ends: seq<nat>, applied: seq<nat>)
      reads this`content, this`dispatched
    {
      && WithinChunks(applied, ends, |data|)
      && content == Patched(start, at, data, ends, applied)
      && dispatched == base + ends[|applied|]
    }

    /** What the server carried out of each chunk's request. */
    ghost predicate Kept(sent: seq<WireRequest>, applied: seq<nat>)
      reads this`carried
    {
      |applied| <= |sent| && forall j :: 0 <= j < |applied| ==> CarriedOut(sent[j].request, applied[j])
    }

    lemma LedgerMeans(start: seq<Byte>, base: nat, at: nat, data: seq<Byte>, ends: seq<nat>, applied: seq<nat>)
      requires Ledger(start, base, at, data, ends, applied)
      ensures WithinChunks(applied, ends, |data|) && |applied| < |ends|
      ensures content == Patched(start, at, data, ends, applied) && dispatched == base + ends[|applied|]
    {
    }

    /** The server receives the next of the requests sent. */
    method Dispatch(ghost data: seq<Byte>, ghost at: nat, ghost chunk: Chunk, ghost start: seq<Byte>, ghost base: nat,
                    ghost ends: seq<nat>, q: WireRequest, ghost applied: seq<nat>) returns (ghost k: nat)
      requires Ledger(start, base, at, data, ends, applied)
      requires IsCut(chunk, ends, |applied|) && chunk.bufOffset + chunk.size <= |data|
      requires Recorded(conn.diary, q.request, WriteOf(chunk, data, at))
      modifies this`content, this`dispatched, this`carried
      ensures Ledger(start, base, at, data, ends, applied + [k])
      ensures carried == old(carried)[q.request := k] && CarriedOut(q.request, k)
    {
      hide Overwrite, Patched, Boundaries;
      k := ServerCarriesOut(q.request);
      PatchedMore(start, at, data, ends, applied, k);
      assert data[chunk.bufOffset..chunk.bufOffset + chunk.size][..k] == ChunkPiece(data, ends, |applied|, k);
    }

    /** awaitChunk: waits for the first chunk's reply. A caller that gives up only stops the feeding of the
        pipeline, which `deferred` records; what is on its way is still waited for, but not forever. */
    method AwaitChunk(waiting: seq<WireRequest>, deferred: Option<WriteError>) returns (event: Event, deferred': Option<WriteError>)
      requires conn.Valid() && InHand(conn.world, waiting, conn.diary.mine) && waiting != []
      modifies conn, conn.mishaps`count, conn.mishaps`impatient
      ensures conn.Valid() && conn.diary == old(conn.diary)
      ensures InHand(conn.world, if event.Replied? then waiting[1..] else waiting, conn.diary.mine)
      ensures IsReply(event) ==> AnsweredBy(conn.world, waiting[0].request, event.msg)
      ensures event.Down? ==> conn.done
      ensures conn.mishaps.count >= old(conn.mishaps.count)
      ensures deferred' == deferred || (deferred.None? && deferred' == Some(Cancelled))
      ensures conn.mishaps.impatient >= old(conn.mishaps.impatient)
      ensures deferred' != deferred ==> conn.mishaps.impatient > old(conn.mishaps.impatient)
      ensures !IsReply(event) || deferred' != deferred <==> !Smooth(old(conn.mishaps.count))
      ensures event.Stopped? ==> deferred'.Some?
    {
      hide Sound, InHand;
      event := AwaitNext(conn, waiting);
      deferred' := deferred;
      if event.Stopped? && deferred.None? {
        deferred' := Some(Cancelled);
        event := AwaitNext(conn, waiting);
      }
    }

    /** Waits for the next chunk's reply and counts what it confirms. When nothing can follow, the replies still
        to come are collected or abandoned, and every request in hand is settled or given up on. */
    method TakeTurn(waiting: seq<WireRequest>, size: nat, ghost k: nat, deferred: Option<WriteError>)
      returns (w: nat, err: Option<WriteError>, deferred': Option<WriteError>)
      requires conn.Valid() && InHand(conn.world, waiting, conn.diary.mine) && waiting != []
      requires CarriedOut(waiting[0].request, k) && AsksToWrite(conn.diary, waiting[0].request, size)
      requires k <= size && deferred != Some(ShortWrite)
      modifies this`confirmed, conn, conn.mishaps
      ensures confirmed == old(confirmed) + w
      ensures conn.Valid() && conn.diary == old(conn.diary)
      ensures w == 0 || w == k
      ensures err.None? ==> w == k == size
      ensures if err.None? then InHand(conn.world, waiting[1..], conn.diary.mine) else Clean(conn.world, conn.diary.mine)
      ensures conn.mishaps.count >= old(conn.mishaps.count)
      ensures deferred' == deferred || (deferred.None? && deferred' == Some(Cancelled))
      ensures conn.mishaps.impatient >= old(conn.mishaps.impatient)
      ensures deferred' != deferred ==> conn.mishaps.impatient > old(conn.mishaps.impatient)
      ensures err == Some(Cancelled) ==> deferred' == Some(Cancelled)
      ensures err.None? && deferred' == deferred ==> Smooth(old(conn.mishaps.count))
      ensures deferred' != deferred || (err.Some? && err != Some(ShortWrite)) ==> !Smooth(old(conn.mishaps.count))
      ensures err == Some(ShortWrite) ==> !thorough
      ensures err.None? || Smooth(old(conn.mishaps.count)) ==> conn.mishaps.abandoned == old(conn.mishaps.abandoned)
    {
      hide Sound, InHand, Clean;
      var event;
      event, deferred' := AwaitChunk(waiting, deferred);
      w, err := 0, Some(Failed);
      if !event.Replied? {
        AbandonChunks(conn, waiting);
        if event.Stopped? {
          err := deferred';
        }
        return;
      }
      if IsReply(event) {
        var answer := Answer(event.msg);
        if answer.Wrote? {
          w := answer.count;
          err := if w < size then Some(ShortWrite) else None;
        }
      }
      if err.Some? {
        CollectReplies(conn, waiting[1..]);
      }
    }

    /** Sends the first chunks of a transfer, as many as the pipeline holds. */
    method SendFirst(ghost data: seq<Byte>, ghost at: nat, ghost chunks: seq<Chunk>, asks: seq<Ask>, depth: nat, ghost ends: seq<nat>)
      returns (sent: seq<WireRequest>, ghost applied: seq<nat>, ok: bool)
      requires conn.Valid() && Clean(conn.world, conn.diary.mine)
      requires Cuts(chunks, ends, |data|) && AreWritesOf(asks, chunks, data, at) && depth <= |chunks|
      requires AllAsksWithinLimits(asks, conn.limits)
      modifies this`content, this`dispatched, this`carried, conn, conn.mishaps`count, conn.mishaps`broken, conn.mishaps`reported
      ensures conn.diary.peak >= |sent|
      ensures conn.Valid() && InHand(conn.world, sent, conn.diary.mine) && Continues(old(conn.diary), conn.diary, depth)
      ensures AllRecorded(conn.diary, sent, asks) && Kept(sent, applied)
      ensures Ledger(old(content), old(dispatched), at, data, ends, applied) && |applied| == |sent| <= depth
      ensures ok <==> |sent| == depth
      ensures conn.mishaps.count >= old(conn.mishaps.count) && (ok <==> Smooth(old(conn.mishaps.count)))
    {
      hide Sound, Clean, InHand, Continues, Overwrite, Patched, Boundaries;
      ghost var start, base := content, dispatched;
      NothingDispatched(start, at, data, ends);
      sent, ok := SendBatch(conn, asks[..depth]);
      FirstAreRecorded(old(conn.diary), conn.diary, sent, asks, depth, depth);
      EachOnce(conn.world, sent, conn.diary.mine);
      applied := [];
      for i := 0 to |sent|
        modifies this`content, this`dispatched, this`carried
        invariant |applied| == i && Ledger(start, base, at, data, ends, applied) && Kept(sent, applied)
      {
        CutsAreWithin(chunks, ends, |data|, i);
        EachIsRecorded(conn.diary, sent, asks, i);
        ghost var k := Dispatch(data, at, chunks[i], start, base, ends, sent[i], applied);
        applied := applied + [k];
      }
    }

    /** Sends one chunk more, unless feeding has stopped, the caller gave up, or none is left. */
    method Feed(ghost data: seq<Byte>, ghost at: nat, chunks: seq<Chunk>, asks: seq<Ask>, sent: seq<WireRequest>, i: nat,
                ghost applied: seq<nat>, deferred: Option<WriteError>, ghost start: seq<Byte>, ghost base: nat, ghost ends: seq<nat>)
      returns (sent': seq<WireRequest>, ghost applied': seq<nat>, deferred': Option<WriteError>)
      requires conn.Valid() && i <= |sent| == |applied| <= |chunks| && Cuts(chunks, ends, |data|)
      requires AreWritesOf(asks, chunks, data, at) && AllRecorded(conn.diary, sent, asks) && Kept(sent, applied)
      requires AllAsksWithinLimits(asks, conn.limits)
      requires InHand(conn.world, sent[i..], conn.diary.mine)
      requires Ledger(start, base, at, data, ends, applied) && deferred != Some(ShortWrite)
      modifies this`content, this`dispatched, this`carried
      modifies conn, conn.mishaps`count, conn.mishaps`broken, conn.mishaps`impatient, conn.mishaps`reported
      ensures conn.mishaps.impatient >= old(conn.mishaps.impatient)
      ensures deferred' == Some(Cancelled) && deferred != deferred' ==> conn.mishaps.impatient > old(conn.mishaps.impatient)
      ensures deferred'.None? ==> Smooth(old(conn.mishaps.count))
      ensures conn.Valid() && sent <= sent' && applied <= applied' && |sent'| == |applied'| <= Min(|chunks|, |sent| + 1)
      ensures InHand(conn.world, sent'[i..], conn.diary.mine) && Continues(old(conn.diary), conn.diary, |sent| - i + 1)
      ensures AllRecorded(conn.diary, sent', asks) && Kept(sent', applied')
      ensures Ledger(start, base, at, data, ends, applied') && deferred' != Some(ShortWrite)
      ensures deferred'.None? ==> deferred.None? && |sent'| == Min(|chunks|, |sent| + 1)
      ensures deferred' == deferred || !Smooth(old(conn.mishaps.count))
      ensures conn.mishaps.count >= old(conn.mishaps.count)
    {
      hide Sound, InHand, Overwrite, Patched, Boundaries, AllRecorded, Ledger, WriteOf, IsCut, Conn.Valid;
      sent', applied', deferred' := sent, applied, deferred;
      if deferred.None? {
        var gaveUp := CallerGaveUp();
        if gaveUp {
          deferred' := Some(Cancelled);
        } else if |sent| < |chunks| {
          ghost var diary := conn.diary;
          RecordedAreMine(diary, sent, asks);
          var ok, q := SendNext(conn, sent[i..], asks[|sent|]);
          OneMoreRecorded(diary, conn.diary, sent, q, asks, ok, |sent| - i + 1);
          if ok {
            assert (sent + [q])[i..] == sent[i..] + [q];
            CutsAreWithin(chunks, ends, |data|, |sent|);
            sent' := sent + [q];
            EachIsRecorded(conn.diary, sent', asks, |sent|);
            ghost var k := Dispatch(data, at, chunks[|sent|], start, base, ends, q, applied);
            applied' := applied + [k];
          } else {
            // A send that failed because the caller gave up is reported as the cancellation it was.
            gaveUp := CallerGaveUp();
            deferred' := Some(if gaveUp then Cancelled else WriteError.NotSent);
          }
        }
      }
    }

    /** Keeps several writes in flight at increasing offsets. A caller that gives up, or a send that fails, stops
        the feeding only: what was dispatched is waited for, so that the count returned is true of the file. However
        it ends, every request it sent is settled or given up on, and never were more in flight than the depth allows. */
    method WritePipelined(data: seq<Byte>, at: nat) returns (n: nat, err: Option<WriteError>)
      requires conn.Valid() && Clean(conn.world, conn.diary.mine)
      modifies this`content, this`dispatched, this`carried, this`confirmed, conn, conn.mishaps
      ensures conn.Valid() && Clean(conn.world, conn.diary.mine)
      ensures Continues(old(conn.diary), conn.diary, PipelineDepth(conn.limits.maxMpxCount).0)
      ensures Written(at, data, n, err)
      ensures Smooth(old(conn.mishaps.count)) ==> FillsPipeline(conn.diary, conn.limits, |data|, conn.limits.MaxWriteChunk())
    {
      hide Sound, Overwrite, PipelineDepth, Patched, Boundaries, Confirmed, WithinChunks, InHand, NumChunks;
      hide Partition, EndsOf, Clean, Covered, IsCut, FillsChunk, Ledger, AllRecorded, Kept, Continues, AreWritesOf, Cuts, AsksToWrite, CarriedOut;
      hide Conn.Valid, AllAsksWithinLimits, WithinLimits, NotAwaited, NoneAwaited;
      var chunks := Cut(|data|, conn.limits.MaxWriteChunk());
      ghost var ends := EndsOf(chunks, |data|, conn.limits.MaxWriteChunk());
      PartitionCuts(chunks, |data|, conn.limits.MaxWriteChunk());
      var asks := WritesOf(chunks, data, at, ends);
      WritesAreWithinLimits(asks, chunks, data, at, conn.limits);
      ghost var depth := PipelineDepth(conn.limits.maxMpxCount).0;
      var maxPipeline := Min(PipelineDepth(conn.limits.maxMpxCount).0, |chunks|);
      ghost var base, start := dispatched, content;
      var sent, ok;
      ghost var applied;
      sent, applied, ok := SendFirst(data, at, chunks, asks, maxPipeline, ends);
      ContinuesAtMost(old(conn.diary), conn.diary, maxPipeline, depth);
      n := 0;
      var deferred := if ok then None else Some(WriteError.NotSent);
      var i := 0;
      assert sent[i..] == sent;
      while i < |chunks|
        invariant conn.Valid() && i <= |sent| == |applied| <= |chunks|
        invariant InHand(conn.world, sent[i..], conn.diary.mine) && Continues(old(conn.diary), conn.diary, depth)
        invariant AllRecorded(conn.diary, sent, asks) && Kept(sent, applied)
        invariant Ledger(start, base, at, data, ends, applied) && InFull(applied, ends, i) && n == ends[i]
        invariant |sent| - i <= maxPipeline
        invariant deferred.None? ==> |sent| == Min(|chunks|, maxPipeline + i)
        invariant confirmed == old(confirmed) + n && conn.mishaps.abandoned == old(conn.mishaps.abandoned)
        invariant Smooth(old(conn.mishaps.count)) ==> conn.diary.peak >= maxPipeline
        invariant deferred != Some(ShortWrite) && (deferred.Some? <==> !Smooth(old(conn.mishaps.count)))
        invariant conn.mishaps.impatient >= old(conn.mishaps.impatient)
        invariant deferred == Some(Cancelled) ==> conn.mishaps.impatient > old(conn.mishaps.impatient)
        invariant conn.mishaps.count >= old(conn.mishaps.count)
      {
        if i >= |sent| {
          break;
        }
        assert sent[i..][1..] == sent[i + 1..];
        LedgerMeans(start, base, at, data, ends, applied);
        AppliedIsWithin(chunks, ends, applied, |data|, i);
        ReplyIsToCount(chunks, data, at, asks, sent, applied, i);
        var w;
        w, err, deferred := TakeTurn(sent[i..], chunks[i].size, applied[i], deferred);
        n := n + w;
        if err.Some? {
          EveryByteIsAccountedFor(start, at, data, chunks, ends, applied, i, w);
          return;
        }
        i := i + 1;
        ghost var diary, inFlight := conn.diary, |sent| - i + 1;
        sent, applied, deferred := Feed(data, at, chunks, asks, sent, i, applied, deferred, start, base, ends);
        ContinuesOn(old(conn.diary), diary, conn.diary, depth, inFlight);
      }
      LedgerMeans(start, base, at, data, ends, applied);
      EveryByteIsAccountedFor(start, at, data, chunks, ends, applied, i, 0);
      assert sent[i..] == [];
      NothingInHand(conn.world, conn.diary.mine);
      err := deferred;
    }

    lemma ReplyIsToCount(chunks: seq<Chunk>, data: seq<Byte>, at: nat, asks: seq<Ask>, sent: seq<WireRequest>, applied: seq<nat>, i: nat)
      requires AreWritesOf(asks, chunks, data, at) && AllRecorded(conn.diary, sent, asks) && Kept(sent, applied)
      requires i < |applied| && i < |chunks|
      ensures CarriedOut(sent[i].request, applied[i]) && AsksToWrite(conn.diary, sent[i].request, chunks[i].size)
    {
      EachIsRecorded(conn.diary, sent, asks, i);
      assert CarriedOut(sent[i].request, applied[i]);
    }

    /** Writes at the file's offset and advances it by what was confirmed. */
    method Write(data: seq<Byte>) returns (n: nat, err: Option<WriteError>)
      requires conn.Valid() && Clean(conn.world, conn.diary.mine)
      modifies this, conn, conn.mishaps
      ensures conn.Valid() && Clean(conn.world, conn.diary.mine)
      ensures Continues(old(conn.diary), conn.diary, if |data| < 262144 then 1 else PipelineDepth(conn.limits.maxMpxCount).0)
      ensures |data| >= 262144 && conn.limits.maxMpxCount > 1 && Smooth(old(conn.mishaps.count)) ==>
        FillsPipeline(conn.diary, conn.limits, |data|, conn.limits.MaxWriteChunk())
      ensures offset == old(offset) + n && Written(old(offset), data, n, err)
      ensures thorough && Smooth(old(conn.mishaps.count)) ==>
        err.None? && n == |data| && content == Overwrite(old(content), old(offset), data)
    {
      hide Sound, Clean, Overwrite;
      if data == [] {
        PrefixIsConfirmed(content, offset, data, 0);
        OverwriteNothing(content, offset, data);
        return 0, None;
      }
      var (_, supportsPipelining) := PipelineDepth(conn.limits.maxMpxCount);
      if !supportsPipelining || |data| < WRITE_PIPELINE_THRESHOLD {
        n, err := WriteSequential(data, offset);
      } else {
        n, err := WritePipelined(data, offset);
      }
      assert n == |data| ==> data[..n] == data;
      offset := offset + n;
    }
  }
}
