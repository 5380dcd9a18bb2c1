/** Putting a reply that arrived in several messages back together. */
module Trans2 {
  import opened Wrappers
  import opened Sets
  import opened Storage

  const MAX_TRANS2_FRAGMENTS: nat := 64

  /** One message's part of the reply: the bytes it carries, where they belong, and the totals of the whole reply. */
  datatype Fragment = Fragment(params: seq<Byte>, paramAt: nat, data: seq<Byte>, dataAt: nat, totalParams: nat, totalData: nat)

  /** What one message of a reply carries: a part of it, an error status, or nothing that decodes. */
  datatype Content = Part(fragment: Fragment) | ErrorStatus(decodes: bool) | Undecodable

  datatype Reassembled =
    | Complete(params: seq<Byte>, data: seq<Byte>)
    | ServerError | DecodeFailed | Overflow | Stalled | TooMany
    | NoMoreMessages

  /** What has been put together so far. */
  datatype Assembly = Assembly(params: seq<Byte>, data: seq<Byte>, gotParams: nat, gotData: nat, empties: nat, read: nat)

  predicate HasRoom(bytes: seq<Byte>, at: nat, size: nat) {
    bytes == [] || at + |bytes| <= size
  }

  function Placed(buf: seq<Byte>, bytes: seq<Byte>, at: nat): (r: seq<Byte>)
    requires HasRoom(bytes, at, |buf|)
    ensures |r| == |buf|
    ensures forall k :: 0 <= k < |buf| ==> r[k] == if at <= k < at + |bytes| then bytes[k - at] else buf[k]
  {
    if bytes == [] then buf else buf[..at] + bytes + buf[at + |bytes|..]
  }

  function Begun(first: Fragment): Assembly {
    Assembly(Zeros(first.totalParams), Zeros(first.totalData), 0, 0, 0, 0)
  }

  function Added(a: Assembly, f: Fragment): Assembly
    requires HasRoom(f.params, f.paramAt, |a.params|) && HasRoom(f.data, f.dataAt, |a.data|)
  {
    Assembly(Placed(a.params, f.params, f.paramAt), Placed(a.data, f.data, f.dataAt),
             a.gotParams + |f.params|, a.gotData + |f.data|,
             if f.params == [] && f.data == [] then a.empties + 1 else a.empties, a.read + 1)
  }

  predicate IsComplete(a: Assembly) {
    a.gotParams >= |a.params| && a.gotData >= |a.data|
  }

  datatype Progress = Done(result: Reassembled) | More(assembly: Assembly)

  /** What one more message makes of the assembly. */
  function Progressed(a: Assembly, f: Fragment): Progress {
    if !HasRoom(f.params, f.paramAt, |a.params|) || !HasRoom(f.data, f.dataAt, |a.data|) then Done(Overflow)
    else
      var a' := Added(a, f);
      if IsComplete(a') then Done(Complete(a'.params, a'.data))
      else if a'.empties > a.empties && a'.empties > 1 then Done(Stalled)
      else if a'.read > MAX_TRANS2_FRAGMENTS then Done(TooMany)
      else More(a')
  }

  /** The result of reading `messages` from the `i`-th on, and how many were read in all. */
  function Reassembly(messages: seq<Content>, i: nat, assembly: Option<Assembly>): (Reassembled, nat)
    requires i <= |messages|
    decreases |messages| - i
  {
    if i == |messages| then (NoMoreMessages, i)
    else match messages[i]
      case ErrorStatus(decodes) => (if decodes then ServerError else DecodeFailed, i + 1)
      case Undecodable => (DecodeFailed, i + 1)
      case Part(f) =>
        match Progressed(assembly.GetOr(Begun(f)), f)
        case Done(result) => (result, i + 1)
        case More(a) => Reassembly(messages, i + 1, Some(a))
  }

  /** Copies one message's bytes into the reassembly buffer. */
  method PlaceFragment(buf: array<Byte>, frag: seq<Byte>, displacement: nat) returns (ok: bool)
    modifies buf
    ensures ok <==> HasRoom(frag, displacement, buf.Length)
    ensures buf[..] == if ok then Placed(old(buf[..]), frag, displacement) else old(buf[..])
  {
    if frag == [] {
      return true;
    }
    if displacement + |frag| > buf.Length {
      return false;
    }
    forall k | displacement <= k < displacement + |frag| {
      buf[k] := frag[k - displacement];
    }
    return true;
  }

  /** Adds one message to the reassembly buffers. */
  method AddPart(paramBuf: array<Byte>, dataBuf: array<Byte>, gotParams: nat, gotData: nat, empties: nat, read: nat, frag: Fragment)
    returns (done: Option<Reassembled>, gotParams': nat, gotData': nat, empties': nat, read': nat)
    requires paramBuf != dataBuf
    modifies paramBuf, dataBuf
    ensures Progressed(Assembly(old(paramBuf[..]), old(dataBuf[..]), gotParams, gotData, empties, read), frag) ==
      match done
      case Some(result) => Done(result)
      case None => More(Assembly(paramBuf[..], dataBuf[..], gotParams', gotData', empties', read'))
  {
    hide Placed, HasRoom;
    gotParams', gotData', empties', read' := gotParams + |frag.params|, gotData + |frag.data|, empties, read;
    var fits := PlaceFragment(paramBuf, frag.params, frag.paramAt);
    if fits {
      fits := PlaceFragment(dataBuf, frag.data, frag.dataAt);
    }
    if !fits {
      return Some(Overflow), gotParams', gotData', empties', read';
    }
    if gotParams' >= paramBuf.Length && gotData' >= dataBuf.Length {
      return Some(Complete(paramBuf[..], dataBuf[..])), gotParams', gotData', empties', read';
    }
    if frag.params == [] && frag.data == [] {
      empties' := empties' + 1;
      if empties' > 1 {
        return Some(Stalled), gotParams', gotData', empties', read';
      }
    }
    read' := read' + 1;
    if read' > MAX_TRANS2_FRAGMENTS {
      return Some(TooMany), gotParams', gotData', empties', read';
    }
    done := None;
  }

  method NewBuffer(size: nat) returns (buf: array<Byte>)
    ensures fresh(buf) && buf[..] == Zeros(size)
  {
    buf := new Byte[size](_ => 0);
  }

  // ----- Cuts of a reply -----

  /** Whether the bytes are those of the whole at that place; where no bytes are to be placed does not matter. */
  ghost predicate IsPiece(bytes: seq<Byte>, at: nat, whole: seq<Byte>) {
    bytes != [] ==> at + |bytes| <= |whole| && bytes == whole[at..at + |bytes|]
  }

  datatype Span = Span(at: nat, size: nat)

  ghost predicate Covers(s: Span, k: int) {
    s.at <= k < s.at + s.size
  }

  ghost predicate Apart(s: Span, t: Span) {
    s.size == 0 || t.size == 0 || s.at + s.size <= t.at || t.at + t.size <= s.at
  }

  ghost function ParamSpan(r: Content): Span
    requires r.Part?
  {
    Span(r.fragment.paramAt, |r.fragment.params|)
  }

  ghost function DataSpan(r: Content): Span
    requires r.Part?
  {
    Span(r.fragment.dataAt, |r.fragment.data|)
  }

  ghost function ParamSpans(messages: seq<Content>): seq<Span>
    requires forall i :: 0 <= i < |messages| ==> messages[i].Part?
  {
    seq(|messages|, i requires 0 <= i < |messages| => ParamSpan(messages[i]))
  }

  ghost function DataSpans(messages: seq<Content>): seq<Span>
    requires forall i :: 0 <= i < |messages| ==> messages[i].Part?
  {
    seq(|messages|, i requires 0 <= i < |messages| => DataSpan(messages[i]))
  }

  ghost predicate Disjoint(spans: seq<Span>) {
    forall i, j :: 0 <= i < j < |spans| ==> Apart(spans[i], spans[j])
  }

  ghost predicate Covering(spans: seq<Span>, n: nat) {
    forall k :: 0 <= k < n ==> CoveredBy(spans, k, |spans|)
  }

  ghost predicate CoveredBy(spans: seq<Span>, k: int, count: nat)
    requires count <= |spans|
  {
    exists i :: 0 <= i < count && Covers(spans[i], k)
  }

  /** The messages are parts of one reply with these bytes, and no byte is sent twice. Nothing here depends on their order. */
  ghost predicate PartsOf(messages: seq<Content>, params: seq<Byte>, data: seq<Byte>) {
    && (forall i :: 0 <= i < |messages| ==> messages[i].Part? && IsPartOf(messages[i].fragment, params, data))
    && Disjoint(ParamSpans(messages)) && Disjoint(DataSpans(messages))
  }

  ghost predicate IsPartOf(f: Fragment, params: seq<Byte>, data: seq<Byte>) {
    && f.totalParams == |params| && f.totalData == |data|
    && IsPiece(f.params, f.paramAt, params) && IsPiece(f.data, f.dataAt, data)
  }

  predicate IsEmpty(r: Content) {
    r.Part? && r.fragment.params == [] && r.fragment.data == []
  }

  ghost predicate OneEmptyAtMost(messages: seq<Content>) {
    forall i, j :: 0 <= i < j < |messages| ==> !(IsEmpty(messages[i]) && IsEmpty(messages[j]))
  }

  // ----- Counting bytes is covering places -----

  ghost function CoveredPlaces(spans: seq<Span>, count: nat, n: nat): set<int>
    requires count <= |spans|
  {
    set k | 0 <= k < n && CoveredBy(spans, k, count)
  }

  /** Each further disjoint span covers as many new places as it is long. */
  lemma CoveredGrows(spans: seq<Span>, i: nat, n: nat)
    requires i < |spans| && Disjoint(spans) && (spans[i].size > 0 ==> spans[i].at + spans[i].size <= n)
    ensures |CoveredPlaces(spans, i + 1, n)| == |CoveredPlaces(spans, i, n)| + spans[i].size
  {
    var s := spans[i];
    var more := Interval(s.at, s.size);
    var before, after := CoveredPlaces(spans, i, n), CoveredPlaces(spans, i + 1, n);
    forall k ensures k in after <==> k in before || k in more {
      CoveredOnce(spans, i, k);
    }
    forall k | k in before ensures k !in more {
      CoveredOnce(spans, i, k);
    }
    assert after == before + more && before !! more;
  }

  lemma CoveredOnce(spans: seq<Span>, i: nat, k: int)
    requires i < |spans| && Disjoint(spans)
    ensures CoveredBy(spans, k, i + 1) <==> CoveredBy(spans, k, i) || Covers(spans[i], k)
    ensures !(CoveredBy(spans, k, i) && Covers(spans[i], k))
  {
    if CoveredBy(spans, k, i) {
      var j :| 0 <= j < i && Covers(spans[j], k);
      assert Apart(spans[j], spans[i]);
    }
  }

  /** As many places as there are is all of them. */
  lemma CoveredAll(spans: seq<Span>, count: nat, n: nat)
    requires count <= |spans|
    ensures |CoveredPlaces(spans, count, n)| <= n
    ensures |CoveredPlaces(spans, count, n)| == n <==> forall k :: 0 <= k < n ==> CoveredBy(spans, k, count)
  {
    var all := Interval(0, n);
    var covered := CoveredPlaces(spans, count, n);
    SubsetSize(covered, all);
    if forall k :: 0 <= k < n ==> CoveredBy(spans, k, count) {
      assert covered == all;
    }
    if |covered| == n {
      assert covered == all;
      forall k | 0 <= k < n ensures CoveredBy(spans, k, count) {
        assert k in covered;
      }
    }
  }

  // ----- Reassembly is exact -----

  /** Every byte of the reply is in some message. */
  ghost predicate Whole(messages: seq<Content>, params: seq<Byte>, data: seq<Byte>)
    requires PartsOf(messages, params, data)
  {
    Covering(ParamSpans(messages), |params|) && Covering(DataSpans(messages), |data|)
  }

  ghost predicate TracksBytes(buf: seq<Byte>, got: nat, spans: seq<Span>, i: nat, whole: seq<Byte>)
    requires i <= |spans|
  {
    && |buf| == |whole| && got == |CoveredPlaces(spans, i, |whole|)|
    && forall k :: 0 <= k < |whole| && CoveredBy(spans, k, i) ==> buf[k] == whole[k]
  }

  ghost function EmptiesBefore(messages: seq<Content>, i: nat): nat
    requires i <= |messages|
  {
    if i == 0 then 0 else EmptiesBefore(messages, i - 1) + if IsEmpty(messages[i - 1]) then 1 else 0
  }

  lemma {:induction false} AtMostOneBefore(messages: seq<Content>, i: nat)
    requires i <= |messages| && OneEmptyAtMost(messages)
    ensures EmptiesBefore(messages, i) <= 1
    ensures EmptiesBefore(messages, i) == 1 ==> exists j :: 0 <= j < i && IsEmpty(messages[j])
  {
    if i > 0 {
      AtMostOneBefore(messages, i - 1);
      assert IsEmpty(messages[i - 1]) ==> EmptiesBefore(messages, i - 1) == 0;
    }
  }

  /** The assembly holds what the first `i` messages carried, and has counted it. */
  ghost predicate Tracks(messages: seq<Content>, i: nat, a: Assembly, params: seq<Byte>, data: seq<Byte>)
    requires PartsOf(messages, params, data) && i <= |messages|
  {
    && TracksBytes(a.params, a.gotParams, ParamSpans(messages), i, params)
    && TracksBytes(a.data, a.gotData, DataSpans(messages), i, data)
    && a.read == i && a.empties == EmptiesBefore(messages, i)
  }

  lemma PlacedTracks(buf: seq<Byte>, got: nat, spans: seq<Span>, i: nat, bytes: seq<Byte>, at: nat, whole: seq<Byte>)
    requires i < |spans| && Disjoint(spans) && spans[i] == Span(at, |bytes|) && IsPiece(bytes, at, whole)
    requires TracksBytes(buf, got, spans, i, whole)
    ensures HasRoom(bytes, at, |buf|) && TracksBytes(Placed(buf, bytes, at), got + |bytes|, spans, i + 1, whole)
  {
    CoveredGrows(spans, i, |whole|);
    forall k | 0 <= k < |whole| && CoveredBy(spans, k, i + 1) ensures Placed(buf, bytes, at)[k] == whole[k] {
      CoveredOnce(spans, i, k);
      assert at <= k < at + |bytes| ==> bytes[k - at] == whole[at..at + |bytes|][k - at];
    }
  }

  lemma NothingTracks(messages: seq<Content>, params: seq<Byte>, data: seq<Byte>)
    requires PartsOf(messages, params, data) && messages != []
    ensures Tracks(messages, 0, Begun(messages[0].fragment), params, data)
  {
    assert IsPartOf(messages[0].fragment, params, data);
    assert CoveredPlaces(ParamSpans(messages), 0, |params|) == {} && CoveredPlaces(DataSpans(messages), 0, |data|) == {};
  }

  lemma PartTracks(messages: seq<Content>, i: nat, a: Assembly, params: seq<Byte>, data: seq<Byte>)
    requires PartsOf(messages, params, data) && i < |messages| && Tracks(messages, i, a, params, data)
    ensures var f := messages[i].fragment;
      && HasRoom(f.params, f.paramAt, |a.params|) && HasRoom(f.data, f.dataAt, |a.data|)
      && Tracks(messages, i + 1, Added(a, f), params, data)
  {
    hide HasRoom, Placed, TracksBytes, Disjoint;
    var f := messages[i].fragment;
    assert IsPartOf(f, params, data);
    PlacedTracks(a.params, a.gotParams, ParamSpans(messages), i, f.params, f.paramAt, params);
    PlacedTracks(a.data, a.gotData, DataSpans(messages), i, f.data, f.dataAt, data);
  }

  lemma NotCoveredTwice(spans: seq<Span>, i: nat, j: nat)
    requires i <= j < |spans| && Disjoint(spans)
    ensures spans[j].size > 0 ==> !CoveredBy(spans, spans[j].at, i)
  {
    if CoveredBy(spans, spans[j].at, i) {
      var l :| 0 <= l < i && Covers(spans[l], spans[j].at);
      assert Apart(spans[l], spans[j]);
    }
  }

  /** A buffer that counted as many bytes as the whole has is the whole, and nothing is left to come. */
  lemma FullBuffer(buf: seq<Byte>, got: nat, spans: seq<Span>, i: nat, whole: seq<Byte>)
    requires i <= |spans| && Disjoint(spans) && TracksBytes(buf, got, spans, i, whole)
    requires forall j :: 0 <= j < |spans| ==> spans[j].size > 0 ==> spans[j].at + spans[j].size <= |whole|
    ensures got <= |whole|
    ensures got == |whole| <==> forall k :: 0 <= k < |whole| ==> CoveredBy(spans, k, i)
    ensures got == |whole| ==> buf == whole && Covering(spans, |whole|) && forall j :: i <= j < |spans| ==> spans[j].size == 0
  {
    CoveredAll(spans, i, |whole|);
    if got == |whole| {
      forall k | 0 <= k < |whole| ensures CoveredBy(spans, k, |spans|) {
        assert CoveredBy(spans, k, i);
        var j :| 0 <= j < i && Covers(spans[j], k);
      }
      forall j | i <= j < |spans| ensures spans[j].size == 0 {
        NotCoveredTwice(spans, i, j);
      }
    }
  }

  lemma SpansFit(messages: seq<Content>, params: seq<Byte>, data: seq<Byte>)
    requires PartsOf(messages, params, data)
    ensures forall j :: 0 <= j < |messages| ==>
      ParamSpans(messages)[j].size > 0 ==> ParamSpans(messages)[j].at + ParamSpans(messages)[j].size <= |params|
    ensures forall j :: 0 <= j < |messages| ==>
      DataSpans(messages)[j].size > 0 ==> DataSpans(messages)[j].at + DataSpans(messages)[j].size <= |data|
  {
    forall j | 0 <= j < |messages| ensures IsPartOf(messages[j].fragment, params, data) {
    }
  }

  /** The assembly is complete exactly when the messages so far hold every byte; then it is the reply,
      and the messages still to come are empty. */
  lemma CompleteMeansWhole(messages: seq<Content>, i: nat, a: Assembly, params: seq<Byte>, data: seq<Byte>)
    requires PartsOf(messages, params, data) && i <= |messages| && Tracks(messages, i, a, params, data)
    ensures IsComplete(a) ==> a.params == params && a.data == data && Whole(messages, params, data)
    ensures IsComplete(a) ==> forall j :: i <= j < |messages| ==> IsEmpty(messages[j])
    ensures i == |messages| && Whole(messages, params, data) ==> IsComplete(a)
  {
    hide TracksBytes, Disjoint;
    SpansFit(messages, params, data);
    FullBuffer(a.params, a.gotParams, ParamSpans(messages), i, params);
    FullBuffer(a.data, a.gotData, DataSpans(messages), i, data);
    TrackedSize(a.params, a.gotParams, ParamSpans(messages), i, params);
    TrackedSize(a.data, a.gotData, DataSpans(messages), i, data);
    if IsComplete(a) {
      forall j | i <= j < |messages| ensures IsEmpty(messages[j]) {
        assert ParamSpans(messages)[j].size == 0 && DataSpans(messages)[j].size == 0;
      }
    }
  }

  lemma TrackedSize(buf: seq<Byte>, got: nat, spans: seq<Span>, i: nat, whole: seq<Byte>)
    requires i <= |spans| && TracksBytes(buf, got, spans, i, whole)
    ensures |buf| == |whole|
  {
  }

  lemma {:induction false} ReassemblyTracks(messages: seq<Content>, i: nat, a: Option<Assembly>, params: seq<Byte>, data: seq<Byte>)
    requires PartsOf(messages, params, data) && i <= |messages|
    requires match a
      case None => i == 0
      case Some(a) => i > 0 && Tracks(messages, i, a, params, data) && !IsComplete(a)
    ensures var (result, k) := Reassembly(messages, i, a);
      && k <= |messages|
      && (result.Complete? ==> result == Complete(params, data) && Whole(messages, params, data))
      && (Whole(messages, params, data) && OneEmptyAtMost(messages) && 0 < |messages| <= MAX_TRANS2_FRAGMENTS + 1 ==>
            result == Complete(params, data) && forall j :: k <= j < |messages| ==> IsEmpty(messages[j]))
    decreases |messages| - i
  {
    hide Whole, OneEmptyAtMost, TracksBytes, HasRoom, Placed, IsPartOf, Begun;
    if i == |messages| {
      if a.Some? {
        CompleteMeansWhole(messages, i, a.value, params, data);
      }
    } else {
      var f := messages[i].fragment;
      if a.None? {
        NothingTracks(messages, params, data);
      }
      var now := a.GetOr(Begun(f));
      PartTracks(messages, i, now, params, data);
      var next := Added(now, f);
      CompleteMeansWhole(messages, i + 1, next, params, data);
      if OneEmptyAtMost(messages) {
        AtMostOneBefore(messages, i + 1);
      }
      if Progressed(now, f).More? {
        ReassemblyTracks(messages, i + 1, Some(next), params, data);
      }
    }
  }

  /** However a reply is cut into messages that share no byte and leave none out, at most one of them empty and at
      most one more than the cap, and in whatever order they come, reassembly gives the reply back, having left
      nothing unread but empty messages. */
  lemma ReassemblyIsExact(messages: seq<Content>, params: seq<Byte>, data: seq<Byte>)
    requires PartsOf(messages, params, data) && Whole(messages, params, data)
    requires OneEmptyAtMost(messages) && 0 < |messages| <= 65
    ensures var (result, taken) := Reassembly(messages, 0, None);
      result == Complete(params, data) && taken <= |messages| && forall j :: taken <= j < |messages| ==> IsEmpty(messages[j])
  {
    ReassemblyTracks(messages, 0, None, params, data);
  }

  /** A reply of which a byte is missing is never taken for complete. */
  lemma NothingIsMissed(messages: seq<Content>, params: seq<Byte>, data: seq<Byte>)
    requires PartsOf(messages, params, data) && !Whole(messages, params, data)
    ensures !Reassembly(messages, 0, None).0.Complete?
  {
    ReassemblyTracks(messages, 0, None, params, data);
  }

  // ----- Why reading ends otherwise -----

  /** Parts of a reply that is not whole yet are read on, as long as there are no more than 64 and at most one is empty. */
  lemma {:induction false} ReadingGoesOn(messages: seq<Content>, n: nat, i: nat, a: Option<Assembly>, params: seq<Byte>, data: seq<Byte>)
    returns (b: Option<Assembly>)
    requires i <= n <= |messages| && n <= 64 && PartsOf(messages[..n], params, data)
    requires n > 0 ==> !Whole(messages[..n], params, data) && EmptiesBefore(messages[..n], n) <= 1
    requires match a
      case None => i == 0
      case Some(a) => i > 0 && Tracks(messages[..n], i, a, params, data) && !IsComplete(a)
    ensures Reassembly(messages, i, a) == Reassembly(messages, n, b)
    ensures match b
      case None => n == 0
      case Some(b) => n > 0 && Tracks(messages[..n], n, b, params, data) && !IsComplete(b)
    decreases n - i
  {
    hide Whole, TracksBytes, HasRoom, Placed, IsPartOf, Begun;
    b := a;
    if i < n {
      var parts, f := messages[..n], messages[i].fragment;
      if a.None? {
        NothingTracks(parts, params, data);
      }
      var now := a.GetOr(Begun(f));
      PartTracks(parts, i, now, params, data);
      CompleteMeansWhole(parts, i + 1, Added(now, f), params, data);
      MoreEmpties(parts, i + 1, n);
      b := ReadingGoesOn(messages, n, i + 1, Some(Added(now, f)), params, data);
    }
  }

  lemma {:induction false} MoreEmpties(messages: seq<Content>, i: nat, n: nat)
    requires i <= n <= |messages|
    ensures EmptiesBefore(messages, i) <= EmptiesBefore(messages, n)
  {
    if i < n {
      MoreEmpties(messages, i, n - 1);
    }
  }

  /** Some of the message's bytes belong beyond the end of the reply, which the first message tells. */
  ghost predicate ReachesBeyond(f: Fragment, n: nat, params: seq<Byte>, data: seq<Byte>) {
    && (n == 0 ==> f.totalParams == |params| && f.totalData == |data|)
    && ((f.params != [] && f.paramAt + |f.params| > |params|) || (f.data != [] && f.dataAt + |f.data| > |data|))
  }

  /** What becomes of a reply after `n` messages that are parts of it and not yet all: it needs another one; an error
      status ends it, as does what does not decode; bytes beyond its end are refused, and so are a second empty message
      and a 65th message that do not make it whole. */
  lemma WhyReadingEnds(messages: seq<Content>, n: nat, params: seq<Byte>, data: seq<Byte>)
    requires n <= |messages| && n <= 64 && PartsOf(messages[..n], params, data)
    requires n > 0 ==> !Whole(messages[..n], params, data) && EmptiesBefore(messages[..n], n) <= 1
    ensures n == |messages| ==> Reassembly(messages, 0, None) == (NoMoreMessages, n)
    ensures n < |messages| && messages[n] == ErrorStatus(true) ==> Reassembly(messages, 0, None) == (ServerError, n + 1)
    ensures n < |messages| && messages[n] in {ErrorStatus(false), Undecodable} ==>
      Reassembly(messages, 0, None) == (DecodeFailed, n + 1)
    ensures n < |messages| && messages[n].Part? && ReachesBeyond(messages[n].fragment, n, params, data) ==>
      Reassembly(messages, 0, None) == (Overflow, n + 1)
    ensures n < |messages| && PartsOf(messages[..n + 1], params, data) && !Whole(messages[..n + 1], params, data) ==>
      && (EmptiesBefore(messages[..n + 1], n + 1) == 2 ==> Reassembly(messages, 0, None) == (Stalled, n + 1))
      && (EmptiesBefore(messages[..n + 1], n + 1) < 2 && n == 64 ==> Reassembly(messages, 0, None) == (TooMany, n + 1))
  {
    hide Whole, PartsOf;
    var b := ReadingGoesOn(messages, n, 0, None, params, data);
    TrackedSizes(messages[..n], n, b, params, data);
    if n < |messages| && PartsOf(messages[..n + 1], params, data) && !Whole(messages[..n + 1], params, data) {
      AnIncompletePart(messages, n, b, params, data);
    }
  }

  lemma TrackedSizes(messages: seq<Content>, n: nat, b: Option<Assembly>, params: seq<Byte>, data: seq<Byte>)
    requires n <= |messages| && PartsOf(messages, params, data)
    requires b.Some? ==> Tracks(messages, n, b.value, params, data)
    ensures b.Some? ==> |b.value.params| == |params| && |b.value.data| == |data|
  {
  }

  lemma AnIncompletePart(messages: seq<Content>, n: nat, b: Option<Assembly>, params: seq<Byte>, data: seq<Byte>)
    requires n < |messages| && PartsOf(messages[..n], params, data) && PartsOf(messages[..n + 1], params, data)
    requires !Whole(messages[..n + 1], params, data) && EmptiesBefore(messages[..n], n) <= 1
    requires match b
      case None => n == 0
      case Some(b) => n > 0 && Tracks(messages[..n], n, b, params, data) && !IsComplete(b)
    ensures messages[n].Part?
    ensures var f := messages[n].fragment;
      var p := Progressed(b.GetOr(Begun(f)), f);
      && (EmptiesBefore(messages[..n + 1], n + 1) == 2 ==> p == Done(Stalled))
      && (EmptiesBefore(messages[..n + 1], n + 1) < 2 && n == 64 ==> p == Done(TooMany))
  {
    hide Whole, TracksBytes, HasRoom, Placed, IsPartOf, Begun;
    var parts, f := messages[..n + 1], messages[n].fragment;
    assert parts[n] == messages[n];
    if b.None? {
      NothingTracks(parts, params, data);
    } else {
      TracksInMore(messages, n, b.value, params, data);
    }
    var now := b.GetOr(Begun(f));
    PartTracks(parts, n, now, params, data);
    CompleteMeansWhole(parts, n + 1, Added(now, f), params, data);
    SameEmpties(messages, n, n);
  }

  /** What an assembly has put together does not depend on the messages to come. */
  lemma TracksInMore(messages: seq<Content>, n: nat, a: Assembly, params: seq<Byte>, data: seq<Byte>)
    requires n < |messages| && PartsOf(messages[..n], params, data) && PartsOf(messages[..n + 1], params, data)
    requires Tracks(messages[..n], n, a, params, data)
    ensures Tracks(messages[..n + 1], n, a, params, data)
  {
    SameEmpties(messages, n, n);
    SameCover(ParamSpans(messages[..n]), ParamSpans(messages[..n + 1]), n, |params|);
    SameCover(DataSpans(messages[..n]), DataSpans(messages[..n + 1]), n, |data|);
  }

  lemma SameCover(fewer: seq<Span>, more: seq<Span>, n: nat, size: nat)
    requires n == |fewer| <= |more| && forall i :: 0 <= i < n ==> fewer[i] == more[i]
    ensures CoveredPlaces(fewer, n, size) == CoveredPlaces(more, n, size)
    ensures forall k :: CoveredBy(more, k, n) ==> CoveredBy(fewer, k, n)
  {
    forall k | CoveredBy(more, k, n) ensures CoveredBy(fewer, k, n) {
      var i :| 0 <= i < n && Covers(more[i], k);
      assert Covers(fewer[i], k);
    }
    forall k | CoveredBy(fewer, k, n) ensures CoveredBy(more, k, n) {
      var i :| 0 <= i < n && Covers(fewer[i], k);
      assert Covers(more[i], k);
    }
  }

  lemma {:induction false} SameEmpties(messages: seq<Content>, n: nat, i: nat)
    requires i <= n < |messages|
    ensures EmptiesBefore(messages[..n + 1], i) == EmptiesBefore(messages[..n], i)
  {
    if i > 0 {
      SameEmpties(messages, n, i - 1);
    }
  }

  /** Messages that share a byte can be taken for the whole: bytes are counted, not places. */
  lemma RepeatedBytesLookComplete()
    ensures var part := Part(Fragment([7], 0, [], 0, 2, 0));
      Reassembly([part, part], 0, None) == (Complete([7, 0], []), 2)
  {
    var f := Fragment([7], 0, [], 0, 2, 0);
    var a := Added(Begun(f), f);
    assert Begun(f).params == [0, 0] && Begun(f).data == [];
    assert a.params == [7, 0] && a.data == [];
    var b := Added(a, f);
    assert b.params == [7, 0] && b.data == [];
    assert Reassembly([Part(f), Part(f)], 1, Some(a)) == (Complete([7, 0], []), 2);
  }
}
