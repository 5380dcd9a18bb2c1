/** A request whose reply may come in several messages: sent, put back together, and let go of. */
module Transactions {
  import opened Wrappers
  import opened Storage
  import opened ConnModel
  import opened Protocol
  import opened ProtocolSafety
  import opened ProtocolOrder
  import opened ProtocolLimits
  import opened Rely
  import opened Connection
  import opened Trans2

  // ----- The messages of a reply -----

  /** Those of the reply's messages that have the given numbers. */
  ghost function WithNumbers(plan: seq<Content>, numbers: seq<nat>): (parts: seq<Content>)
    requires Increasing(numbers, |plan|)
    ensures |parts| == |numbers| && forall i :: 0 <= i < |parts| ==> parts[i] == plan[numbers[i]]
  {
    seq(|numbers|, i requires 0 <= i < |numbers| => plan[numbers[i]])
  }

  /** Reading these messages ends with this result at the last of them: the reply put together, or why there is none. */
  ghost predicate Yields(parts: seq<Content>, result: Reassembled) {
    result != NoMoreMessages && Reassembly(parts, 0, None) == (result, |parts|) && parts != []
  }

  /** Reading these messages shows the caller that the server has sent everything. */
  ghost predicate Concludes(parts: seq<Content>) {
    exists result :: Yields(parts, result) && (result.Complete? || parts[|parts| - 1].ErrorStatus?)
  }

  /** The server sends its reply's messages, and nothing more, once one of them shows that the reply has ended: as
      long as its last message is not among those received, the others do not make the reply look complete, and
      none is an error status. */
  ghost predicate EndsWhenItShould(plan: seq<Content>)
    requires plan != []
  {
    forall numbers: seq<nat> :: Increasing(numbers, |plan| - 1) ==> !Concludes(WithNumbers(plan, numbers))
  }

  // ----- Reading message by message -----

  /** Reading the messages so far leaves the assembly, whatever comes after them. */
  ghost predicate LeadsTo(parts: seq<Content>, assembly: Option<Assembly>) {
    forall more: seq<Content> :: Reassembly(parts + more, 0, None) == Reassembly(parts + more, |parts|, assembly)
  }

  lemma NothingReadYet(plan: seq<Content>)
    ensures LeadsTo([], None) && Increasing([], |plan|) && WithNumbers(plan, []) == []
  {
  }

  lemma NotConcludedYet(parts: seq<Content>, assembly: Option<Assembly>)
    requires LeadsTo(parts, assembly)
    ensures !Concludes(parts)
  {
    assert parts + [] == parts;
    Extended(parts, assembly, []);
  }

  lemma OneStep(messages: seq<Content>, i: nat, assembly: Option<Assembly>)
    requires i < |messages| && messages[i].Part?
    ensures Reassembly(messages, i, assembly) ==
      match Progressed(assembly.GetOr(Begun(messages[i].fragment)), messages[i].fragment)
      case Done(result) => (result, i + 1)
      case More(a) => Reassembly(messages, i + 1, Some(a))
  {
  }

  lemma Extended(parts: seq<Content>, assembly: Option<Assembly>, more: seq<Content>)
    requires LeadsTo(parts, assembly)
    ensures Reassembly(parts + more, 0, None) == Reassembly(parts + more, |parts|, assembly)
  {
  }

  lemma OnePartMore(parts: seq<Content>, assembly: Option<Assembly>, content: Content)
    requires LeadsTo(parts, assembly) && content.Part?
    ensures match Progressed(assembly.GetOr(Begun(content.fragment)), content.fragment)
      case More(a) => LeadsTo(parts + [content], Some(a)) && a.read == assembly.GetOr(Begun(content.fragment)).read + 1 <= MAX_TRANS2_FRAGMENTS
      case Done(result) => Yields(parts + [content], result)
  {
    hide Reassembly;
    var all, p := parts + [content], Progressed(assembly.GetOr(Begun(content.fragment)), content.fragment);
    if p.Done? {
      Extended(parts, assembly, [content]);
      OneStep(all, |parts|, assembly);
    } else {
      forall more: seq<Content> ensures Reassembly(all + more, 0, None) == Reassembly(all + more, |all|, Some(p.assembly)) {
        assert all + more == parts + ([content] + more);
        Extended(parts, assembly, [content] + more);
        OneStep(all + more, |parts|, assembly);
      }
    }
  }

  lemma LastPart(parts: seq<Content>, assembly: Option<Assembly>, content: Content)
    requires LeadsTo(parts, assembly) && !content.Part?
    ensures Yields(parts + [content], if content.ErrorStatus? && content.decodes then ServerError else DecodeFailed)
  {
    Extended(parts, assembly, [content]);
  }

  /** Once reading has ended, messages after those read change nothing. */
  lemma {:induction false} LaterMessagesAreNotRead(parts: seq<Content>, more: seq<Content>, i: nat, assembly: Option<Assembly>)
    requires i <= |parts| && Reassembly(parts, i, assembly).0 != NoMoreMessages
    ensures Reassembly(parts + more, i, assembly) == Reassembly(parts, i, assembly)
    decreases |parts| - i
  {
    hide Progressed, Begun;
    if i < |parts| && parts[i].Part? {
      var p := Progressed(assembly.GetOr(Begun(parts[i].fragment)), parts[i].fragment);
      if p.More? {
        LaterMessagesAreNotRead(parts, more, i + 1, Some(p.assembly));
      }
    }
  }

  // ----- A reply of which nothing was lost -----

  lemma GaplessSelectsPrefix(plan: seq<Content>, numbers: seq<nat>)
    requires Increasing(numbers, |plan|) && Gapless(numbers)
    ensures |numbers| <= |plan| && WithNumbers(plan, numbers) == plan[..|numbers|]
  {
    AllBelow(numbers, |plan|);
  }

  /** What a whole reply in messages that share no byte looks like; one of the messages may be empty. */
  ghost predicate IsReplyOf(plan: seq<Content>, params: seq<Byte>, data: seq<Byte>) {
    PartsOf(plan, params, data) && Whole(plan, params, data) && OneEmptyAtMost(plan)
  }

  lemma FirstMessagesGiveBack(plan: seq<Content>, n: nat, result: Reassembled, params: seq<Byte>, data: seq<Byte>)
    requires IsReplyOf(plan, params, data) && n <= |plan| <= MAX_TRANS2_FRAGMENTS && Yields(plan[..n], result)
    ensures result == Complete(params, data)
  {
    hide Reassembly, PartsOf, Whole, OneEmptyAtMost;
    assert plan == plan[..n] + plan[n..];
    LaterMessagesAreNotRead(plan[..n], plan[n..], 0, None);
    ReassemblyIsExact(plan, params, data);
  }

  /** If every message of a whole reply that the queue holds could be decoded, what the caller is told is that reply. */
  lemma WholeReplyIsGivenBack(w: World, r: RequestId, plan: seq<Content>, result: Reassembled, params: seq<Byte>, data: seq<Byte>)
    requires Sound(w) && r in w.requests && w.requests[r].total == |plan| <= w.requests[r].depth <= 64
    requires !w.requests[r].garbled && IsReplyOf(plan, params, data)
    requires Increasing(w.requests[r].received, |plan|) && Yields(WithNumbers(plan, w.requests[r].received), result)
    ensures result == Complete(params, data)
  {
    hide Sound, Increasing, Gapless, IsReplyOf, Yields;
    NothingLostWithinDepth(w, r);
    GaplessSelectsPrefix(plan, w.requests[r].received);
    FirstMessagesGiveBack(plan, |w.requests[r].received|, result, params, data);
  }

  lemma NothingLostWithinDepth(w: World, r: RequestId)
    requires Sound(w) && r in w.requests && w.requests[r].total <= w.requests[r].depth && !w.requests[r].garbled
    ensures NothingLost(w.requests[r]) && Gapless(w.requests[r].received)
  {
    assert InOrder(ShareOf(w, r), w.client.done);
    ReceivedFirst(ShareOf(w, r), w.client.done);
  }

  // ----- Which replies end when they should -----

  lemma SelectedAreParts(plan: seq<Content>, numbers: seq<nat>, params: seq<Byte>, data: seq<Byte>)
    requires PartsOf(plan, params, data) && Increasing(numbers, |plan|)
    ensures PartsOf(WithNumbers(plan, numbers), params, data)
  {
    hide IsPartOf, Apart;
    var parts := WithNumbers(plan, numbers);
    forall i, j | 0 <= i < j < |parts|
      ensures Apart(ParamSpans(parts)[i], ParamSpans(parts)[j]) && Apart(DataSpans(parts)[i], DataSpans(parts)[j])
    {
      assert Apart(ParamSpans(plan)[numbers[i]], ParamSpans(plan)[numbers[j]]);
      assert Apart(DataSpans(plan)[numbers[i]], DataSpans(plan)[numbers[j]]);
    }
  }

  lemma NotCoveredWithoutLast(spans: seq<Span>, others: seq<Span>, numbers: seq<nat>, n: nat)
    requires spans != [] && Disjoint(spans) && Increasing(numbers, |spans| - 1) && |others| == |numbers|
    requires forall i :: 0 <= i < |others| ==> others[i] == spans[numbers[i]]
    requires var last := spans[|spans| - 1]; last.size > 0 && last.at + last.size <= n
    ensures !Covering(others, n)
  {
    var last := spans[|spans| - 1];
    forall i | 0 <= i < |others| ensures !Covers(others[i], last.at) {
      assert Apart(spans[numbers[i]], last);
    }
    assert !CoveredBy(others, last.at, |others|);
  }

  /** A reply of parts that share no byte ends when it should if its last message is not an empty one. */
  lemma PartsEndWhenTheyShould(plan: seq<Content>, params: seq<Byte>, data: seq<Byte>)
    requires plan != [] && PartsOf(plan, params, data) && !IsEmpty(plan[|plan| - 1])
    ensures EndsWhenItShould(plan)
  {
    hide Reassembly, PartsOf;
    forall numbers: seq<nat> | Increasing(numbers, |plan| - 1) ensures !Concludes(WithNumbers(plan, numbers)) {
      var parts := WithNumbers(plan, numbers);
      SelectedAreParts(plan, numbers, params, data);
      MissingItsLast(plan, numbers, params, data);
      NothingIsMissed(parts, params, data);
    }
  }

  lemma MissingItsLast(plan: seq<Content>, numbers: seq<nat>, params: seq<Byte>, data: seq<Byte>)
    requires plan != [] && PartsOf(plan, params, data) && !IsEmpty(plan[|plan| - 1])
    requires Increasing(numbers, |plan| - 1) && PartsOf(WithNumbers(plan, numbers), params, data)
    ensures !Whole(WithNumbers(plan, numbers), params, data)
    ensures forall i :: 0 <= i < |numbers| ==> WithNumbers(plan, numbers)[i].Part?
  {
    var last, parts := plan[|plan| - 1].fragment, WithNumbers(plan, numbers);
    assert IsPartOf(last, params, data);
    if last.params != [] {
      NotCoveredWithoutLast(ParamSpans(plan), ParamSpans(parts), numbers, |params|);
    } else {
      NotCoveredWithoutLast(DataSpans(plan), DataSpans(parts), numbers, |data|);
    }
  }

  lemma ReplyIsOfParts(plan: seq<Content>, params: seq<Byte>, data: seq<Byte>)
    requires IsReplyOf(plan, params, data)
    ensures PartsOf(plan, params, data)
  {
  }

  lemma OneMessageEnds(plan: seq<Content>)
    requires |plan| == 1
    ensures EndsWhenItShould(plan)
  {
  }

  lemma CoveredWithoutLast(spans: seq<Span>, n: nat)
    requires spans != [] && spans[|spans| - 1].size == 0 && Covering(spans, n)
    ensures Covering(spans[..|spans| - 1], n)
  {
    var most := spans[..|spans| - 1];
    forall k | 0 <= k < n ensures CoveredBy(most, k, |most|) {
      assert CoveredBy(spans, k, |spans|);
      var i :| 0 <= i < |spans| && Covers(spans[i], k);
      assert Covers(most[i], k);
    }
  }

  lemma FirstOnesAreWhole(plan: seq<Content>, params: seq<Byte>, data: seq<Byte>)
    requires 1 < |plan| && IsReplyOf(plan, params, data) && IsEmpty(plan[|plan| - 1])
    ensures IsReplyOf(plan[..|plan| - 1], params, data)
  {
    hide Covering, IsPartOf;
    var n := |plan| - 1;
    assert ParamSpans(plan[..n]) == ParamSpans(plan)[..n] && DataSpans(plan[..n]) == DataSpans(plan)[..n];
    CoveredWithoutLast(ParamSpans(plan), |params|);
    CoveredWithoutLast(DataSpans(plan), |data|);
  }

  /** Only the messages counted as read decide the result. */
  lemma {:induction false} TakenAreRead(parts: seq<Content>, i: nat, assembly: Option<Assembly>)
    requires i <= |parts| && Reassembly(parts, i, assembly).0 != NoMoreMessages
    ensures var (result, taken) := Reassembly(parts, i, assembly);
      i < taken <= |parts| && Reassembly(parts[..taken], i, assembly) == (result, taken)
    decreases |parts| - i
  {
    hide Progressed, Begun;
    if parts[i].Part? {
      var p := Progressed(assembly.GetOr(Begun(parts[i].fragment)), parts[i].fragment);
      if p.More? {
        TakenAreRead(parts, i + 1, Some(p.assembly));
      }
    }
  }

  lemma EmptyLastMessageComesTooLate(plan: seq<Content>, params: seq<Byte>, data: seq<Byte>)
    requires 1 < |plan| <= MAX_TRANS2_FRAGMENTS + 1 && IsReplyOf(plan, params, data) && IsEmpty(plan[|plan| - 1])
    ensures !EndsWhenItShould(plan)
  {
    hide Reassembly;
    var n := |plan| - 1;
    var most := plan[..n];
    FirstOnesAreWhole(plan, params, data);
    ReassemblyIsExact(most, params, data);
    var (result, taken) := Reassembly(most, 0, None);
    TakenAreRead(most, 0, None);
    var numbers: seq<nat> := seq(taken, i => i);
    assert WithNumbers(plan, numbers) == most[..taken];
    assert Yields(most[..taken], result);
    assert Increasing(numbers, n);
  }

  /** A whole reply ends when it should exactly if its last message is not an empty one after others: with that
      still to come, the reply looks complete already. */
  lemma WholeReplyEndsWhenItShould(plan: seq<Content>, params: seq<Byte>, data: seq<Byte>)
    requires 0 < |plan| <= 65 && IsReplyOf(plan, params, data)
    ensures EndsWhenItShould(plan) <==> |plan| == 1 || !IsEmpty(plan[|plan| - 1])
  {
    hide EndsWhenItShould, IsReplyOf, IsEmpty;
    if |plan| == 1 {
      OneMessageEnds(plan);
    } else if IsEmpty(plan[|plan| - 1]) {
      EmptyLastMessageComesTooLate(plan, params, data);
    } else {
      ReplyIsOfParts(plan, params, data);
      PartsEndWhenTheyShould(plan, params, data);
    }
  }

  // ----- The transaction -----

  /** The request is still on the wire for its caller, who may have received the last reply by now. */
  ghost predicate Ours(w: World, q: WireRequest, plan: seq<Content>) {
    && InPhase(w, q.request, OnWire) && q.request in w.client.queues
    && w.requests[q.request].transaction && w.requests[q.request].mid == q.mid
    && w.requests[q.request].total == |plan| && w.requests[q.request].depth == RESPONSE_QUEUE_DEPTH
  }

  /** Lets go of the request: its MID is freed only if the server is known to be done with it. */
  method Finish(conn: Conn, q: WireRequest, complete: bool, ghost plan: seq<Content>)
    requires conn.Valid() && Ours(conn.world, q, plan)
    requires complete ==> HasFinal(conn.world, q.request)
    modifies conn, conn.mishaps`abandoned
    ensures conn.mishaps.abandoned == old(conn.mishaps.abandoned) + if complete then 0 else 1
    ensures conn.Valid() && conn.Only(q.request) && conn.done == old(conn.done)
    ensures InPhase(conn.world, q.request, if complete then Settled else Abandoned)
    ensures conn.world.requests[q.request] == old(conn.world.requests[q.request]).(phase := conn.world.requests[q.request].phase)
  {
    hide Sound;
    conn.ReleaseLocked(q.request, q.mid, !complete);
  }

  /** What a receive yields. A queue that is closed and empty yields nothing, which the code takes for a message. */
  datatype Delivery = Delivered(msg: Message) | Gone | GivenUp | Nothing

  /** A message delivered is a reply to the request, received after what its caller had received before, and later
      than all of that. */
  ghost predicate ReceivedNext(w: World, w': World, r: RequestId, d: Delivery) {
    && r in w.requests && r in w'.requests
    && var q, q' := w.requests[r], w'.requests[r];
      && (if d.Delivered? then
            && d.msg.Reply? && d.msg.origin == r
            && q'.received == q.received + [d.msg.seqno] && Increasing(q'.received, q'.total)
            && (d.msg.final <==> d.msg.seqno + 1 == q'.total) && (d.msg.final ==> q'.finalTaken)
          else q'.received == q.received)
      && (!d.Gone? ==> q'.woken == q.woken)
      && (d.Nothing? && !q.woken ==> Dry(w', r))
  }

  /** awaitResponse: the next message, the end of the connection, or of the caller's patience; or nothing, of a
      queue that ran dry. */
  method AwaitResponse(conn: Conn, q: WireRequest, ghost plan: seq<Content>) returns (d: Delivery)
    requires conn.Valid() && Ours(conn.world, q, plan) && q.request in conn.diary.mine
    modifies conn, conn.mishaps`count, conn.mishaps`impatient
    ensures conn.mishaps.count == old(conn.mishaps.count) + if d.Delivered? then 0 else 1
    ensures conn.mishaps.impatient == old(conn.mishaps.impatient) + if d.GivenUp? then 1 else 0
    ensures conn.Valid() && Ours(conn.world, q, plan) && conn.Only(q.request)
    ensures ReceivedNext(old(conn.world), conn.world, q.request, d)
    ensures d.Gone? ==> conn.done
  {
    hide Sound, Increasing;
    conn.Interfere();
    label ready:
    assert Undisturbed(old(conn.world), conn.world, q.request);
    var choice := conn.Select(q.request);
    match choice {
      case Ready =>
        HeadIsOwn(conn.world, q.request);
        var msg := conn.TakeFrom(q.request);
        ghost var others := conn.diary.mine - {q.request};
        ToleranceGoesOn(others, old(conn.world), old@ready(conn.world), conn.world, others);
        d := if msg.Wake? then Gone else Delivered(msg);
      case Drained =>
        d := Nothing;
      case TornDown =>
        d := Gone;
      case Impatient =>
        d := GivenUp;
    }
  }

  lemma OneMoreSelected(plan: seq<Content>, numbers: seq<nat>, n: nat)
    requires Increasing(numbers + [n], |plan|)
    ensures Increasing(numbers, |plan|) && n < |plan|
    ensures WithNumbers(plan, numbers + [n]) == WithNumbers(plan, numbers) + [plan[n]]
  {
    assert (numbers + [n])[|numbers|] == n;
    assert forall i :: 0 <= i < |numbers| ==> (numbers + [n])[i] == numbers[i];
  }

  lemma ConcludesWith(parts: seq<Content>, result: Reassembled)
    requires Yields(parts, result)
    ensures parts != []
    ensures Concludes(parts) <==> result.Complete? || parts[|parts| - 1].ErrorStatus?
  {
  }

  /** A caller that sees the reply's end has received its last message. */
  lemma ConcludesAtTheEnd(plan: seq<Content>, numbers: seq<nat>)
    requires plan != [] && EndsWhenItShould(plan) && Increasing(numbers, |plan|) && Concludes(WithNumbers(plan, numbers))
    ensures numbers != [] && numbers[|numbers| - 1] + 1 == |plan|
  {
    hide Concludes;
    assert !Increasing(numbers, |plan| - 1);
  }

  /** What the caller is told: the reply, or why the messages so far did not make one; or that its patience ended,
      or the connection did, before that; or that the request was never sent; or the code fails on nothing received. */
  datatype TransactionOutcome = Replied(result: Reassembled) | Interrupted | ConnectionLost | NeverSent | Crashed

  /** What the caller is told is what putting together the messages it received yields. */
  ghost predicate Tells(w: World, r: RequestId, plan: seq<Content>, outcome: TransactionOutcome) {
    && r in w.requests && Increasing(w.requests[r].received, |plan|)
    && (outcome.Replied? ==> Yields(WithNumbers(plan, w.requests[r].received), outcome.result))
  }

  ghost predicate SawTheEnd(w: World, r: RequestId, plan: seq<Content>) {
    r in w.requests && Increasing(w.requests[r].received, |plan|) && Concludes(WithNumbers(plan, w.requests[r].received))
  }

  /** A reply that fits the queue and of which every message could be decoded is given back as it is. */
  ghost predicate Faithful(w: World, r: RequestId, plan: seq<Content>, result: Reassembled) {
    r in w.requests && |plan| <= 64 && !w.requests[r].garbled ==>
      forall params, data :: IsReplyOf(plan, params, data) ==> result == Complete(params, data)
  }

  lemma AnyReplyIsGivenBack(w: World, r: RequestId, plan: seq<Content>, result: Reassembled)
    requires Sound(w) && r in w.requests && w.requests[r].total == |plan| && w.requests[r].depth == RESPONSE_QUEUE_DEPTH
    requires Tells(w, r, plan, Replied(result))
    ensures Faithful(w, r, plan, result)
  {
    hide Sound, Yields, Increasing, IsReplyOf;
    if |plan| <= RESPONSE_QUEUE_DEPTH && !w.requests[r].garbled {
      forall params, data | IsReplyOf(plan, params, data) ensures result == Complete(params, data) {
        WholeReplyIsGivenBack(w, r, plan, result, params, data);
      }
    }
  }

  lemma NothingHappened(conn: Conn, r: RequestId)
    requires conn.Valid()
    ensures Tolerated(conn.diary.mine - {r}, conn.world, conn.world)
  {
    hide Sound;
    EnvironmentIsTolerated(conn.diary.mine - {r}, conn.world, [], conn.world);
  }

  /** Receives message after message and puts them together. `complete` says that they show that the server has
      sent everything. */
  method ReadReply(conn: Conn, q: WireRequest, plan: seq<Content>) returns (outcome: TransactionOutcome, complete: bool)
    requires conn.Valid() && Ours(conn.world, q, plan) && q.request in conn.diary.mine
    requires plan != [] && EndsWhenItShould(plan)
    requires conn.world.requests[q.request].received == [] && !conn.world.requests[q.request].woken
    modifies conn, conn.mishaps`count, conn.mishaps`impatient
    ensures conn.mishaps.count == old(conn.mishaps.count) + if outcome.Replied? then 0 else 1
    ensures conn.mishaps.impatient == old(conn.mishaps.impatient) + if outcome.Interrupted? then 1 else 0
    ensures conn.Valid() && Ours(conn.world, q, plan) && conn.Only(q.request)
    ensures !outcome.NeverSent? && Tells(conn.world, q.request, plan, outcome)
    ensures complete <==> SawTheEnd(conn.world, q.request, plan)
    ensures complete ==> outcome.Replied? && HasFinal(conn.world, q.request)
    ensures outcome.ConnectionLost? ==> conn.done
    ensures outcome.Crashed? ==> Dry(conn.world, q.request)
  {
    hide Sound, Progressed, Reassembly, LeadsTo, Tolerated, Yields, Concludes, EndsWhenItShould, Increasing, Dry, Conn.Valid;
    var r, paramBuf, dataBuf := q.request, new Byte[0], new Byte[0];
    var gotParams: nat, gotData: nat, empties: nat, read: nat := 0, 0, 0, 0;
    ghost var assembly: Option<Assembly> := None;
    ghost var parts: seq<Content> := [];
    NothingReadYet(plan);
    NothingHappened(conn, r);
    while true
      invariant conn.mishaps.count == old(conn.mishaps.count) && conn.mishaps.impatient == old(conn.mishaps.impatient)
      invariant conn.Valid() && Ours(conn.world, q, plan) && conn.Only(r) && !conn.world.requests[r].woken
      invariant fresh(paramBuf) && fresh(dataBuf) && paramBuf != dataBuf && read == |parts| <= MAX_TRANS2_FRAGMENTS
      invariant Increasing(conn.world.requests[r].received, |plan|) && parts == WithNumbers(plan, conn.world.requests[r].received)
      invariant LeadsTo(parts, assembly)
      invariant if read == 0 then assembly.None? && gotParams == gotData == empties == 0
                else assembly == Some(Assembly(paramBuf[..], dataBuf[..], gotParams, gotData, empties, read))
      decreases MAX_TRANS2_FRAGMENTS - read
    {
      label waiting:
      ghost var numbers := conn.world.requests[r].received;
      var d := AwaitResponse(conn, q, plan);
      ToleranceGoesOn(conn.diary.mine - {r}, old(conn.world), old@waiting(conn.world), conn.world, conn.diary.mine - {r});
      if !d.Delivered? {
        NotConcludedYet(parts, assembly);
        return if d.Gone? then ConnectionLost else if d.Nothing? then Crashed else Interrupted, false;
      }
      OneMoreSelected(plan, numbers, d.msg.seqno);
      var content := plan[d.msg.seqno];
      if !content.Part? {
        LastPart(parts, assembly, content);
        outcome, complete := Replied(if content.ErrorStatus? && content.decodes then ServerError else DecodeFailed), content.ErrorStatus?;
        EndIsSeen(conn.world, q, plan, outcome.result, complete);
        return;
      }
      OnePartMore(parts, assembly, content);
      parts := parts + [content];
      if read == 0 {
        paramBuf := NewBuffer(content.fragment.totalParams);
        dataBuf := NewBuffer(content.fragment.totalData);
      }
      assert Assembly(paramBuf[..], dataBuf[..], gotParams, gotData, empties, read) == assembly.GetOr(Begun(content.fragment));
      var done;
      done, gotParams, gotData, empties, read := AddPart(paramBuf, dataBuf, gotParams, gotData, empties, read, content.fragment);
      if done.Some? {
        outcome, complete := Replied(done.value), done.value.Complete?;
        EndIsSeen(conn.world, q, plan, outcome.result, complete);
        return;
      }
      assembly := Some(Assembly(paramBuf[..], dataBuf[..], gotParams, gotData, empties, read));
    }
  }

  lemma EndIsSeen(w: World, q: WireRequest, plan: seq<Content>, result: Reassembled, complete: bool)
    requires Ours(w, q, plan) && plan != [] && EndsWhenItShould(plan) && Increasing(w.requests[q.request].received, |plan|)
    requires var numbers := w.requests[q.request].received;
      && Yields(WithNumbers(plan, numbers), result)
      && (complete <==> result.Complete? || plan[numbers[|numbers| - 1]].ErrorStatus?)
      && (numbers[|numbers| - 1] + 1 == |plan| ==> w.requests[q.request].finalTaken)
    ensures SawTheEnd(w, q.request, plan) <==> complete
    ensures complete ==> HasFinal(w, q.request)
  {
    hide Yields, Increasing, EndsWhenItShould, Concludes;
    var numbers := w.requests[q.request].received;
    ConcludesWith(WithNumbers(plan, numbers), result);
    if complete {
      ConcludesAtTheEnd(plan, numbers);
    }
  }

  /** All messages but an empty last one were received, and that one is next on the wire. */
  ghost predicate OnlyEmptyLastIsLeft(w: World, q: WireRequest, plan: seq<Content>) {
    && Ours(w, q, plan) && 1 < |plan| <= MAX_TRANS2_FRAGMENTS + 1 && IsEmpty(plan[|plan| - 1])
    && Gapless(w.requests[q.request].received) && |w.requests[q.request].received| == |plan| - 1
    && w.wire != [] && w.wire[0].Reply? && w.wire[0].origin == q.request
  }

  /** The caller holds the reply for ended. The model does not let it finish, as it does not have the last message,
      but the code does. */
  lemma EmptyLastMessageIsNotAwaited(w: World, q: WireRequest, plan: seq<Content>, params: seq<Byte>, data: seq<Byte>)
    requires Sound(w) && IsReplyOf(plan, params, data) && OnlyEmptyLastIsLeft(w, q, plan)
    ensures SawTheEnd(w, q.request, plan) && !HasFinal(w, q.request)
  {
    hide IsReplyOf, Concludes, IsEmpty, Inv, Counted, NewsFits, FinalsFit;
    var numbers := w.requests[q.request].received;
    MostConcludes(plan, params, data);
    assert Increasing(numbers, |plan|);
    assert WithNumbers(plan, numbers) == plan[..|plan| - 1];
    assert InOrder(ShareOf(w, q.request), w.client.done);
  }

  lemma OnTheWireHoldsItsMid(w: World, q: WireRequest, plan: seq<Content>)
    requires Inv(w) && !w.client.done && OnlyEmptyLastIsLeft(w, q, plan)
    ensures q.mid in w.client.pending && w.client.pending[q.mid].request == q.request && w.wire[0].mid == q.mid
  {
    hide TrailFits, OneReply, QueueIsOwn, Gapless, IsEmpty;
    assert Fits(ShareOf(w, q.request), q.request, false);
    assert WireNames(w, w.wire[0]);
  }

  /** Finishing `r`, as having received everything, frees the MID, and `other` gets it, and the message with it. */
  ghost predicate IsHandedOver(c: Client, m: Mid, r: RequestId, other: RequestId, msg: Message) {
    && r in c.queues && msg.Reply? && msg.mid == m
    && var freed := ConnModel.Release(c, m, r, false);
      && m !in freed.pending
      && ConnModel.Dispatch(Register(freed, other, false, 1, m), msg).queues[other].items == [msg]
  }

  /** Why a reply has to end when it should: with an empty last message still to come, finishing frees the MID, and
      the next request that gets it is handed the message of the one before. */
  lemma EmptyLastMessageReachesAnother(w: World, q: WireRequest, plan: seq<Content>, params: seq<Byte>, data: seq<Byte>, other: RequestId)
    requires Sound(w) && !w.client.done && IsReplyOf(plan, params, data) && OnlyEmptyLastIsLeft(w, q, plan)
    ensures SawTheEnd(w, q.request, plan) && IsHandedOver(w.client, q.mid, q.request, other, w.wire[0])
  {
    hide Inv, Ordered, SawTheEnd, IsReplyOf, IsEmpty, Gapless;
    EmptyLastMessageIsNotAwaited(w, q, plan, params, data);
    OnTheWireHoldsItsMid(w, q, plan);
  }

  lemma MostConcludes(plan: seq<Content>, params: seq<Byte>, data: seq<Byte>)
    requires 1 < |plan| <= MAX_TRANS2_FRAGMENTS + 1 && IsReplyOf(plan, params, data) && IsEmpty(plan[|plan| - 1])
    ensures Concludes(plan[..|plan| - 1])
  {
    hide Reassembly, IsEmpty;
    var most := plan[..|plan| - 1];
    FirstOnesAreWhole(plan, params, data);
    ReassemblyIsExact(most, params, data);
    TakenAreRead(most, 0, None);
    assert !IsEmpty(most[|most| - 1]) by {
      assert IsEmpty(plan[|most|]) && !IsEmpty(plan[|most| - 1]);
    }
    assert Yields(most, Complete(params, data));
  }

  /** Letting go of the request leaves what its caller received, and so what it is told. */
  lemma ToldIsStable(w: World, w': World, q: WireRequest, plan: seq<Content>, outcome: TransactionOutcome)
    requires Ours(w, q, plan) && q.request in w'.requests
    requires w'.requests[q.request] == w.requests[q.request].(phase := w'.requests[q.request].phase)
    requires Tells(w, q.request, plan, outcome) && Sound(w')
    ensures CrashFits(w, q.request, plan) ==> CrashFits(w', q.request, plan)
    ensures Tells(w', q.request, plan, outcome) && (SawTheEnd(w', q.request, plan) <==> SawTheEnd(w, q.request, plan))
    ensures outcome.Replied? ==> Faithful(w', q.request, plan, outcome.result)
  {
    hide Sound, Yields, Increasing, Concludes, Faithful, IsReplyOf;
    if outcome.Replied? {
      AnyReplyIsGivenBack(w', q.request, plan, outcome.result);
    }
  }

  /** Sends the transaction's request. */
  method Send(conn: Conn, ghost plan: seq<Content>) returns (sent: bool, q: WireRequest)
    requires conn.Valid() && Clean(conn.world, conn.diary.mine) && plan != []
    modifies conn, conn.mishaps`count, conn.mishaps`broken, conn.mishaps`reported
    ensures conn.mishaps.count == old(conn.mishaps.count) + if sent then 0 else 1
    ensures conn.Valid() && q.request !in old(conn.world).requests && Continues(old(conn.diary), conn.diary, 1)
    ensures !sent ==> Clean(conn.world, conn.diary.mine)
    ensures sent ==>
      && Ours(conn.world, q, plan) && conn.world.requests[q.request].received == [] && !conn.world.requests[q.request].woken
      && q.request in conn.diary.mine && Clean(conn.world, conn.diary.mine - {q.request})
  {
    hide Sound, Tolerated, Clean, NotAwaited;
    sent, q := conn.SendPacket(true, RESPONSE_QUEUE_DEPTH, Unspecified, |plan|);
    conn.diary := conn.diary.Peaked(1);
    CleanIsStable(old(conn.world), conn.world, old(conn.diary).mine);
    if sent {
      assert conn.diary.mine - {q.request} == old(conn.diary).mine;
    } else {
      AnotherClean(conn.world, old(conn.diary).mine, conn.diary.mine, q.request);
    }
  }

  /** The code fails only when it has received as many messages as the queue holds, and never on a whole reply of no
      more than that. */
  ghost predicate CrashFits(w: World, r: RequestId, plan: seq<Content>) {
    && r in w.requests && |w.requests[r].received| >= 64
    && forall params, data :: IsReplyOf(plan, params, data) ==> |plan| > 64
  }

  lemma DryCrashFits(w: World, q: WireRequest, plan: seq<Content>)
    requires Sound(w) && Ours(w, q, plan) && Dry(w, q.request) && !SawTheEnd(w, q.request, plan)
    requires plan != [] && EndsWhenItShould(plan)
    ensures CrashFits(w, q.request, plan)
  {
    hide Sound, Increasing, Gapless, IsReplyOf, EndsWhenItShould, Concludes;
    DryMeansManyReceived(w, q.request);
    forall params, data | IsReplyOf(plan, params, data) ensures |plan| > RESPONSE_QUEUE_DEPTH {
      if |plan| <= RESPONSE_QUEUE_DEPTH {
        GaplessSelectsPrefix(plan, w.requests[q.request].received);
        assert plan[..|plan|] == plan;
        AllOfAWholeReplyConcludes(plan, params, data);
      }
    }
  }

  lemma AllOfAWholeReplyConcludes(plan: seq<Content>, params: seq<Byte>, data: seq<Byte>)
    requires 0 < |plan| <= MAX_TRANS2_FRAGMENTS + 1 && IsReplyOf(plan, params, data) && EndsWhenItShould(plan)
    ensures Concludes(plan)
  {
    hide Reassembly, EndsWhenItShould, PartsOf, Whole, OneEmptyAtMost;
    WholeReplyEndsWhenItShould(plan, params, data);
    ReassemblyIsExact(plan, params, data);
    TakenAreRead(plan, 0, None);
    assert Yields(plan, Complete(params, data));
  }

  /** sendRecvTransaction, when the server's reply is the messages of `plan`: what the caller is told is what putting
      together the messages it received yields, which is the reply itself whenever it fits the queue and all of it
      could be decoded. The MID is freed if they show that the server has sent everything, and held for good otherwise. */
  method SendRecvTransaction(conn: Conn, plan: seq<Content>) returns (outcome: TransactionOutcome, r: RequestId)
    requires conn.Valid() && Clean(conn.world, conn.diary.mine) && plan != [] && EndsWhenItShould(plan)
    modifies conn, conn.mishaps
    ensures conn.mishaps.count == old(conn.mishaps.count) + if outcome.Replied? then 0 else 1
    ensures conn.mishaps.impatient == old(conn.mishaps.impatient) + if outcome.Interrupted? then 1 else 0
    ensures conn.Valid() && r !in old(conn.world).requests
    ensures Clean(conn.world, conn.diary.mine) && Continues(old(conn.diary), conn.diary, 1)
    ensures !outcome.NeverSent? ==> r in conn.diary.mine && Tells(conn.world, r, plan, outcome)
    ensures outcome.Replied? ==> InPhase(conn.world, r, if SawTheEnd(conn.world, r, plan) then Settled else Abandoned)
    ensures outcome.Replied? ==> Faithful(conn.world, r, plan, outcome.result)
    ensures !outcome.Replied? && !outcome.NeverSent? ==> !SawTheEnd(conn.world, r, plan)
    ensures outcome.Interrupted? || outcome.Crashed? ==> InPhase(conn.world, r, Abandoned)
    ensures outcome.ConnectionLost? ==> conn.done
    ensures outcome.Crashed? ==> CrashFits(conn.world, r, plan)
  {
    hide Sound, Tolerated, Clean, EndsWhenItShould, Tells, SawTheEnd, Faithful, Ours, Continues, CrashFits, Dry;
    var sent, q := Send(conn, plan);
    r := q.request;
    if !sent {
      return NeverSent, r;
    }
    label transmitted:
    var complete;
    outcome, complete := ReadReply(conn, q, plan);
    label read:
    if outcome.Crashed? {
      DryCrashFits(conn.world, q, plan);
    }
    Finish(conn, q, complete, plan);
    ToldIsStable(old@read(conn.world), conn.world, q, plan, outcome);
    ghost var others := conn.diary.mine - {r};
    ToleranceGoesOn(others, old@transmitted(conn.world), old@read(conn.world), conn.world, others);
    OneMoreClean(old@transmitted(conn.world), conn.world, conn.diary.mine, r);
  }
}
