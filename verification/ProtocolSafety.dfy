/** What every reachable state of the protocol keeps. The invariant is stated
    one request at a time, over everything in the system that concerns it. */
module ProtocolSafety {
  import opened Wrappers
  import opened ConnModel
  import opened Protocol

  /** One request's share of the world: its record, its queue, the messages on
      their way to it in order, and the pending entry it holds, if it still holds one. */
  datatype Share = Share(
    record: Request, queue: Queue, incoming: seq<Message>, entry: Option<Pending>, owed: bool, lost: bool)
  {
    /** Everything the server sent that the caller could still receive, in order. */
    function Trail(): seq<Message> {
      queue.items + incoming
    }
  }

  function Incoming(wire: seq<Message>, r: RequestId): seq<Message> {
    if wire == [] then []
    else if wire[0].Reply? && wire[0].origin == r then [wire[0]] + Incoming(wire[1..], r)
    else Incoming(wire[1..], r)
  }

  function Entry(pending: map<Mid, Pending>, m: Mid, r: RequestId): Option<Pending> {
    if m in pending && pending[m].request == r then Some(pending[m]) else None
  }

  ghost function ShareOf(w: World, r: RequestId): Share
    requires r in w.requests && r in w.client.queues
  {
    Share(w.requests[r], w.client.queues[r], Incoming(w.wire, r),
          Entry(w.client.pending, w.requests[r].mid, r), r in w.owed, r in w.lost)
  }

  predicate Live(p: Phase) {
    p == Registered || p == OnWire
  }

  // ----- The invariant -----

  /** At all times: the queue is within its depth and every reply in it was sent for this request. */
  ghost predicate QueueIsOwn(s: Share, r: RequestId) {
    && |s.queue.items| <= s.queue.depth == s.record.depth
    && s.record.depth > 0
    && forall i :: 0 <= i < |s.queue.items| && s.queue.items[i].Reply? ==> s.queue.items[i].origin == r
  }

  /** While the connection is open, a request that may still be answered holds its
      MID, and the entry it holds says whether its caller gave up. */
  ghost predicate EntryFits(s: Share, r: RequestId) {
    && (s.entry.Some? ==>
          && s.entry.value == Pending(r, s.record.phase == Abandoned, s.record.transaction)
          && s.record.phase != Settled)
    && (Live(s.record.phase) || s.owed || s.incoming != [] || (s.record.phase == Abandoned && s.record.transaction) ==>
          s.entry.Some?)
  }

  /** The trail is in order, with only the last message final and none when more is owed. */
  ghost predicate TrailFits(s: Share) {
    var t := s.Trail();
    && |t| <= s.record.sent
    && (forall i :: 0 <= i < |t| ==> t[i].Reply? && i <= t[i].seqno < s.record.sent)
    && (forall i :: 0 <= i < |t| && t[i].final ==> i == |t| - 1 && !s.owed)
    && (s.record.finalTaken ==> t == [] && !s.owed)
    && (s.record.phase == Registered ==> s.record.sent == 0 && !s.owed && !s.lost && !s.record.finalTaken)
    && (s.record.dropped ==> s.record.sent > s.record.depth)
  }

  /** An ordinary request has one reply, and it is always somewhere. */
  ghost predicate OneReply(s: Share) {
    !s.record.transaction ==>
      var t := s.Trail();
      && (forall i :: 0 <= i < |t| && t[i].Reply? ==> t[i].final)
      && s.record.sent <= 1 && (s.owed ==> s.record.sent == 0)
      && (s.lost ==> !s.owed && t == [] && !s.record.finalTaken)
      && (s.record.phase == OnWire ==> s.owed || s.lost || s.record.finalTaken || t != [])
      && (s.record.phase == Abandoned ==> (s.entry.Some? <==> s.owed || s.lost || s.incoming != []))
      && (s.record.phase == Abandoned && s.entry.Some? ==> s.queue.items == [])
  }

  ghost predicate Fits(s: Share, r: RequestId, done: bool) {
    && QueueIsOwn(s, r)
    && (!done ==> !s.queue.closed && EntryFits(s, r) && TrailFits(s) && OneReply(s))
  }

  /** The maps agree on which requests exist, and the wire and the pending map name real ones. */
  ghost predicate Shape(w: World) {
    && w.client.queues.Keys == w.requests.Keys
    && w.owed <= w.requests.Keys
    && w.lost <= w.requests.Keys
    && (forall m :: m in w.client.pending ==> m != RESERVED_MID && PendingNames(w, m))
    && (forall i :: 0 <= i < |w.wire| ==> WireNames(w, w.wire[i]))
  }

  ghost predicate PendingNames(w: World, m: Mid)
    requires m in w.client.pending
  {
    w.client.pending[m].request in w.requests && w.requests[w.client.pending[m].request].mid == m
  }

  ghost predicate WireNames(w: World, msg: Message) {
    msg.Reply? && msg.origin in w.requests && msg.mid == w.requests[msg.origin].mid
  }

  ghost predicate TornDown(w: World) {
    && (w.client.done <==> w.client.error.Some?)
    && (w.client.done ==> w.client.pending == map[])
    && (!w.client.done ==> w.closing == {})
    && (forall r :: r in w.closing ==> r in w.client.queues && !w.client.queues[r].closed)
  }

  ghost predicate Inv(w: World) {
    && Shape(w)
    && TornDown(w)
    && forall r :: r in w.requests ==> Fits(ShareOf(w, r), r, w.client.done)
  }

  lemma StartKeepsInv()
    ensures Inv(Start)
  {
  }

  // ----- The messages on their way to one request -----

  lemma {:induction false} IncomingOfMore(wire: seq<Message>, msg: Message, r: RequestId)
    ensures Incoming(wire + [msg], r) == Incoming(wire, r) + (if msg.Reply? && msg.origin == r then [msg] else [])
  {
    if wire == [] {
      assert wire + [msg] == [msg];
    } else {
      IncomingOfMore(wire[1..], msg, r);
      assert (wire + [msg])[1..] == wire[1..] + [msg];
    }
  }

  lemma {:induction false} IncomingIsThere(wire: seq<Message>, i: nat, r: RequestId)
    requires i < |wire| && wire[i].Reply? && wire[i].origin == r
    ensures Incoming(wire, r) != []
  {
    if i > 0 {
      IncomingIsThere(wire[1..], i - 1, r);
    }
  }

  lemma {:induction false} NothingIncoming(wire: seq<Message>, r: RequestId)
    requires forall i :: 0 <= i < |wire| && wire[i].Reply? ==> wire[i].origin != r
    ensures Incoming(wire, r) == []
  {
    if wire != [] {
      NothingIncoming(wire[1..], r);
    }
  }

  // ----- What a step does to the share of the request it concerns -----

  lemma SentFits(s: Share, r: RequestId, total: nat)
    requires Fits(s, r, false) && s.record.phase == Registered
    ensures Fits(s.(owed := true, record := s.record.(phase := OnWire, total := total)), r, false)
  {
  }

  /** A request whose caller is done with it, or that never reached the wire, may lose its entry. */
  lemma SettledFits(s: Share, r: RequestId)
    requires Fits(s, r, false) && (s.record.phase == Registered || (s.record.phase == OnWire && s.record.finalTaken))
    ensures Fits(s.(entry := None, record := s.record.(phase := Settled)), r, false)
  {
    assert s.Trail() == [];
  }

  lemma ServerSendsFits(s: Share, r: RequestId, msg: Message, final: bool)
    requires Fits(s, r, false) && s.owed && (!s.record.transaction ==> final)
    requires msg == Reply(s.record.mid, r, s.record.sent, final)
    ensures Fits(s.(incoming := s.incoming + [msg], owed := !final, record := s.record.(sent := s.record.sent + 1)), r, false)
  {
    var s' := s.(incoming := s.incoming + [msg], owed := !final, record := s.record.(sent := s.record.sent + 1));
    assert s'.Trail() == s.Trail() + [msg];
  }

  /** The receive loop hands the next message to a waiter with room. */
  lemma DeliveredFits(s: Share, r: RequestId)
    requires Fits(s, r, false) && s.incoming != [] && s.incoming[0].Reply? && s.incoming[0].origin == r
    requires |s.queue.items| < s.queue.depth && s.record.phase != Abandoned
    ensures Fits(s.(incoming := s.incoming[1..], queue := Offer(s.queue, s.incoming[0])), r, false)
  {
    var s' := s.(incoming := s.incoming[1..], queue := Offer(s.queue, s.incoming[0]));
    assert s'.Trail() == s.Trail();
  }

  /** The next message is lost: to a full queue, to a caller that gave up, or to a decoding failure. */
  lemma DiscardedFits(s: Share, s': Share, r: RequestId)
    requires Fits(s, r, false) && s.incoming != []
    requires s' == s.(incoming := s.incoming[1..], record := s'.record, entry := s'.entry, lost := s'.lost)
    requires s'.record == s.record.(dropped := s'.record.dropped, garbled := s'.record.garbled)
    requires s'.record.dropped && !s.record.dropped ==> |s.queue.items| >= s.queue.depth
    requires s'.entry == s.entry || (s'.entry == None && !s'.lost && s.record.phase == Abandoned && !s.record.transaction)
    requires s'.lost == s.lost || (s'.lost && s.incoming[0].Reply? && s.incoming[0].final)
    requires !s.record.transaction ==> s'.lost || (s.record.phase == Abandoned && s'.entry == None)
    ensures Fits(s', r, false)
  {
    var t, t' := s.Trail(), s'.Trail();
    assert t[|s.queue.items|] == s.incoming[0];
    forall i | 0 <= i < |t'| ensures exists j :: i <= j < |t| && t'[i] == t[j] && (j == |t| - 1 ==> i == |t'| - 1) {
      var j := if i < |s.queue.items| then i else i + 1;
      assert t'[i] == t[j];
    }
  }

  lemma TakenFits(s: Share, r: RequestId, received: seq<nat>)
    requires Fits(s, r, false) && s.queue.items != [] && s.record.phase == OnWire
    ensures Fits(s.(queue := s.queue.(items := s.queue.items[1..]),
                    record := s.record.(received := received,
                                        finalTaken := s.queue.items[0].Reply? && s.queue.items[0].final,
                                        woken := s.record.woken || s.queue.items[0].Wake?)), r, false)
  {
    var msg := s.queue.items[0];
    assert s.Trail()[0] == msg;
    var s' := s.(queue := s.queue.(items := s.queue.items[1..]),
                 record := s.record.(received := received, finalTaken := msg.Reply? && msg.final,
                                     woken := s.record.woken || msg.Wake?));
    assert s'.Trail() == s.Trail()[1..];
  }

  lemma AbandonedFits(s: Share, r: RequestId)
    requires Fits(s, r, false) && s.record.phase == OnWire
    requires !s.record.transaction ==> !s.record.finalTaken
    ensures var freed := |s.queue.items| > 0 && !s.record.transaction;
      Fits(s.(entry := if freed then None else Some(s.entry.value.(cancelled := true)),
              record := s.record.(phase := Abandoned)), r, false)
  {
    if |s.queue.items| > 0 && !s.record.transaction {
      assert s.Trail()[0] == s.queue.items[0];
    }
  }

  // ----- Each step concerns one request -----

  /** Every map keeps its shape and only `r` is concerned: every other request's share is what it was. */
  ghost predicate OnlyConcerns(w: World, w': World, r: RequestId) {
    && Shape(w') && TornDown(w')
    && w'.requests.Keys == w.requests.Keys == w.client.queues.Keys
    && w'.client.done == w.client.done
    && r in w.requests
    && forall q :: q in w.requests && q != r ==> ShareOf(w', q) == ShareOf(w, q)
  }

  lemma OneShareSuffices(w: World, w': World, r: RequestId)
    requires Inv(w) && OnlyConcerns(w, w', r)
    requires Fits(ShareOf(w', r), r, w.client.done)
    ensures Inv(w')
  {
    forall q | q in w'.requests ensures Fits(ShareOf(w', q), q, w'.client.done) {
      if q != r {
        assert ShareOf(w', q) == ShareOf(w, q);
      }
    }
  }

  /** The same pending map but for the MID that `r` holds, which it goes on holding or gives back. */
  ghost predicate EntryChange(pending: map<Mid, Pending>, pending': map<Mid, Pending>, m: Mid, r: RequestId) {
    && (m in pending ==> pending[m].request == r)
    && (m in pending' ==> pending'[m].request == r)
    && pending - {m} == pending' - {m}
  }

  lemma EntryOfOthers(pending: map<Mid, Pending>, pending': map<Mid, Pending>, m: Mid, r: RequestId, n: Mid, q: RequestId)
    requires EntryChange(pending, pending', m, r) && q != r
    ensures Entry(pending', n, q) == Entry(pending, n, q)
  {
    if n != m {
      assert n in pending <==> n in pending - {m};
      assert n in pending' <==> n in pending' - {m};
      assert n in pending ==> (pending - {m})[n] == pending[n];
      assert n in pending' ==> (pending' - {m})[n] == pending'[n];
    }
  }

  lemma EntryChangeConcerns(w: World, w': World, r: RequestId, pending': map<Mid, Pending>, phase: Phase)
    requires Shape(w) && TornDown(w) && r in w.requests
    requires EntryChange(w.client.pending, pending', w.requests[r].mid, r)
    requires w.client.done ==> pending' == map[]
    requires w.requests[r].mid in pending' ==> w.requests[r].mid in w.client.pending
    requires w' == SetPhase(w.(client := w.client.(pending := pending')), r, phase)
    ensures OnlyConcerns(w, w', r)
    ensures ShareOf(w', r)
      == ShareOf(w, r).(entry := Entry(pending', w.requests[r].mid, r), record := w.requests[r].(phase := phase))
  {
    var m := w.requests[r].mid;
    forall q | q in w.requests && q != r ensures ShareOf(w', q) == ShareOf(w, q) {
      EntryOfOthers(w.client.pending, pending', m, r, w.requests[q].mid, q);
    }
    forall n | n in pending' ensures n != RESERVED_MID && PendingNames(w', n) {
      if n != m {
        assert n in pending' - {m} && n in w.client.pending - {m};
        assert (w.client.pending - {m})[n] == (pending' - {m})[n];
      }
      assert PendingNames(w, n);
    }
    forall i | 0 <= i < |w'.wire| ensures WireNames(w', w'.wire[i]) {
      assert WireNames(w, w.wire[i]);
    }
  }

  lemma UnregisterConcerns(w: World, r: RequestId)
    requires Shape(w) && TornDown(w) && r in w.requests
    requires !w.client.done ==> ShareOf(w, r).entry.Some?
    ensures var w' := SetPhase(w.(client := Unregister(w.client, w.requests[r].mid)), r, Settled);
      OnlyConcerns(w, w', r)
      && ShareOf(w', r) == ShareOf(w, r).(entry := None, record := w.requests[r].(phase := Settled))
  {
    EntryChangeConcerns(w, SetPhase(w.(client := Unregister(w.client, w.requests[r].mid)), r, Settled), r,
                        w.client.pending - {w.requests[r].mid}, Settled);
  }

  lemma SentConcerns(w: World, r: RequestId, total: nat)
    requires Shape(w) && TornDown(w) && Enabled(w, Sent(r, total))
    ensures var w' := Apply(w, Sent(r, total));
      OnlyConcerns(w, w', r)
      && ShareOf(w', r) == ShareOf(w, r).(owed := true, record := w.requests[r].(phase := OnWire, total := total))
  {
  }

  lemma ServerSendsShape(w: World, r: RequestId, final: bool)
    requires Shape(w) && TornDown(w) && Enabled(w, ServerSends(r, final))
    ensures Shape(Apply(w, ServerSends(r, final))) && TornDown(Apply(w, ServerSends(r, final)))
    ensures w.requests.Keys == w.client.queues.Keys
  {
  }

  lemma ServerSendsConcerns(w: World, r: RequestId, final: bool)
    requires Shape(w) && TornDown(w) && Enabled(w, ServerSends(r, final))
    ensures var w' := Apply(w, ServerSends(r, final));
      var q := w.requests[r];
      OnlyConcerns(w, w', r)
      && ShareOf(w', r) == ShareOf(w, r).(
           incoming := ShareOf(w, r).incoming + [Reply(q.mid, r, q.sent, final)],
           owed := !final, record := q.(sent := q.sent + 1))
  {
    hide Shape, TornDown, Incoming, Entry;
    ServerSendsShape(w, r, final);
    forall q | q in w.requests
      ensures Incoming(Apply(w, ServerSends(r, final)).wire, q)
        == Incoming(w.wire, q) + (if q == r then [Reply(w.requests[r].mid, r, w.requests[r].sent, final)] else [])
    {
      IncomingOfMore(w.wire, Reply(w.requests[r].mid, r, w.requests[r].sent, final), q);
    }
  }

  function ReceivedToo(received: seq<nat>, msg: Message): seq<nat> {
    if msg.Reply? then received + [msg.seqno] else received
  }

  lemma TakeConcerns(w: World, r: RequestId)
    requires Shape(w) && TornDown(w) && Enabled(w, TakeMessage(r))
    ensures var w' := Apply(w, TakeMessage(r));
      var s := ShareOf(w, r);
      OnlyConcerns(w, w', r)
      && ShareOf(w', r) == s.(
           queue := s.queue.(items := s.queue.items[1..]),
           record := s.record.(
             received := ReceivedToo(s.record.received, s.queue.items[0]),
             finalTaken := s.record.finalTaken || (s.queue.items[0].Reply? && s.queue.items[0].final),
             woken := s.record.woken || s.queue.items[0].Wake?))
  {
  }

  ghost predicate FreedOnAbandon(s: Share) {
    |s.queue.items| > 0 && !s.record.transaction
  }

  lemma AbandonConcerns(w: World, r: RequestId)
    requires Shape(w) && TornDown(w) && Enabled(w, Finish(r, true)) && !w.client.done
    requires ShareOf(w, r).entry.Some? && ShareOf(w, r).entry.value.transaction == w.requests[r].transaction
    requires !FreedOnAbandon(ShareOf(w, r))
    ensures OnlyConcerns(w, Apply(w, Finish(r, true)), r)
    ensures var s := ShareOf(w, r);
      ShareOf(Apply(w, Finish(r, true)), r)
        == s.(entry := Some(s.entry.value.(cancelled := true)), record := s.record.(phase := Abandoned))
  {
    var m := w.requests[r].mid;
    EntryChangeConcerns(w, Apply(w, Finish(r, true)), r,
                        w.client.pending[m := w.client.pending[m].(cancelled := true)], Abandoned);
  }

  lemma AbandonAnsweredConcerns(w: World, r: RequestId)
    requires Shape(w) && TornDown(w) && Enabled(w, Finish(r, true)) && !w.client.done
    requires ShareOf(w, r).entry.Some? && ShareOf(w, r).entry.value.transaction == w.requests[r].transaction
    requires FreedOnAbandon(ShareOf(w, r))
    ensures OnlyConcerns(w, Apply(w, Finish(r, true)), r)
    ensures ShareOf(Apply(w, Finish(r, true)), r)
      == ShareOf(w, r).(entry := None, record := w.requests[r].(phase := Abandoned))
  {
    EntryChangeConcerns(w, Apply(w, Finish(r, true)), r, w.client.pending - {w.requests[r].mid}, Abandoned);
  }

  lemma FinishIsUnregister(w: World, r: RequestId)
    requires Shape(w) && Enabled(w, Finish(r, false)) && ShareOf(w, r).entry.Some?
    ensures Apply(w, Finish(r, false)) == SetPhase(w.(client := Unregister(w.client, w.requests[r].mid)), r, Settled)
  {
  }

  /** What the head of the byte stream does to the request it answers. */
  ghost function Arrival(s: Share, msg: Message): Share
    requires s.incoming != [] && s.entry.Some?
  {
    if s.entry.value.cancelled then
      s.(incoming := s.incoming[1..], entry := if s.entry.value.transaction then s.entry else None)
    else
      s.(incoming := s.incoming[1..], queue := Offer(s.queue, msg),
         record := s.record.(dropped := s.record.dropped || |s.queue.items| >= s.queue.depth))
  }

  lemma ReceiveShape(w: World)
    requires Shape(w) && TornDown(w) && Enabled(w, Receive)
    ensures Shape(Apply(w, Receive)) && TornDown(Apply(w, Receive))
    ensures w.requests.Keys == w.client.queues.Keys == Apply(w, Receive).requests.Keys
    ensures Apply(w, Receive).client.done == w.client.done
    ensures WireNames(w, w.wire[0])
  {
    assert WireNames(w, w.wire[0]);
    assert w.wire[0].mid in w.client.pending ==> PendingNames(w, w.wire[0].mid);
  }

  lemma ReceiveConcerns(w: World, r: RequestId)
    requires Shape(w) && TornDown(w) && Enabled(w, Receive) && w.wire[0].origin == r && r in w.requests
    requires !w.client.done && ShareOf(w, r).entry.Some?
    ensures OnlyConcerns(w, Apply(w, Receive), r)
    ensures ShareOf(w, r).incoming == [w.wire[0]] + Incoming(w.wire[1..], r)
    ensures ShareOf(Apply(w, Receive), r) == Arrival(ShareOf(w, r), w.wire[0])
  {
    hide Shape, TornDown;
    ReceiveShape(w);
    var msg, m := w.wire[0], w.requests[r].mid;
    if w.client.pending[m].cancelled {
      assert Dispatch(w.client, msg) == if w.client.pending[m].transaction then w.client else Unregister(w.client, m);
    } else {
      assert Dispatch(w.client, msg) == w.client.(queues := w.client.queues[r := Offer(w.client.queues[r], msg)]);
    }
  }

  lemma LateReceiveConcerns(w: World, r: RequestId)
    requires Shape(w) && TornDown(w) && Enabled(w, Receive) && w.wire[0].origin == r && r in w.requests && w.client.done
    ensures OnlyConcerns(w, Apply(w, Receive), r)
    ensures ShareOf(Apply(w, Receive), r) == ShareOf(w, r).(incoming := Incoming(w.wire[1..], r))
  {
    assert WireNames(w, w.wire[0]);
    assert Dispatch(w.client, w.wire[0]) == w.client;
  }

  lemma MalformedConcerns(w: World, r: RequestId)
    requires Shape(w) && TornDown(w) && Enabled(w, Malformed) && w.wire[0].origin == r
    ensures var w' := Apply(w, Malformed);
      OnlyConcerns(w, w', r)
      && ShareOf(w, r).incoming == [w.wire[0]] + Incoming(w.wire[1..], r)
      && ShareOf(w', r) == ShareOf(w, r).(incoming := Incoming(w.wire[1..], r), lost := r in w'.lost,
                                          record := w.requests[r].(garbled := true))
  {
    assert WireNames(w, w.wire[0]);
  }

  // ----- Each step keeps the invariant -----

  lemma UnregisteringKeepsInv(w: World, r: RequestId)
    requires Inv(w) && r in w.requests
    requires !w.client.done ==>
      w.requests[r].phase == Registered || (w.requests[r].phase == OnWire && w.requests[r].finalTaken)
    ensures Inv(SetPhase(w.(client := Unregister(w.client, w.requests[r].mid)), r, Settled))
  {
    assert Fits(ShareOf(w, r), r, w.client.done);
    UnregisterConcerns(w, r);
    if !w.client.done {
      SettledFits(ShareOf(w, r), r);
    }
    OneShareSuffices(w, SetPhase(w.(client := Unregister(w.client, w.requests[r].mid)), r, Settled), r);
  }

  lemma SentKeepsInv(w: World, r: RequestId, total: nat)
    requires Inv(w) && Enabled(w, Sent(r, total))
    ensures Inv(Apply(w, Sent(r, total)))
  {
    assert Fits(ShareOf(w, r), r, w.client.done);
    SentConcerns(w, r, total);
    if !w.client.done {
      SentFits(ShareOf(w, r), r, total);
    }
    OneShareSuffices(w, Apply(w, Sent(r, total)), r);
  }

  lemma ServerSendsKeepsInv(w: World, r: RequestId, final: bool)
    requires Inv(w) && Enabled(w, ServerSends(r, final))
    ensures Inv(Apply(w, ServerSends(r, final)))
  {
    assert Fits(ShareOf(w, r), r, w.client.done);
    ServerSendsConcerns(w, r, final);
    if !w.client.done {
      ServerSendsFits(ShareOf(w, r), r, Reply(w.requests[r].mid, r, w.requests[r].sent, final), final);
    }
    OneShareSuffices(w, Apply(w, ServerSends(r, final)), r);
  }

  lemma TakeMessageKeepsInv(w: World, r: RequestId)
    requires Inv(w) && Enabled(w, TakeMessage(r))
    ensures Inv(Apply(w, TakeMessage(r)))
  {
    var s := ShareOf(w, r);
    assert Fits(s, r, w.client.done);
    TakeConcerns(w, r);
    if !w.client.done {
      assert s.Trail()[0] == s.queue.items[0];
      TakenFits(s, r, ReceivedToo(s.record.received, s.queue.items[0]));
    }
    OneShareSuffices(w, Apply(w, TakeMessage(r)), r);
  }

  lemma FinishKeepsInv(w: World, r: RequestId, abandoned: bool)
    requires Inv(w) && Enabled(w, Finish(r, abandoned))
    ensures Inv(Apply(w, Finish(r, abandoned)))
  {
    hide TrailFits, OneReply;
    assert Fits(ShareOf(w, r), r, w.client.done);
    if w.client.done {
      assert Apply(w, Finish(r, abandoned)).client == w.client;
      OneShareSuffices(w, Apply(w, Finish(r, abandoned)), r);
    } else if abandoned {
      if FreedOnAbandon(ShareOf(w, r)) {
        AbandonAnsweredConcerns(w, r);
      } else {
        AbandonConcerns(w, r);
      }
      AbandonedFits(ShareOf(w, r), r);
      OneShareSuffices(w, Apply(w, Finish(r, abandoned)), r);
    } else {
      FinishIsUnregister(w, r);
      UnregisteringKeepsInv(w, r);
    }
  }

  lemma ArrivalFits(s: Share, r: RequestId)
    requires Fits(s, r, false) && s.incoming != []
    requires s.incoming[0].Reply? && s.incoming[0].origin == r
    ensures s.entry.Some? && Fits(Arrival(s, s.incoming[0]), r, false)
  {
    assert s.Trail()[|s.queue.items|] == s.incoming[0];
    if s.record.phase == Abandoned || |s.queue.items| >= s.queue.depth {
      DiscardedFits(s, Arrival(s, s.incoming[0]), r);
    } else {
      DeliveredFits(s, r);
    }
  }

  lemma ReceiveKeepsInv(w: World)
    requires Inv(w) && Enabled(w, Receive)
    ensures Inv(Apply(w, Receive))
  {
    var r := w.wire[0].origin;
    assert WireNames(w, w.wire[0]);
    assert Fits(ShareOf(w, r), r, w.client.done);
    if w.client.done {
      LateReceiveConcerns(w, r);
    } else {
      ReceiveConcerns(w, r);
      ArrivalFits(ShareOf(w, r), r);
    }
    OneShareSuffices(w, Apply(w, Receive), r);
  }

  lemma MalformedKeepsInv(w: World)
    requires Inv(w) && Enabled(w, Malformed)
    ensures Inv(Apply(w, Malformed))
  {
    var r := w.wire[0].origin;
    assert WireNames(w, w.wire[0]);
    var s := ShareOf(w, r);
    assert Fits(s, r, w.client.done);
    MalformedConcerns(w, r);
    if !w.client.done {
      assert s.Trail()[|s.queue.items|] == w.wire[0];
      DiscardedFits(s, ShareOf(Apply(w, Malformed), r), r);
    }
    OneShareSuffices(w, Apply(w, Malformed), r);
  }

  lemma TeardownFits(s: Share, s': Share, r: RequestId, done: bool)
    requires Fits(s, r, done) && s'.record == s.record
    requires s'.queue == s.queue || (exists e :: s'.queue == Offer(s.queue, Wake(e)))
    ensures Fits(s', r, true)
  {
  }

  lemma TeardownShape(w: World, e: ConnError)
    requires Shape(w) && TornDown(w)
    ensures var w' := w.(client := SetError(w.client, e));
      Shape(w') && TornDown(w') && w'.client.done
      && forall q :: q in w.requests ==>
           w'.client.queues[q] == w.client.queues[q] || w'.client.queues[q] == Offer(w.client.queues[q], Wake(e))
  {
  }

  lemma TeardownKeepsInv(w: World, e: ConnError)
    requires Inv(w)
    ensures Inv(w.(client := SetError(w.client, e)))
  {
    var w' := w.(client := SetError(w.client, e));
    TeardownShape(w, e);
    forall q | q in w'.requests ensures Fits(ShareOf(w', q), q, w'.client.done) {
      TeardownFits(ShareOf(w, q), ShareOf(w', q), q, w.client.done);
    }
  }

  lemma WithRequestShape(w: World, r: RequestId, transaction: bool, depth: nat, m: Mid)
    requires Shape(w) && TornDown(w) && r !in w.requests && !w.client.done && Usable(w.client.pending, m)
    ensures Shape(WithRequest(w, r, transaction, depth, m)) && TornDown(WithRequest(w, r, transaction, depth, m))
    ensures Incoming(w.wire, r) == []
  {
    var w' := WithRequest(w, r, transaction, depth, m);
    forall i | 0 <= i < |w'.wire| ensures WireNames(w', w'.wire[i]) && w'.wire[i].origin != r {
      assert WireNames(w, w.wire[i]);
    }
    forall n | n in w'.client.pending ensures n != RESERVED_MID && PendingNames(w', n) {
      assert n != m ==> PendingNames(w, n);
    }
    NothingIncoming(w.wire, r);
  }

  lemma WithRequestConcernsNobodyElse(w: World, r: RequestId, transaction: bool, depth: nat, m: Mid, q: RequestId)
    requires r !in w.requests && Usable(w.client.pending, m)
    requires q in w.requests && q in w.client.queues
    ensures ShareOf(WithRequest(w, r, transaction, depth, m), q) == ShareOf(w, q)
  {
  }

  lemma WithRequestKeepsFits(w: World, r: RequestId, transaction: bool, depth: nat, m: Mid)
    requires Inv(w) && r !in w.requests && !w.client.done && Usable(w.client.pending, m) && depth > 0
    requires Incoming(w.wire, r) == []
    ensures var w' := WithRequest(w, r, transaction, depth, m);
      forall q :: q in w'.requests ==> Fits(ShareOf(w', q), q, false)
  {
    var w' := WithRequest(w, r, transaction, depth, m);
    forall q | q in w'.requests ensures Fits(ShareOf(w', q), q, false) {
      if q != r {
        WithRequestConcernsNobodyElse(w, r, transaction, depth, m, q);
      }
    }
  }

  lemma BeginRequestKeepsInv(w: World, r: RequestId, transaction: bool, depth: nat)
    requires Inv(w) && Enabled(w, BeginRequest(r, transaction, depth))
    ensures Inv(Apply(w, BeginRequest(r, transaction, depth)))
  {
    if !w.client.done {
      if FirstFree(w.client.pending, w.client.nextMid, 0).None? {
        TeardownKeepsInv(w, MidsExhausted);
      } else {
        AllocationFailsExactlyWhenFull(w.client.pending, w.client.nextMid);
        var m := FirstFree(w.client.pending, w.client.nextMid, 0).value;
        WithRequestShape(w, r, transaction, depth, m);
        WithRequestKeepsFits(w, r, transaction, depth, m);
      }
    }
  }

  lemma CloseBeginKeepsInv(w: World)
    requires Inv(w)
    ensures Inv(Apply(w, CloseBegin))
  {
    hide EntryFits, TrailFits, OneReply;
    var w' := Apply(w, CloseBegin);
    if !w.client.done {
      forall q | q in w'.requests ensures Fits(ShareOf(w', q), q, true) && !w'.client.queues[q].closed {
        assert Fits(ShareOf(w, q), q, false);
      }
    }
  }

  lemma CloseOneKeepsInv(w: World, r: RequestId)
    requires Inv(w) && Enabled(w, CloseOne(r))
    ensures Inv(Apply(w, CloseOne(r)))
  {
    hide EntryFits, TrailFits, OneReply;
    assert Fits(ShareOf(w, r), r, w.client.done);
    OneShareSuffices(w, Apply(w, CloseOne(r)), r);
  }

  lemma StepKeepsInv(w: World, step: Step)
    requires Inv(w) && Enabled(w, step)
    ensures Inv(Apply(w, step))
  {
    match step
    case BeginRequest(r, transaction, depth) => BeginRequestKeepsInv(w, r, transaction, depth);
    case Unsent(r) => UnregisteringKeepsInv(w, r);
    case Sent(r, total) => SentKeepsInv(w, r, total);
    case ServerSends(r, final) => ServerSendsKeepsInv(w, r, final);
    case Receive => ReceiveKeepsInv(w);
    case Malformed => MalformedKeepsInv(w);
    case TakeMessage(r) => TakeMessageKeepsInv(w, r);
    case DeleteTaken(r) => UnregisteringKeepsInv(w, r);
    case Finish(r, abandoned) => FinishKeepsInv(w, r, abandoned);
    case Fail(e) => TeardownKeepsInv(w, e);
    case CloseBegin => CloseBeginKeepsInv(w);
    case CloseOne(r) => CloseOneKeepsInv(w, r);
  }

  lemma {:induction false} ExecutionKeepsInv(w: World, steps: seq<Step>, w': World)
    requires Inv(w) && Execution(w, steps, w')
    ensures Inv(w')
    decreases |steps|
  {
    if steps != [] {
      StepKeepsInv(w, steps[0]);
      ExecutionKeepsInv(Apply(w, steps[0]), steps[1..], w');
    }
  }
}
