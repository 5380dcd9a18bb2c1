/** Keeping several requests of one transfer in flight on a shared connection,
    and letting go of all of them however the transfer ends. */
module Pipeline {
  import opened ConnModel
  import opened Protocol
  import opened ProtocolSafety
  import opened ProtocolOrder
  import opened Rely
  import opened Chunks
  import opened Storage
  import opened Connection

  function Ids(qs: seq<WireRequest>): set<RequestId> {
    set q | q in qs :: q.request
  }

  /** Every request of the list is on the wire with its caller waiting, each once. */
  ghost predicate AllAwaiting(w: World, qs: seq<WireRequest>) {
    && (forall j :: 0 <= j < |qs| ==> Awaiting(w, qs[j]))
    && (forall j, k :: 0 <= j < k < |qs| ==> qs[j].request != qs[k].request)
  }

  /** What a caller has in hand: of all the requests it began it waits for these, and is done with the others. */
  ghost predicate InHand(w: World, waiting: seq<WireRequest>, mine: set<RequestId>) {
    AllAwaiting(w, waiting) && Ids(waiting) <= mine && mine <= w.requests.Keys && NoneAwaited(w, mine - Ids(waiting))
  }

  lemma NothingInHand(w: World, mine: set<RequestId>)
    ensures InHand(w, [], mine) <==> Clean(w, mine)
  {
    assert mine - Ids([]) == mine;
  }

  lemma InHandIsStable(w: World, w': World, waiting: seq<WireRequest>, mine: set<RequestId>)
    requires InHand(w, waiting, mine) && Tolerated(mine, w, w')
    ensures InHand(w', waiting, mine)
  {
    forall j | 0 <= j < |waiting| ensures Awaiting(w', waiting[j]) {
      assert waiting[j].request in Ids(waiting) && Awaiting(w, waiting[j]);
      assert Undisturbed(w, w', waiting[j].request);
    }
    CleanIsStable(w, w', mine - Ids(waiting));
  }

  lemma IdsOfRest(qs: seq<WireRequest>)
    requires qs != []
    requires forall j, k :: 0 <= j < k < |qs| ==> qs[j].request != qs[k].request
    ensures Ids(qs) == {qs[0].request} + Ids(qs[1..]) && qs[0].request !in Ids(qs[1..])
  {
    assert qs == [qs[0]] + qs[1..];
  }

  lemma IdsOfMore(qs: seq<WireRequest>, q: WireRequest)
    ensures Ids(qs + [q]) == Ids(qs) + {q.request}
  {
    assert forall p :: p in qs + [q] <==> p in qs || p == q;
  }

  /** What one more request in hand, or one that was begun and not sent, makes of the caller's hands. */
  lemma OneMoreInHand(w: World, w': World, waiting: seq<WireRequest>, mine: set<RequestId>, q: WireRequest)
    requires InHand(w, waiting, mine) && Tolerated(mine, w, w') && q.request !in w.requests
    ensures Awaiting(w', q) ==> InHand(w', waiting + [q], mine + {q.request})
    ensures NotAwaited(w', q.request) && q.request in w'.requests ==> InHand(w', waiting, mine + {q.request})
    ensures InHand(w', waiting, mine)
  {
    InHandIsStable(w, w', waiting, mine);
    IdsOfMore(waiting, q);
    assert forall j :: 0 <= j < |waiting| ==> waiting[j].request in Ids(waiting);
    assert mine + {q.request} - Ids(waiting + [q]) == mine - Ids(waiting);
    assert mine + {q.request} - Ids(waiting) == mine - Ids(waiting) + {q.request};
  }

  /** Sends the next request of a transfer on top of those in hand. */
  method SendNext(conn: Conn, waiting: seq<WireRequest>, ask: Ask) returns (sent: bool, q: WireRequest)
    requires conn.Valid() && InHand(conn.world, waiting, conn.diary.mine) && WithinLimits(ask, conn.limits)
    modifies conn, conn.mishaps`count, conn.mishaps`broken, conn.mishaps`reported
    ensures conn.mishaps.count == old(conn.mishaps.count) + if sent then 0 else 1
    ensures conn.Valid() && q.request !in old(conn.world).requests && q.request !in old(conn.diary).mine
    ensures InHand(conn.world, if sent then waiting + [q] else waiting, conn.diary.mine)
    ensures conn.diary == old(conn.diary).WithBegun(q.request, ask).Peaked(|waiting| + 1)
         || (!sent && conn.diary == old(conn.diary).Peaked(|waiting| + 1))
  {
    hide Sound, InFlight, NotAwaited, Tolerated;
    ghost var before, mine := conn.world, conn.diary.mine;
    sent, q := conn.SendPacket(false, 1, ask, 1);
    conn.diary := conn.diary.Peaked(|waiting| + 1);
    OneMoreInHand(before, conn.world, waiting, mine, q);
  }

  predicate AllAsksWithinLimits(asks: seq<Ask>, limits: Negotiated) {
    forall j :: 0 <= j < |asks| ==> WithinLimits(asks[j], limits)
  }

  /** The caller asked this with the request. */
  predicate Recorded(d: Diary, r: RequestId, ask: Ask) {
    r in d.mine && r in d.asked && d.asked[r] == ask
  }

  ghost predicate AllRecorded(d: Diary, sent: seq<WireRequest>, asks: seq<Ask>) {
    |sent| <= |asks| && forall j :: 0 <= j < |sent| ==> Recorded(d, sent[j].request, asks[j])
  }

  lemma OneMoreRecorded(d: Diary, d': Diary, sent: seq<WireRequest>, q: WireRequest, asks: seq<Ask>, ok: bool, depth: nat)
    requires AllRecorded(d, sent, asks) && |sent| < |asks| && q.request !in d.mine
    requires d' == d.WithBegun(q.request, asks[|sent|]).Peaked(depth) || (!ok && d' == d.Peaked(depth))
    ensures AllRecorded(d', if ok then sent + [q] else sent, asks) && Continues(d, d', depth)
  {
  }

  lemma EachIsRecorded(d: Diary, sent: seq<WireRequest>, asks: seq<Ask>, i: nat)
    requires AllRecorded(d, sent, asks) && i < |sent|
    ensures Recorded(d, sent[i].request, asks[i])
  {
  }

  lemma ContinuesAtMost(d: Diary, d': Diary, n: nat, depth: nat)
    requires Continues(d, d', n) && n <= depth
    ensures Continues(d, d', depth)
  {
  }

  /** Requests in hand are different ones. */
  lemma EachOnce(w: World, waiting: seq<WireRequest>, mine: set<RequestId>)
    requires InHand(w, waiting, mine)
    ensures forall j, k :: 0 <= j < k < |waiting| ==> waiting[j].request != waiting[k].request
  {
  }

  lemma RecordedAreMine(d: Diary, sent: seq<WireRequest>, asks: seq<Ask>)
    requires AllRecorded(d, sent, asks)
    ensures forall j :: 0 <= j < |sent| ==> sent[j].request in d.mine
  {
    forall j | 0 <= j < |sent| ensures sent[j].request in d.mine {
      assert Recorded(d, sent[j].request, asks[j]);
    }
  }

  lemma FirstAreRecorded(d: Diary, d': Diary, sent: seq<WireRequest>, asks: seq<Ask>, n: nat, depth: nat)
    requires n <= |asks| && AllRecorded(d', sent, asks[..n]) && Continues(d, d', n) && n <= depth
    ensures AllRecorded(d', sent, asks) && Continues(d, d', depth)
  {
  }

  /** Sends the first requests of a transfer, each asking what it should, or as many as go out before a send fails. */
  method SendBatch(conn: Conn, asks: seq<Ask>) returns (sent: seq<WireRequest>, ok: bool)
    requires conn.Valid() && Clean(conn.world, conn.diary.mine)
    requires AllAsksWithinLimits(asks, conn.limits)
    modifies conn, conn.mishaps`count, conn.mishaps`broken, conn.mishaps`reported
    ensures conn.mishaps.count == old(conn.mishaps.count) + if ok then 0 else 1
    ensures conn.Valid() && InHand(conn.world, sent, conn.diary.mine)
    ensures AllRecorded(conn.diary, sent, asks) && (ok <==> |sent| == |asks|)
    ensures Continues(old(conn.diary), conn.diary, |asks|) && conn.diary.peak >= |sent|
  {
    hide Sound, InHand, Clean, Conn.Valid;
    sent, ok := [], true;
    NothingInHand(conn.world, conn.diary.mine);
    while |sent| < |asks|
      invariant conn.Valid() && InHand(conn.world, sent, conn.diary.mine)
      invariant AllRecorded(conn.diary, sent, asks) && |sent| <= |asks| && ok
      invariant Continues(old(conn.diary), conn.diary, |asks|) && conn.diary.peak >= |sent|
      invariant conn.mishaps.count == old(conn.mishaps.count)
      decreases |asks| - |sent|
    {
      ghost var before := conn.diary;
      var q;
      ok, q := SendNext(conn, sent, asks[|sent|]);
      OneMoreRecorded(before, conn.diary, sent, q, asks, ok, |sent| + 1);
      ContinuesOn(old(conn.diary), before, conn.diary, |asks|, |sent| + 1);
      if !ok {
        return;
      }
      sent := sent + [q];
    }
  }

  /** As many requests were in flight at once as the depth allows for a transfer of this length in chunks of that size. */
  predicate FillsPipeline(d: Diary, limits: Negotiated, total: nat, max: nat)
    requires max > 0
  {
    d.peak >= Min(PipelineDepth(limits.maxMpxCount).0, NumChunks(total, max))
  }

  datatype Event = Replied(msg: Message) | Stopped | Down

  predicate IsReply(event: Event) {
    event.Replied? && event.msg.Reply?
  }

  /** Takes the waiting message, and in a later critical section frees the MID. */
  method TakeAndFree(conn: Conn, q: WireRequest) returns (msg: Message)
    requires conn.Valid() && Awaiting(conn.world, q) && q.request in conn.diary.mine
    requires conn.queues[q.request].items != []
    modifies conn
    ensures conn.Valid() && conn.Only(q.request) && NotAwaited(conn.world, q.request)
    ensures msg == old(conn.queues[q.request].items[0])
    ensures if msg.Reply? then AnsweredBy(conn.world, q.request, msg) else conn.done
  {
    hide Sound, Apply;
    ghost var others := conn.diary.mine - {q.request};
    TakenAnswers(conn.world, q);
    msg := conn.TakeFrom(q.request);
    label taken:
    conn.Interfere();
    ToleranceGoesOn(others, old(conn.world), old@taken(conn.world), conn.world, conn.diary.mine);
    assert Undisturbed(old@taken(conn.world), conn.world, q.request);
    DeletedIsSettled(conn.world, q.request, msg);
    label freeing:
    conn.FreeTaken(q.request, q.mid);
    ToleranceGoesOn(others, old(conn.world), old@freeing(conn.world), conn.world, others);
  }

  /** One turn of the select every waiting loop makes: the reply, the end of the caller's patience
      (its context, or a deadline), or teardown. A reply taken frees its MID. */
  method Await(conn: Conn, q: WireRequest) returns (event: Event)
    requires conn.Valid() && Awaiting(conn.world, q) && q.request in conn.diary.mine
    modifies conn, conn.mishaps`count, conn.mishaps`impatient
    ensures conn.mishaps.count == old(conn.mishaps.count) + if IsReply(event) then 0 else 1
    ensures conn.mishaps.impatient == old(conn.mishaps.impatient) + if event.Stopped? then 1 else 0
    ensures conn.Valid() && conn.Only(q.request)
    ensures if event.Replied? then NotAwaited(conn.world, q.request) else Awaiting(conn.world, q)
    ensures IsReply(event) ==> AnsweredBy(conn.world, q.request, event.msg)
    ensures event.Down? || (event.Replied? && !IsReply(event)) ==> conn.done
  {
    hide Sound, NotAwaited, AnsweredBy;
    conn.Interfere();
    label ready:
    assert Undisturbed(old(conn.world), conn.world, q.request);
    var choice := conn.Select(q.request);
    match choice {
      case Ready =>
        var msg := TakeAndFree(conn, q);
        ToleranceGoesOn(conn.diary.mine - {q.request}, old(conn.world), old@ready(conn.world), conn.world, conn.diary.mine - {q.request});
        event := Replied(msg);
      case Impatient =>
        event := Stopped;
      case TornDown =>
        event := Down;
      case Drained =>
        AwaitedQueueIsNotDry(conn.world, q);
        assert false;
    }
  }

  /** Letting go of the next request the caller waits for. */
  lemma LetGoOfNext(w: World, w': World, waiting: seq<WireRequest>, mine: set<RequestId>)
    requires InHand(w, waiting, mine) && waiting != []
    requires Tolerated(mine - {waiting[0].request}, w, w') && NotAwaited(w', waiting[0].request)
    ensures InHand(w', waiting[1..], mine)
  {
    var r := waiting[0].request;
    IdsOfRest(waiting);
    assert InHand(w, waiting[1..], mine - {r}) by {
      assert mine - {r} - Ids(waiting[1..]) == mine - Ids(waiting);
    }
    InHandIsStable(w, w', waiting[1..], mine - {r});
    assert mine - Ids(waiting[1..]) == mine - {r} - Ids(waiting[1..]) + {r};
  }

  lemma StillInHand(w: World, w': World, waiting: seq<WireRequest>, mine: set<RequestId>)
    requires InHand(w, waiting, mine) && waiting != []
    requires Tolerated(mine - {waiting[0].request}, w, w') && Awaiting(w', waiting[0])
    ensures InHand(w', waiting, mine)
  {
    var r := waiting[0].request;
    IdsOfRest(waiting);
    assert InHand(w, waiting[1..], mine - {r}) by {
      assert mine - {r} - Ids(waiting[1..]) == mine - Ids(waiting);
    }
    InHandIsStable(w, w', waiting[1..], mine - {r});
    assert mine - Ids(waiting) == mine - {r} - Ids(waiting[1..]);
    assert forall j :: 0 <= j < |waiting| ==> waiting[j] == if j == 0 then waiting[0] else waiting[1..][j - 1];
  }

  /** abandonChunks: gives up on every request still on the wire. */
  method AbandonChunks(conn: Conn, qs: seq<WireRequest>)
    requires conn.Valid() && InHand(conn.world, qs, conn.diary.mine)
    modifies conn, conn.mishaps`abandoned
    ensures conn.Valid() && conn.diary == old(conn.diary) && Clean(conn.world, conn.diary.mine)
  {
    hide Sound, Apply, Awaiting, NotAwaited;
    for i := 0 to |qs|
      invariant conn.Valid() && conn.diary == old(conn.diary) && InHand(conn.world, qs[i..], conn.diary.mine)
    {
      assert qs[i..][1..] == qs[i + 1..] && qs[i..][0] == qs[i];
      AwaitingMayBeAbandoned(conn, qs[i]);
      ghost var before := conn.world;
      conn.Release(qs[i], true);
      LetGoOfNext(before, conn.world, qs[i..], conn.diary.mine);
    }
    NothingInHand(conn.world, conn.diary.mine);
    assert qs[|qs|..] == [];
  }

  lemma AwaitingMayBeAbandoned(conn: Conn, q: WireRequest)
    requires conn.Valid() && Awaiting(conn.world, q)
    ensures InPhase(conn.world, q.request, OnWire) && q.request in conn.queues
    ensures conn.world.requests[q.request].mid == q.mid && !conn.world.requests[q.request].transaction
    ensures !conn.world.requests[q.request].finalTaken
  {
  }

  /** Waits for the first request in hand. */
  method AwaitNext(conn: Conn, waiting: seq<WireRequest>) returns (event: Event)
    requires conn.Valid() && InHand(conn.world, waiting, conn.diary.mine) && waiting != []
    modifies conn, conn.mishaps`count, conn.mishaps`impatient
    ensures conn.mishaps.count == old(conn.mishaps.count) + if IsReply(event) then 0 else 1
    ensures conn.mishaps.impatient == old(conn.mishaps.impatient) + if event.Stopped? then 1 else 0
    ensures conn.Valid() && conn.diary == old(conn.diary)
    ensures InHand(conn.world, if event.Replied? then waiting[1..] else waiting, conn.diary.mine)
    ensures IsReply(event) ==> AnsweredBy(conn.world, waiting[0].request, event.msg)
    ensures event.Down? || (event.Replied? && !IsReply(event)) ==> conn.done
  {
    hide Sound, Awaiting, NotAwaited;
    ghost var before := conn.world;
    assert waiting[0].request in Ids(waiting);
    event := Await(conn, waiting[0]);
    if event.Replied? {
      LetGoOfNext(before, conn.world, waiting, conn.diary.mine);
    } else {
      StillInHand(before, conn.world, waiting, conn.diary.mine);
    }
  }

  /** collectReplies: takes the replies still to come, until one does not come in time and the rest is abandoned. */
  method CollectReplies(conn: Conn, qs: seq<WireRequest>)
    requires conn.Valid() && InHand(conn.world, qs, conn.diary.mine)
    modifies conn, conn.mishaps`count, conn.mishaps`impatient, conn.mishaps`abandoned
    ensures conn.mishaps.count >= old(conn.mishaps.count) && conn.mishaps.impatient >= old(conn.mishaps.impatient)
    ensures conn.mishaps.count == old(conn.mishaps.count) ==> conn.mishaps.abandoned == old(conn.mishaps.abandoned)
    ensures conn.Valid() && conn.diary == old(conn.diary) && Clean(conn.world, conn.diary.mine)
  {
    hide Sound, InHand, Clean;
    for i := 0 to |qs|
      invariant conn.Valid() && conn.diary == old(conn.diary) && InHand(conn.world, qs[i..], conn.diary.mine)
      invariant conn.mishaps.count >= old(conn.mishaps.count) && conn.mishaps.impatient >= old(conn.mishaps.impatient)
      invariant conn.mishaps.abandoned == old(conn.mishaps.abandoned)
    {
      assert qs[i..][1..] == qs[i + 1..];
      var event := AwaitNext(conn, qs[i..]);
      if event.Stopped? {
        AbandonChunks(conn, qs[i..]);
        return;
      }
      if event.Down? {
        DownAwaitsNobody(conn);
        return;
      }
    }
    NothingInHand(conn.world, conn.diary.mine);
    assert qs[|qs|..] == [];
  }

  lemma DownAwaitsNobody(conn: Conn)
    requires conn.Valid() && conn.done
    ensures Clean(conn.world, conn.diary.mine)
  {
  }
}
