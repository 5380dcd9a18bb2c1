/** The numbers of a request's replies: they reach its caller in the order sent, each at most once, and without
    a gap unless one was lost on the way. */
module ProtocolOrder {
  import opened Wrappers
  import opened ConnModel
  import opened Protocol
  import opened ProtocolSafety

  function Seqnos(ms: seq<Message>): seq<nat> {
    if ms == [] then []
    else (if ms[0].Reply? then [ms[0].seqno] else []) + Seqnos(ms[1..])
  }

  /** The replies the caller received or could still receive, in order. */
  function Numbers(s: Share): seq<nat> {
    s.record.received + (Seqnos(s.queue.items) + Seqnos(s.incoming))
  }

  ghost predicate Increasing(ns: seq<nat>, bound: nat) {
    && (forall i :: 0 <= i < |ns| ==> ns[i] < bound)
    && (forall i, j :: 0 <= i < j < |ns| ==> ns[i] < ns[j])
  }

  /** The numbers from zero on, none missing. */
  ghost predicate Gapless(ns: seq<nat>) {
    forall i :: 0 <= i < |ns| ==> ns[i] == i
  }

  /** The last message of a reply, and only that one, is marked as final. */
  ghost predicate FinalsFit(ms: seq<Message>, total: nat) {
    forall i :: 0 <= i < |ms| && ms[i].Reply? ==> (ms[i].final <==> ms[i].seqno + 1 == total)
  }

  predicate NothingLost(q: Request) {
    !q.dropped && !q.garbled
  }

  /** The next message on the wire would be handed to the request's caller. */
  predicate Deliverable(s: Share, done: bool) {
    !done && s.entry.Some? && !s.entry.value.cancelled
  }

  ghost predicate Counted(s: Share, done: bool) {
    var q := s.record;
    && Increasing(Numbers(s), q.sent) && q.sent <= q.total
    && (s.owed ==> q.sent < q.total)
    && (NothingLost(q) ==> Gapless(q.received + Seqnos(s.queue.items)))
    && (NothingLost(q) && Deliverable(s, done) ==> |Numbers(s)| == q.sent)
  }

  predicate HasNews(ms: seq<Message>) {
    exists i :: 0 <= i < |ms| && ms[i].Wake?
  }

  /** A closed queue holds, or its caller received, the news of teardown, unless it was full of replies when closed. */
  predicate NewsFits(s: Share) {
    s.queue.closed ==>
      s.record.woken || HasNews(s.queue.items) || |s.record.received| + |s.queue.items| >= s.queue.depth
  }

  ghost predicate InOrder(s: Share, done: bool) {
    var q := s.record;
    && Counted(s, done) && NewsFits(s)
    && FinalsFit(s.queue.items, q.total) && FinalsFit(s.incoming, q.total)
    && (q.phase == Registered ==> q.sent == 0 && !s.owed)
    && (q.dropped ==> q.sent > q.depth)
    && (q.finalTaken <==> q.received != [] && q.received[|q.received| - 1] + 1 == q.total)
  }

  ghost predicate Ordered(w: World) {
    forall r :: r in w.requests && r in w.client.queues ==> InOrder(ShareOf(w, r), w.client.done)
  }

  // ----- Sequences of numbers -----

  lemma ConcatIsAssociative(a: seq<nat>, b: seq<nat>, c: seq<nat>)
    ensures a + (b + c) == (a + b) + c
  {
  }

  lemma {:induction false} SeqnosConcat(a: seq<Message>, b: seq<Message>)
    ensures Seqnos(a + b) == Seqnos(a) + Seqnos(b)
  {
    if a == [] {
      assert a + b == b;
    } else {
      SeqnosConcat(a[1..], b);
      assert (a + b)[0] == a[0] && (a + b)[1..] == a[1..] + b;
      ConcatIsAssociative(if a[0].Reply? then [a[0].seqno] else [], Seqnos(a[1..]), Seqnos(b));
    }
  }

  lemma SeqnosOfOne(m: Message)
    ensures Seqnos([m]) == if m.Reply? then [m.seqno] else []
  {
    assert [m][1..] == [];
  }

  lemma {:induction false} SeqnosOfReplies(ms: seq<Message>)
    requires forall i :: 0 <= i < |ms| ==> ms[i].Reply?
    ensures |Seqnos(ms)| == |ms| && forall i :: 0 <= i < |ms| ==> Seqnos(ms)[i] == ms[i].seqno
  {
    if ms != [] {
      SeqnosOfReplies(ms[1..]);
    }
  }

  /** So many numbers below a bound and all in order can only be all of them. */
  lemma {:induction false} AllBelow(ns: seq<nat>, bound: nat)
    requires Increasing(ns, bound)
    ensures |ns| <= bound && (|ns| == bound ==> Gapless(ns))
    decreases |ns|
  {
    if ns != [] {
      var last := |ns| - 1;
      assert forall i :: 0 <= i < last ==> ns[i] < ns[last];
      AllBelow(ns[..last], ns[last]);
      if |ns| == bound {
        assert forall i :: 0 <= i < last ==> ns[..last][i] == i;
      }
    }
  }

  lemma NewsOfMore(ms: seq<Message>, m: Message)
    ensures HasNews(ms + [m]) <==> HasNews(ms) || m.Wake?
  {
    assert forall i :: 0 <= i < |ms| ==> (ms + [m])[i] == ms[i];
    assert (ms + [m])[|ms|] == m;
  }

  lemma OneNumberLess(a: seq<nat>, b: seq<nat>, x: nat, c: seq<nat>, bound: nat)
    requires Increasing(a + (b + ([x] + c)), bound)
    ensures Increasing(a + (b + c), bound)
  {
    var all, fewer, n := a + (b + ([x] + c)), a + (b + c), |a| + |b|;
    assert forall i :: 0 <= i < |fewer| ==> fewer[i] == all[if i < n then i else i + 1];
  }

  lemma OneNumberMore(ns: seq<nat>, x: nat)
    requires Increasing(ns, x)
    ensures Increasing(ns + [x], x + 1)
  {
  }

  /** What the caller received comes first among the numbers. */
  lemma ReceivedFirst(s: Share, done: bool)
    requires InOrder(s, done)
    ensures Increasing(s.record.received, s.record.sent)
    ensures NothingLost(s.record) ==> Gapless(s.record.received)
  {
    var a, b := s.record.received, Seqnos(s.queue.items);
    assert forall i :: 0 <= i < |a| ==> Numbers(s)[i] == a[i] && (a + b)[i] == a[i];
  }

  /** The oldest reply waiting is the next of the numbers, and the last of them exactly when it is marked so. */
  lemma FirstIsNext(s: Share, done: bool)
    requires InOrder(s, done) && s.queue.items != [] && s.queue.items[0].Reply?
    ensures var msg, q := s.queue.items[0], s.record;
      && msg.seqno < q.total && (msg.final <==> msg.seqno + 1 == q.total)
      && Increasing(q.received + [msg.seqno], q.total)
      && (NothingLost(q) ==> msg.seqno == |q.received|)
  {
    var a, b, all := s.record.received, Seqnos(s.queue.items), Numbers(s);
    assert b[0] == s.queue.items[0].seqno == all[|a|] == (a + b)[|a|];
    assert forall i :: 0 <= i <= |a| ==> all[i] == (a + [b[0]])[i];
  }

  // ----- What a step does to the numbers -----

  lemma DeliveredInOrder(s: Share, msg: Message, rest: seq<Message>)
    requires InOrder(s, false) && s.incoming == [msg] + rest && msg.Reply? && Deliverable(s, false)
    requires |s.queue.items| < s.queue.depth
    ensures InOrder(s.(incoming := rest, queue := Offer(s.queue, msg)), false)
  {
    var s' := s.(incoming := rest, queue := Offer(s.queue, msg));
    NewsOfMore(s.queue.items, msg);
    SeqnosConcat(s.queue.items, [msg]);
    SeqnosConcat([msg], rest);
    SeqnosOfOne(msg);
    SameNumbers(s.record.received, Seqnos(s.queue.items), msg.seqno, Seqnos(rest));
    assert s.incoming[0] == msg && forall i :: 0 <= i < |rest| ==> rest[i] == s.incoming[i + 1];
    AllBelow(Numbers(s), s.record.sent);
  }

  lemma SameNumbers(a: seq<nat>, b: seq<nat>, x: nat, c: seq<nat>)
    ensures a + ((b + [x]) + c) == a + (b + ([x] + c))
    ensures Gapless(a + (b + ([x] + c))) ==> Gapless(a + (b + [x]))
  {
    var all := a + (b + ([x] + c));
    assert forall i :: 0 <= i < |a + (b + [x])| ==> (a + (b + [x]))[i] == all[i];
  }

  /** The next message is lost; the others keep their order. */
  lemma DiscardedInOrder(s: Share, s': Share, done: bool, msg: Message, rest: seq<Message>)
    requires InOrder(s, done) && s.incoming == [msg] + rest && msg.Reply?
    requires s' == s.(incoming := rest, record := s'.record, entry := s'.entry, lost := s'.lost)
    requires s'.record == s.record.(dropped := s'.record.dropped, garbled := s'.record.garbled)
    requires (s.record.dropped ==> s'.record.dropped) && (s.record.garbled ==> s'.record.garbled)
    requires !NothingLost(s'.record) || !Deliverable(s', done)
    requires s'.record.dropped && !s.record.dropped ==> s.record.sent > s.record.depth
    ensures InOrder(s', done)
  {
    SeqnosConcat([msg], rest);
    SeqnosOfOne(msg);
    OneNumberLess(s.record.received, Seqnos(s.queue.items), msg.seqno, Seqnos(rest), s.record.sent);
    hide Seqnos, Gapless, Increasing;
    assert forall i :: 0 <= i < |rest| ==> rest[i] == s.incoming[i + 1];
  }

  /** A queue that is full when a message arrives shows that the server sent more than it holds. */
  lemma FullQueueMeansMoreSent(s: Share, msg: Message, rest: seq<Message>)
    requires InOrder(s, false) && TrailFits(s) && s.incoming == [msg] + rest
    ensures s.record.sent > |s.queue.items|
  {
    assert forall i :: 0 <= i < |s.queue.items| ==> s.Trail()[i] == s.queue.items[i];
    assert s.Trail()[|s.queue.items|] == msg;
    SeqnosOfReplies(s.queue.items);
    SeqnosConcat([msg], rest);
    SeqnosOfOne(msg);
    AllBelow(Numbers(s), s.record.sent);
  }

  lemma ServerSendsCounted(s: Share, done: bool, msg: Message, final: bool)
    requires Counted(s, done) && s.owed && msg.Reply? && msg.seqno == s.record.sent
    requires final <==> s.record.sent + 1 == s.record.total
    ensures Counted(s.(incoming := s.incoming + [msg], owed := !final, record := s.record.(sent := s.record.sent + 1)), done)
  {
    SeqnosConcat(s.incoming, [msg]);
    SeqnosOfOne(msg);
    OneNumberMore(Numbers(s), s.record.sent);
    hide Seqnos, Gapless, Increasing;
    OneMoreAtTheEnd(s.record.received, Seqnos(s.queue.items), Seqnos(s.incoming), msg.seqno);
  }

  lemma OneMoreAtTheEnd(a: seq<nat>, b: seq<nat>, c: seq<nat>, x: nat)
    ensures a + (b + (c + [x])) == (a + (b + c)) + [x]
  {
  }

  lemma ServerSendsInOrder(s: Share, done: bool, msg: Message, final: bool)
    requires InOrder(s, done) && s.owed && msg.Reply? && msg.seqno == s.record.sent && msg.final == final
    requires final <==> s.record.sent + 1 == s.record.total
    ensures InOrder(s.(incoming := s.incoming + [msg], owed := !final, record := s.record.(sent := s.record.sent + 1)), done)
  {
    hide Counted;
    ServerSendsCounted(s, done, msg, final);
  }

  lemma TakenInOrder(s: Share, done: bool, s': Share)
    requires InOrder(s, done) && s.queue.items != []
    requires var msg := s.queue.items[0];
      s' == s.(queue := s.queue.(items := s.queue.items[1..]),
               record := s.record.(received := ReceivedToo(s.record.received, msg),
                                   finalTaken := s.record.finalTaken || (msg.Reply? && msg.final),
                                   woken := s.record.woken || msg.Wake?))
    ensures InOrder(s', done)
  {
    var msg, rest := s.queue.items[0], s.queue.items[1..];
    assert Seqnos(s.queue.items) == (if msg.Reply? then [msg.seqno] else []) + Seqnos(rest);
    var a, c := s.record.received, Seqnos(s.incoming);
    if msg.Reply? {
      assert (a + [msg.seqno]) + (Seqnos(rest) + c) == a + (([msg.seqno] + Seqnos(rest)) + c);
      assert (a + [msg.seqno]) + Seqnos(rest) == a + ([msg.seqno] + Seqnos(rest));
      FinalIsLast(s, done);
    } else {
      assert [] + Seqnos(rest) == Seqnos(rest);
    }
    assert Numbers(s') == Numbers(s);
  }

  /** Once the last reply is among those received there is none left to receive. */
  lemma FinalIsLast(s: Share, done: bool)
    requires InOrder(s, done) && s.queue.items != [] && s.queue.items[0].Reply?
    ensures !s.record.finalTaken
  {
    var ns, a := Numbers(s), s.record.received;
    assert Seqnos(s.queue.items)[0] == s.queue.items[0].seqno;
    assert ns[|a|] == s.queue.items[0].seqno;
    assert a != [] ==> ns[|a| - 1] == a[|a| - 1];
  }

  lemma TeardownInOrder(s: Share, s': Share, done: bool, e: ConnError)
    requires InOrder(s, done) && s'.record == s.record && s'.incoming == s.incoming && s'.owed == s.owed
    requires s'.queue == s.queue || s'.queue == Offer(s.queue, Wake(e))
          || s'.queue == Offer(s.queue, Wake(e)).(closed := true)
    ensures InOrder(s', true)
  {
    hide Increasing, Gapless;
    NewsOfMore(s.queue.items, Wake(e));
    SeqnosConcat(s.queue.items, [Wake(e)]);
    SeqnosOfOne(Wake(e));
    assert Seqnos(s'.queue.items) == Seqnos(s.queue.items) by {
      assert Seqnos(s.queue.items) + [] == Seqnos(s.queue.items);
    }
    hide Seqnos;
    assert Numbers(s') == Numbers(s);
  }

  lemma ClosedEntryInOrder(s: Share, s': Share, done: bool)
    requires InOrder(s, done)
    requires s' == s.(entry := s'.entry, record := s.record.(phase := s'.record.phase))
    requires s'.record.phase != Registered && (done || s'.entry.None? || s'.entry.value.cancelled)
    ensures InOrder(s', done)
  {
  }

  // ----- Every step keeps the order -----

  lemma OneOrderSuffices(w: World, w': World, r: RequestId)
    requires Inv(w) && Ordered(w) && OnlyConcerns(w, w', r) && InOrder(ShareOf(w', r), w.client.done)
    ensures Ordered(w')
  {
    forall q | q in w'.requests && q in w'.client.queues ensures InOrder(ShareOf(w', q), w'.client.done) {
      if q != r {
        assert ShareOf(w', q) == ShareOf(w, q);
      }
    }
  }

  lemma SentKeepsOrder(w: World, r: RequestId, total: nat)
    requires Inv(w) && Ordered(w) && Enabled(w, Sent(r, total))
    ensures Ordered(Apply(w, Sent(r, total)))
  {
    SentConcerns(w, r, total);
    var s := ShareOf(w, r);
    NothingYet(s, w.client.done);
    OneOrderSuffices(w, Apply(w, Sent(r, total)), r);
  }

  /** A request that is not on the wire yet has no messages. */
  lemma NothingYet(s: Share, done: bool)
    requires InOrder(s, done) && s.record.phase == Registered
    ensures Numbers(s) == [] && FinalsFit(s.queue.items, 0) && FinalsFit(s.incoming, 0)
    ensures forall total :: FinalsFit(s.queue.items, total) && FinalsFit(s.incoming, total)
  {
    AllBelow(Numbers(s), 0);
    NoReplies(s.queue.items);
    NoReplies(s.incoming);
  }

  lemma {:induction false} NoReplies(ms: seq<Message>)
    requires Seqnos(ms) == []
    ensures forall i :: 0 <= i < |ms| ==> ms[i].Wake?
  {
    if ms != [] {
      NoReplies(ms[1..]);
    }
  }

  lemma ServerSendsKeepsOrder(w: World, r: RequestId, final: bool)
    requires Inv(w) && Ordered(w) && Enabled(w, ServerSends(r, final))
    ensures Ordered(Apply(w, ServerSends(r, final)))
  {
    hide InOrder, Fits;
    assert InOrder(ShareOf(w, r), w.client.done);
    ServerSendsConcerns(w, r, final);
    ServerSendsInOrder(ShareOf(w, r), w.client.done, Reply(w.requests[r].mid, r, w.requests[r].sent, final), final);
    OneOrderSuffices(w, Apply(w, ServerSends(r, final)), r);
  }

  lemma TakeKeepsOrder(w: World, r: RequestId)
    requires Inv(w) && Ordered(w) && Enabled(w, TakeMessage(r))
    ensures Ordered(Apply(w, TakeMessage(r)))
  {
    TakeConcerns(w, r);
    TakenInOrder(ShareOf(w, r), w.client.done, ShareOf(Apply(w, TakeMessage(r)), r));
    OneOrderSuffices(w, Apply(w, TakeMessage(r)), r);
  }

  lemma MalformedKeepsOrder(w: World)
    requires Inv(w) && Ordered(w) && Enabled(w, Malformed)
    ensures Ordered(Apply(w, Malformed))
  {
    var r, w' := w.wire[0].origin, Apply(w, Malformed);
    assert WireNames(w, w.wire[0]);
    MalformedConcerns(w, r);
    DiscardedInOrder(ShareOf(w, r), ShareOf(w', r), w.client.done, w.wire[0], Incoming(w.wire[1..], r));
    OneOrderSuffices(w, w', r);
  }

  lemma ReceiveKeepsOrder(w: World)
    requires Inv(w) && Ordered(w) && Enabled(w, Receive)
    ensures Ordered(Apply(w, Receive))
  {
    hide OneReply, InOrder;
    var r, w' := w.wire[0].origin, Apply(w, Receive);
    assert WireNames(w, w.wire[0]);
    var s, msg, rest := ShareOf(w, r), w.wire[0], Incoming(w.wire[1..], r);
    assert Fits(s, r, w.client.done);
    assert InOrder(s, w.client.done);
    if w.client.done {
      LateReceiveConcerns(w, r);
      DiscardedInOrder(s, ShareOf(w', r), true, msg, rest);
    } else {
      ArrivalFits(s, r);
      ReceiveConcerns(w, r);
      if s.entry.value.cancelled {
        DiscardedInOrder(s, ShareOf(w', r), false, msg, rest);
      } else if |s.queue.items| < s.queue.depth {
        DeliveredInOrder(s, msg, rest);
      } else {
        FullQueueMeansMoreSent(s, msg, rest);
        DiscardedInOrder(s, ShareOf(w', r), false, msg, rest);
      }
    }
    OneOrderSuffices(w, w', r);
  }

  lemma UnregisterKeepsOrder(w: World, r: RequestId)
    requires Inv(w) && Ordered(w) && r in w.requests
    requires !w.client.done ==> w.requests[r].phase == Registered || w.requests[r].phase == OnWire
    ensures Ordered(SetPhase(w.(client := Unregister(w.client, w.requests[r].mid)), r, Settled))
  {
    var w' := SetPhase(w.(client := Unregister(w.client, w.requests[r].mid)), r, Settled);
    assert Fits(ShareOf(w, r), r, w.client.done);
    UnregisterConcerns(w, r);
    ClosedEntryInOrder(ShareOf(w, r), ShareOf(w', r), w.client.done);
    OneOrderSuffices(w, w', r);
  }

  lemma FinishKeepsOrder(w: World, r: RequestId, abandoned: bool)
    requires Inv(w) && Ordered(w) && Enabled(w, Finish(r, abandoned))
    ensures Ordered(Apply(w, Finish(r, abandoned)))
  {
    hide TrailFits, OneReply, InOrder;
    assert Fits(ShareOf(w, r), r, w.client.done);
    if w.client.done {
      FinishedLateKeepsOrder(w, r, abandoned);
    } else if abandoned {
      AbandonKeepsOrder(w, r);
    } else {
      FinishIsUnregister(w, r);
      UnregisterKeepsOrder(w, r);
    }
  }

  lemma FinishedLateKeepsOrder(w: World, r: RequestId, abandoned: bool)
    requires Inv(w) && Ordered(w) && Enabled(w, Finish(r, abandoned)) && w.client.done
    ensures Ordered(Apply(w, Finish(r, abandoned)))
  {
    hide Fits, InOrder, Incoming;
    var w' := Apply(w, Finish(r, abandoned));
    assert InOrder(ShareOf(w, r), w.client.done) && w'.client == w.client;
    ClosedEntryInOrder(ShareOf(w, r), ShareOf(w', r), true);
    OneOrderSuffices(w, w', r);
  }

  lemma AbandonKeepsOrder(w: World, r: RequestId)
    requires Inv(w) && Ordered(w) && Enabled(w, Finish(r, true)) && !w.client.done
    ensures Ordered(Apply(w, Finish(r, true)))
  {
    hide TrailFits, OneReply, InOrder;
    assert Fits(ShareOf(w, r), r, false) && InOrder(ShareOf(w, r), false);
    hide Apply;
    if FreedOnAbandon(ShareOf(w, r)) {
      AbandonAnsweredConcerns(w, r);
    } else {
      AbandonConcerns(w, r);
    }
    ClosedEntryInOrder(ShareOf(w, r), ShareOf(Apply(w, Finish(r, true)), r), false);
    OneOrderSuffices(w, Apply(w, Finish(r, true)), r);
  }

  lemma TeardownKeepsOrder(w: World, e: ConnError)
    requires Inv(w) && Ordered(w)
    ensures Ordered(w.(client := SetError(w.client, e)))
  {
    hide InOrder;
    var w' := w.(client := SetError(w.client, e));
    TeardownShape(w, e);
    forall q | q in w'.requests && q in w'.client.queues ensures InOrder(ShareOf(w', q), w'.client.done) {
      assert InOrder(ShareOf(w, q), w.client.done);
      TeardownInOrder(ShareOf(w, q), ShareOf(w', q), w.client.done, e);
    }
  }

  lemma BeginKeepsOrder(w: World, r: RequestId, transaction: bool, depth: nat)
    requires Inv(w) && Ordered(w) && Enabled(w, BeginRequest(r, transaction, depth))
    ensures Ordered(Apply(w, BeginRequest(r, transaction, depth)))
  {
    if !w.client.done {
      if FirstFree(w.client.pending, w.client.nextMid, 0).None? {
        TeardownKeepsOrder(w, MidsExhausted);
      } else {
        AllocationFailsExactlyWhenFull(w.client.pending, w.client.nextMid);
        var m := FirstFree(w.client.pending, w.client.nextMid, 0).value;
        WithRequestShape(w, r, transaction, depth, m);
        var w' := WithRequest(w, r, transaction, depth, m);
        forall q | q in w'.requests && q in w'.client.queues ensures InOrder(ShareOf(w', q), false) {
          if q != r {
            WithRequestConcernsNobodyElse(w, r, transaction, depth, m, q);
          }
        }
      }
    }
  }

  lemma CloseBeginKeepsOrder(w: World)
    requires Inv(w) && Ordered(w)
    ensures Ordered(Apply(w, CloseBegin))
  {
    hide InOrder;
    var w' := Apply(w, CloseBegin);
    if !w.client.done {
      forall q | q in w'.requests && q in w'.client.queues ensures InOrder(ShareOf(w', q), true) {
        assert InOrder(ShareOf(w, q), false);
        TeardownInOrder(ShareOf(w, q), ShareOf(w', q), false, ConnectionClosed);
      }
    }
  }

  lemma CloseOneKeepsOrder(w: World, r: RequestId)
    requires Inv(w) && Ordered(w) && Enabled(w, CloseOne(r))
    ensures Ordered(Apply(w, CloseOne(r)))
  {
    hide InOrder, Fits;
    var w' := Apply(w, CloseOne(r));
    assert w'.requests == w.requests && w'.client.done == w.client.done && w'.wire == w.wire;
    forall q | q in w'.requests && q in w'.client.queues ensures InOrder(ShareOf(w', q), w'.client.done) {
      assert InOrder(ShareOf(w, q), w.client.done);
      if q == r {
        TeardownInOrder(ShareOf(w, q), ShareOf(w', q), w.client.done, ConnectionClosed);
      } else {
        assert ShareOf(w', q) == ShareOf(w, q);
      }
    }
  }

  // ----- The whole invariant -----

  ghost predicate Sound(w: World) {
    Inv(w) && Ordered(w)
  }

  lemma StepKeepsSound(w: World, step: Step)
    requires Sound(w) && Enabled(w, step)
    ensures Sound(Apply(w, step))
  {
    hide Inv, Ordered;
    StepKeepsInv(w, step);
    match step
    case BeginRequest(r, transaction, depth) => BeginKeepsOrder(w, r, transaction, depth);
    case Unsent(r) => UnregisterKeepsOrder(w, r);
    case Sent(r, total) => SentKeepsOrder(w, r, total);
    case ServerSends(r, final) => ServerSendsKeepsOrder(w, r, final);
    case Receive => ReceiveKeepsOrder(w);
    case Malformed => MalformedKeepsOrder(w);
    case TakeMessage(r) => TakeKeepsOrder(w, r);
    case DeleteTaken(r) => UnregisterKeepsOrder(w, r);
    case Finish(r, abandoned) => FinishKeepsOrder(w, r, abandoned);
    case Fail(e) => TeardownKeepsOrder(w, e);
    case CloseBegin => CloseBeginKeepsOrder(w);
    case CloseOne(r) => CloseOneKeepsOrder(w, r);
  }

  lemma StartIsSound()
    ensures Sound(Start)
  {
  }

  lemma {:induction false} ExecutionKeepsSound(w: World, steps: seq<Step>, w': World)
    requires Sound(w) && Execution(w, steps, w')
    ensures Sound(w')
    decreases |steps|
  {
    hide Sound;
    if steps != [] {
      StepKeepsSound(w, steps[0]);
      ExecutionKeepsSound(Apply(w, steps[0]), steps[1..], w');
    }
  }
}
