/** What callers of the connection may rely on in every history. */
module ProtocolTheorems {
  import opened Wrappers
  import opened ConnModel
  import opened Protocol
  import opened ProtocolSafety
  import opened ProtocolOrder

  ghost predicate Reachable(w: World, steps: seq<Step>) {
    Execution(Start, steps, w)
  }

  lemma ReachableKeepsInv(w: World, steps: seq<Step>)
    requires Reachable(w, steps)
    ensures Inv(w)
  {
    StartKeepsInv();
    ExecutionKeepsInv(Start, steps, w);
  }

  lemma ReachableIsSound(w: World, steps: seq<Step>)
    requires Reachable(w, steps)
    ensures Sound(w)
  {
    StartIsSound();
    ExecutionKeepsSound(Start, steps, w);
  }

  ghost predicate Holds(w: World, r: RequestId) {
    r in w.requests && Entry(w.client.pending, w.requests[r].mid, r).Some?
  }

  ghost predicate InTransit(wire: seq<Message>, r: RequestId) {
    exists i :: 0 <= i < |wire| && wire[i].Reply? && wire[i].origin == r
  }

  lemma {:induction false} InTransitMeansIncoming(wire: seq<Message>, r: RequestId)
    ensures InTransit(wire, r) <==> Incoming(wire, r) != []
  {
    if wire != [] {
      InTransitMeansIncoming(wire[1..], r);
      if InTransit(wire[1..], r) {
        var i :| 0 <= i < |wire[1..]| && wire[1..][i].Reply? && wire[1..][i].origin == r;
        assert wire[i + 1] == wire[1..][i];
      }
      if InTransit(wire, r) && !(wire[0].Reply? && wire[0].origin == r) {
        var i :| 0 <= i < |wire| && wire[i].Reply? && wire[i].origin == r;
        assert wire[1..][i - 1] == wire[i];
      }
    }
  }

  // ----- Correlation -----

  /** In every reachable state each reply waiting in a request's queue was sent by the server
      for that very request, under the MID the request was given: never for an earlier holder. */
  lemma QueuedRepliesAreOwn(w: World, steps: seq<Step>, r: RequestId, i: nat)
    requires Reachable(w, steps)
    requires r in w.client.queues && i < |w.client.queues[r].items| && w.client.queues[r].items[i].Reply?
    ensures w.client.queues[r].items[i].origin == r
  {
    ReachableKeepsInv(w, steps);
    assert Fits(ShareOf(w, r), r, w.client.done);
  }

  /** While the connection is open, a MID that is free to be given out is one under which the
      server owes nothing and nothing is on its way; and no two requests are owed under one MID. */
  lemma FreeMidOwesNothing(w: World, steps: seq<Step>, m: Mid)
    requires Reachable(w, steps) && !w.client.done
    ensures m !in w.client.pending ==>
      && (forall r :: r in w.owed ==> r in w.requests && w.requests[r].mid != m)
      && (forall i :: 0 <= i < |w.wire| && w.wire[i].Reply? ==> w.wire[i].mid != m)
    ensures forall q, r | q in w.owed && r in w.owed && q in w.requests && r in w.requests ::
      w.requests[q].mid == w.requests[r].mid ==> q == r
  {
    ReachableKeepsInv(w, steps);
    forall r | r in w.owed ensures Holds(w, r) {
      assert Fits(ShareOf(w, r), r, false);
    }
    forall i | 0 <= i < |w.wire| && w.wire[i].Reply? ensures w.wire[i].mid in w.client.pending {
      var r := w.wire[i].origin;
      assert WireNames(w, w.wire[i]);
      assert Fits(ShareOf(w, r), r, false);
      IncomingIsThere(w.wire, i, r);
    }
  }

  /** A caller that took the last reply leaves nothing behind: the server owes it
      nothing more and nothing is on its way, so its MID may be given to another. */
  lemma TakenInFullOwesNothing(w: World, steps: seq<Step>, r: RequestId)
    requires Reachable(w, steps) && !w.client.done
    requires r in w.requests && w.requests[r].finalTaken
    ensures r !in w.owed && !InTransit(w.wire, r) && r in w.client.queues && w.client.queues[r].items == []
  {
    ReachableKeepsInv(w, steps);
    assert Fits(ShareOf(w, r), r, false);
    InTransitMeansIncoming(w.wire, r);
    assert ShareOf(w, r).Trail() == [];
  }

  /** The receive loop can always take the next message: it never meets a missing queue. */
  lemma ReceiveNeverStuck(w: World, steps: seq<Step>)
    requires Reachable(w, steps) && w.wire != []
    ensures Enabled(w, Receive)
    ensures w.wire[0].mid in w.client.pending ==>
      !w.client.queues[w.client.pending[w.wire[0].mid].request].closed
  {
    ReachableKeepsInv(w, steps);
    assert WireNames(w, w.wire[0]);
    if w.wire[0].mid in w.client.pending {
      assert PendingNames(w, w.wire[0].mid);
      var r := w.client.pending[w.wire[0].mid].request;
      assert Fits(ShareOf(w, r), r, w.client.done);
    }
  }

  /** A queue loses no message of a reply that has no more messages than the queue is deep,
      whatever else arrives in between and whenever the caller reads. */
  lemma NothingDroppedWithinDepth(w: World, steps: seq<Step>, r: RequestId)
    requires Reachable(w, steps)
    requires r in w.requests && w.requests[r].total <= w.requests[r].depth
    ensures !w.requests[r].dropped
  {
    ReachableIsSound(w, steps);
    assert InOrder(ShareOf(w, r), w.client.done);
  }

  ghost predicate NextReply(w: World, r: RequestId) {
    r in w.client.queues && w.client.queues[r].items != [] && w.client.queues[r].items[0].Reply?
  }

  /** A caller receives the messages of its reply in the order sent and none twice; and when none was dropped or
      could not be decoded it has received exactly the first ones, and the next in its queue is the next one sent. */
  lemma RepliesArriveInOrder(w: World, steps: seq<Step>, r: RequestId)
    requires Reachable(w, steps) && r in w.requests
    ensures Increasing(w.requests[r].received, w.requests[r].sent)
    ensures NothingLost(w.requests[r]) ==> Gapless(w.requests[r].received)
    ensures NothingLost(w.requests[r]) && NextReply(w, r) ==> w.client.queues[r].items[0].seqno == |w.requests[r].received|
    ensures w.requests[r].finalTaken && NothingLost(w.requests[r]) ==> |w.requests[r].received| == w.requests[r].total
  {
    hide InOrder, Fits, Increasing, Gapless, Execution;
    ReachableIsSound(w, steps);
    assert InOrder(ShareOf(w, r), w.client.done);
    ReceivedInOrder(ShareOf(w, r), w.client.done);
  }

  lemma ReceivedInOrder(s: Share, done: bool)
    requires InOrder(s, done)
    ensures var q := s.record;
      && Increasing(q.received, q.sent) && (NothingLost(q) ==> Gapless(q.received))
      && (NothingLost(q) && s.queue.items != [] && s.queue.items[0].Reply? ==> s.queue.items[0].seqno == |q.received|)
      && (q.finalTaken && NothingLost(q) ==> |q.received| == q.total)
  {
    ReceivedFirst(s, done);
    if s.queue.items != [] && s.queue.items[0].Reply? {
      FirstIsNext(s, done);
    }
  }

  // ----- Abandonment -----

  /** An abandoned ordinary request holds its MID exactly as long as its reply is still to come
      (or came in a form that could not be decoded). */
  lemma AbandonedHoldsUntilReply(w: World, steps: seq<Step>, r: RequestId)
    requires Reachable(w, steps) && !w.client.done
    requires InPhase(w, r, Abandoned) && !w.requests[r].transaction
    ensures Holds(w, r) <==> r in w.owed || InTransit(w.wire, r) || r in w.lost
  {
    ReachableKeepsInv(w, steps);
    assert Fits(ShareOf(w, r), r, false);
    InTransitMeansIncoming(w.wire, r);
  }

  /** The one late reply frees the MID of an abandoned ordinary request and reaches nobody. */
  lemma LateReplyFreesMid(w: World, steps: seq<Step>)
    requires Reachable(w, steps) && !w.client.done && w.wire != [] && Enabled(w, Receive)
    requires InPhase(w, w.wire[0].origin, Abandoned) && !w.requests[w.wire[0].origin].transaction
    ensures var r := w.wire[0].origin; var w' := Apply(w, Receive);
      && w.requests[r].mid in w.client.pending && w.requests[r].mid !in w'.client.pending
      && w'.client.queues == w.client.queues
      && r !in w'.owed && !InTransit(w'.wire, r)
  {
    ReachableKeepsInv(w, steps);
    var r := w.wire[0].origin;
    var s := ShareOf(w, r);
    assert WireNames(w, w.wire[0]);
    assert Fits(s, r, false) && s.incoming == [w.wire[0]] + Incoming(w.wire[1..], r);
    assert s.Trail()[|s.queue.items|] == w.wire[0];
    InTransitMeansIncoming(w.wire[1..], r);
  }

  /** Whether the reply reaches the queue just before its caller gives up or the connection
      just after, the MID ends up free. */
  lemma HandOffRaceFreesMid(w: World, steps: seq<Step>, r: RequestId)
    requires Reachable(w, steps) && !w.client.done && Enabled(w, Receive) && w.wire[0].origin == r
    requires InPhase(w, r, OnWire) && !w.requests[r].transaction && Enabled(w, Finish(r, true))
    ensures Enabled(Apply(w, Receive), Finish(r, true)) && Enabled(Apply(w, Finish(r, true)), Receive)
    ensures w.requests[r].mid in w.client.pending
    ensures Apply(Apply(w, Receive), Finish(r, true)).client.pending == w.client.pending - {w.requests[r].mid}
    ensures Apply(Apply(w, Finish(r, true)), Receive).client.pending == w.client.pending - {w.requests[r].mid}
  {
    hide Fits;
    ReachableKeepsInv(w, steps);
    assert WireNames(w, w.wire[0]);
    SoleReplyIsNext(w, r);
    ReplyFirst(w.client, w.wire[0], r);
    GiveUpFirst(w.client, w.wire[0], r);
  }

  lemma SoleReplyIsNext(w: World, r: RequestId)
    requires Inv(w) && !w.client.done && w.wire != [] && WireNames(w, w.wire[0]) && w.wire[0].origin == r
    requires InPhase(w, r, OnWire) && !w.requests[r].transaction
    ensures w.client.queues[r].items == [] && w.client.queues[r].depth > 0
    ensures Entry(w.client.pending, w.requests[r].mid, r) == Some(Pending(r, false, false))
  {
    var s := ShareOf(w, r);
    assert Fits(s, r, false);
    IncomingIsThere(w.wire, 0, r);
    assert |s.Trail()| == |s.queue.items| + |s.incoming|;
  }

  lemma ReplyFirst(c: Client, msg: Message, r: RequestId)
    requires msg.Reply? && Entry(c.pending, msg.mid, r) == Some(Pending(r, false, false))
    requires r in c.queues && c.queues[r].items == [] && c.queues[r].depth > 0
    ensures r in Dispatch(c, msg).queues
    ensures Release(Dispatch(c, msg), msg.mid, r, true).pending == c.pending - {msg.mid}
  {
    assert Dispatch(c, msg).queues[r].items == [msg];
  }

  lemma GiveUpFirst(c: Client, msg: Message, r: RequestId)
    requires msg.Reply? && Entry(c.pending, msg.mid, r) == Some(Pending(r, false, false))
    requires r in c.queues && c.queues[r].items == []
    ensures Dispatch(Release(c, msg.mid, r, true), msg).pending == c.pending - {msg.mid}
  {
  }

  /** An abandoned transaction keeps its MID until the connection is torn down. */
  lemma AbandonedTransactionKeepsMid(w: World, before: seq<Step>, steps: seq<Step>, w': World, r: RequestId)
    requires Reachable(w, before) && Execution(w, steps, w')
    requires InPhase(w, r, Abandoned) && w.requests[r].transaction
    ensures w'.client.done || (Holds(w', r) && w'.requests[r].mid == w.requests[r].mid)
  {
    ReachableKeepsInv(w, before);
    AbandonedTransactionStays(w, steps, w', r);
  }

  lemma {:induction false} AbandonedTransactionStays(w: World, steps: seq<Step>, w': World, r: RequestId)
    requires Inv(w) && Execution(w, steps, w')
    requires InPhase(w, r, Abandoned) && w.requests[r].transaction
    ensures w'.client.done || (Holds(w', r) && w'.requests[r].mid == w.requests[r].mid)
    decreases |steps|
  {
    assert Fits(ShareOf(w, r), r, w.client.done);
    if steps != [] {
      StepKeepsInv(w, steps[0]);
      AbandonedStaysAbandoned(w, steps[0], r);
      AbandonedTransactionStays(Apply(w, steps[0]), steps[1..], w', r);
    }
  }

  lemma AbandonedStaysAbandoned(w: World, step: Step, r: RequestId)
    requires InPhase(w, r, Abandoned) && Enabled(w, step)
    ensures InPhase(Apply(w, step), r, Abandoned)
    ensures Apply(w, step).requests[r].mid == w.requests[r].mid
    ensures Apply(w, step).requests[r].transaction == w.requests[r].transaction
  {
  }

  // ----- Teardown -----

  /** Once torn down, the connection keeps its first error, registers nobody and gives out no MID;
      a closed queue receives nothing more. */
  lemma TeardownIsFinal(w: World, before: seq<Step>, steps: seq<Step>, w': World)
    requires Reachable(w, before) && w.client.done && Execution(w, steps, w')
    ensures StaysTornDown(w, w')
  {
    ReachableKeepsInv(w, before);
    TeardownStays(w, steps, w');
  }

  ghost predicate StaysTornDown(w: World, w': World) {
    && w'.client.done && w'.client.error == w.client.error && w.client.error.Some?
    && w'.client.pending == map[] && w'.client.nextMid == w.client.nextMid
    && w'.requests.Keys == w.requests.Keys
    && forall r :: r in w.client.queues && w.client.queues[r].closed ==> r in w'.client.queues && OnlyDrained(w.client.queues[r], w'.client.queues[r])
  }

  /** The closed queue has perhaps been read from, and nothing was put into it. */
  ghost predicate OnlyDrained(q: Queue, q': Queue) {
    && q'.closed && |q'.items| <= |q.items|
    && forall i :: 0 <= i < |q'.items| ==> q'.items[i] == q.items[|q.items| - |q'.items| + i]
  }

  lemma {:induction false} TeardownStays(w: World, steps: seq<Step>, w': World)
    requires Inv(w) && w.client.done && Execution(w, steps, w')
    ensures StaysTornDown(w, w')
    decreases |steps|
  {
    if steps != [] {
      var v := Apply(w, steps[0]);
      StepKeepsInv(w, steps[0]);
      TeardownStep(w, steps[0]);
      TeardownStays(v, steps[1..], w');
      forall r | r in w.client.queues && w.client.queues[r].closed ensures OnlyDrained(w.client.queues[r], w'.client.queues[r]) {
        assert OnlyDrained(w.client.queues[r], v.client.queues[r]) && OnlyDrained(v.client.queues[r], w'.client.queues[r]);
      }
    }
  }

  lemma TeardownStep(w: World, step: Step)
    requires Shape(w) && TornDown(w) && w.client.done && Enabled(w, step)
    ensures StaysTornDown(w, Apply(w, step))
  {
    var w' := Apply(w, step);
    forall r | r in w.client.queues && w.client.queues[r].closed
      ensures r in w'.client.queues && OnlyDrained(w.client.queues[r], w'.client.queues[r])
    {
      var q := w.client.queues[r];
      if step.TakeMessage? && step.request == r {
        assert w'.client.queues[r].items == q.items[1..];
      } else {
        assert w'.client.queues[r] == q;
      }
    }
  }

  /** The news comes last in the queue, unless that was full. */
  ghost predicate IsTold(q: Queue, q': Queue, e: ConnError) {
    if |q.items| < q.depth then q'.items == q.items + [Wake(e)] else q'.items == q.items
  }

  /** A failure leaves every request pending at that moment with the news in its queue, or with a queue full already. */
  lemma FailureWakesEveryone(w: World, steps: seq<Step>, e: ConnError, r: RequestId)
    requires Reachable(w, steps) && !w.client.done && Holds(w, r)
    ensures var w' := Apply(w, Fail(e));
      && w'.client.error == Some(e) && r in w.client.queues && r in w'.client.queues && w'.client.queues[r].items != []
      && IsTold(w.client.queues[r], w'.client.queues[r], e)
  {
    hide SetError;
    HolderHasRoom(w, steps, r);
    ErrorWakes(w.client, e, w.requests[r].mid);
  }

  lemma HolderHasRoom(w: World, steps: seq<Step>, r: RequestId)
    requires Reachable(w, steps) && !w.client.done && Holds(w, r)
    ensures w.client.error.None? && r in w.client.queues
    ensures |w.client.queues[r].items| <= w.client.queues[r].depth && w.client.queues[r].depth > 0
  {
    hide EntryFits, TrailFits, OneReply;
    ReachableKeepsInv(w, steps);
    assert Fits(ShareOf(w, r), r, false);
  }

  lemma ErrorWakes(c: Client, e: ConnError, m: Mid)
    requires !c.done && c.error.None? && m in c.pending && c.pending[m].request in c.queues
    requires var q := c.queues[c.pending[m].request]; |q.items| <= q.depth && q.depth > 0
    ensures SetError(c, e).error == Some(e)
    ensures var r := c.pending[m].request;
      r in SetError(c, e).queues && SetError(c, e).queues[r].items != [] && IsTold(c.queues[r], SetError(c, e).queues[r], e)
  {
    assert c.pending[m].request in Requests(c.pending);
  }

  /** Close remembers every request pending at that moment. */
  lemma CloseRemembersEveryone(w: World, steps: seq<Step>, r: RequestId)
    requires Reachable(w, steps) && !w.client.done && Holds(w, r)
    ensures r in Apply(w, CloseBegin).closing
  {
    hide Fits;
    ReachableKeepsInv(w, steps);
  }

  /** And it tells each of them, in the same way, before closing its queue, which nobody closed before. */
  lemma CloseWakesEveryone(w: World, steps: seq<Step>, r: RequestId)
    requires Reachable(w, steps) && Enabled(w, CloseOne(r))
    ensures !w.client.queues[r].closed
    ensures var w' := Apply(w, CloseOne(r));
      && r in w'.client.queues && w'.client.queues[r].items != [] && w'.client.queues[r].closed
      && IsTold(w.client.queues[r], w'.client.queues[r], ConnectionClosed)
  {
    hide EntryFits, TrailFits, OneReply;
    ReachableKeepsInv(w, steps);
    assert Fits(ShareOf(w, r), r, w.client.done);
  }

  /** When no MID is left, and only then, a request is refused and the connection is torn down on the spot. */
  lemma ExhaustionTearsDown(w: World, steps: seq<Step>, r: RequestId, transaction: bool, depth: nat)
    requires Reachable(w, steps) && !w.client.done && Enabled(w, BeginRequest(r, transaction, depth))
    ensures var w' := Apply(w, BeginRequest(r, transaction, depth));
      && ((forall m: Mid :: m != 0xFFFF ==> m in w.client.pending) <==> r !in w'.requests)
      && (r !in w'.requests ==> w'.client.done && w'.client.pending == map[] && w'.client.error == Some(MidsExhausted))
      && (r in w'.requests ==> Usable(w.client.pending, w'.requests[r].mid) && !w'.client.done)
  {
    hide Fits;
    ReachableKeepsInv(w, steps);
    AllocationFailsExactlyWhenFull(w.client.pending, w.client.nextMid);
  }
}
