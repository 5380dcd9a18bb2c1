/** What happens to replies of more messages than a request's queue holds, and only to those. */
module ProtocolLimits {
  import opened Wrappers
  import opened ConnModel
  import opened Protocol
  import opened ProtocolSafety
  import opened ProtocolOrder
  import opened ProtocolTheorems

  lemma {:induction false} ExecutionGoesOn(w: World, steps: seq<Step>, w': World, step: Step)
    requires Execution(w, steps, w') && Enabled(w', step)
    ensures Execution(w, steps + [step], Apply(w', step))
    decreases |steps|
  {
    if steps == [] {
      assert steps + [step] == [step] && [step][1..] == [];
    } else {
      ExecutionGoesOn(Apply(w, steps[0]), steps[1..], w', step);
      assert (steps + [step])[1..] == steps[1..] + [step];
    }
  }

  // ----- A full queue -----

  /** One transaction on a new connection, for whose reply the server has sent `n` messages, all waiting in its queue. */
  ghost predicate Waiting(w: World, n: nat, total: nat) {
    && w.requests.Keys == {0} && w.owed == {0} && w.wire == [] && !w.client.done
    && w.requests[0] == Request(0, true, RESPONSE_QUEUE_DEPTH, OnWire, total, n, [], false, false, false, false)
    && w.client.pending == map[0 := Pending(0, false, true)]
    && 0 in w.client.queues && |w.client.queues[0].items| == n && w.client.queues[0].depth == RESPONSE_QUEUE_DEPTH
    && forall i :: 0 <= i < n ==> w.client.queues[0].items[i].Reply? && !w.client.queues[0].items[i].final
  }

  lemma OneMoreArrives(w: World, n: nat, total: nat) returns (w': World)
    requires Waiting(w, n, total) && n + 1 < total && n < RESPONSE_QUEUE_DEPTH
    ensures Enabled(w, ServerSends(0, false)) && Enabled(Apply(w, ServerSends(0, false)), Receive)
    ensures w' == Apply(Apply(w, ServerSends(0, false)), Receive) && Waiting(w', n + 1, total)
  {
    var v := Apply(w, ServerSends(0, false));
    assert v.wire == [Reply(0, 0, n, false)];
    w' := Apply(v, Receive);
    assert v.wire[1..] == [];
  }

  lemma {:induction false} QueueFills(n: nat, total: nat) returns (w: World, steps: seq<Step>)
    requires n <= RESPONSE_QUEUE_DEPTH && n < total
    ensures Reachable(w, steps) && Waiting(w, n, total)
  {
    if n == 0 {
      var begin, sent := BeginRequest(0, true, RESPONSE_QUEUE_DEPTH), Sent(0, total);
      assert Usable(map[], Wrap(0));
      assert FirstFree(map[], 0, 0) == Some(0);
      var v := Apply(Start, begin);
      w, steps := Apply(v, sent), [begin, sent];
      assert steps[1..] == [sent] && [sent][1..] == [];
      assert Execution(v, [sent], w);
    } else {
      var v, before := QueueFills(n - 1, total);
      w := OneMoreArrives(v, n - 1, total);
      var send := ServerSends(0, false);
      ExecutionGoesOn(Start, before, v, send);
      ExecutionGoesOn(Start, before + [send], Apply(v, send), Receive);
      steps := before + [send] + [Receive];
    }
  }

  // ----- Dropped messages -----

  lemma NextIsDropped(w: World, total: nat) returns (w': World)
    requires Waiting(w, RESPONSE_QUEUE_DEPTH, total) && total > RESPONSE_QUEUE_DEPTH
    ensures var send := ServerSends(0, total == RESPONSE_QUEUE_DEPTH + 1);
      Enabled(w, send) && Enabled(Apply(w, send), Receive) && w' == Apply(Apply(w, send), Receive)
    ensures 0 in w'.requests && w'.requests[0].dropped && w'.requests[0].sent == RESPONSE_QUEUE_DEPTH + 1
    ensures w'.requests[0].total == total && w'.requests[0].depth == RESPONSE_QUEUE_DEPTH
  {
    var final := total == RESPONSE_QUEUE_DEPTH + 1;
    var v := Apply(w, ServerSends(0, final));
    assert v.wire == [Reply(0, 0, RESPONSE_QUEUE_DEPTH, final)];
    w' := Apply(v, Receive);
  }

  /** The depth is a true limit: of any reply of more messages than the queue holds, the first too many can be dropped. */
  lemma MoreThanTheDepthCanBeDropped(total: nat) returns (w: World, steps: seq<Step>)
    requires total > 64
    ensures Reachable(w, steps) && 0 in w.requests && w.requests[0].dropped && w.requests[0].sent == 65
    ensures w.requests[0].total == total && w.requests[0].depth == 64
  {
    var v, before := QueueFills(RESPONSE_QUEUE_DEPTH, total);
    w := NextIsDropped(v, total);
    var send := ServerSends(0, total == RESPONSE_QUEUE_DEPTH + 1);
    ExecutionGoesOn(Start, before, v, send);
    ExecutionGoesOn(Start, before + [send], Apply(v, send), Receive);
    steps := before + [send] + [Receive];
  }

  /** A history ends with a message dropped of a reply of so many. */
  ghost predicate DropsOne(w: World, steps: seq<Step>, r: RequestId, total: nat) {
    && Reachable(w, steps) && r in w.requests && w.requests[r].dropped
    && w.requests[r].total == total && w.requests[r].depth == 64
  }

  /** Some history drops a message of a reply exactly if that has more messages than the queue holds. */
  lemma DroppedExactlyBeyondTheDepth(total: nat)
    ensures (exists w, steps, r :: DropsOne(w, steps, r, total)) <==> total > 64
  {
    if total > RESPONSE_QUEUE_DEPTH {
      var w, steps := MoreThanTheDepthCanBeDropped(total);
      assert DropsOne(w, steps, 0, total);
    }
    forall w, steps, r | DropsOne(w, steps, r, total) ensures total > RESPONSE_QUEUE_DEPTH {
      if total <= RESPONSE_QUEUE_DEPTH {
        NothingDroppedWithinDepth(w, steps, r);
      }
    }
  }

  // ----- A queue closed without the news -----

  /** No queue that Close still has to close holds the news. */
  ghost predicate ClosingUntold(w: World) {
    forall r :: r in w.closing && r in w.client.queues ==> !HasNews(w.client.queues[r].items)
  }

  lemma NoNewsWhileOpen(w: World, r: RequestId)
    requires Inv(w) && !w.client.done && r in w.requests
    ensures r in w.client.queues && !HasNews(w.client.queues[r].items)
  {
    var s := ShareOf(w, r);
    assert Fits(s, r, false);
    assert forall i :: 0 <= i < |s.queue.items| ==> s.Trail()[i] == s.queue.items[i];
  }

  lemma StepKeepsClosingUntold(w: World, step: Step)
    requires Inv(w) && ClosingUntold(w) && Enabled(w, step)
    ensures ClosingUntold(Apply(w, step))
  {
    hide Fits;
    var w' := Apply(w, step);
    forall r | r in w'.closing && r in w'.client.queues ensures !HasNews(w'.client.queues[r].items) {
      if step.CloseBegin? && !w.client.done {
        NoNewsWhileOpen(w, r);
      } else {
        assert r in w.closing && !HasNews(w.client.queues[r].items);
      }
    }
  }

  lemma {:induction false} ExecutionKeepsClosingUntold(w: World, steps: seq<Step>, w': World)
    requires Inv(w) && ClosingUntold(w) && Execution(w, steps, w')
    ensures ClosingUntold(w')
    decreases |steps|
  {
    hide Inv, ClosingUntold;
    if steps != [] {
      StepKeepsInv(w, steps[0]);
      StepKeepsClosingUntold(w, steps[0]);
      ExecutionKeepsClosingUntold(Apply(w, steps[0]), steps[1..], w');
    }
  }

  predicate EndsInLast(ms: seq<Message>) {
    ms != [] && ms[|ms| - 1].Reply? && ms[|ms| - 1].final
  }

  /** Close leaves the news in a queue exactly if that is not full; and a full one holds the last message of any
      reply that has no more of them than the queue. */
  lemma CloseTellsUnlessFull(w: World, steps: seq<Step>, r: RequestId)
    requires Reachable(w, steps) && Enabled(w, CloseOne(r))
    ensures var q, q' := w.client.queues[r], Apply(w, CloseOne(r)).client.queues[r];
      && r in w.requests
      && (HasNews(q'.items) <==> |q.items| < q.depth)
      && (!HasNews(q'.items) && w.requests[r].total <= q.depth ==> EndsInLast(q'.items))
  {
    hide EntryFits, TrailFits, OneReply, Counted, NewsFits, FinalsFit;
    ReachableIsSound(w, steps);
    ExecutionKeepsClosingUntold(Start, steps, w);
    var s := ShareOf(w, r);
    assert Fits(s, r, w.client.done) && InOrder(s, w.client.done);
    NewsOfMore(s.queue.items, Wake(ConnectionClosed));
    if |s.queue.items| >= s.queue.depth >= s.record.total {
      FullOfReplies(s, w.client.done);
    }
  }

  lemma FullOfReplies(s: Share, done: bool)
    requires InOrder(s, done) && !HasNews(s.queue.items) && |s.queue.items| >= s.queue.depth >= s.record.total
    requires s.queue.depth > 0
    ensures EndsInLast(s.queue.items)
  {
    var items, n := s.queue.items, |s.queue.items|;
    assert forall i :: 0 <= i < n ==> items[i].Reply?;
    SeqnosOfReplies(items);
    AllBelow(Numbers(s), s.record.sent);
    assert s.record.received == [] && Numbers(s)[n - 1] == Seqnos(items)[n - 1] == items[n - 1].seqno;
  }

  // ----- A queue that runs dry -----

  /** The request's caller would wait on a queue that is closed and empty, and was never told why. */
  ghost predicate Dry(w: World, r: RequestId) {
    && InPhase(w, r, OnWire) && r in w.client.queues && !w.requests[r].woken
    && w.client.queues[r].closed && w.client.queues[r].items == []
  }

  /** A queue runs dry only for a caller that has received as many messages as it holds, and so the last, if the reply
      has no more than that. */
  lemma DryMeansManyReceived(w: World, r: RequestId)
    requires Sound(w) && Dry(w, r)
    ensures |w.requests[r].received| >= w.requests[r].depth
    ensures Increasing(w.requests[r].received, w.requests[r].total)
    ensures w.requests[r].total <= w.requests[r].depth ==> Gapless(w.requests[r].received) && |w.requests[r].received| == w.requests[r].total
  {
    var s := ShareOf(w, r);
    assert Fits(s, r, w.client.done) && InOrder(s, w.client.done);
    ReceivedFirst(s, w.client.done);
    AllBelow(s.record.received, s.record.total);
  }

  /** The caller is reading the messages that filled its queue before Close. */
  ghost predicate Draining(w: World, n: nat, total: nat) {
    && InPhase(w, 0, OnWire) && w.requests[0].total == total && w.requests[0].depth == RESPONSE_QUEUE_DEPTH
    && !w.requests[0].woken && !w.requests[0].finalTaken
    && 0 in w.client.queues && w.client.queues[0].closed && |w.client.queues[0].items| == n
    && forall i :: 0 <= i < n ==> w.client.queues[0].items[i].Reply? && !w.client.queues[0].items[i].final
  }

  lemma {:induction false} QueueDrains(n: nat, total: nat) returns (w: World, steps: seq<Step>)
    requires n <= RESPONSE_QUEUE_DEPTH < total
    ensures Reachable(w, steps) && Draining(w, n, total)
    decreases RESPONSE_QUEUE_DEPTH - n
  {
    if n == RESPONSE_QUEUE_DEPTH {
      var v, before := QueueFills(n, total);
      ExecutionGoesOn(Start, before, v, CloseBegin);
      var closing := Apply(v, CloseBegin);
      assert v.client.pending[0].request == 0 && 0 in closing.closing;
      ExecutionGoesOn(Start, before + [CloseBegin], closing, CloseOne(0));
      w, steps := Apply(closing, CloseOne(0)), before + [CloseBegin] + [CloseOne(0)];
    } else {
      var v, before := QueueDrains(n + 1, total);
      ExecutionGoesOn(Start, before, v, TakeMessage(0));
      w, steps := Apply(v, TakeMessage(0)), before + [TakeMessage(0)];
    }
  }

  /** A history ends with the queue of a caller run dry that has not received the last of so many messages. */
  ghost predicate RunsDry(w: World, steps: seq<Step>, r: RequestId, total: nat) {
    && Reachable(w, steps) && Dry(w, r) && !w.requests[r].finalTaken
    && w.requests[r].total == total && w.requests[r].depth == 64
  }

  /** That can happen exactly with replies of more messages than the queue holds. */
  lemma DryExactlyBeyondTheDepth(total: nat)
    ensures (exists w, steps, r :: RunsDry(w, steps, r, total)) <==> total > 64
  {
    if total > RESPONSE_QUEUE_DEPTH {
      var w, steps := QueueDrains(0, total);
      assert RunsDry(w, steps, 0, total);
    }
    forall w, steps, r | RunsDry(w, steps, r, total) ensures total > RESPONSE_QUEUE_DEPTH {
      ReachableIsSound(w, steps);
      DryMeansManyReceived(w, r);
      if total <= RESPONSE_QUEUE_DEPTH {
        LastIsTaken(w, r);
      }
    }
  }

  lemma LastIsTaken(w: World, r: RequestId)
    requires Sound(w) && r in w.requests && Gapless(w.requests[r].received)
    requires |w.requests[r].received| == w.requests[r].total > 0
    ensures w.requests[r].finalTaken
  {
    assert InOrder(ShareOf(w, r), w.client.done);
  }
}
