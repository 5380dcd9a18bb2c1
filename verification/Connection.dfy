/** The connection as the object its methods update under its mutex. Each method
    is one critical section or a loop of them; its contract says which step of
    the protocol it takes. */
module Connection {
  import opened Wrappers
  import opened ConnModel
  import opened Protocol
  import opened ProtocolSafety
  import opened ProtocolOrder
  import opened Rely
  import opened Storage
  import opened Chunks

  /** The reply; or the caller's context ended; or the request never was on the wire; or the connection went away. */
  datatype RequestOutcome = Answered(msg: Message) | GaveUp | NotSent | ConnectionDown

  /** What a waiting caller's select comes up with: its queue has a message, or is closed and empty; the connection is
      gone; or the caller's patience is at an end. */
  datatype Choice = Ready | Drained | TornDown | Impatient

  /** Writing a packet: all of it, none of it, or a part. */
  datatype Transmission = Transmitted | Withheld | BrokenOff

  /** What a request asks of the server, where an answer depends on it. */
  datatype Ask = Unspecified | ReadAsk(at: nat, size: nat) | WriteAsk(at: nat, data: seq<Byte>)

  /** No request moves more bytes than the negotiated limits allow. */
  predicate WithinLimits(ask: Ask, limits: Negotiated) {
    match ask
    case Unspecified => true
    case ReadAsk(_, size) => size <= limits.MaxReadChunk()
    case WriteAsk(_, data) => |data| <= limits.MaxWriteChunk()
  }

  predicate AllWithinLimits(asked: map<RequestId, Ask>, limits: Negotiated) {
    forall r :: r in asked ==> WithinLimits(asked[r], limits)
  }

  /** What the caller whose code runs did on the connection: the requests it began, the most of them that were in
      flight at once, and what each asked. Only the methods that send a request add to it, and nothing is taken out. */
  datatype Diary = Diary(mine: set<RequestId>, peak: nat, asked: map<RequestId, Ask>) {
    function WithBegun(r: RequestId, ask: Ask): Diary {
      this.(mine := mine + {r}, asked := asked[r := ask])
    }

    function Peaked(n: nat): Diary {
      this.(peak := if peak < n then n else peak)
    }
  }

  /** The later diary has all of the earlier, and no more than `depth` requests were in flight at once in between. */
  ghost predicate Continues(before: Diary, after: Diary, depth: nat) {
    && before.mine <= after.mine
    && (forall r :: r in before.mine && r in before.asked ==> r in after.asked && after.asked[r] == before.asked[r])
    && before.peak <= after.peak <= if before.peak < depth then depth else before.peak
  }

  lemma ContinuesOn(d0: Diary, d1: Diary, d2: Diary, depth: nat, less: nat)
    requires Continues(d0, d1, depth) && Continues(d1, d2, less) && less <= depth
    ensures Continues(d0, d2, depth) && d1.peak <= d2.peak
  {
  }

  /** A request on the wire as its caller knows it: the queue it waits on and its MID. */
  datatype WireRequest = WireRequest(request: RequestId, mid: Mid)

  /** The request is on the wire and its caller has received none of its replies. */
  ghost predicate InFlight(w: World, q: WireRequest, transaction: bool) {
    && InPhase(w, q.request, OnWire) && q.request in w.client.queues
    && w.requests[q.request].transaction == transaction && !w.requests[q.request].finalTaken
    && w.requests[q.request].mid == q.mid && w.requests[q.request].received == [] && !w.requests[q.request].woken
    && (!transaction ==> w.requests[q.request].total == 1)
  }

  /** The caller is waiting for the ordinary request's one reply. */
  ghost predicate Awaiting(w: World, q: WireRequest) {
    InFlight(w, q, false)
  }

  /** The request's caller has received the last of its replies. */
  ghost predicate HasFinal(w: World, r: RequestId) {
    r in w.requests && w.requests[r].finalTaken
  }

  ghost predicate IsOrdinary(w: World, r: RequestId) {
    r in w.requests && !w.requests[r].transaction
  }

  /** The oldest message waiting for the request's caller. */
  ghost function Head(w: World, r: RequestId): Message
    requires Enabled(w, TakeMessage(r))
  {
    w.client.queues[r].items[0]
  }

  /** The ordinary request's caller received this message, and nothing else, as its reply. */
  ghost predicate AnsweredBy(w: World, r: RequestId, msg: Message) {
    && msg.Reply? && msg.origin == r
    && HasFinal(w, r) && IsOrdinary(w, r) && w.requests[r].received == [msg.seqno]
  }

  /** Nobody waits for the request on a live connection: its MID was freed or is held as cancelled. */
  ghost predicate NotAwaited(w: World, r: RequestId) {
    w.client.done || InPhase(w, r, Settled) || InPhase(w, r, Abandoned)
  }

  ghost predicate NoneAwaited(w: World, ids: set<RequestId>) {
    forall r :: r in ids ==> NotAwaited(w, r)
  }

  /** A caller done with all these requests leaves no MID behind that somebody would have to wait for. */
  ghost predicate Clean(w: World, ids: set<RequestId>) {
    ids <= w.requests.Keys && NoneAwaited(w, ids)
  }

  lemma CleanIsStable(w: World, w': World, ids: set<RequestId>)
    requires Clean(w, ids) && Tolerated(ids, w, w')
    ensures Clean(w', ids)
  {
    forall r | r in ids ensures NotAwaited(w', r) {
      assert NotAwaited(w, r);
      if !w.client.done {
        assert Undisturbed(w, w', r);
      }
    }
  }

  /** A request nobody waits for leaves no entry under its MID other than a cancelled one. */
  lemma NotAwaitedHoldsNothing(w: World, r: RequestId)
    requires Inv(w) && !w.client.done && NotAwaited(w, r)
    ensures forall m :: m in w.client.pending && w.client.pending[m].request == r ==> w.client.pending[m].cancelled
  {
    forall m | m in w.client.pending && w.client.pending[m].request == r ensures w.client.pending[m].cancelled {
      assert PendingNames(w, m);
      assert Fits(ShareOf(w, r), r, w.client.done);
    }
  }

  lemma BegunIsRegistered(w: World, r: RequestId, transaction: bool, depth: nat)
    requires Enabled(w, BeginRequest(r, transaction, depth))
    ensures var w' := Apply(w, BeginRequest(r, transaction, depth));
      match ConnModel.Begin(w.client, r, transaction, depth).1
      case None => w'.client.done && r !in w'.requests
      case Some(m) => InPhase(w', r, Registered) && w'.requests[r].mid == m && w'.requests[r].transaction == transaction
                      && w'.requests[r].depth == depth && !w'.requests[r].finalTaken && w'.requests[r].received == []
                      && !w'.requests[r].woken && r in w'.client.queues
  {
  }

  lemma SentIsInFlight(w: World, q: WireRequest, total: nat)
    requires Enabled(w, Sent(q.request, total)) && q.request in w.client.queues
    requires !w.requests[q.request].finalTaken && w.requests[q.request].received == []
    requires w.requests[q.request].mid == q.mid && !w.requests[q.request].woken
    ensures var w' := Apply(w, Sent(q.request, total));
      InFlight(w', q, w.requests[q.request].transaction) && w'.requests[q.request].total == total
      && w'.requests[q.request].depth == w.requests[q.request].depth
  {
  }

  lemma UnsentIsNotAwaited(w: World, r: RequestId)
    requires InPhase(w, r, Registered)
    ensures NotAwaited(Apply(w, Unsent(r)), r) && r in Apply(w, Unsent(r)).requests
    ensures HasFinal(Apply(w, Unsent(r)), r) <==> HasFinal(w, r)
  {
  }

  /** The oldest message of a waiter's queue is a reply to its own request, later than all it received, and the last
      exactly when it is marked so; or the news that the connection is gone. */
  lemma HeadIsOwn(w: World, r: RequestId)
    requires Sound(w) && Enabled(w, TakeMessage(r))
    ensures var msg, q := Head(w, r), w.requests[r];
      && (msg.Reply? ==> msg.origin == r && msg.seqno < q.total && (msg.final <==> msg.seqno + 1 == q.total))
      && (msg.Reply? ==> Increasing(q.received + [msg.seqno], q.total) && (NothingLost(q) ==> msg.seqno == |q.received|))
      && (msg.Wake? ==> w.client.done)
  {
    var s := ShareOf(w, r);
    assert Fits(s, r, w.client.done) && InOrder(s, w.client.done);
    if !w.client.done {
      assert s.Trail()[0] == s.queue.items[0];
    }
    if s.queue.items[0].Reply? {
      FirstIsNext(s, w.client.done);
    }
  }

  /** Whoever waits for an ordinary request's reply finds something in its queue if that is closed. */
  lemma AwaitedQueueIsNotDry(w: World, q: WireRequest)
    requires Sound(w) && Awaiting(w, q) && w.client.queues[q.request].closed
    ensures w.client.queues[q.request].items != []
  {
    assert InOrder(ShareOf(w, q.request), w.client.done) && Fits(ShareOf(w, q.request), q.request, w.client.done);
  }

  lemma TakenAnswers(w: World, q: WireRequest)
    requires Awaiting(w, q) && Enabled(w, TakeMessage(q.request)) && Sound(w)
    ensures var msg, w' := Head(w, q.request), Apply(w, TakeMessage(q.request));
      && (if msg.Reply? then AnsweredBy(w', q.request, msg) else w'.client.done)
      && InPhase(w', q.request, OnWire) && q.request in w'.client.queues
      && w'.requests[q.request].mid == q.mid && !w'.requests[q.request].transaction
  {
    HeadIsOwn(w, q.request);
  }

  lemma DeletedIsSettled(w: World, r: RequestId, msg: Message)
    requires Enabled(w, DeleteTaken(r))
    ensures var w' := Apply(w, DeleteTaken(r));
      NotAwaited(w', r) && (AnsweredBy(w, r, msg) ==> AnsweredBy(w', r, msg)) && w'.client.done == w.client.done
  {
  }

  lemma StaysNotAwaited(w: World, w': World, r: RequestId, mine: set<RequestId>)
    requires NotAwaited(w, r) && r in w.requests && r in mine && Tolerated(mine, w, w')
    ensures NotAwaited(w', r) && r in w'.requests && (HasFinal(w', r) <==> HasFinal(w, r))
  {
    assert Undisturbed(w, w', r);
  }

  lemma OneMoreClean(w: World, w': World, mine: set<RequestId>, r: RequestId)
    requires Clean(w, mine - {r}) && Tolerated(mine - {r}, w, w') && NotAwaited(w', r) && r in w'.requests
    ensures Clean(w', mine)
  {
    CleanIsStable(w, w', mine - {r});
  }

  lemma AnotherClean(w: World, before: set<RequestId>, after: set<RequestId>, r: RequestId)
    requires Clean(w, before) && before <= after <= before + {r} && after <= w.requests.Keys && NotAwaited(w, r)
    ensures Clean(w, after)
  {
  }

  /** A caller's own step keeps the protocol's invariants and disturbs none of its other requests. */
  lemma OwnStep(w: World, step: Step, mine: set<RequestId>, r: RequestId)
    requires Sound(w) && Enabled(w, step) && Caller(step) <= {r} && mine <= w.requests.Keys
    ensures Sound(Apply(w, step)) && Tolerated(mine - {r}, w, Apply(w, step))
    ensures mine <= Apply(w, step).requests.Keys
    ensures Apply(w, step).requests.Keys <= w.requests.Keys + {r}
  {
    hide Ordered, Fits, Apply;
    StepKeepsSound(w, step);
    StepsOfOthersAreTolerated(mine - {r}, w, step);
    StepKeepsError(w, step);
  }

  /** Counts what went wrong for callers of the connection: packets not sent and replies not received, the packets
      broken off, the callers' contexts that ended, and the late replies not received either. Only a refused request and
      the methods that stand for the outside world's choices advance these. It also counts the requests given up on, and
      the failures that callers reported. */
  class Mishaps {
    ghost var count: nat
    ghost var broken: nat
    ghost var impatient: nat
    ghost var late: nat
    ghost var abandoned: nat
    ghost var reported: nat

    constructor ()
      ensures count == broken == impatient == late == abandoned == reported == 0
    {
      count, broken, impatient, late, abandoned, reported := 0, 0, 0, 0, 0, 0;
    }
  }

  class Conn {
    const mishaps: Mishaps
    /** What was negotiated with the server. */
    const limits: Negotiated
    var nextMid: Mid
    var pending: map<Mid, Pending>
    var queues: map<RequestId, Queue>
    var done: bool
    var error: Option<ConnError>
    /** The next queue to be allocated. */
    var nextRequest: RequestId

    /** What the caller whose code runs did on this connection. */
    var diary: Diary

    /** The protocol around this connection: the requests' progress, the server's ledger and the byte stream. */
    ghost var world: World

    ghost function State(): Client
      reads this
    {
      Client(nextMid, pending, queues, done, error)
    }

    ghost predicate Valid()
      reads this
    {
      && world.client == State()
      && Sound(world)
      && (forall r :: r in world.requests ==> r < nextRequest)
      && diary.mine <= world.requests.Keys
      && AllWithinLimits(diary.asked, limits)
    }

    constructor (limits: Negotiated)
      ensures Valid() && world == Start && fresh(mishaps) && diary == Diary({}, 0, map[]) && this.limits == limits
    {
      mishaps := new Mishaps();
      this.limits := limits;
      nextMid, pending, queues, done, error, nextRequest := 0, map[], map[], false, None, 0;
      diary := Diary({}, 0, map[]);
      world := Start;
      new;
      StartIsSound();
    }

    /** Between two critical sections of one caller anybody else may take any number of steps;
        EnvironmentIsTolerated shows that they end in a state this contract allows. */
    method Interfere()
      requires Valid()
      modifies this
      ensures Valid() && diary == old(diary) && Tolerated(diary.mine, old(world), world)
    {
      hide Sound;
      EnvironmentIsTolerated(diary.mine, world, [], world);
    }

    /** The select of a caller that gave up, but waits a while longer for its reply. */
    method SelectLate(r: RequestId) returns (choice: Choice)
      requires r in queues
      modifies mishaps`late
      ensures choice.Ready? ==> queues[r].items != []
      ensures choice.Drained? ==> queues[r].items == [] && queues[r].closed
      ensures choice.TornDown? ==> done
      ensures mishaps.late == old(mishaps.late) + if choice.Ready? && queues[r].items[0].Reply? then 0 else 1
    {
      var kind: nat := *;
      choice :=
        if kind == 0 && queues[r].items != [] then Ready
        else if kind == 0 && queues[r].closed then Drained
        else if kind == 1 && done then TornDown
        else Impatient;
      if !choice.Ready? || queues[r].items[0].Wake? {
        mishaps.late := mishaps.late + 1;
      }
    }

    /** The select of a caller that waits for a reply: to come up with anything else is a mishap. */
    method Select(r: RequestId) returns (choice: Choice)
      requires r in queues
      modifies mishaps`count, mishaps`impatient
      ensures choice.Ready? ==> queues[r].items != []
      ensures choice.Drained? ==> queues[r].items == [] && queues[r].closed
      ensures choice.TornDown? ==> done
      ensures mishaps.count == old(mishaps.count) + if choice.Ready? && queues[r].items[0].Reply? then 0 else 1
      ensures mishaps.impatient == old(mishaps.impatient) + if choice.Impatient? then 1 else 0
    {
      var kind: nat := *;
      choice :=
        if kind == 0 && queues[r].items != [] then Ready
        else if kind == 0 && queues[r].closed then Drained
        else if kind == 1 && done then TornDown
        else Impatient;
      if !choice.Ready? || queues[r].items[0].Wake? {
        mishaps.count := mishaps.count + 1;
      }
      if choice.Impatient? {
        mishaps.impatient := mishaps.impatient + 1;
      }
    }

    /** Whether the caller's context has ended by now. */
    method ContextEnded() returns (ended: bool)
      modifies mishaps`impatient
      ensures mishaps.impatient == old(mishaps.impatient) + if ended then 1 else 0
    {
      ended := *;
      if ended {
        mishaps.impatient := mishaps.impatient + 1;
      }
    }

    /** The stream takes all of the packet, or none of it, or breaks off. */
    method WritePacket() returns (t: Transmission)
      modifies mishaps`count, mishaps`broken
      ensures mishaps.count == old(mishaps.count) + if t.Transmitted? then 0 else 1
      ensures mishaps.broken == old(mishaps.broken) + if t.BrokenOff? then 1 else 0
    {
      var kind: nat := *;
      t := if kind == 0 then Transmitted else if kind == 1 then Withheld else BrokenOff;
      if !t.Transmitted? {
        mishaps.count := mishaps.count + 1;
      }
      if t.BrokenOff? {
        mishaps.broken := mishaps.broken + 1;
      }
    }

    /** Nothing but the caller's own step for `r`, if any, happened to its requests. */
    twostate predicate Only(r: RequestId)
      reads this
    {
      diary == old(diary) && Tolerated(diary.mine - {r}, old(world), world)
    }

    /** What the loops over the pending map rely on: each entry has its own queue. */
    ghost predicate OwnQueues()
      reads this
    {
      Distinct(pending) && Requests(pending) <= queues.Keys
    }

    lemma SoundIsInv()
      requires Valid()
      ensures Inv(world)
    {
    }

    lemma ValidHasOwnQueues()
      requires Valid()
      ensures OwnQueues()
    {
      assert forall m :: m in pending ==> PendingNames(world, m);
    }

    /** Offers every pending request the news and unregisters it. */
    method WakePending(e: ConnError)
      requires OwnQueues()
      modifies this`pending, this`queues
      ensures pending == map[]
      ensures queues == WakeAll(old(queues), Requests(old(pending)), e)
    {
      hide WakeAll, Requests, Distinct, Offer;
      ghost var woken := {};
      WakeNobody(queues, e);
      while pending != map[]
        invariant Distinct(pending) && woken !! Requests(pending)
        invariant woken + Requests(pending) == Requests(old(pending))
        invariant queues == WakeAll(old(queues), woken, e)
        decreases |pending|
      {
        var m :| m in pending;
        var r := pending[m].request;
        RequestsWithout(pending, m);
        WakeOneMore(old(queues), woken, r, e);
        queues := queues[r := Offer(queues[r], Wake(e))];
        pending := pending - {m};
        woken := woken + {r};
      }
    }

    method SetErrorLocked(e: ConnError)
      requires OwnQueues()
      modifies this
      ensures State() == SetError(old(State()), e)
      ensures world == old(world) && nextRequest == old(nextRequest) && diary == old(diary)
    {
      if done {
        return;
      }
      if error.None? {
        error := Some(e);
      }
      WakePending(e);
      done := true;
    }

    method SetConnError(e: ConnError)
      requires Valid()
      modifies this, mishaps`reported
      ensures mishaps.reported == old(mishaps.reported) + 1
      ensures Valid() && diary == old(diary) && Tolerated(diary.mine, old(world), world)
      ensures done && world == Apply(old(world), Fail(e))
    {
      hide Sound;
      SoundIsInv();
      StepsOfOthersAreTolerated(diary.mine, world, Fail(e));
      ValidHasOwnQueues();
      StepKeepsSound(world, Fail(e));
      SetErrorLocked(e);
      mishaps.reported := mishaps.reported + 1;
      world := Apply(world, Fail(e));
    }

    /** Finds the next free MID, or tears the connection down when one pass over the ID space finds none. */
    method AllocateMid() returns (mid: Option<Mid>)
      requires !done && OwnQueues()
      modifies this
      ensures mid == FirstFree(old(pending), old(nextMid), 0)
      ensures mid.Some? ==> State() == old(State()).(nextMid := Wrap(mid.value + 1))
      ensures mid.None? ==> State() == SetError(old(State()), MidsExhausted)
      ensures world == old(world) && nextRequest == old(nextRequest) && diary == old(diary)
    {
      hide Wrap, SetError, Requests, Distinct;
      var start := nextMid;
      ghost var tried := 0;
      WrapNext(start, tried);
      while true
        invariant 0 <= tried < MID_SPACE && nextMid == Wrap(start + tried)
        invariant State() == old(State()).(nextMid := nextMid)
        invariant world == old(world) && nextRequest == old(nextRequest) && diary == old(diary)
        invariant FirstFree(pending, start, 0) == FirstFree(pending, start, tried)
        decreases MID_SPACE - tried
      {
        var m := nextMid;
        WrapNext(start, tried);
        nextMid := Wrap(nextMid + 1);
        if m != RESERVED_MID && m !in pending {
          return Some(m);
        }
        tried := tried + 1;
        if nextMid == start {
          SetErrorLocked(MidsExhausted);
          return None;
        }
      }
    }

    /** Allocates a MID and registers a request under it; to be refused one is a mishap. */
    method Begin(transaction: bool, depth: nat, ask: Ask) returns (r: RequestId, mid: Option<Mid>)
      requires Valid() && depth > 0 && WithinLimits(ask, limits)
      modifies this, mishaps`count
      ensures mishaps.count == old(mishaps.count) + if mid.Some? then 0 else 1
      ensures Valid() && r !in old(world).requests && Tolerated(old(diary).mine, old(world), world)
      ensures world == Apply(old(world), BeginRequest(r, transaction, depth))
      ensures mid == ConnModel.Begin(old(State()), r, transaction, depth).1
      ensures diary == if mid.Some? then old(diary).WithBegun(r, ask) else old(diary)
    {
      hide Sound, Tolerated, WithinLimits, Requests, Distinct, SetError, FirstFree;
      r := nextRequest;
      nextRequest := nextRequest + 1;
      OwnStep(world, BeginRequest(r, transaction, depth), diary.mine, r);
      assert diary.mine - {r} == diary.mine;
      if done {
        mid := None;
      } else {
        ValidHasOwnQueues();
        mid := AllocateMid();
        if mid.Some? {
          pending := pending[mid.value := Pending(r, false, transaction)];
          queues := queues[r := Queue([], depth, false)];
          diary := diary.WithBegun(r, ask);
        }
      }
      if mid.None? {
        mishaps.count := mishaps.count + 1;
      }
      world := Apply(world, BeginRequest(r, transaction, depth));
    }

    /** The request never reached the wire: nothing will answer it. */
    method Cleanup(r: RequestId, mid: Mid)
      requires Valid() && Enabled(world, Unsent(r)) && world.requests[r].mid == mid
      modifies this
      ensures Valid() && Only(r) && world == Apply(old(world), Unsent(r))
    {
      hide Sound, Tolerated;
      OwnStep(world, Unsent(r), diary.mine, r);
      pending := pending - {mid};
      world := Apply(world, Unsent(r));
    }

    /** The whole packet was written: from here on the server owes a reply, of `total` messages. */
    ghost method PacketWritten(r: RequestId, total: nat)
      requires Valid() && Enabled(world, Sent(r, total))
      modifies this`world
      ensures Valid() && Only(r) && world == Apply(old(world), Sent(r, total))
    {
      hide Sound, Tolerated;
      OwnStep(world, Sent(r, total), diary.mine, r);
      world := Apply(world, Sent(r, total));
    }

    /** A caller that received its chunk's reply frees the MID. */
    method FreeTaken(r: RequestId, mid: Mid)
      requires Valid() && Enabled(world, DeleteTaken(r)) && world.requests[r].mid == mid
      modifies this
      ensures Valid() && Only(r) && world == Apply(old(world), DeleteTaken(r))
    {
      hide Sound, Tolerated;
      OwnStep(world, DeleteTaken(r), diary.mine, r);
      pending := pending - {mid};
      world := Apply(world, DeleteTaken(r));
    }

    method ReleaseLocked(r: RequestId, mid: Mid, abandoned: bool)
      requires Valid() && Enabled(world, Finish(r, abandoned)) && world.requests[r].mid == mid
      modifies this, mishaps`abandoned
      ensures mishaps.abandoned == old(mishaps.abandoned) + if abandoned then 1 else 0
      ensures Valid() && Only(r) && world == Apply(old(world), Finish(r, abandoned))
    {
      hide Sound, Tolerated;
      OwnStep(world, Finish(r, abandoned), diary.mine, r);
      if mid in pending && pending[mid].request == r {
        if !abandoned || (|queues[r].items| > 0 && !pending[mid].transaction) {
          pending := pending - {mid};
        } else {
          pending := pending[mid := pending[mid].(cancelled := true)];
        }
      }
      if abandoned {
        mishaps.abandoned := mishaps.abandoned + 1;
      }
      world := Apply(world, Finish(r, abandoned));
    }

    /** The receive loop's hand-off of one decoded message. */
    method Dispatch(msg: Message)
      requires Valid() && Enabled(world, Receive) && world.wire[0] == msg
      modifies this
      ensures Valid() && diary == old(diary) && world == Apply(old(world), Receive)
    {
      hide Sound;
      StepKeepsSound(world, Receive);
      if msg.mid in pending {
        var p := pending[msg.mid];
        if p.cancelled {
          if !p.transaction {
            pending := pending - {msg.mid};
          }
        } else if |queues[p.request].items| < queues[p.request].depth {
          queues := queues[p.request := queues[p.request].(items := queues[p.request].items + [msg])];
        } else {
          assert queues == queues[p.request := queues[p.request]];
        }
      }
      world := Apply(world, Receive);
    }

    /** A waiter receives from its queue. */
    method TakeFrom(r: RequestId) returns (msg: Message)
      requires Valid() && Enabled(world, TakeMessage(r))
      modifies this
      ensures Valid() && Only(r) && world == Apply(old(world), TakeMessage(r))
      ensures msg == Head(old(world), r)
    {
      hide Sound, Tolerated;
      OwnStep(world, TakeMessage(r), diary.mine, r);
      msg := queues[r].items[0];
      queues := queues[r := queues[r].(items := queues[r].items[1..])];
      world := Apply(world, TakeMessage(r));
    }

    /** A write that failed part way takes the connection down, with the packet's own request unregistered already. */
    method ReportFailure(ghost r: RequestId)
      requires Valid() && NotAwaited(world, r) && r in diary.mine
      modifies this, mishaps`reported
      ensures mishaps.reported == old(mishaps.reported) + 1
      ensures Valid() && done && diary == old(diary) && Tolerated(diary.mine, old(world), world)
      ensures NotAwaited(world, r) && (HasFinal(world, r) <==> HasFinal(old(world), r))
    {
      hide Sound, Apply, AllWithinLimits;
      Interfere();
      StaysNotAwaited(old(world), world, r, diary.mine);
      label failing:
      SetConnError(SendFailed);
      StaysNotAwaited(old@failing(world), world, r, diary.mine);
      ToleranceComposes(diary.mine, old(world), old@failing(world), world);
    }

    // ----- One request at a time -----

    /** Writes the packet of a registered request. One that was not written leaves nothing registered; a write that
        failed part way, and only that, also takes the connection down. */
    method Transmit(q: WireRequest, ghost total: nat) returns (sent: bool)
      requires Valid() && Enabled(world, Sent(q.request, total)) && q.request in queues && q.request in diary.mine
      requires world.requests[q.request].mid == q.mid && world.requests[q.request].received == []
      requires !world.requests[q.request].finalTaken && !world.requests[q.request].woken
      modifies this, mishaps`count, mishaps`broken, mishaps`reported
      ensures mishaps.count == old(mishaps.count) + if sent then 0 else 1
      ensures mishaps.broken > old(mishaps.broken) ==> !sent && done
      ensures mishaps.reported - old(mishaps.reported) == mishaps.broken - old(mishaps.broken) <= 1
      ensures Valid() && Only(q.request)
      ensures sent ==> InFlight(world, q, old(world).requests[q.request].transaction)
      ensures sent ==>
        world.requests[q.request].total == total && world.requests[q.request].depth == old(world).requests[q.request].depth
      ensures !sent ==> NotAwaited(world, q.request) && !HasFinal(world, q.request)
    {
      hide Sound, Apply, AllWithinLimits;
      var transmission := WritePacket();
      if transmission.Transmitted? {
        PacketWritten(q.request, total);
        SentIsInFlight(old(world), q, total);
        return true;
      }
      Cleanup(q.request, q.mid);
      UnsentIsNotAwaited(old(world), q.request);
      label cleaned:
      if transmission.BrokenOff? {
        ReportFailure(q.request);
        ghost var others := diary.mine - {q.request};
        ToleranceGoesOn(others, old(world), old@cleaned(world), world, diary.mine);
      }
      return false;
    }

    /** Registers a request and writes its packet, for a reply of `total` messages. */
    method SendPacket(transaction: bool, depth: nat, ask: Ask, ghost total: nat) returns (sent: bool, q: WireRequest)
      requires Valid() && depth > 0 && WithinLimits(ask, limits) && total > 0 && (!transaction ==> total == 1)
      modifies this, mishaps`count, mishaps`broken, mishaps`reported
      ensures mishaps.count == old(mishaps.count) + if sent then 0 else 1
      ensures mishaps.broken > old(mishaps.broken) ==> !sent && done
      ensures mishaps.reported - old(mishaps.reported) == mishaps.broken - old(mishaps.broken) <= 1
      ensures Valid() && Tolerated(old(diary).mine, old(world), world) && q.request !in old(world).requests
      ensures diary == old(diary).WithBegun(q.request, ask) || (!sent && diary == old(diary))
      ensures sent ==> InFlight(world, q, transaction)
      ensures sent ==> world.requests[q.request].total == total && world.requests[q.request].depth == depth
      ensures !sent ==> NotAwaited(world, q.request) && !HasFinal(world, q.request)
    {
      hide Sound, Apply, AllWithinLimits, WithinLimits;
      var r, mid := Begin(transaction, depth, ask);
      BegunIsRegistered(old(world), r, transaction, depth);
      q := WireRequest(r, mid.GetOr(0));
      if mid.None? {
        return false, q;
      }
      label begun:
      ghost var before := old(diary).mine;
      Interfere();
      assert Undisturbed(old@begun(world), world, r);
      ToleranceGoesOn(before, old(world), old@begun(world), world, diary.mine);
      label ready:
      sent := Transmit(q, total);
      ToleranceGoesOn(before, old(world), old@ready(world), world, diary.mine - {r});
    }

    /** Whatever a caller is told to wait for no longer, it lets go of here: the MID is freed if the
        caller has the reply or the connection is gone, and otherwise given up on. */
    method Release(q: WireRequest, abandoned: bool)
      requires Valid() && InPhase(world, q.request, OnWire) && q.request in queues
      requires world.requests[q.request].mid == q.mid && !world.requests[q.request].transaction
      requires abandoned ==> !world.requests[q.request].finalTaken
      requires !abandoned ==> world.requests[q.request].finalTaken || done
      modifies this, mishaps`abandoned
      ensures mishaps.abandoned == old(mishaps.abandoned) + if abandoned then 1 else 0
      ensures Valid() && Only(q.request) && NotAwaited(world, q.request) && q.request in world.requests
      ensures done == old(done) && (HasFinal(world, q.request) <==> HasFinal(old(world), q.request))
      ensures forall msg :: AnsweredBy(old(world), q.request, msg) ==> AnsweredBy(world, q.request, msg)
    {
      hide Sound;
      ReleaseLocked(q.request, q.mid, abandoned);
    }

    /** Takes the waiting message and lets go of the request: a reply is returned, and nothing else is the news of
        teardown. */
    method ReceiveReply(q: WireRequest) returns (outcome: RequestOutcome)
      requires Valid() && Awaiting(world, q) && queues[q.request].items != []
      modifies this, mishaps`abandoned
      ensures mishaps.abandoned == old(mishaps.abandoned)
      ensures Valid() && Only(q.request) && NotAwaited(world, q.request) && q.request in world.requests
      ensures outcome.ConnectionDown? || (outcome.Answered? && AnsweredBy(world, q.request, outcome.msg))
      ensures outcome.Answered? <==> HasFinal(world, q.request)
      ensures outcome.Answered? <==> old(queues[q.request].items[0].Reply?)
      ensures outcome.ConnectionDown? ==> done
    {
      hide Sound;
      HeadIsOwn(world, q.request);
      var msg := TakeFrom(q.request);
      label taken:
      TakenAnswers(old(world), q);
      Release(q, false);
      ToleranceGoesOn(diary.mine - {q.request}, old(world), old@taken(world), world, diary.mine - {q.request});
      outcome := if msg.Wake? then ConnectionDown else Answered(msg);
    }

    /** Waits a bounded time for the reply nobody wants any more, and gives up on it after that. */
    method SettleLate(q: WireRequest)
      requires Valid() && Awaiting(world, q) && q.request in diary.mine
      modifies this, mishaps`late, mishaps`abandoned
      ensures Valid() && Only(q.request) && NotAwaited(world, q.request) && q.request in world.requests
      ensures mishaps.late == old(mishaps.late) + if HasFinal(world, q.request) then 0 else 1
      ensures HasFinal(world, q.request) ==> mishaps.abandoned == old(mishaps.abandoned)
    {
      hide Sound, Apply;
      Interfere();
      assert Undisturbed(old(world), world, q.request);
      label waited:
      ghost var others := diary.mine - {q.request};
      assert Tolerated(others, old(world), world);
      var choice := SelectLate(q.request);
      match choice {
        case Ready =>
          var outcome := ReceiveReply(q);
        case Impatient =>
          Release(q, true);
        case TornDown =>
          Release(q, false);
        case Drained =>
          AwaitedQueueIsNotDry(world, q);
          assert false;
      }
      ToleranceGoesOn(others, old(world), old@waited(world), world, others);
    }

    /** Sends the request and lets time pass: once sent it is still awaited, and nothing else of the caller's is. */
    method StartAndWait(ask: Ask) returns (sent: bool, q: WireRequest)
      requires Valid() && Clean(world, diary.mine) && WithinLimits(ask, limits)
      modifies this, mishaps`count, mishaps`broken, mishaps`reported
      ensures mishaps.count == old(mishaps.count) + if sent then 0 else 1
      ensures mishaps.reported - old(mishaps.reported) == mishaps.broken - old(mishaps.broken)
      ensures Valid() && q.request !in old(world).requests
      ensures diary == old(diary).WithBegun(q.request, ask).Peaked(1) || (!sent && diary == old(diary).Peaked(1))
      ensures !sent ==> Clean(world, diary.mine) && !HasFinal(world, q.request)
      ensures sent ==> Awaiting(world, q) && q.request in diary.mine && Clean(world, diary.mine - {q.request})
    {
      hide Sound, Apply;
      sent, q := SendPacket(false, RESPONSE_QUEUE_DEPTH, ask, 1);
      diary := diary.Peaked(1);
      ghost var before := old(diary).mine;
      CleanIsStable(old(world), world, before);
      assert q.request in diary.mine ==> diary.mine - {q.request} == before;
      if !sent {
        return;
      }
      label transmitted:
      Interfere();
      assert Undisturbed(old@transmitted(world), world, q.request);
      CleanIsStable(old@transmitted(world), world, before);
    }

    /** sendRecv: sends a request and waits for its reply; a caller that gives up abandons it at once. The reply
        returned is the one message that the request's caller received, and a reply received is returned. */
    method SendRecv(ask: Ask) returns (outcome: RequestOutcome, r: RequestId)
      requires Valid() && Clean(world, diary.mine) && WithinLimits(ask, limits)
      modifies this, mishaps
      ensures mishaps.count == old(mishaps.count) + if outcome.Answered? then 0 else 1
      ensures Valid() && Clean(world, diary.mine) && r !in old(world).requests
      ensures diary == old(diary).WithBegun(r, ask).Peaked(1) || (outcome.NotSent? && diary == old(diary).Peaked(1))
      ensures outcome.Answered? ==> AnsweredBy(world, r, outcome.msg)
      ensures HasFinal(world, r) ==> mishaps.abandoned == old(mishaps.abandoned)
      ensures HasFinal(world, r) ==> outcome.Answered?
      ensures mishaps.impatient == old(mishaps.impatient) + if outcome.GaveUp? then 1 else 0
      ensures mishaps.reported - old(mishaps.reported) == mishaps.broken - old(mishaps.broken)
      ensures outcome.ConnectionDown? ==> done
    {
      hide Sound, Apply, Clean;
      var sent, q := StartAndWait(ask);
      r := q.request;
      if !sent {
        return NotSent, r;
      }
      label waited:
      var choice := Select(r);
      match choice {
        case Ready =>
          outcome := ReceiveReply(q);
        case Impatient =>
          Release(q, true);
          outcome := GaveUp;
        case TornDown =>
          // The context may have ended as well.
          var gaveUp: bool := *;
          Release(q, gaveUp);
          outcome := ConnectionDown;
        case Drained =>
          AwaitedQueueIsNotDry(world, q);
          assert false;
      }
      OneMoreClean(old@waited(world), world, diary.mine, r);
    }

    /** sendRecvSettled: as sendRecv, but a caller that gave up still waits a bounded time for the reply, which is
        then not returned. */
    method SendRecvSettled(ask: Ask) returns (outcome: RequestOutcome, r: RequestId)
      requires Valid() && Clean(world, diary.mine) && WithinLimits(ask, limits)
      modifies this, mishaps
      ensures mishaps.count == old(mishaps.count) + if outcome.Answered? then 0 else 1
      ensures Valid() && Clean(world, diary.mine) && r !in old(world).requests
      ensures diary == old(diary).WithBegun(r, ask).Peaked(1) || (outcome.NotSent? && diary == old(diary).Peaked(1))
      ensures outcome.Answered? ==> AnsweredBy(world, r, outcome.msg)
      ensures HasFinal(world, r) ==> mishaps.abandoned == old(mishaps.abandoned)
      ensures HasFinal(world, r) ==> outcome.Answered? || outcome.GaveUp?
      ensures mishaps.impatient == old(mishaps.impatient) + if outcome.GaveUp? then 1 else 0
      ensures mishaps.reported - old(mishaps.reported) == mishaps.broken - old(mishaps.broken)
      ensures outcome.GaveUp? ==> mishaps.late == old(mishaps.late) + if HasFinal(world, r) then 0 else 1
      ensures outcome.ConnectionDown? ==> done
    {
      hide Sound, Apply, Clean;
      var sent, q := StartAndWait(ask);
      r := q.request;
      if !sent {
        return NotSent, r;
      }
      label waited:
      var choice := Select(r);
      match choice {
        case Ready =>
          outcome := ReceiveReply(q);
        case Impatient =>
          SettleLate(q);
          outcome := GaveUp;
        case TornDown =>
          // Only if the context has ended as well is there anything to wait for.
          var gaveUp := ContextEnded();
          if gaveUp {
            SettleLate(q);
            outcome := GaveUp;
          } else {
            Release(q, false);
            outcome := ConnectionDown;
          }
        case Drained =>
          AwaitedQueueIsNotDry(world, q);
          assert false;
      }
      OneMoreClean(old@waited(world), world, diary.mine, r);
    }

    // ----- Close -----

    /** While Close wakes the swapped-out requests one by one, others may go on taking steps,
        but nobody else closes queues. */
    method InterfereWithCloser()
      requires Valid() && done
      modifies this
      ensures Valid() && done && diary == old(diary) && world.closing == old(world).closing && error == old(error)
      ensures forall r :: r in old(queues) && old(queues)[r].closed ==> r in queues && queues[r].closed
    {
    }

    /** One of the swapped-out requests is told and its queue closed. */
    method CloseOneQueue(r: RequestId)
      requires Valid() && done && Enabled(world, CloseOne(r))
      modifies this
      ensures Valid() && done && diary == old(diary) && error == old(error)
      ensures world.closing == old(world).closing - {r} && world == Apply(old(world), CloseOne(r))
      ensures r in queues && queues[r].closed
      ensures forall q :: q in old(queues) && old(queues)[q].closed ==> q in queues && queues[q].closed
    {
      hide Sound, AllWithinLimits, Offer;
      ClosingAreOpen();
      StepKeepsSound(world, CloseOne(r));
      queues := queues[r := Offer(queues[r], Wake(ConnectionClosed)).(closed := true)];
      world := Apply(world, CloseOne(r));
    }

    method Close()
      requires Valid()
      modifies this
      ensures Valid() && done && diary == old(diary) && pending == map[]
      ensures old(done) ==> error == old(error)
      ensures !old(done) ==> error == Some(ConnectionClosed)
      ensures forall r :: r in Requests(old(pending)) ==> r in queues && queues[r].closed
    {
      hide Sound, Distinct, Requests, AllWithinLimits;
      ClosingAreOpen();
      WakeNobody(queues, ConnectionClosed);
      if done {
        return;
      }
      ValidHasOwnQueues();
      StepKeepsSound(world, CloseBegin);
      var swapped := pending;
      world := Apply(world, CloseBegin);
      done, error, pending := true, Some(ConnectionClosed), map[];
      ghost var all := Requests(swapped);
      while swapped != map[]
        invariant Valid() && done && diary == old(diary) && error == Some(ConnectionClosed)
        invariant Distinct(swapped) && Requests(swapped) <= world.closing && Requests(swapped) <= all
        invariant forall r :: r in all && r !in Requests(swapped) ==> r in queues && queues[r].closed
        decreases |swapped|
      {
        InterfereWithCloser();
        var m :| m in swapped;
        var r := swapped[m].request;
        RequestsWithout(swapped, m);
        ClosingAreOpen();
        CloseOneQueue(r);
        swapped := swapped - {m};
      }
      ClosingAreOpen();
    }

    lemma ClosingAreOpen()
      requires Valid()
      ensures forall r :: r in world.closing ==> r in queues && !queues[r].closed
      ensures done ==> pending == map[]
    {
    }
  }

  /** Nothing but Close's own steps takes a request off its list or reopens a queue. */
  lemma OthersLeaveTheCloserAlone(w: World, step: Step)
    requires Inv(w) && w.client.done && Enabled(w, step) && !step.CloseOne?
    ensures Apply(w, step).client.done && Apply(w, step).closing == w.closing
    ensures Apply(w, step).client.error == w.client.error
    ensures forall r :: r in w.requests && w.client.queues[r].closed ==>
      r in Apply(w, step).client.queues && Apply(w, step).client.queues[r].closed
  {
  }
}
