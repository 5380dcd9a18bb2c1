/** The whole system around one connection: the client, the callers' progress
    through their requests, the server's ledger of owed replies, and the byte
    stream carrying replies back. Every critical section, every server message
    and every caller decision is one atomic step, taken in any order. */
module Protocol {
  import opened Wrappers
  import opened ConnModel

  /** Where a request's caller stands: registered but not yet on the wire, on
      the wire, finished with, or given up on. */
  datatype Phase = Registered | OnWire | Settled | Abandoned

  /** `total` is how many messages the server will send for the request, fixed when it reaches the server, and
      `sent` how many it has sent; `received` are the numbers of those the caller has received, in order, and
      `finalTaken` says that the last is among them; `dropped` says that a full queue lost one of them, and
      `garbled` that one could not be decoded; `woken` says that its caller received the news of teardown. */
  datatype Request = Request(
    mid: Mid, transaction: bool, depth: nat, phase: Phase, total: nat, sent: nat,
    received: seq<nat>, finalTaken: bool, dropped: bool, garbled: bool, woken: bool)

  /** `closing` are the requests Close swapped out and has not woken yet; `lost`
      those whose last reply could not be decoded. */
  datatype World = World(
    client: Client,
    requests: map<RequestId, Request>,
    owed: set<RequestId>,
    wire: seq<Message>,
    closing: set<RequestId>,
    lost: set<RequestId>)

  const Start := World(NewClient, map[], {}, [], {}, {})

  datatype Step =
    | BeginRequest(request: RequestId, transaction: bool, depth: nat)
    | Unsent(request: RequestId)
    | Sent(request: RequestId, total: nat)
    | ServerSends(request: RequestId, final: bool)
    | Receive
    | Malformed
    | TakeMessage(request: RequestId)
    | DeleteTaken(request: RequestId)
    | Finish(request: RequestId, abandoned: bool)
    | Fail(error: ConnError)
    | CloseBegin
    | CloseOne(request: RequestId)

  ghost predicate InPhase(w: World, r: RequestId, p: Phase) {
    r in w.requests && w.requests[r].phase == p
  }

  /** A caller lets go of a request with its MID freed only once the last reply is in its hands
      or the connection is gone; an ordinary request is never abandoned after its reply was taken. */
  ghost predicate MayFinish(w: World, r: RequestId, abandoned: bool) {
    && InPhase(w, r, OnWire)
    && (!abandoned ==> w.requests[r].finalTaken || w.client.done)
    && (abandoned && !w.requests[r].transaction ==> !w.requests[r].finalTaken)
  }

  ghost predicate Enabled(w: World, step: Step) {
    match step
    case BeginRequest(r, _, depth) => r !in w.requests && depth > 0
    case Unsent(r) => InPhase(w, r, Registered)
    case Sent(r, total) => InPhase(w, r, Registered) && total > 0 && (!w.requests[r].transaction ==> total == 1)
    case ServerSends(r, final) =>
      && r in w.owed && r in w.requests && (!w.requests[r].transaction ==> final)
      && (final <==> w.requests[r].sent + 1 == w.requests[r].total)
    case Receive =>
      && w.wire != [] && w.wire[0].Reply?
      && (w.wire[0].mid in w.client.pending ==>
            && w.client.pending[w.wire[0].mid].request in w.client.queues
            && w.client.pending[w.wire[0].mid].request in w.requests)
    case Malformed => w.wire != [] && w.wire[0].Reply?
    case TakeMessage(r) => InPhase(w, r, OnWire) && r in w.client.queues && w.client.queues[r].items != []
    case DeleteTaken(r) => MayFinish(w, r, false)
    case Finish(r, abandoned) => MayFinish(w, r, abandoned) && r in w.client.queues
    case Fail(_) => true
    case CloseBegin => true
    case CloseOne(r) => r in w.closing && r in w.client.queues
  }

  ghost function SetPhase(w: World, r: RequestId, p: Phase): World
    requires r in w.requests
  {
    w.(requests := w.requests[r := w.requests[r].(phase := p)])
  }

  ghost function WithRequest(w: World, r: RequestId, transaction: bool, depth: nat, m: Mid): World {
    w.(client := Register(w.client, r, transaction, depth, m),
       requests := w.requests[r := Request(m, transaction, depth, Registered, 0, 0, [], false, false, false, false)])
  }

  ghost function AfterBegin(w: World, r: RequestId, transaction: bool, depth: nat): World {
    var (client, mid) := Begin(w.client, r, transaction, depth);
    match mid
    case None => w.(client := client)
    case Some(m) => WithRequest(w, r, transaction, depth, m)
  }

  ghost function AfterServerSends(w: World, r: RequestId, final: bool): World
    requires r in w.requests
  {
    var q := w.requests[r];
    w.(wire := w.wire + [Reply(q.mid, r, q.sent, final)],
       requests := w.requests[r := q.(sent := q.sent + 1)],
       owed := if final then w.owed - {r} else w.owed)
  }

  /** Dispatching `msg` finds a live waiter whose queue has no room. */
  ghost predicate Overflows(c: Client, msg: Message)
    requires msg.Reply?
  {
    && msg.mid in c.pending && !c.pending[msg.mid].cancelled
    && c.pending[msg.mid].request in c.queues
    && |c.queues[c.pending[msg.mid].request].items| >= c.queues[c.pending[msg.mid].request].depth
  }

  ghost function AfterReceive(w: World): World
    requires Enabled(w, Receive)
  {
    var msg := w.wire[0];
    w.(client := Dispatch(w.client, msg),
       wire := w.wire[1..],
       requests :=
         if Overflows(w.client, msg) then
           var r := w.client.pending[msg.mid].request;
           w.requests[r := w.requests[r].(dropped := true)]
         else w.requests)
  }

  ghost function AfterTake(w: World, r: RequestId): World
    requires Enabled(w, TakeMessage(r))
  {
    var msg := w.client.queues[r].items[0];
    w.(client := Take(w.client, r),
       requests := w.requests[r := w.requests[r].(
         received := if msg.Reply? then w.requests[r].received + [msg.seqno] else w.requests[r].received,
         finalTaken := w.requests[r].finalTaken || (msg.Reply? && msg.final),
         woken := w.requests[r].woken || msg.Wake?)])
  }

  ghost function Apply(w: World, step: Step): World
    requires Enabled(w, step)
  {
    match step
    case BeginRequest(r, transaction, depth) => AfterBegin(w, r, transaction, depth)
    case Unsent(r) => SetPhase(w.(client := Unregister(w.client, w.requests[r].mid)), r, Settled)
    case Sent(r, total) =>
      SetPhase(w.(owed := w.owed + {r}, requests := w.requests[r := w.requests[r].(total := total)]), r, OnWire)
    case ServerSends(r, final) => AfterServerSends(w, r, final)
    case Receive => AfterReceive(w)
    case Malformed =>
      var r := w.wire[0].origin;
      w.(wire := w.wire[1..], lost := if w.wire[0].final then w.lost + {r} else w.lost,
         requests := if r in w.requests then w.requests[r := w.requests[r].(garbled := true)] else w.requests)
    case TakeMessage(r) => AfterTake(w, r)
    case DeleteTaken(r) => SetPhase(w.(client := Unregister(w.client, w.requests[r].mid)), r, Settled)
    case Finish(r, abandoned) =>
      SetPhase(w.(client := Release(w.client, w.requests[r].mid, r, abandoned)), r, if abandoned then Abandoned else Settled)
    case Fail(e) => w.(client := SetError(w.client, e))
    case CloseBegin =>
      if w.client.done then w
      else w.(client := CloseSwap(w.client), closing := Requests(w.client.pending))
    case CloseOne(r) => w.(client := CloseQueue(w.client, r), closing := w.closing - {r})
  }

  /** `steps` is a possible history from `w` to `w'`. */
  ghost predicate Execution(w: World, steps: seq<Step>, w': World)
    decreases |steps|
  {
    if steps == [] then w == w'
    else Enabled(w, steps[0]) && Execution(Apply(w, steps[0]), steps[1..], w')
  }
}
