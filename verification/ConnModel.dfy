/** The client half of a multiplexed connection as a value, and each critical
    section under its mutex as a function on that value.

    A request is named by a RequestId that is never reused; the name stands for
    the response queue the request created. A message ID (MID) is what travels
    on the wire, and is reused. Replies carry their sender's request (`origin`),
    their position among that request's replies (`seqno`) and whether the server
    will send no more for the request (`final`). No function below branches on
    those three fields: they exist to state which request a message belongs to. */
module ConnModel {
  import opened Wrappers

  const MID_SPACE: nat := 0x1_0000
  const RESERVED_MID: nat := 0xFFFF
  const RESPONSE_QUEUE_DEPTH: nat := 64

  type Mid = m: nat | m < 0x1_0000
  type RequestId = nat

  datatype ConnError = ConnectionClosed | MidsExhausted | ReadFailed | SendFailed

  datatype Message =
    | Reply(mid: Mid, origin: RequestId, seqno: nat, final: bool)
    | Wake(error: ConnError)

  datatype Queue = Queue(items: seq<Message>, depth: nat, closed: bool)

  datatype Pending = Pending(request: RequestId, cancelled: bool, transaction: bool)

  datatype Client = Client(
    nextMid: Mid,
    pending: map<Mid, Pending>,
    queues: map<RequestId, Queue>,
    done: bool,
    error: Option<ConnError>)

  const NewClient := Client(0, map[], map[], false, None)

  function Wrap(n: nat): Mid {
    n % MID_SPACE
  }

  predicate Usable(pending: map<Mid, Pending>, mid: Mid) {
    mid != RESERVED_MID && mid !in pending
  }

  /** The first usable MID at or after `tried` places from `start`, going round the ID space once. */
  function FirstFree(pending: map<Mid, Pending>, start: Mid, tried: nat): Option<Mid>
    requires tried <= MID_SPACE
    decreases MID_SPACE - tried
  {
    if tried == MID_SPACE then None
    else if Usable(pending, Wrap(start + tried)) then Some(Wrap(start + tried))
    else FirstFree(pending, start, tried + 1)
  }

  /** A send that gives up when the queue is full. */
  function Offer(q: Queue, m: Message): Queue {
    if |q.items| < q.depth then q.(items := q.items + [m]) else q
  }

  function Requests(pending: map<Mid, Pending>): set<RequestId> {
    set mid | mid in pending :: pending[mid].request
  }

  function WakeAll(queues: map<RequestId, Queue>, woken: set<RequestId>, e: ConnError): map<RequestId, Queue> {
    map r | r in queues :: if r in woken then Offer(queues[r], Wake(e)) else queues[r]
  }

  /** setErrorLocked: wakes and unregisters everybody, once. */
  function SetError(c: Client, e: ConnError): Client {
    if c.done then c
    else Client(c.nextMid, map[], WakeAll(c.queues, Requests(c.pending), e), true,
                if c.error.None? then Some(e) else c.error)
  }

  function Register(c: Client, r: RequestId, transaction: bool, depth: nat, m: Mid): Client {
    c.(nextMid := Wrap(m + 1),
       pending := c.pending[m := Pending(r, false, transaction)],
       queues := c.queues[r := Queue([], depth, false)])
  }

  /** The critical section that registers a request: it yields no MID on a
      closed connection, and closes the connection when none is usable. */
  function Begin(c: Client, r: RequestId, transaction: bool, depth: nat): (Client, Option<Mid>) {
    if c.done then (c, None)
    else match FirstFree(c.pending, c.nextMid, 0)
      case None => (SetError(c, MidsExhausted), None)
      case Some(m) => (Register(c, r, transaction, depth, m), Some(m))
  }

  /** The unconditional delete of a MID by whoever holds it. */
  function Unregister(c: Client, m: Mid): Client {
    c.(pending := c.pending - {m})
  }

  /** releaseLocked. */
  function Release(c: Client, m: Mid, r: RequestId, abandoned: bool): Client
    requires r in c.queues
  {
    if m !in c.pending || c.pending[m].request != r then c
    else if !abandoned || (|c.queues[r].items| > 0 && !c.pending[m].transaction) then Unregister(c, m)
    else c.(pending := c.pending[m := c.pending[m].(cancelled := true)])
  }

  /** The receive loop's critical section for one decoded message. */
  function Dispatch(c: Client, msg: Message): Client
    requires msg.Reply?
    requires msg.mid in c.pending ==> c.pending[msg.mid].request in c.queues
  {
    if msg.mid !in c.pending then c
    else
      var p := c.pending[msg.mid];
      if p.cancelled then (if p.transaction then c else Unregister(c, msg.mid))
      else c.(queues := c.queues[p.request := Offer(c.queues[p.request], msg)])
  }

  /** Close, under the mutex: the pending map is swapped out and its requests are woken later. */
  function CloseSwap(c: Client): Client {
    if c.done then c else c.(pending := map[], done := true, error := Some(ConnectionClosed))
  }

  /** Close, outside the mutex: one swapped-out request is woken and its queue closed. */
  function CloseQueue(c: Client, r: RequestId): Client
    requires r in c.queues
  {
    c.(queues := c.queues[r := Offer(c.queues[r], Wake(ConnectionClosed)).(closed := true)])
  }

  /** A waiter receives the oldest message of its queue. */
  function Take(c: Client, r: RequestId): Client
    requires r in c.queues && |c.queues[r].items| > 0
  {
    c.(queues := c.queues[r := c.queues[r].(items := c.queues[r].items[1..])])
  }

  // ----- Allocation -----

  ghost predicate FreeAt(pending: map<Mid, Pending>, start: Mid, k: nat) {
    Usable(pending, Wrap(start + k))
  }

  /** FirstFree is the nearest usable MID in cyclic order, and gives up only when every place was tried. */
  lemma {:induction false} FirstFreeIsNearest(pending: map<Mid, Pending>, start: Mid, tried: nat)
    requires tried <= MID_SPACE
    ensures var r := FirstFree(pending, start, tried);
      match r
      case Some(m) =>
        exists k :: tried <= k < MID_SPACE && m == Wrap(start + k) && FreeAt(pending, start, k)
                    && forall j :: tried <= j < k ==> !FreeAt(pending, start, j)
      case None => forall j :: tried <= j < MID_SPACE ==> !FreeAt(pending, start, j)
    decreases MID_SPACE - tried
  {
    if tried < MID_SPACE {
      if FreeAt(pending, start, tried) {
        assert FirstFree(pending, start, tried) == Some(Wrap(start + tried));
      } else {
        FirstFreeIsNearest(pending, start, tried + 1);
        assert FirstFree(pending, start, tried) == FirstFree(pending, start, tried + 1);
      }
    }
  }

  lemma EveryMidHasAPlace(start: Mid, m: Mid) returns (k: nat)
    ensures k < MID_SPACE && Wrap(start + k) == m
  {
    k := if start <= m then m - start else m + MID_SPACE - start;
  }

  /** Allocation fails exactly when all 65535 usable MIDs are held, and never
      yields 0xFFFF or a MID somebody holds. */
  lemma AllocationFailsExactlyWhenFull(pending: map<Mid, Pending>, start: Mid)
    ensures FirstFree(pending, start, 0).None? <==> forall m: Mid :: m != 0xFFFF ==> m in pending
    ensures FirstFree(pending, start, 0).Some? ==>
      FirstFree(pending, start, 0).value != 0xFFFF && FirstFree(pending, start, 0).value !in pending
  {
    FirstFreeIsNearest(pending, start, 0);
    if FirstFree(pending, start, 0).None? {
      forall m: Mid | m != RESERVED_MID ensures m in pending {
        var k := EveryMidHasAPlace(start, m);
        assert !FreeAt(pending, start, k);
      }
    }
  }

  lemma LastPlace(m: Mid, k: nat)
    requires k < MID_SPACE && m == Wrap(Wrap(m + 1) + k)
    ensures k == MID_SPACE - 1
  {
  }

  /** The search goes no further than a usable MID. */
  lemma {:induction false} FoundNoLater(pending: map<Mid, Pending>, start: Mid, tried: nat, k: nat) returns (j: nat)
    requires tried <= k < MID_SPACE && Usable(pending, Wrap(start + k))
    ensures j <= k && FirstFree(pending, start, tried) == Some(Wrap(start + j))
    decreases k - tried
  {
    hide Wrap;
    if Usable(pending, Wrap(start + tried)) {
      j := tried;
    } else {
      j := FoundNoLater(pending, start, tried + 1, k);
    }
  }

  lemma NextAfterIssued(c: Client, r: RequestId, transaction: bool, depth: nat)
    requires Begin(c, r, transaction, depth).1.Some?
    ensures var (c', issued) := Begin(c, r, transaction, depth); c'.nextMid == Wrap(issued.value + 1)
  {
  }

  /** A MID is not issued again, even if free, before every other usable one was: whatever is registered when the
      search next starts, it yields the MID issued last only if all others are held. */
  lemma IssuedLastComesLast(c: Client, r: RequestId, transaction: bool, depth: nat, later: map<Mid, Pending>)
    requires Begin(c, r, transaction, depth).1.Some?
    ensures var (c', issued) := Begin(c, r, transaction, depth);
      FirstFree(later, c'.nextMid, 0) == issued ==> forall m: Mid :: m != issued.value && m != 0xFFFF ==> m in later
  {
    NextAfterIssued(c, r, transaction, depth);
    var (c', issued) := Begin(c, r, transaction, depth);
    hide Wrap, Begin, FirstFree;
    if FirstFree(later, c'.nextMid, 0) == issued {
      forall m: Mid | m != issued.value && m != 0xFFFF ensures m in later {
        if m !in later {
          var k := EveryMidHasAPlace(c'.nextMid, m);
          var j := FoundNoLater(later, c'.nextMid, 0, k);
          LastPlace(issued.value, j);
        }
      }
    }
  }

  lemma WrapNext(start: Mid, tried: nat)
    requires tried < MID_SPACE
    ensures Wrap(start) == start && Wrap(Wrap(start + tried) + 1) == Wrap(start + tried + 1)
    ensures Wrap(start + tried + 1) == start <==> tried + 1 == MID_SPACE
  {
  }

  // ----- Waking -----

  ghost predicate Distinct(pending: map<Mid, Pending>) {
    forall m, n :: m in pending && n in pending && m != n ==> pending[m].request != pending[n].request
  }

  lemma RequestsWithout(pending: map<Mid, Pending>, m: Mid)
    requires m in pending && Distinct(pending)
    ensures Requests(pending) == Requests(pending - {m}) + {pending[m].request}
    ensures pending[m].request !in Requests(pending - {m})
    ensures Distinct(pending - {m})
  {
    forall r | r in Requests(pending) ensures r in Requests(pending - {m}) + {pending[m].request} {
      var n :| n in pending && pending[n].request == r;
      if n != m {
        assert n in pending - {m};
      }
    }
  }

  lemma WakeNobody(queues: map<RequestId, Queue>, e: ConnError)
    ensures WakeAll(queues, {}, e) == queues
    ensures Requests(map[]) == {}
  {
  }

  lemma WakeOneMore(queues: map<RequestId, Queue>, woken: set<RequestId>, r: RequestId, e: ConnError)
    requires r in queues && r !in woken
    ensures r in WakeAll(queues, woken, e)
    ensures WakeAll(queues, woken, e)[r := Offer(WakeAll(queues, woken, e)[r], Wake(e))] == WakeAll(queues, woken + {r}, e)
  {
  }
}
