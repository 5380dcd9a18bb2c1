/** What one caller may rely on while everybody else's steps go on around it. */
module Rely {
  import opened ConnModel
  import opened Protocol
  import opened ProtocolSafety
  import opened ProtocolOrder

  /** The request whose caller takes the step; nobody for what the server, the receive loop or teardown do. */
  function Caller(step: Step): set<RequestId> {
    match step
    case BeginRequest(r, _, _) => {r}
    case Unsent(r) => {r}
    case Sent(r, _) => {r}
    case TakeMessage(r) => {r}
    case DeleteTaken(r) => {r}
    case Finish(r, _) => {r}
    case _ => {}
  }

  /** The request's caller sees it as it left it, with perhaps more messages in its queue. */
  ghost predicate Undisturbed(w: World, w': World, r: RequestId)
    requires r in w.requests && r in w'.requests
  {
    && w'.requests[r] == w.requests[r].(
         sent := w'.requests[r].sent, dropped := w'.requests[r].dropped, garbled := w'.requests[r].garbled)
    && r in w.client.queues && r in w'.client.queues
    && w.client.queues[r].items <= w'.client.queues[r].items
  }

  ghost predicate Tolerated(mine: set<RequestId>, w: World, w': World) {
    && (w.client.done ==> w'.client.done && w'.client.error == w.client.error)
    && w.requests.Keys <= w'.requests.Keys
    && (forall r :: r in mine && r in w'.requests ==> r in w.requests)
    && (forall r :: r in mine && r in w.requests ==> Undisturbed(w, w', r))
  }

  lemma ErrorLeavesUndisturbed(w: World, e: ConnError, r: RequestId)
    requires r in w.requests && r in w.client.queues
    ensures Undisturbed(w, w.(client := SetError(w.client, e)), r)
  {
  }

  lemma BeginLeavesUndisturbed(w: World, q: RequestId, transaction: bool, depth: nat, r: RequestId)
    requires r in w.requests && r in w.client.queues && q != r && q !in w.requests
    ensures r in AfterBegin(w, q, transaction, depth).requests && Undisturbed(w, AfterBegin(w, q, transaction, depth), r)
  {
    if !w.client.done && FirstFree(w.client.pending, w.client.nextMid, 0).None? {
      ErrorLeavesUndisturbed(w, MidsExhausted, r);
    }
  }

  lemma StepLeavesUndisturbed(w: World, step: Step, r: RequestId)
    requires Enabled(w, step) && r !in Caller(step) && r in w.requests && r in w.client.queues
    ensures r in Apply(w, step).requests && Undisturbed(w, Apply(w, step), r)
  {
    match step
    case BeginRequest(q, transaction, depth) => BeginLeavesUndisturbed(w, q, transaction, depth, r);
    case Fail(e) => ErrorLeavesUndisturbed(w, e, r);
    case _ =>
  }

  lemma StepKeepsError(w: World, step: Step)
    requires Enabled(w, step)
    ensures w.client.done ==> Apply(w, step).client.done && Apply(w, step).client.error == w.client.error
    ensures w.requests.Keys <= Apply(w, step).requests.Keys <= w.requests.Keys + Caller(step)
  {
  }

  /** No step of anybody else disturbs a caller. */
  lemma StepsOfOthersAreTolerated(mine: set<RequestId>, w: World, step: Step)
    requires Inv(w) && Enabled(w, step) && Caller(step) !! mine
    ensures Tolerated(mine, w, Apply(w, step))
  {
    StepKeepsError(w, step);
    forall r | r in mine && r in w.requests ensures Undisturbed(w, Apply(w, step), r) {
      StepLeavesUndisturbed(w, step, r);
    }
  }

  lemma ToleranceComposes(mine: set<RequestId>, w0: World, w1: World, w2: World)
    requires Tolerated(mine, w0, w1) && Tolerated(mine, w1, w2)
    ensures Tolerated(mine, w0, w2)
  {
    forall r | r in mine && r in w0.requests ensures Undisturbed(w0, w2, r) {
      assert Undisturbed(w0, w1, r) && Undisturbed(w1, w2, r);
    }
  }

  /** What was tolerated so far still is after more steps, for as many of the requests as the caller cares about. */
  lemma ToleranceGoesOn(mine: set<RequestId>, w0: World, w1: World, w2: World, more: set<RequestId>)
    requires Tolerated(mine, w0, w1) && Tolerated(more, w1, w2) && mine <= more
    ensures Tolerated(mine, w0, w2)
  {
    assert Tolerated(mine, w1, w2);
    ToleranceComposes(mine, w0, w1, w2);
  }

  ghost predicate StepsOfOthers(mine: set<RequestId>, steps: seq<Step>) {
    forall i :: 0 <= i < |steps| ==> Caller(steps[i]) !! mine
  }

  /** Any number of steps by anybody else, in any order, leave a caller's requests undisturbed and the invariant intact. */
  lemma {:induction false} EnvironmentIsTolerated(mine: set<RequestId>, w: World, steps: seq<Step>, w': World)
    requires Sound(w) && StepsOfOthers(mine, steps) && Execution(w, steps, w')
    ensures Sound(w') && Tolerated(mine, w, w')
    decreases |steps|
  {
    hide Ordered;
    if steps == [] {
      forall r | r in mine && r in w.requests ensures Undisturbed(w, w', r) {
        assert Fits(ShareOf(w, r), r, w.client.done);
      }
    } else {
      assert Caller(steps[0]) !! mine;
      StepKeepsSound(w, steps[0]);
      StepsOfOthersAreTolerated(mine, w, steps[0]);
      EnvironmentIsTolerated(mine, Apply(w, steps[0]), steps[1..], w');
      ToleranceComposes(mine, w, Apply(w, steps[0]), w');
    }
  }
}
