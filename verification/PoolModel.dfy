/** A connection pool as a state machine: each critical section under its mutex, and each outcome of
    what is done outside it, is one step. Sessions are of any type; a Get is named by a number of its own. */
module PoolModel {
  import opened Wrappers
  import opened Sets

  type GetId = nat

  /** `holders` are the handles given out and not returned yet, `checking` the Gets that popped an idle session and
      are finding out whether it is alive, `creating` those that reserved a slot for a new one, and `dropped`
      counts the idle sessions found dead. */
  datatype Pool<S> = Pool(
    maxIdle: nat, maxActive: nat,
    idle: seq<S>, active: int, closed: bool,
    holders: map<GetId, S>, checking: map<GetId, S>, creating: set<GetId>, dropped: nat)

  datatype Step<S> =
    | TakeIdle(get: GetId)
    | Alive(get: GetId)
    | Dead(get: GetId)
    | Reserve(get: GetId)
    | Created(get: GetId, session: S)
    | CreateFailed(get: GetId)
    | Put(get: GetId)
    | Remove(get: GetId)
    | RemoveIdle(index: nat)
    | Expire(kept: seq<nat>)
    | Close

  /** So many may be idle at once. */
  predicate MayIdle(n: nat, maxIdle: int, maxActive: int) {
    n == 0 || (n <= maxIdle && (maxActive > 0 ==> n <= maxActive))
  }

  /** NewConnectionPool's limits: negative ones count as zero, and no more may idle than may be active. */
  function Limits(maxIdle: int, maxActive: int): (r: (nat, nat))
    ensures r.1 == maxActive || (maxActive < 0 && r.1 == 0)
    ensures forall n: nat :: MayIdle(n, maxIdle, maxActive) <==> n <= r.0
  {
    var idle := if maxIdle < 0 then 0 else maxIdle;
    var active := if maxActive < 0 then 0 else maxActive;
    (if active > 0 && idle > active then active else idle, active)
  }

  function NewPool<S>(maxIdle: nat, maxActive: nat): Pool<S> {
    Pool(maxIdle, maxActive, [], 0, false, map[], map[], {}, 0)
  }

  predicate NewGet<S>(p: Pool<S>, g: GetId) {
    g !in p.holders && g !in p.checking && g !in p.creating
  }

  predicate CanCreate<S>(p: Pool<S>) {
    p.maxActive == 0 || p.active < p.maxActive
  }

  ghost predicate IsNew<S>(p: Pool<S>, s: S) {
    && s !in p.idle
    && (forall g :: g in p.holders ==> p.holders[g] != s)
    && (forall g :: g in p.checking ==> p.checking[g] != s)
  }

  /** The places kept of a list, in order. */
  predicate IsSelection(kept: seq<nat>, n: nat) {
    && (forall i :: 0 <= i < |kept| ==> kept[i] < n)
    && (forall i, j :: 0 <= i < j < |kept| ==> kept[i] < kept[j])
  }

  function Select<S>(all: seq<S>, kept: seq<nat>): seq<S>
    requires IsSelection(kept, |all|)
  {
    seq(|kept|, i requires 0 <= i < |kept| => all[kept[i]])
  }

  ghost predicate Enabled<S>(p: Pool<S>, step: Step<S>) {
    match step
    case TakeIdle(g) => NewGet(p, g) && !p.closed && p.idle != []
    case Alive(g) => g in p.checking
    case Dead(g) => g in p.checking
    case Reserve(g) => NewGet(p, g) && !p.closed && p.idle == [] && CanCreate(p)
    case Created(g, s) => g in p.creating && IsNew(p, s)
    case CreateFailed(g) => g in p.creating
    case Put(g) => g in p.holders
    case Remove(g) => g in p.holders
    case RemoveIdle(i) => i < |p.idle|
    case Expire(kept) => IsSelection(kept, |p.idle|)
    case Close => true
  }

  function AfterPut<S>(p: Pool<S>, g: GetId): Pool<S>
    requires g in p.holders
  {
    var q := p.(holders := p.holders - {g});
    if p.closed then q
    else if p.maxIdle == 0 || |p.idle| >= p.maxIdle then q.(active := p.active - 1)
    else q.(idle := p.idle + [p.holders[g]])
  }

  ghost function Apply<S>(p: Pool<S>, step: Step<S>): Pool<S>
    requires Enabled(p, step)
  {
    match step
    case TakeIdle(g) => p.(idle := p.idle[..|p.idle| - 1], checking := p.checking[g := p.idle[|p.idle| - 1]])
    case Alive(g) => p.(checking := p.checking - {g}, holders := p.holders[g := p.checking[g]])
    case Dead(g) => p.(checking := p.checking - {g}, dropped := p.dropped + 1)
    case Reserve(g) => p.(active := p.active + 1, creating := p.creating + {g})
    case Created(g, s) => p.(creating := p.creating - {g}, holders := p.holders[g := s])
    case CreateFailed(g) => p.(creating := p.creating - {g}, active := p.active - 1)
    case Put(g) => AfterPut(p, g)
    case Remove(g) => p.(holders := p.holders - {g}, active := p.active - 1)
    case RemoveIdle(i) => p.(idle := p.idle[..i] + p.idle[i + 1..], active := p.active - 1)
    case Expire(kept) => p.(idle := Select(p.idle, kept), active := p.active - (|p.idle| - |kept|))
    case Close => if p.closed then p else p.(closed := true, idle := [])
  }

  // ----- What every step keeps -----

  ghost predicate Once<S>(m: map<GetId, S>) {
    forall g, h :: g in m && h in m && g != h ==> m[g] != m[h]
  }

  /** No session is in two places: idle twice, given out twice, or one and the other. */
  ghost predicate OnePlaceEach<S>(p: Pool<S>) {
    && (forall i, j :: 0 <= i < j < |p.idle| ==> p.idle[i] != p.idle[j])
    && Once(p.holders) && Once(p.checking)
    && (forall g :: g in p.holders ==> p.holders[g] !in p.idle)
    && (forall g :: g in p.checking ==> p.checking[g] !in p.idle)
    && (forall g, h :: g in p.holders && h in p.checking ==> p.holders[g] != p.checking[h])
  }

  ghost predicate OneStageEach<S>(p: Pool<S>) {
    p.holders.Keys !! p.checking.Keys && p.holders.Keys !! p.creating && p.checking.Keys !! p.creating
  }

  function Accounted<S>(p: Pool<S>): nat {
    |p.idle| + |p.holders| + |p.checking| + |p.creating| + p.dropped
  }

  /** `active` counts every session idle, given out, being checked or being created, and the dropped ones, which it
      never gives back; nothing else while the pool is open. */
  ghost predicate Balanced<S>(p: Pool<S>) {
    && |p.idle| <= p.maxIdle
    && Accounted(p) <= p.active && (!p.closed ==> Accounted(p) == p.active)
    && (p.maxActive > 0 ==> p.active <= p.maxActive)
    && (p.closed ==> p.idle == [])
  }

  ghost predicate Inv<S>(p: Pool<S>) {
    OnePlaceEach(p) && OneStageEach(p) && Balanced(p)
  }

  lemma WithoutOne<S>(m: map<GetId, S>, g: GetId)
    requires g in m
    ensures |m - {g}| == |m| - 1 && (m - {g}).Keys == m.Keys - {g}
  {
    assert m.Keys == (m - {g}).Keys + {g};
    assert |m.Keys| == |m| && |(m - {g}).Keys| == |m - {g}|;
  }

  lemma WithOne<S>(m: map<GetId, S>, g: GetId, s: S)
    requires g !in m
    ensures |m[g := s]| == |m| + 1 && m[g := s].Keys == m.Keys + {g}
  {
    assert m[g := s].Keys == m.Keys + {g};
    assert |m.Keys| == |m| && |m[g := s].Keys| == |m[g := s]|;
  }

  lemma {:induction false} SelectionIsShorter(kept: seq<nat>, n: nat)
    requires IsSelection(kept, n)
    ensures |kept| <= n
  {
    if kept != [] {
      var last := |kept| - 1;
      assert forall i :: 0 <= i < last ==> kept[i] < kept[last];
      SelectionIsShorter(kept[..last], kept[last]);
    }
  }

  /** Popping an idle session and learning whether it is alive. */
  lemma CheckKeepsBalance<S>(p: Pool<S>, step: Step<S>)
    requires Balanced(p) && OneStageEach(p) && Enabled(p, step) && (step.TakeIdle? || step.Alive? || step.Dead?)
    ensures Balanced(Apply(p, step))
  {
    if step.TakeIdle? {
      WithOne(p.checking, step.get, p.idle[|p.idle| - 1]);
    } else {
      WithoutOne(p.checking, step.get);
      if step.Alive? {
        WithOne(p.holders, step.get, p.checking[step.get]);
      }
    }
  }

  /** Reserving a slot and learning whether a session was created. */
  lemma CreationKeepsBalance<S>(p: Pool<S>, step: Step<S>)
    requires Balanced(p) && OneStageEach(p) && Enabled(p, step) && (step.Reserve? || step.Created? || step.CreateFailed?)
    ensures Balanced(Apply(p, step))
  {
    if step.Created? {
      WithOne(p.holders, step.get, step.session);
    }
  }

  /** Giving a session back. */
  lemma ReturnKeepsBalance<S>(p: Pool<S>, step: Step<S>)
    requires Balanced(p) && Enabled(p, step) && (step.Put? || step.Remove?)
    ensures Balanced(Apply(p, step))
  {
    WithoutOne(p.holders, step.get);
  }

  /** Losing idle sessions. */
  lemma IdlingKeepsBalance<S>(p: Pool<S>, step: Step<S>)
    requires Balanced(p) && Enabled(p, step) && (step.RemoveIdle? || step.Expire? || step.Close?)
    ensures Balanced(Apply(p, step))
  {
    if step.Expire? {
      SelectionIsShorter(step.kept, |p.idle|);
    }
  }

  lemma StepKeepsBalance<S>(p: Pool<S>, step: Step<S>)
    requires Balanced(p) && OneStageEach(p) && Enabled(p, step)
    ensures Balanced(Apply(p, step))
  {
    hide Balanced, OneStageEach, Enabled, Apply;
    if step.TakeIdle? || step.Alive? || step.Dead? {
      CheckKeepsBalance(p, step);
    } else if step.Reserve? || step.Created? || step.CreateFailed? {
      CreationKeepsBalance(p, step);
    } else if step.Put? || step.Remove? {
      ReturnKeepsBalance(p, step);
    } else {
      IdlingKeepsBalance(p, step);
    }
  }

  lemma StepKeepsStages<S>(p: Pool<S>, step: Step<S>)
    requires OneStageEach(p) && Enabled(p, step)
    ensures OneStageEach(Apply(p, step))
  {
  }

  lemma GettingKeepsPlaces<S>(p: Pool<S>, step: Step<S>)
    requires OnePlaceEach(p) && OneStageEach(p) && Enabled(p, step)
    requires !step.Put? && !step.Remove? && !step.RemoveIdle? && !step.Expire? && !step.Close?
    ensures OnePlaceEach(Apply(p, step))
  {
  }

  lemma ReturningKeepsPlaces<S>(p: Pool<S>, step: Step<S>)
    requires OnePlaceEach(p) && Enabled(p, step)
    requires step.Put? || step.Remove? || step.RemoveIdle? || step.Expire? || step.Close?
    ensures OnePlaceEach(Apply(p, step))
  {
  }

  lemma StepKeepsInv<S>(p: Pool<S>, step: Step<S>)
    requires Inv(p) && Enabled(p, step)
    ensures Inv(Apply(p, step))
  {
    hide Balanced, OnePlaceEach, OneStageEach;
    StepKeepsBalance(p, step);
    StepKeepsStages(p, step);
    if step.Put? || step.Remove? || step.RemoveIdle? || step.Expire? || step.Close? {
      ReturningKeepsPlaces(p, step);
    } else {
      GettingKeepsPlaces(p, step);
    }
  }

  /** The session put back last is the next one taken, and the pool is then as if it had been handed on. */
  lemma PutBackIsTakenNext<S>(p: Pool<S>, g: GetId, h: GetId)
    requires Inv(p) && !p.closed && g in p.holders && |p.idle| < p.maxIdle
    requires h == g || NewGet(p, h)
    ensures Enabled(Apply(p, Put(g)), TakeIdle(h))
    ensures Apply(Apply(p, Put(g)), TakeIdle(h)) == p.(holders := p.holders - {g}, checking := p.checking[h := p.holders[g]])
  {
    var q := Apply(p, Put(g));
    assert q.idle[..|q.idle| - 1] == p.idle;
  }

  // ----- Whole runs -----

  ghost predicate Run<S>(p: Pool<S>, steps: seq<Step<S>>, q: Pool<S>)
    decreases |steps|
  {
    if steps == [] then p == q
    else Enabled(p, steps[0]) && Run(Apply(p, steps[0]), steps[1..], q)
  }

  lemma {:induction false} RunKeepsInv<S>(p: Pool<S>, steps: seq<Step<S>>, q: Pool<S>)
    requires Inv(p) && Run(p, steps, q)
    ensures Inv(q) && q.maxIdle == p.maxIdle && q.maxActive == p.maxActive
    ensures q.dropped >= p.dropped && (p.closed ==> q.closed)
    decreases |steps|
  {
    if steps != [] {
      StepKeepsInv(p, steps[0]);
      RunKeepsInv(Apply(p, steps[0]), steps[1..], q);
    }
  }

  /** In every run of a new pool no session is idle twice, held twice, or both; the idle list and the number of
      active sessions keep to their limits; `active` is exactly what is idle, held, being checked or created, and
      dropped while the pool is open, and no less after that, when nothing is idle any more. */
  lemma EveryRunIsSafe<S>(maxIdle: nat, maxActive: nat, steps: seq<Step<S>>, q: Pool<S>)
    requires Run(NewPool(maxIdle, maxActive), steps, q)
    ensures OnePlaceEach(q)
    ensures |q.idle| <= maxIdle && (maxActive > 0 ==> q.active <= maxActive)
    ensures |q.idle| + |q.holders| + |q.creating| <= q.active
    ensures !q.closed ==> q.active == |q.idle| + |q.holders| + |q.checking| + |q.creating| + q.dropped
    ensures q.closed ==> q.idle == []
  {
    var p: Pool<S> := NewPool(maxIdle, maxActive);
    assert Inv(p);
    RunKeepsInv(p, steps, q);
  }

  /** After Close nothing is idle again, whatever happens. */
  lemma ClosedStaysEmpty<S>(p: Pool<S>, steps: seq<Step<S>>, q: Pool<S>)
    requires Inv(p) && p.closed && Run(p, steps, q)
    ensures q.closed && q.idle == []
  {
    RunKeepsInv(p, steps, q);
  }

  /** The slot of a session found dead is never given back: once as many were dropped as may be active, the pool
      has nothing idle, nothing given out, and no Get can pop or create a session again, for good. */
  lemma DroppedSlotsAreLost<S>(p: Pool<S>, steps: seq<Step<S>>, q: Pool<S>, g: GetId)
    requires Inv(p) && p.dropped >= p.maxActive > 0 && Run(p, steps, q)
    ensures q.idle == [] && q.holders == map[] && !CanCreate(q)
    ensures !Enabled(q, TakeIdle(g)) && !Enabled(q, Reserve(g))
  {
    RunKeepsInv(p, steps, q);
    assert |q.holders| == 0;
  }

  lemma {:induction false} RunsCompose<S>(p: Pool<S>, a: seq<Step<S>>, q: Pool<S>, b: seq<Step<S>>, r: Pool<S>)
    requires Run(p, a, q) && Run(q, b, r)
    ensures Run(p, a + b, r)
    decreases |a|
  {
    hide Apply, Enabled;
    if a == [] {
      assert a + b == b;
    } else {
      RunsCompose(Apply(p, a[0]), a[1..], q, b, r);
      assert (a + b)[1..] == a[1..] + b;
    }
  }

  /** An open pool with nothing in it, after `dropped` sessions were found dead. */
  function Spent<S>(maxIdle: nat, maxActive: nat, dropped: nat): Pool<S> {
    NewPool<S>(maxIdle, maxActive).(active := dropped, dropped := dropped)
  }

  lemma OneStepRuns<S>(p: Pool<S>, step: Step<S>, q: Pool<S>)
    requires Enabled(p, step) && Apply(p, step) == q
    ensures Run(p, [step], q)
  {
    assert [step][1..] == [];
  }

  lemma RunGoesOn<S>(p: Pool<S>, steps: seq<Step<S>>, q: Pool<S>, step: Step<S>, r: Pool<S>)
    requires Run(p, steps, q) && Enabled(q, step) && Apply(q, step) == r
    ensures Run(p, steps + [step], r)
  {
    hide Enabled, Apply;
    OneStepRuns(q, step, r);
    RunsCompose(p, steps, q, [step], r);
  }

  /** A session is created and put back. */
  function PutBack<S>(s: S): seq<Step<S>> {
    [Reserve(0)] + [Created(0, s)] + [Put(0)]
  }

  /** That, and the session found dead when it is wanted again. */
  function Wasted<S>(s: S): seq<Step<S>> {
    PutBack(s) + [TakeIdle(1)] + [Dead(1)]
  }

  lemma OneMoreIdle<S>(p: Pool<S>, s: S)
    requires p.idle == [] && p.holders == map[] && p.checking == map[] && p.creating == {} && !p.closed
    requires CanCreate(p) && p.maxIdle > 0
    ensures Run(p, PutBack(s), p.(active := p.active + 1, idle := [s]))
  {
    hide Run;
    var p1 := p.(active := p.active + 1, creating := {0});
    var p2 := p1.(creating := {}, holders := map[0 := s]);
    var p3 := p.(active := p.active + 1, idle := [s]);
    OneStepRuns(p, Reserve(0), p1);
    assert {0} - {0} == {};
    RunGoesOn(p, [Reserve(0)], p1, Created(0, s), p2);
    assert map[0 := s] - {0} == map[];
    RunGoesOn(p, [Reserve(0)] + [Created(0, s)], p2, Put(0), p3);
  }

  lemma OneMoreWasted<S>(maxIdle: nat, maxActive: nat, dropped: nat, s: S)
    requires maxIdle > 0 && dropped < maxActive
    ensures Run(Spent(maxIdle, maxActive, dropped), Wasted(s), Spent(maxIdle, maxActive, dropped + 1))
  {
    hide Run;
    var p: Pool<S> := Spent(maxIdle, maxActive, dropped);
    OneMoreIdle(p, s);
    var p3 := p.(active := dropped + 1, idle := [s]);
    var p4 := p.(active := dropped + 1, checking := map[1 := s]);
    assert [s][..0] == [];
    RunGoesOn(p, PutBack(s), p3, TakeIdle(1), p4);
    assert map[1 := s] - {1} == map[];
    RunGoesOn(p, PutBack(s) + [TakeIdle(1)], p4, Dead(1), Spent(maxIdle, maxActive, dropped + 1));
  }

  function AllWasted<S>(n: nat, s: S): seq<Step<S>> {
    if n == 0 then [] else AllWasted(n - 1, s) + Wasted(s)
  }

  /** A new pool that keeps idle sessions and limits the active ones can lose every slot it has that way. */
  lemma {:induction false} EverySlotCanBeLost<S>(maxIdle: nat, maxActive: nat, dropped: nat, s: S)
    requires maxIdle > 0 && dropped <= maxActive
    ensures var p: Pool<S>, q: Pool<S> := NewPool(maxIdle, maxActive), Spent(maxIdle, maxActive, dropped);
      Run(p, AllWasted(dropped, s), q) && q.dropped == q.active == dropped && !q.closed
    decreases dropped
  {
    if dropped > 0 {
      EverySlotCanBeLost(maxIdle, maxActive, dropped - 1, s);
      OneMoreWasted(maxIdle, maxActive, dropped - 1, s);
      RunsCompose(NewPool(maxIdle, maxActive), AllWasted(dropped - 1, s), Spent(maxIdle, maxActive, dropped - 1),
                  Wasted(s), Spent(maxIdle, maxActive, dropped));
    }
  }

  /** A pool that keeps no idle sessions loses none. */
  lemma {:induction false} NothingIdleNothingLost<S>(p: Pool<S>, steps: seq<Step<S>>, q: Pool<S>)
    requires Inv(p) && p.maxIdle == 0 && p.checking == map[] && p.dropped == 0 && Run(p, steps, q)
    ensures q.checking == map[] && q.dropped == 0
    decreases |steps|
  {
    if steps != [] {
      StepKeepsInv(p, steps[0]);
      NothingIdleNothingLost(Apply(p, steps[0]), steps[1..], q);
    }
  }

  // ----- What the other callers leave alone -----

  predicate StepOf<S>(step: Step<S>, g: GetId) {
    !step.RemoveIdle? && !step.Expire? && !step.Close? && step.get == g
  }

  /** What a Get has of the pool is as it was. */
  ghost predicate SamePlace<S>(p: Pool<S>, q: Pool<S>, g: GetId) {
    && (g in p.creating <==> g in q.creating)
    && (g in p.holders <==> g in q.holders) && (g in p.holders ==> q.holders[g] == p.holders[g])
    && (g in p.checking <==> g in q.checking) && (g in p.checking ==> q.checking[g] == p.checking[g])
  }

  lemma OtherStepLeavesMyPlace<S>(p: Pool<S>, step: Step<S>, g: GetId)
    requires Enabled(p, step) && !StepOf(step, g)
    ensures SamePlace(p, Apply(p, step), g)
  {
  }

  lemma {:induction false} OthersLeaveMyPlace<S>(p: Pool<S>, steps: seq<Step<S>>, q: Pool<S>, g: GetId)
    requires Inv(p) && Run(p, steps, q) && forall i :: 0 <= i < |steps| ==> !StepOf(steps[i], g)
    ensures Inv(q) && SamePlace(p, q, g)
    decreases |steps|
  {
    hide Inv, Apply, Enabled, StepOf;
    if steps != [] {
      StepKeepsInv(p, steps[0]);
      OtherStepLeavesMyPlace(p, steps[0], g);
      OthersLeaveMyPlace(Apply(p, steps[0]), steps[1..], q, g);
    }
  }
}
