/** The pool as the object its methods update under its mutex, and the sessions it hands out. Each method is one
    critical section or a loop of them; its contract says which step of the pool it takes. */
module Pooling {
  import opened Wrappers
  import opened PoolModel

  class PooledSession {
    var inUse: bool
    var realClosed: bool
    var lastUsed: int

    constructor (now: int)
      ensures inUse && !realClosed && lastUsed == now
    {
      inUse, realClosed, lastUsed := true, false, now;
    }
  }

  datatype Turn = Popped(session: PooledSession) | MayCreate | PoolClosed | Exhausted

  class ConnectionPool {
    const maxIdle: nat
    const maxActive: nat
    const idleTimeout: nat
    var idle: seq<PooledSession>
    var active: int
    var closed: bool
    /** The time it was when last looked at. */
    var clock: int

    /** The sessions that Gets hold or are finding out about, and the slots reserved for new ones. */
    ghost var holders: map<GetId, PooledSession>
    ghost var checking: map<GetId, PooledSession>
    ghost var creating: set<GetId>
    ghost var dropped: nat
    /** Every session in one of these places. */
    ghost var sessions: set<PooledSession>

    ghost function State(): Pool<PooledSession>
      reads this
    {
      Pool(maxIdle, maxActive, idle, active, closed, holders, checking, creating, dropped)
    }

    ghost predicate Valid()
      reads this, sessions
    {
      && Inv(State())
      && (forall s :: s in idle ==> s in sessions && !s.inUse && !s.realClosed)
      && (forall g :: g in holders ==> holders[g] in sessions && holders[g].inUse && !holders[g].realClosed)
      && (forall g :: g in checking ==> checking[g] in sessions && checking[g].inUse && !checking[g].realClosed)
      && Aged()
    }

    /** The idle sessions stand in the order in which they were last used. */
    ghost predicate Aged()
      reads this`idle, this`clock, idle
    {
      && (forall i, j :: 0 <= i < j < |idle| ==> idle[i].lastUsed <= idle[j].lastUsed)
      && (forall s :: s in idle ==> s.lastUsed <= clock)
    }

    constructor (maxIdle: int, maxActive: int, idleTimeout: nat)
      ensures Valid() && (this.maxIdle, this.maxActive) == Limits(maxIdle, maxActive) && this.idleTimeout == idleTimeout
      ensures State() == NewPool(this.maxIdle, this.maxActive) && fresh(sessions)
    {
      var (mi, ma) := Limits(maxIdle, maxActive);
      this.maxIdle, this.maxActive, this.idleTimeout := mi, ma, idleTimeout;
      idle, active, closed, clock := [], 0, false, 0;
      holders, checking, creating, dropped, sessions := map[], map[], {}, 0, {};
    }

    /** Time goes on, and never back. */
    method Now() returns (now: int)
      modifies this`clock
      ensures now == clock >= old(clock)
    {
      now := *;
      now := if now < clock then clock else now;
      clock := now;
    }

    /** What is left of the idle list, unchanged, is still in order. */
    twostate lemma SelectionIsAged(kept: seq<nat>)
      requires old(Aged()) && clock >= old(clock)
      requires IsSelection(kept, |old(idle)|) && idle == Select(old(idle), kept)
      requires forall s :: s in idle ==> s.lastUsed == old(s.lastUsed)
      ensures Aged()
    {
    }

    twostate lemma FirstAreAged()
      requires old(Aged()) && clock >= old(clock) && idle <= old(idle)
      requires forall s :: s in idle ==> s.lastUsed == old(s.lastUsed)
      ensures Aged()
    {
    }

    twostate lemma AllButOneAreAged(i: nat)
      requires old(Aged()) && clock >= old(clock) && i < |old(idle)| && idle == old(idle)[..i] + old(idle)[i + 1..]
      requires forall s :: s in idle ==> s.lastUsed == old(s.lastUsed)
      ensures Aged()
    {
    }

    twostate lemma OneMoreIsAged(ps: PooledSession)
      requires old(Aged()) && clock >= old(clock)
      requires idle == old(idle) + [ps] && ps.lastUsed == clock
      requires forall s :: s in old(idle) ==> s.lastUsed == old(s.lastUsed)
      ensures Aged()
    {
    }

    lemma LastIsUsedLast()
      requires Aged() && idle != []
      ensures forall s :: s in idle ==> s.lastUsed <= idle[|idle| - 1].lastUsed
    {
    }

    // ----- Getting a session -----

    /** Pops the session used last. */
    method PopIdle(ghost g: GetId) returns (ps: PooledSession)
      requires Valid() && NewGet(State(), g) && !closed && idle != []
      modifies this, sessions
      ensures Valid() && sessions == old(sessions)
      ensures State() == Apply(old(State()), TakeIdle(g)) && checking[g] == ps
      ensures ps.lastUsed == clock >= old(clock)
      ensures ps in old(idle) && forall s :: s in old(idle) ==> old(s.lastUsed) <= old(ps.lastUsed)
      ensures forall s :: s in sessions && s != ps ==> unchanged(s)
    {
      hide Inv, IsNew, Aged;
      LastIsUsedLast();
      var now := Now();
      StepKeepsInv(State(), TakeIdle(g));
      LastIdleIsAlone(State());
      ps := idle[|idle| - 1];
      idle := idle[..|idle| - 1];
      ps.inUse := true;
      ps.lastUsed := now;
      checking := checking[g := ps];
      FirstAreAged();
    }

    /** Get's critical section: pops the session used last, or reserves a slot for a new one. */
    method TakeTurn(ghost g: GetId) returns (turn: Turn)
      requires Valid() && NewGet(State(), g)
      modifies this, sessions
      ensures Valid() && sessions == old(sessions)
      ensures match turn
        case Popped(s) =>
          Enabled(old(State()), TakeIdle(g)) && State() == Apply(old(State()), TakeIdle(g)) && checking[g] == s
        case MayCreate => Enabled(old(State()), Reserve(g)) && State() == Apply(old(State()), Reserve(g))
        case PoolClosed => State() == old(State()) && closed
        case Exhausted => State() == old(State()) && !closed && idle == [] && maxActive > 0 && active == maxActive
      ensures turn.Popped? ==> turn.session.lastUsed == clock >= old(clock)
      ensures turn.Popped? ==> turn.session in old(idle) && forall s :: s in old(idle) ==> old(s.lastUsed) <= old(turn.session.lastUsed)
      ensures forall s :: s in sessions && !(turn.Popped? && s == turn.session) ==> unchanged(s)
    {
      hide Inv, IsNew, Aged;
      if closed {
        return PoolClosed;
      }
      if |idle| > 0 {
        var ps := PopIdle(g);
        return Popped(ps);
      }
      ActiveIsBounded(State());
      if maxActive == 0 || active < maxActive {
        StepKeepsInv(State(), Reserve(g));
        active := active + 1;
        creating := creating + {g};
        return MayCreate;
      }
      return Exhausted;
    }

    /** The popped session turned out to be alive: it is the caller's now. */
    ghost method FoundAlive(g: GetId)
      requires Valid() && g in checking
      modifies this
      ensures Valid() && sessions == old(sessions) && State() == Apply(old(State()), Alive(g))
    {
      hide Inv, Aged;
      StepKeepsInv(State(), Alive(g));
      holders := holders[g := checking[g]];
      checking := checking - {g};
    }

    /** It turned out to be dead: it is closed and forgotten, and the slot it took stays taken. */
    ghost method FoundDead(g: GetId)
      requires Valid() && g in checking
      modifies this
      ensures Valid() && sessions == old(sessions) && State() == Apply(old(State()), Dead(g))
    {
      hide Inv, Aged;
      StepKeepsInv(State(), Dead(g));
      checking := checking - {g};
      dropped := dropped + 1;
    }

    /** A new session for a reserved slot. */
    method Create(ghost g: GetId) returns (ps: PooledSession)
      requires Valid() && g in creating
      modifies this
      ensures Valid() && fresh(ps) && sessions == old(sessions) + {ps}
      ensures State() == Apply(old(State()), Created(g, ps))
    {
      hide Inv, Aged;
      var now := Now();
      ps := new PooledSession(now);
      StepKeepsInv(State(), Created(g, ps));
      creating := creating - {g};
      holders := holders[g := ps];
      sessions := sessions + {ps};
      FirstAreAged();
    }

    method CreationFailed(ghost g: GetId)
      requires Valid() && g in creating
      modifies this
      ensures Valid() && sessions == old(sessions) && State() == Apply(old(State()), CreateFailed(g))
    {
      hide Inv, Aged;
      StepKeepsInv(State(), CreateFailed(g));
      active := active - 1;
      creating := creating - {g};
    }

    /** Between two critical sections of one Get the other callers may take any steps; OthersLeaveMyPlace shows
        that they end in a state this contract allows. */
    method Interfere(ghost g: GetId)
      requires Valid()
      modifies this, sessions
      ensures Valid() && SamePlace(old(State()), State(), g)
      ensures fresh(sessions - old(sessions))
    {
    }

    /** Get, with `patience` as the number of rounds its deadline leaves it: the caller holds a session that is in
        use and nobody else's, or else nothing of the pool is left with this Get. */
    method Get(ghost g: GetId, patience: nat) returns (session: Option<PooledSession>)
      requires Valid() && NewGet(State(), g)
      modifies this, sessions
      ensures Valid()
      ensures session.Some? ==> g in holders && holders[g] == session.value && session.value.inUse && !session.value.realClosed
      ensures session.None? ==> NewGet(State(), g)
    {
      hide Inv, IsNew, Aged;
      for round := 0 to patience
        invariant Valid() && NewGet(State(), g) && fresh(sessions - old(sessions))
      {
        var turn := TakeTurn(g);
        match turn {
          case Popped(ps) =>
            Interfere(g);
            var healthy: bool := *;
            if healthy && !ps.realClosed {
              FoundAlive(g);
              return Some(ps);
            }
            FoundDead(g);
          case MayCreate =>
            Interfere(g);
            var connected: bool := *;
            if connected {
              var ps := Create(g);
              return Some(ps);
            }
            CreationFailed(g);
            return None;
          case PoolClosed =>
            return None;
          case Exhausted =>
            var signalled: bool := *;
            if !signalled {
              return None;
            }
        }
        Interfere(g);
      }
      return None;
    }

    // ----- Giving it back -----

    /** put. */
    method Put(ps: PooledSession, ghost g: GetId)
      requires Valid() && g in holders && holders[g] == ps
      modifies this, sessions
      ensures Valid() && sessions == old(sessions) && State() == Apply(old(State()), PoolModel.Put(g))
      ensures !closed ==> !ps.inUse && ps.lastUsed == clock >= old(clock)
      ensures forall s :: s in sessions && s != ps ==> unchanged(s)
    {
      hide Inv, Aged;
      var now := Now();
      StepKeepsInv(State(), PoolModel.Put(g));
      HolderIsAlone(State(), g);
      holders := holders - {g};
      if ps.realClosed || closed {
        FirstAreAged();
        return;
      }
      ps.inUse := false;
      ps.lastUsed := now;
      if maxIdle == 0 || |idle| >= maxIdle {
        active := active - 1;
        FirstAreAged();
        return;
      }
      idle := idle + [ps];
      OneMoreIsAged(ps);
    }

    /** remove: of a session its caller holds, or of one that is idle. */
    method Remove(ps: PooledSession, ghost g: GetId)
      requires Valid() && ps in sessions && if ps.inUse then g in holders && holders[g] == ps else ps in idle
      modifies this, sessions
      ensures Valid() && sessions == old(sessions) && ps.realClosed && !ps.inUse
      ensures forall s :: s in sessions && s != ps ==> unchanged(s)
      ensures old(ps.inUse) ==> State() == Apply(old(State()), PoolModel.Remove(g))
      ensures !old(ps.inUse) ==> exists i: nat :: i < |old(idle)| && old(idle)[i] == ps && State() == Apply(old(State()), RemoveIdle(i))
    {
      hide Inv, Aged;
      if ps.inUse {
        HolderIsAlone(State(), g);
        StepKeepsInv(State(), PoolModel.Remove(g));
        ps.realClosed := true;
        active := active - 1;
        ps.inUse := false;
        holders := holders - {g};
        FirstAreAged();
        return;
      }
      PlacesApart(State());
      ps.realClosed := true;
      for i := 0 to |idle|
        invariant idle == old(idle) && active == old(active) && ps !in idle[..i] && !ps.inUse && ps.realClosed
        invariant State() == old(State()) && sessions == old(sessions)
        invariant forall s :: s in sessions && s != ps ==> unchanged(s)
      {
        if idle[i] == ps {
          StepKeepsInv(State(), RemoveIdle(i));
          idle := idle[..i] + idle[i + 1..];
          active := active - 1;
          AllButOneAreAged(i);
          return;
        }
      }
    }

    /** Tells the idle sessions used recently enough from the others, which no longer count as active. */
    method Sift(now: int) returns (toClose: seq<PooledSession>, validIdle: seq<PooledSession>, ghost kept: seq<nat>)
      modifies this`active
      ensures active == old(active) - |toClose| && |validIdle| + |toClose| == |idle|
      ensures IsSelection(kept, |idle|) && validIdle == Select(idle, kept)
      ensures forall s :: s in toClose <==> s in idle && now - s.lastUsed > idleTimeout
      ensures forall s :: s in validIdle <==> s in idle && now - s.lastUsed <= idleTimeout
    {
      toClose, validIdle, kept := [], [], [];
      for i := 0 to |idle|
        invariant IsSelection(kept, i) && IsSelection(kept, |idle|) && validIdle == Select(idle, kept)
        invariant active == old(active) - |toClose| && |validIdle| + |toClose| == i
        invariant forall s :: s in toClose <==> s in idle[..i] && now - s.lastUsed > idleTimeout
        invariant forall s :: s in validIdle <==> s in idle[..i] && now - s.lastUsed <= idleTimeout
      {
        if now - idle[i].lastUsed > idleTimeout {
          toClose := toClose + [idle[i]];
          active := active - 1;
        } else {
          validIdle := validIdle + [idle[i]];
          kept := kept + [i];
        }
      }
    }

    /** cleanupExpired: compacts the idle list to the sessions used recently enough. */
    method CleanupExpired() returns (toClose: seq<PooledSession>)
      requires Valid()
      modifies this
      ensures Valid() && sessions == old(sessions) && clock >= old(clock)
      ensures forall s :: s in toClose <==> s in old(idle) && clock - s.lastUsed > idleTimeout
      ensures forall s :: s in idle <==> s in old(idle) && clock - s.lastUsed <= idleTimeout
      ensures exists kept :: IsSelection(kept, |old(idle)|) && State() == Apply(old(State()), Expire(kept))
    {
      hide Inv, Aged;
      var now := Now();
      var validIdle;
      ghost var kept;
      toClose, validIdle, kept := Sift(now);
      StepKeepsInv(old(State()), Expire(kept));
      idle := validIdle;
      SelectionIsAged(kept);
    }

    /** Close: whatever idles is dropped from the list, and closed after the mutex is let go. */
    method Close() returns (toClose: seq<PooledSession>)
      requires Valid()
      modifies this
      ensures Valid() && sessions == old(sessions) && State() == Apply(old(State()), PoolModel.Close)
      ensures toClose == if old(closed) then [] else old(idle)
    {
      hide Inv;
      StepKeepsInv(State(), PoolModel.Close);
      if closed {
        return [];
      }
      closed := true;
      toClose := idle;
      idle := [];
    }
  }

  lemma LastIdleIsAlone<S>(p: Pool<S>)
    requires Inv(p) && p.idle != []
    ensures var n := |p.idle| - 1;
      && p.idle[n] !in p.idle[..n]
      && (forall h :: h in p.holders ==> p.holders[h] != p.idle[n]) && (forall h :: h in p.checking ==> p.checking[h] != p.idle[n])
  {
  }

  lemma HolderIsAlone<S>(p: Pool<S>, g: GetId)
    requires Inv(p) && g in p.holders
    ensures p.holders[g] !in p.idle
    ensures forall h :: h in p.holders && h != g ==> p.holders[h] != p.holders[g]
    ensures forall h :: h in p.checking ==> p.checking[h] != p.holders[g]
  {
  }

  lemma PlacesApart<S>(p: Pool<S>)
    requires Inv(p)
    ensures OnePlaceEach(p)
  {
  }

  lemma ActiveIsBounded<S>(p: Pool<S>)
    requires Inv(p)
    ensures p.maxActive > 0 ==> p.active <= p.maxActive
  {
  }
}
