/** The counting semaphore, one statement per step, with any number of threads, barging waits and
    spurious wakeups. */
module Semaphore {

  import opened Totals
  import opened Wrappers

  type Tid = nat

  /** What a thread does next. The names say which statement of which operation. */
  datatype Pc =
    | Idle
    | NotifyLock | NotifyIncrement | NotifyOne | NotifyUnlock
    | WaitLock | WaitCheck | WaitSleep | Sleeping | Woken | WaitDecrement | WaitUnlock
    | TryLock | TryCheck | TryDecrement | TryUnlock(result: bool)
  {
    /** The thread holds the mutex. */
    predicate Holds() {
      || NotifyIncrement? || NotifyOne? || NotifyUnlock?
      || WaitCheck? || WaitSleep? || WaitDecrement? || WaitUnlock?
      || TryCheck? || TryDecrement? || TryUnlock?
    }

    predicate WantsMutex() {
      NotifyLock? || WaitLock? || Woken? || TryLock?
    }

    /** The thread has seen a positive count and is about to decrement it. */
    predicate Claims() {
      WaitDecrement? || TryDecrement?
    }
  }

  /** The last three fields are history: increments, and decrements by each operation. */
  datatype State = State(
    count: int, owner: Option<Tid>, pc: map<Tid, Pc>,
    notified: nat, waited: nat, tried: nat)

  ghost predicate Init(s: State, count: nat) {
    && s.count == count && s.owner == None
    && (forall t <- s.pc :: s.pc[t] == Idle)
    && s.notified == s.waited == s.tried == 0
  }

  ghost predicate SomeoneSleeps(s: State) {
    exists t <- s.pc :: s.pc[t].Sleeping?
  }

  // ---------- Steps ----------

  function Goto(s: State, t: Tid, pc: Pc): State {
    s.(pc := s.pc[t := pc])
  }

  function Acquire(s: State, t: Tid, pc: Pc): State {
    Goto(s, t, pc).(owner := Some(t))
  }

  function Release(s: State, t: Tid, pc: Pc): State {
    Goto(s, t, pc).(owner := None)
  }

  /** A thread enters one of the operations. */
  ghost predicate Call(s: State, r: State, t: Tid) {
    && t in s.pc && s.pc[t].Idle?
    && (r == Goto(s, t, NotifyLock) || r == Goto(s, t, WaitLock) || r == Goto(s, t, TryLock))
  }

  /** lock_guard, unique_lock, or the end of condition_.wait: the mutex is free and is taken. */
  ghost predicate Lock(s: State, r: State, t: Tid) {
    && t in s.pc && s.owner == None && s.pc[t].WantsMutex()
    && r == Acquire(s, t,
              match s.pc[t]
              case NotifyLock => NotifyIncrement
              case TryLock => TryCheck
              case _ => WaitCheck)
  }

  /** Sleeping thread u is woken by the holder t. */
  ghost predicate Wakes(s: State, r: State, t: Tid, u: Tid) {
    t in s.pc && u in s.pc && s.pc[u].Sleeping? && r == Goto(Goto(s, u, Woken), t, NotifyUnlock)
  }

  /** notify_one: wakes some sleeping thread if there is one. */
  ghost predicate NotifyOneStep(s: State, r: State, t: Tid) {
    && t in s.pc && s.pc[t].NotifyOne?
    && if SomeoneSleeps(s) then exists u :: Wakes(s, r, t, u) else r == Goto(s, t, NotifyUnlock)
  }

  /** The tests of the count, in the wait loop and in try_wait. */
  ghost predicate Check(s: State, r: State, t: Tid) {
    t in s.pc &&
    match s.pc[t]
    case WaitCheck => r == Goto(s, t, if s.count == 0 then WaitSleep else WaitDecrement)
    case TryCheck => r == Goto(s, t, if s.count != 0 then TryDecrement else TryUnlock(false))
    case _ => false
  }

  ghost predicate Count(s: State, r: State, t: Tid) {
    t in s.pc &&
    match s.pc[t]
    case NotifyIncrement => r == Goto(s, t, NotifyOne).(count := s.count + 1, notified := s.notified + 1)
    case WaitDecrement => r == Goto(s, t, WaitUnlock).(count := s.count - 1, waited := s.waited + 1)
    case TryDecrement => r == Goto(s, t, TryUnlock(true)).(count := s.count - 1, tried := s.tried + 1)
    case _ => false
  }

  /** Unlocking; condition_.wait unlocks and sleeps in one step. */
  ghost predicate Unlock(s: State, r: State, t: Tid) {
    t in s.pc &&
    match s.pc[t]
    case WaitSleep => r == Release(s, t, Sleeping)
    case NotifyUnlock => r == Release(s, t, Idle)
    case WaitUnlock => r == Release(s, t, Idle)
    case TryUnlock(_) => r == Release(s, t, Idle)
    case _ => false
  }

  /** A statement executed with the mutex held. */
  ghost predicate Critical(s: State, r: State, t: Tid) {
    NotifyOneStep(s, r, t) || Check(s, r, t) || Count(s, r, t) || Unlock(s, r, t)
  }

  ghost predicate SpuriousWakeup(s: State, r: State, t: Tid) {
    t in s.pc && s.pc[t].Sleeping? && r == Goto(s, t, Woken)
  }

  ghost predicate Next(s: State, r: State, t: Tid) {
    Call(s, r, t) || Lock(s, r, t) || Critical(s, r, t) || SpuriousWakeup(s, r, t)
  }

  ghost predicate Step(s: State, r: State) {
    exists t :: Next(s, r, t)
  }

  ghost predicate Run(states: seq<State>, count: nat) {
    && states != [] && Init(states[0], count)
    && forall k :: 0 <= k < |states| - 1 ==> Step(states[k], states[k + 1])
  }

  // ---------- Invariants ----------

  function Threads(s: State, p: Pc): set<Tid> {
    set t | t in s.pc && s.pc[t] == p
  }

  /** Permits that no thread has claimed. */
  function Unclaimed(s: State): int {
    s.count - (if s.owner.Some? && s.owner.value in s.pc && s.pc[s.owner.value].Claims() then 1 else 0)
  }

  /** Threads that are bound to look at the count or to wake somebody who will. */
  function Pending(s: State): nat {
    |Threads(s, Woken)|
    + (if s.owner.Some? && s.owner.value in s.pc && (s.pc[s.owner.value].WaitCheck? || s.pc[s.owner.value].NotifyOne?)
       then 1 else 0)
  }

  ghost predicate MutualExclusion(s: State) {
    forall t <- s.pc :: s.pc[t].Holds() <==> s.owner == Some(t)
  }

  ghost predicate NoLostWakeup(s: State) {
    SomeoneSleeps(s) ==> Unclaimed(s) <= Pending(s)
  }

  ghost predicate Inv(s: State, count: nat) {
    && s.count >= 0
    && (s.owner.Some? ==> s.owner.value in s.pc)
    && MutualExclusion(s)
    && (forall t <- s.pc :: s.pc[t].Claims() ==> s.count > 0)
    && (forall t <- s.pc :: s.pc[t].WaitSleep? ==> s.count == 0)
    && count + s.notified == s.count + s.waited + s.tried
    && NoLostWakeup(s)
  }

  lemma InitInv(s: State, count: nat)
    requires Init(s, count)
    ensures Inv(s, count)
  {
  }

  /** How the set of woken threads changes when one thread moves. */
  lemma WokenAfter(s: State, t: Tid, pc: Pc)
    requires t in s.pc
    ensures var r := Goto(s, t, pc);
            |Threads(r, Woken)| ==
              |Threads(s, Woken)| + (if pc.Woken? then 1 else 0) - (if s.pc[t].Woken? then 1 else 0)
  {
    var r := Goto(s, t, pc);
    var rest := Threads(s, Woken) - {t};
    assert Threads(s, Woken) == if s.pc[t].Woken? then rest + {t} else rest;
    assert Threads(r, Woken) == if pc.Woken? then rest + {t} else rest;
  }

  lemma CallInv(s: State, r: State, t: Tid, count: nat)
    requires Inv(s, count) && Call(s, r, t)
    ensures Inv(r, count)
  {
    WokenAfter(s, t, r.pc[t]);
    assert Threads(r, Woken) == Threads(Goto(s, t, r.pc[t]), Woken);
  }

  lemma LockInv(s: State, r: State, t: Tid, count: nat)
    requires Inv(s, count) && Lock(s, r, t)
    ensures Inv(r, count)
  {
    WokenAfter(s, t, r.pc[t]);
    assert Threads(r, Woken) == Threads(Goto(s, t, r.pc[t]), Woken);
  }

  lemma SpuriousInv(s: State, r: State, t: Tid, count: nat)
    requires Inv(s, count) && SpuriousWakeup(s, r, t)
    ensures Inv(r, count)
  {
    WokenAfter(s, t, Woken);
  }

  lemma NotifyOneInv(s: State, r: State, t: Tid, count: nat)
    requires Inv(s, count) && NotifyOneStep(s, r, t)
    ensures Inv(r, count)
  {
    if SomeoneSleeps(s) {
      var u :| Wakes(s, r, t, u);
      WokenAfter(s, u, Woken);
      WokenAfter(Goto(s, u, Woken), t, NotifyUnlock);
    } else {
      WokenAfter(s, t, NotifyUnlock);
    }
  }

  lemma CheckInv(s: State, r: State, t: Tid, count: nat)
    requires Inv(s, count) && Check(s, r, t)
    ensures Inv(r, count)
  {
    WokenAfter(s, t, r.pc[t]);
  }

  lemma CountInv(s: State, r: State, t: Tid, count: nat)
    requires Inv(s, count) && Count(s, r, t)
    ensures Inv(r, count)
  {
    WokenAfter(s, t, r.pc[t]);
    assert Threads(r, Woken) == Threads(Goto(s, t, r.pc[t]), Woken);
  }

  lemma UnlockInv(s: State, r: State, t: Tid, count: nat)
    requires Inv(s, count) && Unlock(s, r, t)
    ensures Inv(r, count)
  {
    WokenAfter(s, t, r.pc[t]);
    assert Threads(r, Woken) == Threads(Goto(s, t, r.pc[t]), Woken);
  }

  lemma NextInv(s: State, r: State, t: Tid, count: nat)
    requires Inv(s, count) && Next(s, r, t)
    ensures Inv(r, count)
  {
    hide Inv, Call, Lock, Check, Count, Unlock, NotifyOneStep, SpuriousWakeup;
    if Call(s, r, t) {
      CallInv(s, r, t, count);
    } else if Lock(s, r, t) {
      LockInv(s, r, t, count);
    } else if NotifyOneStep(s, r, t) {
      NotifyOneInv(s, r, t, count);
    } else if Check(s, r, t) {
      CheckInv(s, r, t, count);
    } else if Count(s, r, t) {
      CountInv(s, r, t, count);
    } else if Unlock(s, r, t) {
      UnlockInv(s, r, t, count);
    } else {
      SpuriousInv(s, r, t, count);
    }
  }

  lemma {:induction false} RunInv(states: seq<State>, count: nat, k: nat)
    requires Run(states, count) && k < |states|
    ensures Inv(states[k], count)
  {
    hide Inv, Next;
    if k == 0 {
      InitInv(states[0], count);
    } else {
      RunInv(states, count, k - 1);
      var t :| Next(states[k - 1], states[k], t);
      NextInv(states[k - 1], states[k], t, count);
    }
  }

  // ---------- What the semaphore promises ----------

  /** In every reachable state: permits are conserved, at most one thread is in a critical section, the
      unsigned count is never decremented at zero, and no wakeup is lost although notify_one wakes a
      single thread. */
  lemma SemaphoreIsSafe(states: seq<State>, count: nat, k: nat)
    requires Run(states, count) && k < |states|
    ensures var s := states[k];
            && count + s.notified == s.count + s.waited + s.tried
            && (forall t, u :: t in s.pc && u in s.pc && s.pc[t].Holds() && s.pc[u].Holds() ==> t == u)
            && (forall t <- s.pc :: s.pc[t].Claims() ==> s.count > 0)
            && (SomeoneSleeps(s) ==> Unclaimed(s) <= Pending(s))
  {
    RunInv(states, count, k);
  }

  /** Some thread can take a step other than a call or a spurious wakeup. */
  ghost predicate Busy(s: State) {
    exists t, r :: Lock(s, r, t) || Critical(s, r, t)
  }

  lemma HolderMoves(s: State, t: Tid, count: nat)
    requires Inv(s, count) && s.owner == Some(t)
    ensures Busy(s)
  {
    match s.pc[t]
    case NotifyOne =>
      if SomeoneSleeps(s) {
        var u :| u in s.pc && s.pc[u].Sleeping?;
        assert Wakes(s, Goto(Goto(s, u, Woken), t, NotifyUnlock), t, u);
        assert Critical(s, Goto(Goto(s, u, Woken), t, NotifyUnlock), t);
      } else {
        assert Critical(s, Goto(s, t, NotifyUnlock), t);
      }
    case WaitCheck => assert Critical(s, Goto(s, t, if s.count == 0 then WaitSleep else WaitDecrement), t);
    case TryCheck => assert Critical(s, Goto(s, t, if s.count != 0 then TryDecrement else TryUnlock(false)), t);
    case NotifyIncrement =>
      assert Critical(s, Goto(s, t, NotifyOne).(count := s.count + 1, notified := s.notified + 1), t);
    case WaitDecrement =>
      assert Critical(s, Goto(s, t, WaitUnlock).(count := s.count - 1, waited := s.waited + 1), t);
    case TryDecrement =>
      assert Critical(s, Goto(s, t, TryUnlock(true)).(count := s.count - 1, tried := s.tried + 1), t);
    case WaitSleep => assert Critical(s, Release(s, t, Sleeping), t);
    case NotifyUnlock => assert Critical(s, Release(s, t, Idle), t);
    case WaitUnlock => assert Critical(s, Release(s, t, Idle), t);
    case TryUnlock(_) => assert Critical(s, Release(s, t, Idle), t);
  }

  /** A thread sleeps although a permit is there for it only while some other thread is on its way:
      once nobody can move, every sleeper waits for a permit that does not exist, and nobody is inside
      an operation except the sleepers. */
  lemma QuietMeansNoPermit(states: seq<State>, count: nat, k: nat)
    requires Run(states, count) && k < |states| && !Busy(states[k])
    ensures var s := states[k];
            && (forall t <- s.pc :: s.pc[t].Idle? || s.pc[t].Sleeping?)
            && (SomeoneSleeps(s) ==> s.count == 0)
  {
    var s := states[k];
    RunInv(states, count, k);
    if s.owner.Some? {
      HolderMoves(s, s.owner.value, count);
    }
    forall t <- s.pc ensures s.pc[t].Idle? || s.pc[t].Sleeping? {
      if s.pc[t].WantsMutex() {
        var r := Acquire(s, t,
                         match s.pc[t]
                         case NotifyLock => NotifyIncrement
                         case TryLock => TryCheck
                         case _ => WaitCheck);
        assert Lock(s, r, t);
      }
    }
    assert Threads(s, Woken) == {};
  }

  // ---------- Coming to rest ----------

  /** How many steps a thread may still take by itself, and cause by the wakeup it owes. */
  function Left(pc: Pc): nat {
    match pc
    case Idle => 0
    case NotifyLock => 8
    case NotifyIncrement => 7
    case NotifyOne => 6
    case NotifyUnlock => 1
    case WaitLock => 4
    case WaitCheck => 3
    case WaitSleep => 1
    case Sleeping => 0
    case Woken => 4
    case WaitDecrement => 2
    case WaitUnlock => 1
    case TryLock => 4
    case TryCheck => 3
    case TryDecrement => 2
    case TryUnlock(_) => 1
  }

  function Shares(s: State): map<nat, nat> {
    map t | t in s.pc :: Left(s.pc[t])
  }

  ghost function StepsLeft(s: State): nat {
    Total(Shares(s))
  }

  lemma MovedShare(s: State, r: State, t: Tid, pc: Pc)
    requires t in s.pc && r.pc == s.pc[t := pc]
    ensures StepsLeft(r) == StepsLeft(s) - Left(s.pc[t]) + Left(pc)
  {
    TotalUpdate(Shares(s), t, Left(pc));
    assert Shares(r) == Shares(s)[t := Left(pc)];
  }

  /** A step inside an operation. */
  ghost predicate Move(s: State, r: State) {
    exists t :: Lock(s, r, t) || Critical(s, r, t)
  }

  /** Every statement but a notify_one that wakes somebody moves one thread, and brings it on. */
  lemma OneMoves(s: State, r: State, t: Tid)
    requires Lock(s, r, t) || Check(s, r, t) || Count(s, r, t) || Unlock(s, r, t)
    ensures t in r.pc && r.pc == s.pc[t := r.pc[t]] && Left(r.pc[t]) < Left(s.pc[t])
  {
  }

  lemma NotifyUsesUp(s: State, r: State, t: Tid)
    requires NotifyOneStep(s, r, t)
    ensures StepsLeft(r) < StepsLeft(s) && r.pc.Keys == s.pc.Keys
  {
    hide StepsLeft;
    if SomeoneSleeps(s) {
      var u :| Wakes(s, r, t, u);
      var m := Goto(s, u, Woken);
      MovedShare(s, m, u, Woken);
      MovedShare(m, r, t, NotifyUnlock);
    } else {
      MovedShare(s, r, t, NotifyUnlock);
    }
  }

  lemma Present(s: State, r: State, t: Tid)
    requires Lock(s, r, t) || Critical(s, r, t)
    ensures t in s.pc
  {
  }

  lemma MoveUsesUp(s: State, r: State)
    requires Move(s, r)
    ensures StepsLeft(r) < StepsLeft(s) && r.pc.Keys == s.pc.Keys
  {
    hide StepsLeft, Lock, Check, Count, Unlock, NotifyOneStep, Left;
    var t :| Lock(s, r, t) || Critical(s, r, t);
    if NotifyOneStep(s, r, t) {
      NotifyUsesUp(s, r, t);
    } else {
      OneMoves(s, r, t);
      assert t in s.pc by { Present(s, r, t); }
      MovedShare(s, r, t, r.pc[t]);
    }
  }

  /** However the threads are scheduled: with no new calls and no spurious wakeups, n threads take at most
      8 * n steps before nobody can move; by QuietMeansNoPermit, nobody then sleeps beside a permit. */
  lemma {:induction false} ComesToRest(states: seq<State>)
    requires states != [] && forall k :: 0 <= k < |states| - 1 ==> Move(states[k], states[k + 1])
    ensures |states| - 1 <= StepsLeft(states[0]) <= 8 * |states[0].pc|
    decreases |states|
  {
    hide Move;
    var w := Shares(states[0]);
    assert w.Keys == states[0].pc.Keys && |w| == |w.Keys| && |states[0].pc| == |states[0].pc.Keys|;
    TotalBounded(w, 8);
    if |states| > 1 {
      MoveUsesUp(states[0], states[1]);
      ComesToRest(states[1..]);
    }
  }
}
