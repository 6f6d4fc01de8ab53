/** The bounded producer/consumer queue, one statement per step, with any number of threads and spurious
    wakeups. Producers and consumers wait on one condition variable, and notify_all runs after the mutex
    has been released. */
module MonitorQueue {

  import opened Totals
  import opened Wrappers

  type Tid = nat

  const SIZE_MODULUS: nat := 0x1_0000_0000_0000_0000

  datatype Op<T> = Add(request: T) | Consume

  /** What a thread does next. */
  datatype Pc<T> =
    | Idle
    | Lock(op: Op<T>)
    | Check(op: Op<T>)
    | Sleep(op: Op<T>)
    | Sleeping(op: Op<T>)
    | Woken(op: Op<T>)
    | Act(op: Op<T>)
    | Unlock(op: Op<T>)
    | Notify(op: Op<T>)
  {
    /** The thread holds the mutex. */
    predicate Holds() {
      Check? || Sleep? || Act? || Unlock?
    }

    /** The thread has changed the queue and has not yet woken the sleepers. */
    predicate OwesWakeup() {
      Unlock? || Notify?
    }
  }

  /** The last two fields are history: requests pushed and requests returned, in order. */
  datatype State<T> = State(
    queue: seq<T>, owner: Option<Tid>, pc: map<Tid, Pc<T>>,
    produced: seq<T>, consumed: seq<T>)

  ghost predicate Init<T>(s: State<T>) {
    && s.queue == s.produced == s.consumed == [] && s.owner == None
    && forall t <- s.pc :: s.pc[t] == Idle
  }

  /** maxsize fits an int. */
  predicate IsInt(maxsize: int) {
    -0x8000_0000 <= maxsize < 0x8000_0000
  }

  /** maxsize is an int compared with an unsigned size, so a negative one wraps around. */
  function Limit(maxsize: int): (limit: nat)
    ensures IsInt(maxsize) && maxsize >= 0 ==> limit == maxsize
    ensures IsInt(maxsize) && maxsize < 0 ==> limit == SIZE_MODULUS + maxsize
  {
    maxsize % SIZE_MODULUS
  }

  predicate Ready<T>(queue: seq<T>, maxsize: int, op: Op<T>) {
    match op
    case Add(_) => maxsize == 0 || |queue| < Limit(maxsize)
    case Consume => |queue| != 0
  }

  // ---------- Steps ----------

  function Goto<T>(s: State<T>, t: Tid, pc: Pc<T>): State<T> {
    s.(pc := s.pc[t := pc])
  }

  /** A thread enters add or consume. */
  ghost predicate CallStep<T(!new)>(s: State<T>, r: State<T>, t: Tid) {
    t in s.pc && s.pc[t].Idle? && exists op :: r == Goto(s, t, Lock(op))
  }

  /** unique_lock, or the end of cond.wait: the mutex is free and is taken. */
  ghost predicate LockStep<T>(s: State<T>, r: State<T>, t: Tid) {
    && t in s.pc && s.owner == None && (s.pc[t].Lock? || s.pc[t].Woken?)
    && r == Goto(s, t, Check(s.pc[t].op)).(owner := Some(t))
  }

  ghost predicate CheckStep<T>(s: State<T>, r: State<T>, t: Tid, maxsize: int) {
    && t in s.pc && s.pc[t].Check?
    && var op := s.pc[t].op;
       r == Goto(s, t, if Ready(s.queue, maxsize, op) then Act(op) else Sleep(op))
  }

  ghost predicate SleepStep<T>(s: State<T>, r: State<T>, t: Tid) {
    t in s.pc && s.pc[t].Sleep? && r == Goto(s, t, Sleeping(s.pc[t].op)).(owner := None)
  }

  /** Pushing or popping. Taking the front of an empty queue has no defined outcome: any state may follow. */
  ghost predicate ActStep<T>(s: State<T>, r: State<T>, t: Tid) {
    && t in s.pc && s.pc[t].Act?
    && match s.pc[t].op
       case Add(x) =>
         r == Goto(s, t, Unlock(s.pc[t].op)).(queue := s.queue + [x], produced := s.produced + [x])
       case Consume =>
         s.queue != [] ==>
           r == Goto(s, t, Unlock(Consume)).(queue := s.queue[1..], consumed := s.consumed + [s.queue[0]])
  }

  ghost predicate UnlockStep<T>(s: State<T>, r: State<T>, t: Tid) {
    t in s.pc && s.pc[t].Unlock? && r == Goto(s, t, Notify(s.pc[t].op)).(owner := None)
  }

  /** notify_all, which does not need the mutex. */
  ghost predicate NotifyStep<T>(s: State<T>, r: State<T>, t: Tid) {
    && t in s.pc && s.pc[t].Notify?
    && r == s.(pc := map u | u in s.pc ::
          if u == t then Idle else if s.pc[u].Sleeping? then Woken(s.pc[u].op) else s.pc[u])
  }

  ghost predicate SpuriousWakeup<T>(s: State<T>, r: State<T>, t: Tid) {
    t in s.pc && s.pc[t].Sleeping? && r == Goto(s, t, Woken(s.pc[t].op))
  }

  /** A step inside an operation. */
  ghost predicate Move<T>(s: State<T>, r: State<T>, t: Tid, maxsize: int) {
    || LockStep(s, r, t) || CheckStep(s, r, t, maxsize) || SleepStep(s, r, t)
    || ActStep(s, r, t) || UnlockStep(s, r, t) || NotifyStep(s, r, t)
  }

  ghost predicate Step<T(!new)>(s: State<T>, r: State<T>, maxsize: int) {
    exists t :: CallStep(s, r, t) || SpuriousWakeup(s, r, t) || Move(s, r, t, maxsize)
  }

  ghost predicate Run<T(!new)>(states: seq<State<T>>, maxsize: int) {
    && IsInt(maxsize) && states != [] && Init(states[0])
    && forall k :: 0 <= k < |states| - 1 ==> Step(states[k], states[k + 1], maxsize)
  }

  // ---------- Invariants ----------

  ghost predicate MutualExclusion<T>(s: State<T>) {
    forall t <- s.pc :: s.pc[t].Holds() <==> s.owner == Some(t)
  }

  /** A thread acts only with its predicate true, and goes to sleep only with it false. */
  ghost predicate Checked<T>(s: State<T>, maxsize: int) {
    && (forall t <- s.pc :: s.pc[t].Act? ==> Ready(s.queue, maxsize, s.pc[t].op))
    && (forall t <- s.pc :: s.pc[t].Sleep? ==> !Ready(s.queue, maxsize, s.pc[t].op))
  }

  ghost predicate SomeoneOwesWakeup<T>(s: State<T>) {
    exists t <- s.pc :: s.pc[t].OwesWakeup()
  }

  /** A sleeper whose predicate holds is going to be woken. */
  ghost predicate NoLostWakeup<T>(s: State<T>, maxsize: int) {
    forall t <- s.pc :: s.pc[t].Sleeping? && Ready(s.queue, maxsize, s.pc[t].op) ==> SomeoneOwesWakeup(s)
  }

  ghost predicate Bounded<T>(s: State<T>, maxsize: int) {
    maxsize != 0 ==> |s.queue| <= Limit(maxsize)
  }

  ghost predicate Inv<T>(s: State<T>, maxsize: int) {
    && (s.owner.Some? ==> s.owner.value in s.pc)
    && MutualExclusion(s) && Checked(s, maxsize) && NoLostWakeup(s, maxsize) && Bounded(s, maxsize)
    && s.produced == s.consumed + s.queue
  }

  lemma InitInv<T>(s: State<T>, maxsize: int)
    requires Init(s)
    ensures Inv(s, maxsize)
  {
  }

  /** A thread that is not about to wake the sleepers changes neither the queue nor the debt. */
  lemma QuietInv<T(!new)>(s: State<T>, r: State<T>, t: Tid, maxsize: int)
    requires Inv(s, maxsize)
    requires CallStep(s, r, t) || SpuriousWakeup(s, r, t) || LockStep(s, r, t)
    ensures Inv(r, maxsize)
  {
    forall u | u in s.pc && s.pc[u].OwesWakeup() ensures u in r.pc && r.pc[u].OwesWakeup() {
    }
  }

  lemma CheckInv<T>(s: State<T>, r: State<T>, t: Tid, maxsize: int)
    requires Inv(s, maxsize)
    requires CheckStep(s, r, t, maxsize) || SleepStep(s, r, t)
    ensures Inv(r, maxsize)
  {
    forall u | u in s.pc && s.pc[u].OwesWakeup() ensures u in r.pc && r.pc[u].OwesWakeup() {
    }
  }

  lemma ActInv<T>(s: State<T>, r: State<T>, t: Tid, maxsize: int)
    requires Inv(s, maxsize) && ActStep(s, r, t)
    ensures Inv(r, maxsize)
  {
    assert r.pc[t].OwesWakeup();
    assert forall u <- s.pc :: u != t ==> !s.pc[u].Holds();
  }

  lemma UnlockInv<T>(s: State<T>, r: State<T>, t: Tid, maxsize: int)
    requires Inv(s, maxsize) && UnlockStep(s, r, t)
    ensures Inv(r, maxsize)
  {
    assert r.pc[t].OwesWakeup();
  }

  lemma NotifyInv<T>(s: State<T>, r: State<T>, t: Tid, maxsize: int)
    requires Inv(s, maxsize) && NotifyStep(s, r, t)
    ensures Inv(r, maxsize)
  {
  }

  lemma StepInv<T(!new)>(s: State<T>, r: State<T>, maxsize: int)
    requires Inv(s, maxsize) && Step(s, r, maxsize)
    ensures Inv(r, maxsize)
  {
    hide Inv, CallStep, SpuriousWakeup, LockStep, CheckStep, SleepStep, ActStep, UnlockStep, NotifyStep;
    var t :| CallStep(s, r, t) || SpuriousWakeup(s, r, t) || Move(s, r, t, maxsize);
    if ActStep(s, r, t) {
      ActInv(s, r, t, maxsize);
    } else if UnlockStep(s, r, t) {
      UnlockInv(s, r, t, maxsize);
    } else if NotifyStep(s, r, t) {
      NotifyInv(s, r, t, maxsize);
    } else if CheckStep(s, r, t, maxsize) || SleepStep(s, r, t) {
      CheckInv(s, r, t, maxsize);
    } else {
      QuietInv(s, r, t, maxsize);
    }
  }

  lemma {:induction false} RunInv<T(!new)>(states: seq<State<T>>, maxsize: int, k: nat)
    requires Run(states, maxsize) && k < |states|
    ensures Inv(states[k], maxsize)
  {
    hide Inv, Step;
    if k == 0 {
      InitInv(states[0], maxsize);
    } else {
      RunInv(states, maxsize, k - 1);
      StepInv(states[k - 1], states[k], maxsize);
    }
  }

  // ---------- What the queue promises ----------

  /** In every reachable state: requests come out once each, in the order they went in; the queue keeps its
      bound; one thread at a time is inside; the front is taken only from a non-empty queue; and a sleeper
      whose predicate holds is about to be woken, although notify_all runs without the mutex. */
  lemma QueueIsSafe<T(!new)>(states: seq<State<T>>, maxsize: int, k: nat)
    requires Run(states, maxsize) && k < |states|
    ensures var s := states[k];
            && s.produced == s.consumed + s.queue
            && (maxsize != 0 ==> |s.queue| <= Limit(maxsize))
            && (maxsize > 0 ==> |s.queue| <= maxsize)
            && (forall t, u :: t in s.pc && u in s.pc && s.pc[t].Holds() && s.pc[u].Holds() ==> t == u)
            && (forall t <- s.pc :: s.pc[t].Act? && s.pc[t].op.Consume? ==> s.queue != [])
            && (forall t <- s.pc :: s.pc[t].Sleeping? && Ready(s.queue, maxsize, s.pc[t].op) ==>
                  exists u <- s.pc :: s.pc[u].OwesWakeup())
  {
    RunInv(states, maxsize, k);
  }

  /** Some thread can take a step other than a call or a spurious wakeup. */
  ghost predicate Busy<T(!new)>(s: State<T>, maxsize: int) {
    exists t, r :: Move(s, r, t, maxsize)
  }

  lemma OccupantMoves<T(!new)>(s: State<T>, t: Tid, maxsize: int)
    requires Inv(s, maxsize) && t in s.pc && (s.pc[t].Holds() || s.pc[t].Notify?)
    ensures Busy(s, maxsize)
  {
    var pc := s.pc[t];
    match pc
    case Check(op) =>
      assert Move(s, Goto(s, t, if Ready(s.queue, maxsize, op) then Act(op) else Sleep(op)), t, maxsize);
    case Sleep(op) => assert Move(s, Goto(s, t, Sleeping(op)).(owner := None), t, maxsize);
    case Act(Add(x)) =>
      assert Move(s, Goto(s, t, Unlock(pc.op)).(queue := s.queue + [x], produced := s.produced + [x]), t, maxsize);
    case Act(Consume) =>
      assert Move(s, Goto(s, t, Unlock(pc.op)).(queue := s.queue[1..], consumed := s.consumed + [s.queue[0]]),
                  t, maxsize);
    case Unlock(op) => assert Move(s, Goto(s, t, Notify(op)).(owner := None), t, maxsize);
    case Notify(_) =>
      var r := s.(pc := map u | u in s.pc ::
          if u == t then Idle else if s.pc[u].Sleeping? then Woken(s.pc[u].op) else s.pc[u]);
      assert Move(s, r, t, maxsize);
  }

  /** Once no thread can move, nobody is inside an operation except sleepers; producers sleep only on a full
      queue, consumers only on an empty one, so the two kinds never wait for each other. */
  lemma QuietMeansServed<T(!new)>(states: seq<State<T>>, maxsize: int, k: nat)
    requires Run(states, maxsize) && k < |states| && !Busy(states[k], maxsize)
    ensures var s := states[k];
            && (forall t <- s.pc :: s.pc[t].Idle? || s.pc[t].Sleeping?)
            && (forall t <- s.pc :: s.pc[t].Sleeping? && s.pc[t].op.Add? ==>
                  maxsize != 0 && |s.queue| == Limit(maxsize))
            && (forall t <- s.pc :: s.pc[t].Sleeping? && s.pc[t].op.Consume? ==> s.queue == [])
            && (forall t, u :: t in s.pc && u in s.pc && s.pc[t].Sleeping? && s.pc[u].Sleeping? ==>
                  s.pc[t].op.Add? == s.pc[u].op.Add?)
  {
    var s := states[k];
    RunInv(states, maxsize, k);
    forall t <- s.pc ensures s.pc[t].Idle? || s.pc[t].Sleeping? {
      if s.pc[t].Holds() || s.pc[t].Notify? {
        OccupantMoves(s, t, maxsize);
      } else if s.owner.Some? {
        OccupantMoves(s, s.owner.value, maxsize);
      } else if s.pc[t].Lock? || s.pc[t].Woken? {
        assert Move(s, Goto(s, t, Check(s.pc[t].op)).(owner := Some(t)), t, maxsize);
      }
    }
    assert !SomeoneOwesWakeup(s);
    assert maxsize != 0 ==> Limit(maxsize) > 0;
  }

  // ---------- Coming to rest ----------

  /** The share of a thread in the steps that n threads may still take: a thread that has not acted yet will
      owe a wakeup of everybody. */
  function Left<T>(pc: Pc<T>, n: nat): nat {
    var wakeup := 3 * n + 1;
    match pc
    case Idle => 0
    case Notify(_) => wakeup
    case Unlock(_) => 2 * wakeup
    case Sleeping(_) => 2 * wakeup
    case Act(_) => 2 * wakeup + 1
    case Sleep(_) => 2 * wakeup + 1
    case Check(_) => 2 * wakeup + 2
    case _ => 2 * wakeup + 3
  }

  function Shares<T>(s: State<T>): map<nat, nat> {
    map t | t in s.pc :: Left(s.pc[t], |s.pc|)
  }

  ghost function StepsLeft<T>(s: State<T>): nat {
    Total(Shares(s))
  }

  lemma MovedShare<T>(s: State<T>, r: State<T>, t: Tid)
    requires t in s.pc && t in r.pc && r.pc == s.pc[t := r.pc[t]]
    ensures |r.pc| == |s.pc| && StepsLeft(r) == StepsLeft(s) - Left(s.pc[t], |s.pc|) + Left(r.pc[t], |s.pc|)
  {
    assert r.pc.Keys == s.pc.Keys;
    assert |r.pc| == |r.pc.Keys| && |s.pc| == |s.pc.Keys|;
    TotalUpdate(Shares(s), t, Left(r.pc[t], |s.pc|));
    assert Shares(r) == Shares(s)[t := Left(r.pc[t], |s.pc|)];
  }

  lemma NotifyUsesUp<T>(s: State<T>, r: State<T>, t: Tid)
    requires NotifyStep(s, r, t)
    ensures |r.pc| == |s.pc| && StepsLeft(r) < StepsLeft(s)
  {
    assert r.pc.Keys == s.pc.Keys;
    assert |r.pc| == |r.pc.Keys| && |s.pc| == |s.pc.Keys|;
    var done := s.(pc := s.pc[t := Idle]);
    MovedShare(s, done, t);
    assert Shares(done).Keys == s.pc.Keys && Shares(r).Keys == s.pc.Keys;
    TotalGrowth(Shares(done), Shares(r), 3);
    assert |Shares(done)| == |Shares(done).Keys|;
  }

  lemma MoveUsesUp<T>(s: State<T>, r: State<T>, t: Tid, maxsize: int)
    requires Inv(s, maxsize) && Move(s, r, t, maxsize)
    ensures |r.pc| == |s.pc| && StepsLeft(r) < StepsLeft(s)
  {
    hide Shares, StepsLeft;
    if NotifyStep(s, r, t) {
      NotifyUsesUp(s, r, t);
    } else {
      MovedShare(s, r, t);
    }
  }

  ghost predicate Moves<T>(s: State<T>, r: State<T>, maxsize: int) {
    exists t :: Move(s, r, t, maxsize)
  }

  lemma StepsBounded<T>(s: State<T>)
    ensures StepsLeft(s) <= (6 * |s.pc| + 5) * |s.pc|
  {
    var w := Shares(s);
    assert w.Keys == s.pc.Keys;
    assert |w| == |w.Keys| && |s.pc| == |s.pc.Keys|;
    TotalBounded(w, 6 * |s.pc| + 5);
  }

  /** However the threads are scheduled: with no new calls and no spurious wakeups, n threads take at most
      (6 * n + 5) * n steps before nobody can move; by QuietMeansServed, nobody then sleeps in vain. */
  lemma {:induction false} ComesToRest<T(!new)>(states: seq<State<T>>, maxsize: int)
    requires states != [] && Inv(states[0], maxsize)
    requires forall k :: 0 <= k < |states| - 1 ==> Moves(states[k], states[k + 1], maxsize)
    ensures |states| - 1 <= StepsLeft(states[0]) <= (6 * |states[0].pc| + 5) * |states[0].pc|
    decreases |states|
  {
    hide Inv, Move, StepsLeft;
    StepsBounded(states[0]);
    if |states| > 1 {
      var t :| Move(states[0], states[1], t, maxsize);
      MoveUsesUp(states[0], states[1], t, maxsize);
      assert Step(states[0], states[1], maxsize);
      StepInv(states[0], states[1], maxsize);
      ComesToRest(states[1..], maxsize);
    }
  }
}
