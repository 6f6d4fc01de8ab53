/** The operations of the producer/consumer queue as their callers see them: whatever the other threads do, each
    critical section acts on the queue at once, and the requests are those of the calls that got through. */
module MonitorCalls {

  import opened MonitorQueue
  import opened Wrappers

  // ---------- One critical section ----------

  /** Thread t takes the mutex in the step after state i and has it from then on, up to state k. */
  ghost predicate Inside<T>(states: seq<State<T>>, t: Tid, i: nat, k: nat) {
    && i < k < |states| && states[i].owner == None
    && forall j :: i < j <= k ==> states[j].owner == Some(t)
  }

  /** add may push: the queue is unlimited or shorter than its limit; consume may pop: it is not empty. */
  ghost predicate MayAct<T>(queue: seq<T>, maxsize: int, op: Op<T>) {
    match op
    case Add(_) => maxsize == 0 || |queue| < (if maxsize > 0 then maxsize else 0x1_0000_0000_0000_0000 + maxsize)
    case Consume => queue != []
  }

  ghost predicate SameRequests<T>(s: State<T>, r: State<T>) {
    r.queue == s.queue && r.produced == s.produced && r.consumed == s.consumed
  }

  /** The operation has been carried out on the queue of s. */
  ghost predicate CarriedOut<T>(s: State<T>, r: State<T>, op: Op<T>) {
    match op
    case Add(x) => r.queue == s.queue + [x] && r.produced == s.produced + [x] && r.consumed == s.consumed
    case Consume =>
      && s.queue != [] && r.queue == s.queue[1..]
      && r.consumed == s.consumed + [s.queue[0]] && r.produced == s.produced
  }

  ghost predicate Starts<T>(pc: Pc<T>, op: Op<T>) {
    pc == Lock(op) || pc == Woken(op)
  }

  /** What the section of t has done so far, s being the state in which it took the mutex. */
  ghost predicate Progress<T>(s: State<T>, r: State<T>, t: Tid, maxsize: int) {
    t in s.pc && t in r.pc &&
    match r.pc[t]
    case Check(op) => Starts(s.pc[t], op) && SameRequests(s, r)
    case Sleep(op) => Starts(s.pc[t], op) && SameRequests(s, r) && !MayAct(s.queue, maxsize, op)
    case Act(op) => Starts(s.pc[t], op) && SameRequests(s, r) && MayAct(s.queue, maxsize, op)
    case Unlock(op) => Starts(s.pc[t], op) && CarriedOut(s, r, op) && MayAct(s.queue, maxsize, op)
    case _ => false
  }

  /** One step of thread t. */
  ghost predicate StepOf<T(!new)>(s: State<T>, r: State<T>, t: Tid, maxsize: int) {
    CallStep(s, r, t) || SpuriousWakeup(s, r, t) || Move(s, r, t, maxsize)
  }

  lemma ReadyIsMayAct<T>(queue: seq<T>, maxsize: int, op: Op<T>)
    requires IsInt(maxsize)
    ensures Ready(queue, maxsize, op) <==> MayAct(queue, maxsize, op)
  {
  }

  lemma LockStarts<T(!new)>(s: State<T>, r: State<T>, t: Tid, u: Tid, maxsize: int)
    requires Inv(s, maxsize) && StepOf(s, r, u, maxsize) && s.owner == None && r.owner == Some(t)
    ensures Progress(s, r, t, maxsize)
  {
    assert !s.pc[u].Holds();
  }

  /** While t holds the mutex, another thread touches neither the queue nor t. */
  lemma OthersKeep<T(!new)>(m: State<T>, r: State<T>, t: Tid, u: Tid, maxsize: int)
    requires Inv(m, maxsize) && m.owner == Some(t) && StepOf(m, r, u, maxsize) && u != t
    ensures t in r.pc && r.pc[t] == m.pc[t] && SameRequests(m, r) && r.owner == Some(t)
  {
    assert !m.pc[u].Holds() && m.pc[t].Holds();
  }

  /** What the holder itself may do. */
  ghost predicate Holding<T>(m: State<T>, r: State<T>, t: Tid, maxsize: int) {
    CheckStep(m, r, t, maxsize) || SleepStep(m, r, t) || (ActStep(m, r, t) && (m.pc[t].op.Consume? ==> m.queue != []))
    || UnlockStep(m, r, t)
  }

  lemma HolderActs<T(!new)>(m: State<T>, r: State<T>, t: Tid, maxsize: int)
    requires Inv(m, maxsize) && m.owner == Some(t) && StepOf(m, r, t, maxsize)
    ensures Holding(m, r, t, maxsize)
  {
    assert m.pc[t].Holds();
  }

  lemma HolderStep<T>(s: State<T>, m: State<T>, r: State<T>, t: Tid, maxsize: int)
    requires IsInt(maxsize) && Progress(s, m, t, maxsize) && Holding(m, r, t, maxsize) && r.owner == m.owner == Some(t)
    ensures Progress(s, r, t, maxsize)
  {
    hide Ready, MayAct;
    if m.pc[t].Check? {
      ReadyIsMayAct(m.queue, maxsize, m.pc[t].op);
    }
  }

  lemma CarriedOver<T>(s: State<T>, m: State<T>, r: State<T>, op: Op<T>)
    requires SameRequests(m, r)
    ensures CarriedOut(s, m, op) ==> CarriedOut(s, r, op)
  {
  }

  lemma SectionStep<T(!new)>(s: State<T>, m: State<T>, r: State<T>, t: Tid, maxsize: int)
    requires IsInt(maxsize) && Inv(m, maxsize) && Progress(s, m, t, maxsize) && Step(m, r, maxsize)
    requires m.owner == r.owner == Some(t)
    ensures Progress(s, r, t, maxsize)
  {
    hide Inv, Holding, CallStep, SpuriousWakeup, Move, MayAct, CarriedOut;
    var u :| CallStep(m, r, u) || SpuriousWakeup(m, r, u) || Move(m, r, u, maxsize);
    if u == t {
      HolderActs(m, r, t, maxsize);
      HolderStep(s, m, r, t, maxsize);
    } else {
      OthersKeep(m, r, t, u, maxsize);
      if m.pc[t].Unlock? {
        CarriedOver(s, m, r, m.pc[t].op);
      }
    }
  }

  lemma {:induction false} SectionProgress<T(!new)>(states: seq<State<T>>, maxsize: int, t: Tid, i: nat, k: nat, j: nat)
    requires Run(states, maxsize) && Inside(states, t, i, k) && i < j <= k
    ensures Progress(states[i], states[j], t, maxsize)
    decreases j
  {
    hide Inv, Progress, CallStep, SpuriousWakeup, Move;
    RunInv(states, maxsize, j - 1);
    if j == i + 1 {
      assert Step(states[i], states[j], maxsize);
      var u :| CallStep(states[i], states[j], u) || SpuriousWakeup(states[i], states[j], u)
               || Move(states[i], states[j], u, maxsize);
      LockStarts(states[i], states[j], t, u, maxsize);
    } else {
      SectionProgress(states, maxsize, t, i, k, j - 1);
      assert Step(states[j - 1], states[j], maxsize);
      SectionStep(states[i], states[j - 1], states[j], t, maxsize);
    }
  }

  /** The step in which t gives up the mutex. */
  lemma SectionEnds<T(!new)>(m: State<T>, r: State<T>, t: Tid, maxsize: int)
    requires Inv(m, maxsize) && Step(m, r, maxsize) && m.owner == Some(t) && r.owner == None
    ensures SameRequests(m, r) && t in r.pc && t in m.pc
    ensures (m.pc[t].Sleep? && r.pc[t] == Sleeping(m.pc[t].op)) || (m.pc[t].Unlock? && r.pc[t] == Notify(m.pc[t].op))
  {
    hide Inv, CallStep, SpuriousWakeup, Move;
    var u :| CallStep(m, r, u) || SpuriousWakeup(m, r, u) || Move(m, r, u, maxsize);
    if u == t {
      HolderActs(m, r, t, maxsize);
    } else {
      OthersKeep(m, r, t, u, maxsize);
      assert false;
    }
  }

  /** In every run a critical section of add or consume, entered or woken, carries out its operation on the queue that
      it found and goes on to wake the others, if that queue allowed it; otherwise it changes nothing and
      goes back to sleep. */
  lemma SectionExactly<T(!new)>(states: seq<State<T>>, maxsize: int, t: Tid, i: nat, k: nat)
    requires Run(states, maxsize) && Inside(states, t, i, k) && k + 1 < |states| && states[k + 1].owner == None
    ensures t in states[i].pc && t in states[k + 1].pc && (states[i].pc[t].Lock? || states[i].pc[t].Woken?)
    ensures var s, r := states[i], states[k + 1];
            var op := s.pc[t].op;
            if MayAct(s.queue, maxsize, op) then CarriedOut(s, r, op) && r.pc[t] == Notify(op)
            else SameRequests(s, r) && r.pc[t] == Sleeping(op)
  {
    hide Inv, MayAct, CarriedOut, CallStep, SpuriousWakeup, Move;
    SectionProgress(states, maxsize, t, i, k, k);
    RunInv(states, maxsize, k);
    assert Step(states[k], states[k + 1], maxsize);
    SectionEnds(states[k], states[k + 1], t, maxsize);
    CarriedOver(states[i], states[k], states[k + 1], states[i].pc[t].op);
  }

  // ---------- The requests and the calls that got through ----------

  ghost predicate OwnerAt<T>(s: State<T>, pc: Pc<T>) {
    s.owner.Some? && s.owner.value in s.pc && s.pc[s.owner.value] == pc
  }

  /** The request that the owner of the mutex has just pushed. */
  ghost function Pushing<T>(s: State<T>): seq<T> {
    if s.owner.Some? && s.owner.value in s.pc && s.pc[s.owner.value].Unlock? && s.pc[s.owner.value].op.Add?
    then [s.pc[s.owner.value].op.request]
    else []
  }

  /** The owner of the mutex has just popped a request. */
  ghost function Popping<T>(s: State<T>): nat {
    if OwnerAt(s, Unlock(Consume)) then 1 else 0
  }

  /** The requests of the calls of add that have given up the mutex after pushing, in that order. */
  ghost function Pushed<T>(states: seq<State<T>>, k: nat): seq<T>
    requires k < |states|
  {
    if k == 0 then []
    else Pushed(states, k - 1) + (if states[k].owner == None then Pushing(states[k - 1]) else [])
  }

  /** How many calls of consume have given up the mutex after popping. */
  ghost function Popped<T>(states: seq<State<T>>, k: nat): nat
    requires k < |states|
  {
    if k == 0 then 0 else Popped(states, k - 1) + (if states[k].owner == None then Popping(states[k - 1]) else 0)
  }

  ghost predicate RequestsMatch<T>(s: State<T>, pushed: seq<T>, popped: nat) {
    s.produced == pushed + Pushing(s) && |s.consumed| == popped + Popping(s)
  }

  /** The requests after the step from s to r. */
  ghost predicate RequestsAfter<T>(s: State<T>, r: State<T>, pushed: seq<T>, popped: nat) {
    RequestsMatch(r, pushed + (if r.owner == None then Pushing(s) else []),
                  popped + (if r.owner == None then Popping(s) else 0))
  }

  lemma HolderCounts<T>(s: State<T>, r: State<T>, t: Tid, maxsize: int, pushed: seq<T>, popped: nat)
    requires s.owner == Some(t) && Holding(s, r, t, maxsize) && RequestsMatch(s, pushed, popped)
    ensures RequestsAfter(s, r, pushed, popped)
  {
    hide Ready;
    assert pushed + [] == pushed;
  }

  lemma OthersCount<T>(s: State<T>, r: State<T>, t: Tid, pushed: seq<T>, popped: nat)
    requires s.owner == r.owner == Some(t) && t in s.pc && t in r.pc && s.pc[t] == r.pc[t] && SameRequests(s, r)
    requires RequestsMatch(s, pushed, popped)
    ensures RequestsAfter(s, r, pushed, popped)
  {
    assert pushed + [] == pushed;
  }

  lemma NobodyCounts<T(!new)>(s: State<T>, r: State<T>, t: Tid, maxsize: int, pushed: seq<T>, popped: nat)
    requires Inv(s, maxsize) && s.owner == None && StepOf(s, r, t, maxsize) && RequestsMatch(s, pushed, popped)
    ensures RequestsAfter(s, r, pushed, popped)
  {
    hide Ready;
    assert !s.pc[t].Holds();
    assert pushed + [] == pushed;
  }

  lemma RequestsStep<T(!new)>(s: State<T>, r: State<T>, maxsize: int, pushed: seq<T>, popped: nat)
    requires Inv(s, maxsize) && Step(s, r, maxsize) && RequestsMatch(s, pushed, popped)
    ensures RequestsAfter(s, r, pushed, popped)
  {
    hide MutualExclusion, Checked, NoLostWakeup, CallStep, SpuriousWakeup, Move, Holding, RequestsMatch, RequestsAfter;
    var t :| CallStep(s, r, t) || SpuriousWakeup(s, r, t) || Move(s, r, t, maxsize);
    match s.owner
    case None => NobodyCounts(s, r, t, maxsize, pushed, popped);
    case Some(u) =>
      if u == t {
        HolderActs(s, r, t, maxsize);
        HolderCounts(s, r, t, maxsize, pushed, popped);
      } else {
        OthersKeep(s, r, u, t, maxsize);
        OthersCount(s, r, u, pushed, popped);
      }
  }

  lemma RequestsStart<T>(s: State<T>)
    requires Init(s)
    ensures RequestsMatch(s, [], 0)
  {
  }

  /** In every run the requests that have gone in are those of the calls of add that got through, in that order, and
      as many have come out as calls of consume got through, the call in its section being counted too. */
  lemma {:induction false} RequestsFollowCalls<T(!new)>(states: seq<State<T>>, maxsize: int, k: nat)
    requires Run(states, maxsize) && k < |states|
    ensures RequestsMatch(states[k], Pushed(states, k), Popped(states, k))
  {
    hide Inv, Step, RequestsMatch, Pushing, Popping;
    if k == 0 {
      RequestsStart(states[0]);
    } else {
      RequestsFollowCalls(states, maxsize, k - 1);
      RunInv(states, maxsize, k - 1);
      RequestsStep(states[k - 1], states[k], maxsize, Pushed(states, k - 1), Popped(states, k - 1));
    }
  }

  /** Whenever the mutex is free: the requests that went in, in the order in which their calls got through, are those
      that came out followed by those in the queue, one having come out for each consume that got through. */
  lemma QueueFollowsCalls<T(!new)>(states: seq<State<T>>, maxsize: int, k: nat)
    requires Run(states, maxsize) && k < |states| && states[k].owner == None
    ensures Pushed(states, k) == states[k].consumed + states[k].queue
    ensures |states[k].consumed| == Popped(states, k)
  {
    hide Pushed, Popped, Step;
    RequestsFollowCalls(states, maxsize, k);
    RunInv(states, maxsize, k);
    assert Pushed(states, k) + [] == Pushed(states, k);
  }

  /** notify_all wakes every sleeper and nobody else, and ends the call. */
  lemma NotifyWakesAll<T(!new)>(s: State<T>, r: State<T>, t: Tid, maxsize: int)
    requires Inv(s, maxsize) && t in s.pc && s.pc[t].Notify?
    requires StepOf(s, r, t, maxsize)
    ensures r.pc.Keys == s.pc.Keys && r.pc[t] == Idle && SameRequests(s, r) && r.owner == s.owner
    ensures forall u <- s.pc :: u != t ==> r.pc[u] == (if s.pc[u].Sleeping? then Woken(s.pc[u].op) else s.pc[u])
  {
  }
}
