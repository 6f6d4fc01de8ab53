/** The operations of the semaphore as their callers see them: whatever the other threads do, each critical section
    acts on the count at once, and the count is what the calls that have returned make of it. */
module SemaphoreCalls {

  import opened Semaphore
  import opened Wrappers

  // ---------- One critical section ----------

  /** Thread t takes the mutex in the step after state i and has it from then on, up to state k. */
  ghost predicate Inside(states: seq<State>, t: Tid, i: nat, k: nat) {
    && i < k < |states| && states[i].owner == None
    && forall j :: i < j <= k ==> states[j].owner == Some(t)
  }

  ghost predicate SameCount(s: State, r: State) {
    r.count == s.count && r.notified == s.notified && r.waited == s.waited && r.tried == s.tried
  }

  /** What the section of t has done so far, s being the state in which it took the mutex. */
  ghost predicate Progress(s: State, r: State, t: Tid) {
    t in s.pc && t in r.pc &&
    var p, free := s.pc[t], s.count != 0;
    match r.pc[t]
    case NotifyIncrement => p.NotifyLock? && SameCount(s, r)
    case NotifyOne => p.NotifyLock? && r.count == s.count + 1
    case NotifyUnlock => p.NotifyLock? && r.count == s.count + 1
    case WaitCheck => (p.WaitLock? || p.Woken?) && SameCount(s, r)
    case WaitSleep => (p.WaitLock? || p.Woken?) && !free && SameCount(s, r)
    case WaitDecrement => (p.WaitLock? || p.Woken?) && free && SameCount(s, r)
    case WaitUnlock => (p.WaitLock? || p.Woken?) && free && r.count == s.count - 1
    case TryCheck => p.TryLock? && SameCount(s, r)
    case TryDecrement => p.TryLock? && free && SameCount(s, r)
    case TryUnlock(b) => p.TryLock? && b == free && r.count == (if b then s.count - 1 else s.count)
    case _ => false
  }

  lemma LockStarts(s: State, r: State, t: Tid, count: nat)
    requires Inv(s, count) && Step(s, r) && s.owner == None && r.owner == Some(t)
    ensures Progress(s, r, t)
  {
    var u :| Next(s, r, u);
    assert !Critical(s, r, u);
  }

  /** While t holds the mutex, another thread touches neither the count nor t. */
  lemma OthersKeep(m: State, r: State, t: Tid, u: Tid, count: nat)
    requires Inv(m, count) && m.owner == Some(t) && Next(m, r, u) && u != t
    ensures t in r.pc && r.pc[t] == m.pc[t] && SameCount(m, r) && r.owner == Some(t)
  {
    assert !m.pc[u].Holds();
    assert !Critical(m, r, u);
  }

  lemma HolderActs(m: State, r: State, t: Tid, count: nat)
    requires Inv(m, count) && m.owner == Some(t) && Next(m, r, t)
    ensures Critical(m, r, t)
  {
    assert m.pc[t].Holds();
  }

  lemma HolderStep(s: State, m: State, r: State, t: Tid)
    requires Progress(s, m, t) && Critical(m, r, t) && r.owner == m.owner == Some(t)
    ensures Progress(s, r, t)
  {
  }

  lemma SectionStep(s: State, m: State, r: State, t: Tid, count: nat)
    requires Inv(m, count) && Progress(s, m, t) && Step(m, r) && m.owner == r.owner == Some(t)
    ensures Progress(s, r, t)
  {
    hide Inv, Next, Critical;
    var u :| Next(m, r, u);
    if u == t {
      HolderActs(m, r, t, count);
      HolderStep(s, m, r, t);
    } else {
      OthersKeep(m, r, t, u, count);
    }
  }

  lemma HolderEnds(m: State, r: State, t: Tid)
    requires Critical(m, r, t) && m.owner == Some(t) && r.owner == None
    ensures SameCount(m, r) && t in r.pc
    ensures match m.pc[t]
            case WaitSleep => r.pc[t] == Sleeping
            case NotifyUnlock => r.pc[t] == Idle
            case WaitUnlock => r.pc[t] == Idle
            case TryUnlock(_) => r.pc[t] == Idle
            case _ => false
  {
  }

  /** The step in which t gives up the mutex. */
  lemma SectionEnds(s: State, m: State, r: State, t: Tid, count: nat)
    requires Inv(m, count) && Progress(s, m, t) && Step(m, r) && m.owner == Some(t) && r.owner == None
    ensures SameCount(m, r) && t in r.pc
    ensures match m.pc[t]
            case WaitSleep => r.pc[t] == Sleeping
            case NotifyUnlock => r.pc[t] == Idle
            case WaitUnlock => r.pc[t] == Idle
            case TryUnlock(_) => r.pc[t] == Idle
            case _ => false
  {
    hide Inv, Next, Critical;
    var u :| Next(m, r, u);
    if u == t {
      HolderActs(m, r, t, count);
      HolderEnds(m, r, t);
    } else {
      OthersKeep(m, r, t, u, count);
      assert false;
    }
  }

  lemma {:induction false} SectionProgress(states: seq<State>, count: nat, t: Tid, i: nat, k: nat, j: nat)
    requires Run(states, count) && Inside(states, t, i, k) && i < j <= k
    ensures Progress(states[i], states[j], t)
    decreases j
  {
    hide Inv, Progress, Step;
    RunInv(states, count, j - 1);
    if j == i + 1 {
      LockStarts(states[i], states[j], t, count);
    } else {
      SectionProgress(states, count, t, i, k, j - 1);
      SectionStep(states[i], states[j - 1], states[j], t, count);
    }
  }

  lemma OwnerKeeps(m: State, r: State, t: Tid, count: nat)
    requires Inv(m, count) && Step(m, r) && r.owner == Some(t)
    ensures m.owner == None || m.owner == Some(t)
  {
    hide Inv, Next;
    var u :| Next(m, r, u);
    match m.owner
    case None =>
    case Some(v) =>
      if u == v {
        HolderActs(m, r, v, count);
      } else {
        OthersKeep(m, r, v, u, count);
      }
  }

  /** Whoever has the mutex took it in some step of the run. */
  lemma {:induction false} Entered(states: seq<State>, count: nat, t: Tid, k: nat) returns (i: nat)
    requires Run(states, count) && k < |states| && states[k].owner == Some(t)
    ensures Inside(states, t, i, k)
    decreases k
  {
    hide Inv, Step;
    RunInv(states, count, k - 1);
    OwnerKeeps(states[k - 1], states[k], t, count);
    if states[k - 1].owner == None {
      i := k - 1;
    } else {
      i := Entered(states, count, t, k - 1);
    }
  }

  /** In every run a critical section is one of these and nothing else: notify adds one; wait, entered or woken,
      takes one and returns if the count was positive when it took the mutex, and goes back to sleep otherwise;
      try_wait answers whether the count was positive, taking one exactly if it was. */
  lemma SectionExactly(states: seq<State>, count: nat, t: Tid, i: nat, k: nat)
    requires Run(states, count) && Inside(states, t, i, k) && k + 1 < |states| && states[k + 1].owner == None
    ensures t in states[i].pc && t in states[k].pc && t in states[k + 1].pc
    ensures var s, m, r := states[i], states[k], states[k + 1];
            match s.pc[t]
            case NotifyLock => r.pc[t] == Idle && r.count == s.count + 1
            case TryLock =>
              && m.pc[t] == TryUnlock(s.count > 0) && r.pc[t] == Idle
              && r.count == (if s.count > 0 then s.count - 1 else s.count)
            case WaitLock =>
              if s.count > 0 then r.pc[t] == Idle && r.count == s.count - 1
              else r.pc[t] == Sleeping && r.count == s.count
            case Woken =>
              if s.count > 0 then r.pc[t] == Idle && r.count == s.count - 1
              else r.pc[t] == Sleeping && r.count == s.count
            case _ => false
  {
    hide Step;
    SectionProgress(states, count, t, i, k, k);
    RunInv(states, count, k);
    RunInv(states, count, i);
    SectionEnds(states[i], states[k], states[k + 1], t, count);
  }

  /** A try_wait about to return b took the mutex in a state whose count was positive exactly if b; the count is
      one lower by now if so, and as it was otherwise. */
  lemma TryAnswersRightly(states: seq<State>, count: nat, t: Tid, k: nat) returns (i: nat)
    requires Run(states, count) && k < |states| && t in states[k].pc && states[k].pc[t].TryUnlock?
    ensures Inside(states, t, i, k) && t in states[i].pc && states[i].pc[t] == TryLock
    ensures states[k].pc[t].result <==> states[i].count > 0
    ensures states[k].count == states[i].count - (if states[k].pc[t].result then 1 else 0)
  {
    hide Step;
    RunInv(states, count, k);
    assert states[k].pc[t].Holds();
    i := Entered(states, count, t, k);
    SectionProgress(states, count, t, i, k, k);
    RunInv(states, count, i);
  }

  // ---------- The count and the calls that returned ----------

  /** In the step from s to r the mutex is given up by a thread at statement p. */
  ghost predicate Leaves(s: State, r: State, p: Pc) {
    s.owner.Some? && r.owner == None && s.owner.value in s.pc && s.pc[s.owner.value] == p
  }

  /** How many such steps the run has taken up to state k. */
  ghost function Left(states: seq<State>, k: nat, p: Pc): nat
    requires k < |states|
  {
    if k == 0 then 0 else Left(states, k - 1, p) + (if Leaves(states[k - 1], states[k], p) then 1 else 0)
  }

  /** The statement at which the owner of the mutex is. */
  ghost predicate OwnerAt(s: State, p: Pc) {
    s.owner.Some? && s.owner.value in s.pc && s.pc[s.owner.value] == p
  }

  ghost predicate CountersMatch(s: State, notifies: nat, waits: nat, tries: nat) {
    && s.notified == notifies + (if OwnerAt(s, NotifyOne) || OwnerAt(s, NotifyUnlock) then 1 else 0)
    && s.waited == waits + (if OwnerAt(s, WaitUnlock) then 1 else 0)
    && s.tried == tries + (if OwnerAt(s, TryUnlock(true)) then 1 else 0)
  }

  ghost function One(b: bool): nat {
    if b then 1 else 0
  }

  ghost predicate CountersAfter(s: State, r: State, notifies: nat, waits: nat, tries: nat) {
    CountersMatch(r, notifies + One(Leaves(s, r, NotifyUnlock)), waits + One(Leaves(s, r, WaitUnlock)),
                  tries + One(Leaves(s, r, TryUnlock(true))))
  }

  lemma HolderCounts(s: State, r: State, t: Tid, notifies: nat, waits: nat, tries: nat)
    requires s.owner == Some(t) && Critical(s, r, t) && CountersMatch(s, notifies, waits, tries)
    ensures CountersAfter(s, r, notifies, waits, tries)
  {
  }

  lemma OthersCount(s: State, r: State, t: Tid, notifies: nat, waits: nat, tries: nat)
    requires s.owner == r.owner == Some(t) && t in s.pc && t in r.pc && s.pc[t] == r.pc[t] && SameCount(s, r)
    requires CountersMatch(s, notifies, waits, tries)
    ensures CountersAfter(s, r, notifies, waits, tries)
  {
  }

  lemma NobodyCounts(s: State, r: State, t: Tid, count: nat, notifies: nat, waits: nat, tries: nat)
    requires Inv(s, count) && s.owner == None && Next(s, r, t) && CountersMatch(s, notifies, waits, tries)
    ensures CountersAfter(s, r, notifies, waits, tries)
  {
    assert !Critical(s, r, t);
  }

  lemma CountersStep(s: State, r: State, count: nat, notifies: nat, waits: nat, tries: nat)
    requires Inv(s, count) && Step(s, r) && CountersMatch(s, notifies, waits, tries)
    ensures CountersAfter(s, r, notifies, waits, tries)
  {
    hide Next, Critical, CountersMatch, CountersAfter, MutualExclusion, NoLostWakeup;
    var t :| Next(s, r, t);
    match s.owner
    case None => NobodyCounts(s, r, t, count, notifies, waits, tries);
    case Some(u) =>
      if u == t {
        HolderActs(s, r, t, count);
        HolderCounts(s, r, t, notifies, waits, tries);
      } else {
        OthersKeep(s, r, u, t, count);
        OthersCount(s, r, u, notifies, waits, tries);
      }
  }

  lemma CountersStart(s: State, count: nat)
    requires Init(s, count)
    ensures CountersMatch(s, 0, 0, 0)
  {
  }

  lemma {:induction false} CountersCount(states: seq<State>, count: nat, k: nat)
    requires Run(states, count) && k < |states|
    ensures CountersMatch(states[k], Left(states, k, NotifyUnlock), Left(states, k, WaitUnlock),
                          Left(states, k, TryUnlock(true)))
  {
    hide Inv, Step, CountersMatch, Leaves;
    if k == 0 {
      assert CountersMatch(states[0], 0, 0, 0) by { CountersStart(states[0], count); }
    } else {
      CountersCount(states, count, k - 1);
      RunInv(states, count, k - 1);
      CountersStep(states[k - 1], states[k], count, Left(states, k - 1, NotifyUnlock),
                   Left(states, k - 1, WaitUnlock), Left(states, k - 1, TryUnlock(true)));
    }
  }

  /** Whenever the mutex is free, the count is the initial one, plus the notifies that have returned, minus the
      waits that have returned, minus the try_waits that have returned true. */
  lemma CountFollowsReturns(states: seq<State>, count: nat, k: nat)
    requires Run(states, count) && k < |states| && states[k].owner == None
    ensures states[k].count == count + Left(states, k, NotifyUnlock) - Left(states, k, WaitUnlock)
                               - Left(states, k, TryUnlock(true))
    ensures var s := states[k];
            && s.notified == Left(states, k, NotifyUnlock) && s.waited == Left(states, k, WaitUnlock)
            && s.tried == Left(states, k, TryUnlock(true))
  {
    hide Left, Step;
    CountersCount(states, count, k);
    RunInv(states, count, k);
  }

  /** notify_one wakes exactly one sleeper if there is one, and nobody otherwise. */
  lemma WakesExactlyOne(states: seq<State>, count: nat, k: nat, t: Tid)
    requires Run(states, count) && k < |states| - 1
    requires OwnerAt(states[k], NotifyOne) && OwnerAt(states[k + 1], NotifyUnlock)
    requires states[k].owner == Some(t)
    ensures var s, r := states[k], states[k + 1];
            if forall u <- s.pc :: !s.pc[u].Sleeping? then r.pc == s.pc[t := NotifyUnlock]
            else exists u :: u in s.pc && s.pc[u] == Sleeping && r.pc == s.pc[u := Woken][t := NotifyUnlock]
  {
    var s, r := states[k], states[k + 1];
    RunInv(states, count, k);
    var u :| Next(s, r, u);
    if u == t {
      HolderActs(s, r, t, count);
    } else {
      OthersKeep(s, r, t, u, count);
      assert false;
    }
  }

  /** A run may call any operation and wake any sleeper at any time. */
  lemma CallsAndWakeupsAreFree(s: State, t: Tid)
    requires t in s.pc
    ensures s.pc[t].Idle? ==> forall p <- [NotifyLock, WaitLock, TryLock] :: Step(s, s.(pc := s.pc[t := p]))
    ensures s.pc[t].Sleeping? ==> Step(s, s.(pc := s.pc[t := Woken]))
  {
    if s.pc[t].Idle? {
      forall p <- [NotifyLock, WaitLock, TryLock] ensures Step(s, s.(pc := s.pc[t := p])) {
        assert Next(s, s.(pc := s.pc[t := p]), t);
      }
    } else if s.pc[t].Sleeping? {
      assert Next(s, s.(pc := s.pc[t := Woken]), t);
    }
  }

  /** Both answers of try_wait occur: a single thread gets the one that the initial count gives. */
  lemma TryWaitRuns(count: nat) returns (states: seq<State>)
    ensures Run(states, count)
    ensures var r := states[|states| - 1];
            && r.pc == map[0 := TryUnlock(count > 0)] && r.owner == Some(0)
            && r.count == (if count > 0 then count - 1 else 0)
  {
    var s0 := State(count, None, map[0 := Idle], 0, 0, 0);
    var s1 := s0.(pc := map[0 := TryLock]);
    var s2 := s0.(pc := map[0 := TryCheck], owner := Some(0));
    assert Next(s0, s1, 0) && Next(s1, s2, 0);
    if count > 0 {
      var s3 := s2.(pc := map[0 := TryDecrement]);
      var s4 := s2.(pc := map[0 := TryUnlock(true)], count := count - 1, tried := 1);
      assert Check(s2, s3, 0) && Count(s3, s4, 0);
      assert Next(s2, s3, 0) && Next(s3, s4, 0);
      states := [s0, s1, s2, s3, s4];
    } else {
      var s3 := s2.(pc := map[0 := TryUnlock(false)]);
      assert Check(s2, s3, 0);
      assert Next(s2, s3, 0);
      states := [s0, s1, s2, s3];
    }
  }
}
