/** The condition of SimDeadlock.NeverStuck is sharp: with less room on the disks than in the CPU queue
    a stuck state is reachable. The run fills every disk, blocks the CPU and lets the disks drain into
    the CPU queue, which has room for all their jobs. */
module SimStuck {
  import opened PriorityQueue
  import opened SimModel
  import opened SimSums
  import opened SimSafety
  import opened SimLaws
  import opened SimLiveness
  import opened SimDeadlock
  import opened Wrappers

  ghost predicate HasCapacities(c: Conf, cpuCapacity: nat, capacities: seq<nat>) {
    && c.cpuCapacity == cpuCapacity && |c.disks| == |capacities|
    && forall i :: 0 <= i < |capacities| ==> c.disks[i].capacity == capacities[i]
  }

  ghost function Sum(xs: seq<nat>): nat {
    if xs == [] then 0 else xs[0] + Sum(xs[1..])
  }

  lemma {:induction false} SumIsCapacitySum(disks: seq<DiskConf>, capacities: seq<nat>)
    requires |disks| == |capacities|
    requires forall i :: 0 <= i < |disks| ==> disks[i].capacity == capacities[i]
    ensures CapacitySum(disks) == Sum(capacities)
  {
    if disks != [] {
      SumIsCapacitySum(disks[1..], capacities[1..]);
    }
  }

  // ---------- The configuration and the draws ----------

  /** Every disk burst of the run: long enough that no disk finishes while the disks are filled. */
  ghost function LongBurst(room: nat): nat {
    room + 2
  }

  ghost function LongGap(room: nat): nat {
    room * (LongBurst(room) + 1) + 1
  }

  lemma LongGapPositive(room: nat)
    ensures LongGap(room) >= 1
  {
  }

  ghost function SlowDisks(capacities: seq<nat>, burst: nat): (disks: seq<DiskConf>)
    ensures |disks| == |capacities|
    ensures forall i :: 0 <= i < |disks| ==> disks[i] == DiskConf(capacities[i], burst)
  {
    seq(|capacities|, i requires 0 <= i < |capacities| => DiskConf(capacities[i], burst))
  }

  ghost function SlowConf(cpuCapacity: nat, capacities: seq<nat>): Conf {
    var room := Sum(capacities);
    var b := LongBurst(room);
    Conf(1, LongGap(room), 0, 1, 1, b, cpuCapacity, SlowDisks(capacities, b))
  }

  /** What the construction uses of the configuration. */
  ghost predicate Slow(c: Conf) {
    var room := CapacitySum(c.disks);
    && WfConf(c)
    && c.arriveMin == 1 && c.arriveMax == LongGap(room) && c.quitProb == 0
    && c.cpuMin == c.cpuMax == 1 && c.disk1Max == LongBurst(room)
    && room < c.cpuCapacity
  }

  lemma SlowConfIsSlow(cpuCapacity: nat, capacities: seq<nat>)
    requires forall i :: 0 <= i < |capacities| ==> capacities[i] <= INT_MAX
    requires Sum(capacities) < cpuCapacity
    ensures var c := SlowConf(cpuCapacity, capacities);
            HasCapacities(c, cpuCapacity, capacities) && Slow(c)
  {
    hide Sum, CapacitySum, LongGap;
    LongGapPositive(Sum(capacities));
    SumIsCapacitySum(SlowConf(cpuCapacity, capacities).disks, capacities);
  }

  ghost function Draw(c: Conf, gap: nat): Choices {
    var n := |c.disks|;
    Choices(gap, 1, seq(n, _ => 1), seq(n, _ => c.disk1Max), 100, seq(n, _ => c.disk1Max))
  }

  lemma DrawIsValid(c: Conf, gap: nat)
    requires Slow(c) && 1 <= gap <= c.arriveMax
    ensures ValidChoices(c, Draw(c, gap))
  {
  }

  // ---------- Filling the disks ----------

  ghost predicate LongBursts(ds: seq<Device>, least: int) {
    forall i, k :: 0 <= i < |ds| && 0 <= k < |ds[i].queue| ==> ds[i].queue[k].val.burst >= least
  }

  ghost predicate Filling(c: Conf, s: State) {
    && Safe(c, s)
    && s.cpu.queue == [] && s.upcoming.None? && s.lastArrival == s.now
    && DiskSum(s.disks, Load) == s.now
    && LongBursts(s.disks, c.disk1Max - s.now)
  }

  lemma {:induction false} NothingFinished(c: Conf, s: State, ch: Choices, i: nat)
    requires Shaped(c, s, ch) && i <= |s.disks|
    requires forall j :: 0 <= j < |s.disks| ==> !Finished(s.disks[j])
    ensures VisitDisks(c, s, ch, i) == s
    decreases |s.disks| - i
  {
    if i < |s.disks| {
      NothingFinished(c, s, ch, i + 1);
    }
  }

  /** The state in which a new job has just used up its CPU burst. */
  ghost function AtFinish(s: State): State {
    var now := s.now + 1;
    State(now, Device([Item(JobVal(s.jobCount, now, 0, now), now)], true, s.cpu.telemetry),
          s.disks, None, s.jobCount + 1, now, s.terminated)
  }

  lemma FillSchedule(c: Conf, s: State)
    requires Slow(c) && Filling(c, s) && s.now <= CapacitySum(c.disks)
    ensures var ch := Draw(c, 1);
            CpuCompute(c, Schedule(c, s, ch), ch) == CpuFinish(c, AtFinish(s), ch)
  {
    hide CpuFinish;
    var ch := Draw(c, 1);
    var s0 := s.(now := s.now + 1);
    var job := JobVal(s.jobCount, s0.now, 1, s0.now);
    var s1 := s0.(cpu := s.cpu.(queue := [Item(job, s0.now)]), jobCount := s.jobCount + 1, lastArrival := s0.now);
    assert UserActivity(c, s0, ch) == s1;
    NothingFinished(c, s1, ch, 0);
    assert Schedule(c, s, ch) == s1.(cpu := s1.cpu.(serving := true));
    assert DecrementHead(s1.cpu.queue) == AtFinish(s).cpu.queue;
  }

  lemma DiskComputeBursts(s: State, least: int)
    requires LongBursts(s.disks, least)
    ensures LongBursts(RecordCommonStats(DiskCompute(s)).disks, least - 1)
  {
  }

  lemma PushBursts(ds: seq<Device>, i: nat, job: JobVal, now: nat, burst: nat, least: int)
    requires i < |ds| && LongBursts(ds, least) && burst >= least
    ensures LongBursts(ds[i := ArriveAtDisk(ds[i], job, now, burst)], least)
  {
    var e := Item(job.(arrival := now, burst := burst), now);
    var r := Push(ds[i].queue, e);
    var s := Slot(ds[i].queue, now);
    forall k | 0 <= k < |r| ensures r[k].val.burst >= least {
      assert r[k] == if k < s then ds[i].queue[k] else if k == s then e else ds[i].queue[k - 1];
    }
  }

  lemma FillDepart(c: Conf, s: State, ch: Choices)
    requires Slow(c) && Shaped(c, s, ch) && ch == Draw(c, 1) && |s.cpu.queue| == 1 && s.now >= 1
    requires forall i :: 0 <= i < |s.disks| ==> |s.disks[i].queue| <= c.disks[i].capacity
    requires DiskSum(s.disks, Load) < CapacitySum(c.disks) && LongBursts(s.disks, c.disk1Max - s.now + 1)
    ensures var r := CpuFinish(c, s, ch);
            && r.cpu.queue == [] && r.upcoming == s.upcoming && r.lastArrival == s.lastArrival && r.now == s.now
            && DiskSum(r.disks, Load) == DiskSum(s.disks, Load) + 1
            && LongBursts(r.disks, c.disk1Max - s.now + 1)
  {
    hide LongBursts, ArriveAtDisk;
    PickBestDiskIsShortest(c, s.disks);
    match PickBestDisk(c, s.disks)
    case None => AllDisksFull(c.disks, s.disks);
    case Some(i) =>
      var job := s.cpu.queue[0].val;
      MoveToDiskFlow(s, i, job, ch.diskBurst[i]);
      PushBursts(s.disks, i, job, s.now, ch.diskBurst[i], c.disk1Max - s.now + 1);
  }

  lemma FillRecord(c: Conf, s: State, before: nat)
    requires s.now == before + 1 && LongBursts(s.disks, c.disk1Max - before)
    ensures var r := RecordCommonStats(DiskCompute(s));
            && r.cpu.queue == s.cpu.queue && r.upcoming == s.upcoming && r.lastArrival == s.lastArrival
            && r.now == s.now && DiskSum(r.disks, Load) == DiskSum(s.disks, Load)
            && LongBursts(r.disks, c.disk1Max - s.now)
  {
    hide LongBursts;
    DiskComputeBursts(s, c.disk1Max - before);
    DiskComputeConserves(s, Load);
    DiskSumSame(DiskCompute(s).disks, RecordCommonStats(DiskCompute(s)).disks, Load);
  }

  lemma FillTick(c: Conf, s: State)
    requires Slow(c) && Filling(c, s) && s.now < CapacitySum(c.disks)
    ensures Filling(c, Tick(c, s, Draw(c, 1)))
  {
    var ch := Draw(c, 1);
    DrawIsValid(c, 1);
    TickSafe(c, s, ch);
    FillSchedule(c, s);
    FillDepart(c, AtFinish(s), ch);
    FillRecord(c, CpuFinish(c, AtFinish(s), ch), s.now);
  }

  // ---------- Blocking the CPU ----------

  /** Everybody in the system fits into the CPU queue and nobody arrives before the disks are empty. */
  ghost predicate Draining(c: Conf, s: State) {
    && Safe(c, s) && Blocked(s)
    && Total(s, Load) <= c.cpuCapacity
    && s.now + DiskSum(s.disks, Backlog)
         < (if s.upcoming.Some? then s.upcoming.value.arrival else s.lastArrival + c.arriveMax)
  }

  lemma Distribute(a: int, b: int, m: int)
    ensures (a + b) * m == a * m + b * m
  {
  }

  lemma {:induction false} QueueBacklogBound(q: Queue, most: nat)
    requires forall k :: 0 <= k < |q| ==> q[k].val.burst <= most
    ensures QueueSum(q, Backlog) <= |q| * (most + 1)
  {
    if q != [] {
      QueueBacklogBound(q[1..], most);
      Distribute(1, |q[1..]|, most + 1);
    }
  }

  lemma {:induction false} BacklogBound(ds: seq<Device>, most: nat)
    requires forall i, k :: 0 <= i < |ds| && 0 <= k < |ds[i].queue| ==> ds[i].queue[k].val.burst <= most
    ensures DiskSum(ds, Backlog) <= DiskSum(ds, Load) * (most + 1)
  {
    if ds != [] {
      QueueBacklogBound(ds[0].queue, most);
      QueueSumLoad(ds[0].queue);
      BacklogBound(ds[1..], most);
      Distribute(|ds[0].queue|, DiskSum(ds[1..], Load), most + 1);
    }
  }

  lemma {:induction false} LoadWithinCapacity(disks: seq<DiskConf>, ds: seq<Device>)
    requires |disks| == |ds|
    requires forall j :: 0 <= j < |ds| ==> |ds[j].queue| <= disks[j].capacity
    ensures DiskSum(ds, Load) <= CapacitySum(disks)
  {
    if ds != [] {
      QueueSumLoad(ds[0].queue);
      LoadWithinCapacity(disks[1..], ds[1..]);
    }
  }

  lemma {:induction false} NotAllFull(disks: seq<DiskConf>, ds: seq<Device>, i: nat)
    requires |disks| == |ds| && i < |ds|
    requires forall j :: 0 <= j < |ds| ==> |ds[j].queue| <= disks[j].capacity
    requires |ds[i].queue| < disks[i].capacity
    ensures DiskSum(ds, Load) < CapacitySum(disks)
  {
    QueueSumLoad(ds[0].queue);
    LoadWithinCapacity(disks[1..], ds[1..]);
    if i > 0 {
      NotAllFull(disks[1..], ds[1..], i - 1);
    }
  }

  lemma NoDiskForJob(c: Conf, s: State)
    requires Slow(c) && Filling(c, s) && s.now == CapacitySum(c.disks)
    ensures CpuFinish(c, AtFinish(s), Draw(c, 1)) == AtFinish(s)
  {
    PickBestDiskIsShortest(c, s.disks);
    match PickBestDisk(c, s.disks)
    case None =>
    case Some(i) => NotAllFull(c.disks, s.disks, i);
  }

  lemma BlockedBacklog(c: Conf, s: State)
    requires Slow(c) && Safe(c, s) && s.cpu.serving && Finished(s.cpu) && |s.cpu.queue| == 1
    requires s.upcoming.None? && s.lastArrival == s.now && DiskSum(s.disks, Load) == CapacitySum(c.disks)
    ensures Draining(c, s)
  {
    BacklogBound(s.disks, c.disk1Max);
    QueueSumLoad(s.cpu.queue);
  }

  /** With every disk full, one more job that needs a disk blocks the CPU. */
  lemma BlockTick(c: Conf, s: State)
    requires Slow(c) && Filling(c, s) && s.now == CapacitySum(c.disks)
    ensures Draining(c, Tick(c, s, Draw(c, 1)))
  {
    var ch := Draw(c, 1);
    DrawIsValid(c, 1);
    TickSafe(c, s, ch);
    FillSchedule(c, s);
    NoDiskForJob(c, s);
    var x := AtFinish(s);
    FillRecord(c, x, s.now);
    BlockedBacklog(c, RecordCommonStats(DiskCompute(x)));
  }

  // ---------- Draining the disks ----------

  lemma DrainVisit(c: Conf, s: State, ch: Choices, i: nat)
    requires WfConf(c) && ValidChoices(c, ch) && Safe(c, s) && i < |s.disks|
    requires Blocked(s) && Total(s, Load) <= c.cpuCapacity
    ensures var r := VisitDisk(c, s, ch, i);
            && Blocked(r) && r.upcoming == s.upcoming && r.lastArrival == s.lastArrival
            && (if Finished(s.disks[i]) then DiskSum(r.disks, Backlog) < DiskSum(s.disks, Backlog) else r == s)
  {
    if Finished(s.disks[i]) {
      QueueSumLoad(s.cpu.queue);
      QueueSumLoad(s.disks[i].queue);
      DiskSumUpdate(s.disks, i, IDLE, Load);
      DiskLoadNonNegative(s.disks[i := IDLE]);
      DiskSumUpdate(s.disks, i, RemoveHead(s.disks[i], s.now), Backlog);
      ReturnSafe(c, s, i, ch.returnBurst[i]);
    }
  }

  /** While nobody arrives, the disks hand their finished jobs to the CPU queue. */
  lemma {:induction false} DrainVisits(c: Conf, s: State, ch: Choices, i: nat)
    requires WfConf(c) && ValidChoices(c, ch) && Safe(c, s) && i <= |s.disks|
    requires Blocked(s) && Total(s, Load) <= c.cpuCapacity
    ensures var r := VisitDisks(c, s, ch, i);
            && Blocked(r) && DiskSum(r.disks, Backlog) <= DiskSum(s.disks, Backlog)
            && r.upcoming == s.upcoming && r.lastArrival == s.lastArrival
            && (DiskSum(r.disks, Backlog) == DiskSum(s.disks, Backlog) ==>
                  r == s && forall j :: i <= j < |s.disks| ==> !Finished(s.disks[j]))
    decreases |s.disks| - i
  {
    hide CpuSafe, DiskSafe, Blocked;
    if i < |s.disks| {
      DrainVisit(c, s, ch, i);
      VisitDiskSafe(c, s, ch, i);
      VisitDiskConserves(c, s, ch, i, Load);
      DrainVisits(c, VisitDisk(c, s, ch, i), ch, i + 1);
    }
  }

  lemma DiskComputeBacklog(s: State)
    ensures var r := RecordCommonStats(DiskCompute(s));
            && DiskSum(r.disks, Backlog) <= DiskSum(s.disks, Backlog)
            && ((exists i :: 0 <= i < |s.disks| && s.disks[i].queue != [] && !Finished(s.disks[i])) ==>
                  DiskSum(r.disks, Backlog) < DiskSum(s.disks, Backlog))
  {
    var r := RecordCommonStats(DiskCompute(s));
    forall i | 0 <= i < |s.disks|
      ensures Measure(r.disks[i], Backlog) <= Measure(s.disks[i], Backlog)
      ensures s.disks[i].queue != [] && !Finished(s.disks[i]) ==>
                Measure(r.disks[i], Backlog) < Measure(s.disks[i], Backlog)
    {
      var d := s.disks[i];
      if d.queue != [] && !Finished(d) {
        QueueSumSetHead(d.queue, d.queue[0].val.(burst := d.queue[0].val.burst - 1), Backlog);
      }
    }
    DiskSumLess(s.disks, r.disks, Backlog);
  }

  lemma DrainRecord(s: State)
    requires Blocked(s)
    ensures var r := RecordCommonStats(DiskCompute(s));
            && Blocked(r) && r.upcoming == s.upcoming && r.lastArrival == s.lastArrival
            && r.now == s.now && Total(r, Load) == Total(s, Load)
  {
    DiskComputeConserves(s, Load);
    DiskSumSame(DiskCompute(s).disks, RecordCommonStats(DiskCompute(s)).disks, Load);
  }

  lemma {:induction false} QueueBacklogNonNegative(q: Queue)
    ensures QueueSum(q, Backlog) >= |q|
  {
    if q != [] {
      QueueBacklogNonNegative(q[1..]);
    }
  }

  lemma {:induction false} BacklogNonNegative(ds: seq<Device>)
    ensures DiskSum(ds, Backlog) >= 0
  {
    if ds != [] {
      QueueBacklogNonNegative(ds[0].queue);
      BacklogNonNegative(ds[1..]);
    }
  }

  lemma {:induction false} BacklogPositive(ds: seq<Device>, i: nat)
    requires i < |ds| && ds[i].queue != []
    ensures DiskSum(ds, Backlog) >= 1
  {
    QueueBacklogNonNegative(ds[0].queue);
    BacklogNonNegative(ds[1..]);
    if i > 0 {
      BacklogPositive(ds[1..], i - 1);
    }
  }

  lemma NobodyArrives(c: Conf, s: State, ch: Choices)
    requires Draining(c, s) && DiskSum(s.disks, Backlog) >= 1 && ch.gap == c.arriveMax
    ensures var r := UserActivity(c, s.(now := s.now + 1), ch);
            && r.cpu == s.cpu && r.disks == s.disks && r.now == s.now + 1
            && r.upcoming.Some? && r.now + DiskSum(s.disks, Backlog) <= r.upcoming.value.arrival
  {
  }

  lemma DrainTick(c: Conf, s: State)
    requires Slow(c) && Draining(c, s) && !Stuck(s)
    ensures var r := Tick(c, s, Draw(c, c.arriveMax));
            Draining(c, r) && DiskSum(r.disks, Backlog) < DiskSum(s.disks, Backlog)
  {
    hide CpuSafe, DiskSafe, RecordCommonStats, DiskCompute, UserActivity, VisitDisks, Crowded;
    var ch := Draw(c, c.arriveMax);
    DrawIsValid(c, c.arriveMax);
    TickSafe(c, s, ch);
    var i: nat :| i < |s.disks| && s.disks[i].queue != [];
    BacklogPositive(s.disks, i);
    var s0 := s.(now := s.now + 1);
    var s1 := UserActivity(c, s0, ch);
    NobodyArrives(c, s, ch);
    ClockSafe(c, s);
    UserActivitySafe(c, s0, ch);
    DrainVisits(c, s1, ch, 0);
    VisitDisksKeepsTime(c, s1, ch, 0);
    VisitDisksConserves(c, s1, ch, 0, Load);
    var x := VisitDisks(c, s1, ch, 0);
    assert CpuCompute(c, CpuDetermineJob(c, s1, ch), ch) == x;
    DiskComputeBacklog(x);
    DrainRecord(x);
    if x == s1 {
      assert x.disks[i].queue != [] && !Finished(x.disks[i]);
    }
  }

  // ---------- The whole run ----------

  lemma {:induction false} Drain(c: Conf, s: State) returns (run: seq<Choices>)
    requires Slow(c) && Draining(c, s)
    ensures ValidRun(c, run) && Stuck(Run(c, s, run))
    decreases DiskSum(s.disks, Backlog)
  {
    hide Tick, CpuSafe, DiskSafe;
    if Stuck(s) {
      run := [];
    } else {
      var ch := Draw(c, c.arriveMax);
      DrawIsValid(c, c.arriveMax);
      DrainTick(c, s);
      BacklogNonNegative(Tick(c, s, ch).disks);
      BacklogNonNegative(s.disks);
      var rest := Drain(c, Tick(c, s, ch));
      RunFirst(c, s, ch, rest);
      run := [ch] + rest;
    }
  }

  lemma GapOneIsValid(c: Conf)
    requires Slow(c)
    ensures WfConf(c) && ValidChoices(c, Draw(c, 1))
  {
    DrawIsValid(c, 1);
  }

  lemma {:induction false} Fill(c: Conf, s: State) returns (run: seq<Choices>)
    requires Slow(c) && Filling(c, s) && s.now <= CapacitySum(c.disks)
    ensures ValidRun(c, run) && Stuck(Run(c, s, run))
    decreases CapacitySum(c.disks) - s.now
  {
    hide Tick, CpuSafe, DiskSafe, Slow;
    var ch := Draw(c, 1);
    GapOneIsValid(c);
    var rest;
    if s.now == CapacitySum(c.disks) {
      BlockTick(c, s);
      rest := Drain(c, Tick(c, s, ch));
    } else {
      FillTick(c, s);
      TickSafe(c, s, ch);
      rest := Fill(c, Tick(c, s, ch));
    }
    RunFirst(c, s, ch, rest);
    run := [ch] + rest;
  }

  lemma InitFilling(c: Conf)
    ensures Filling(c, Init(c))
  {
    hide CpuSafe, DiskSafe;
    InitSafe(c);
    IdleSum(Init(c).disks, Load);
  }

  /** Some configuration with these capacities can get stuck. */
  ghost predicate CanGetStuck(cpuCapacity: nat, capacities: seq<nat>) {
    exists c, s :: WfConf(c) && HasCapacities(c, cpuCapacity, capacities) && Reachable(c, s) && Stuck(s)
  }

  lemma StuckRun(c: Conf) returns (s: State)
    requires Slow(c)
    ensures Reachable(c, s) && Stuck(s)
  {
    hide Run, Stuck, Filling, Slow;
    InitFilling(c);
    var run := Fill(c, Init(c));
    s := Run(c, Init(c), run);
  }

  /** Deadlock freedom, exactly: whatever the other parameters and whatever is drawn, the simulation
      never gets stuck iff the disks together have room for as many jobs as the CPU queue. */
  lemma GetsStuckIff(cpuCapacity: nat, capacities: seq<nat>)
    requires forall i :: 0 <= i < |capacities| ==> capacities[i] <= INT_MAX
    ensures CanGetStuck(cpuCapacity, capacities) <==> Sum(capacities) < cpuCapacity
  {
    hide Reachable, Stuck, CpuSafe, DiskSafe, SlowConf;
    if CanGetStuck(cpuCapacity, capacities) {
      var c, s :| WfConf(c) && HasCapacities(c, cpuCapacity, capacities) && Reachable(c, s) && Stuck(s);
      ReachableSafe(c, s);
      SumIsCapacitySum(c.disks, capacities);
      if CapacitySum(c.disks) >= c.cpuCapacity {
        NeverStuck(c, s);
      }
    }
    if Sum(capacities) < cpuCapacity {
      var c := SlowConf(cpuCapacity, capacities);
      SlowConfIsSlow(cpuCapacity, capacities);
      var s := StuckRun(c);
    }
  }
}
