/** The queueing laws the recorded statistics obey exactly, over every run. `clock` is the current tick
    while the tick is being worked on and the next tick once its statistics are recorded. */
module SimLaws {
  import opened PriorityQueue
  import opened SimModel
  import opened SimSums
  import opened SimSafety
  import opened Wrappers

  // ---------- Laws of one disk ----------

  /** The discrete form of Little's law. */
  ghost predicate Little(d: Device, clock: int) {
    d.telemetry.queueSum == d.telemetry.responseTimeSum + QueueSum(d.queue, Age(clock))
  }

  /** Every completed service took at least `diskMin` busy ticks; the service in progress is credited
      with the part of `diskMin` it has certainly had. */
  ghost predicate Utilisation(diskMin: nat, d: Device) {
    var t := d.telemetry;
    && t.busyTime >= diskMin * t.responseCount
    && (d.serving && d.queue != [] ==>
          t.busyTime + d.queue[0].val.burst >= diskMin * t.responseCount + diskMin)
  }

  ghost predicate DeviceBounds(capacity: nat, d: Device, clock: int) {
    var t := d.telemetry;
    && t.totalTime == clock - 1
    && 0 <= t.busyTime <= t.totalTime
    && 0 <= t.responseCount
    && 0 <= t.maxQueueSize <= capacity
    && t.queueSum <= t.maxQueueSize * t.totalTime
    && 0 <= t.maxResponseTime
    && t.responseTimeSum <= t.maxResponseTime * t.responseCount
  }

  ghost predicate DiskLaws(k: DiskConf, d: Device, clock: int) {
    Little(d, clock) && Utilisation(k.diskMin, d) && DeviceBounds(k.capacity, d, clock)
  }

  ghost predicate LocalLaws(c: Conf, s: State, clock: int) {
    && |s.disks| == |c.disks|
    && DeviceBounds(c.cpuCapacity, s.cpu, clock)
    && (forall i :: 0 <= i < |s.disks| ==> DiskLaws(c.disks[i], s.disks[i], clock))
  }

  lemma MulMonotone(a: int, b: int, n: int)
    requires a <= b && 0 <= n
    ensures a * n <= b * n
  {
  }

  lemma UpdateResponseTimeBounds(capacity: nat, d: Device, clock: int, time: int)
    requires DeviceBounds(capacity, d, clock)
    ensures DeviceBounds(capacity, d.(telemetry := UpdateResponseTime(time, d.telemetry)), clock)
  {
    var t := d.telemetry;
    var r := UpdateResponseTime(time, t);
    assert t.maxResponseTime * t.responseCount <= r.maxResponseTime * t.responseCount by {
      MulMonotone(t.maxResponseTime, r.maxResponseTime, t.responseCount);
    }
    assert r.maxResponseTime * (t.responseCount + 1) == r.maxResponseTime * t.responseCount + r.maxResponseTime;
  }

  lemma RemoveHeadLaws(c: Conf, i: nat, room: int, d: Device, now: nat)
    requires WfConf(c) && i < |c.disks| && DiskSafe(c, i, room, d, now) && Finished(d)
    requires DiskLaws(c.disks[i], d, now)
    ensures DiskLaws(c.disks[i], RemoveHead(d, now), now)
  {
    UpdateResponseTimeBounds(c.disks[i].capacity, d, now, now - d.queue[0].val.arrival);
    var m, n := c.disks[i].diskMin, d.telemetry.responseCount;
    assert m * (n + 1) == m * n + m;
  }

  lemma ArriveAtDiskLaws(k: DiskConf, d: Device, job: JobVal, now: nat, burst: nat)
    requires DiskLaws(k, d, now)
    requires d.queue != [] ==> d.queue[0].priority <= now
    requires d.serving ==> d.queue != []
    ensures DiskLaws(k, ArriveAtDisk(d, job, now, burst), now)
  {
    var e := Item(job.(arrival := now, burst := burst), now);
    QueueSumPush(d.queue, e, Age(now));
    if d.queue != [] {
      assert Push(d.queue, e)[0] == d.queue[0];
    }
  }

  lemma RecordBounds(capacity: nat, d: Device, now: nat)
    requires DeviceBounds(capacity, d, now) && |d.queue| <= capacity
    ensures DeviceBounds(capacity, RecordDevice(d), now + 1)
  {
    var t := d.telemetry;
    assert capacity * (t.totalTime + 1) == capacity * t.totalTime + capacity;
  }

  /** A disk computes and the tick is recorded. */
  lemma ServeAndRecordLaws(c: Conf, i: nat, d: Device, now: nat)
    requires WfConf(c) && i < |c.disks| && DiskSafe(c, i, c.disks[i].capacity, d, now)
    requires DiskLaws(c.disks[i], d, now)
    ensures DiskLaws(c.disks[i], RecordDevice(DiskComputeOne(d)), now + 1)
  {
    var r := DiskComputeOne(d);
    DiskComputeOneKeeps(d, Age(now));
    QueueSumNextTick(r.queue, now);
    RecordBounds(c.disks[i].capacity, r, now);
  }

  // ---------- Laws of one disk, phase by phase ----------

  lemma ReturnLaws(c: Conf, s: State, i: nat, burst: nat)
    requires WfConf(c) && Safe(c, s) && i < |s.disks| && Finished(s.disks[i])
    requires LocalLaws(c, s, s.now)
    ensures LocalLaws(c, ReturnFromDisk(s, i, burst), s.now)
  {
    RemoveHeadLaws(c, i, c.disks[i].capacity, s.disks[i], s.now);
  }

  lemma SwapDiskLaws(c: Conf, s: State, i: nat, waiting: JobVal, burst: nat)
    requires WfConf(c) && Safe(c, s) && i < |s.disks| && Finished(s.disks[i])
    requires DiskBurst(c, i, burst) && waiting.entry <= s.now
    requires LocalLaws(c, s, s.now)
    ensures var disk := ArriveAtDisk(s.disks[i], waiting, s.now, burst);
            disk.queue != [] && DiskLaws(c.disks[i], RemoveHead(disk, s.now), s.now)
  {
    var d := s.disks[i];
    ArriveAtDiskSafe(c, i, c.disks[i].capacity, d, waiting, s.now, burst);
    ArriveAtDiskLaws(c.disks[i], d, waiting, s.now, burst);
    RemoveHeadLaws(c, i, c.disks[i].capacity + 1, ArriveAtDisk(d, waiting, s.now, burst), s.now);
  }

  lemma SwapLaws(c: Conf, s: State, i: nat, returnBurst: nat, swapBurst: nat)
    requires WfConf(c) && Safe(c, s) && i < |s.disks| && Finished(s.disks[i]) && Blocked(s)
    requires CpuBurst(c, returnBurst) && DiskBurst(c, i, swapBurst)
    requires LocalLaws(c, s, s.now)
    ensures LocalLaws(c, Swap(s, i, returnBurst, swapBurst), s.now)
  {
    hide DiskSafe, DiskLaws;
    var waiting := s.cpu.queue[0].val;
    SwapDiskLaws(c, s, i, waiting, swapBurst);
    UpdateResponseTimeBounds(c.cpuCapacity, s.cpu, s.now, s.now - waiting.arrival);
    var disk := ArriveAtDisk(s.disks[i], waiting, s.now, swapBurst);
    var r := Swap(s, i, returnBurst, swapBurst);
    assert r.disks == s.disks[i := RemoveHead(disk, s.now)];
  }

  lemma VisitDiskLaws(c: Conf, s: State, ch: Choices, i: nat)
    requires WfConf(c) && ValidChoices(c, ch) && Safe(c, s) && i < |s.disks|
    requires LocalLaws(c, s, s.now)
    ensures LocalLaws(c, VisitDisk(c, s, ch, i), s.now)
  {
    if Finished(s.disks[i]) {
      if |s.cpu.queue| < c.cpuCapacity {
        ReturnLaws(c, s, i, ch.returnBurst[i]);
      } else if Blocked(s) {
        SwapLaws(c, s, i, ch.returnBurst[i], ch.swapBurst[i]);
      }
    }
  }

  lemma {:induction false} VisitDisksLaws(c: Conf, s: State, ch: Choices, i: nat)
    requires WfConf(c) && ValidChoices(c, ch) && Safe(c, s) && i <= |s.disks|
    requires LocalLaws(c, s, s.now)
    ensures LocalLaws(c, VisitDisks(c, s, ch, i), s.now)
    decreases |s.disks| - i
  {
    if i < |s.disks| {
      VisitDiskLaws(c, s, ch, i);
      VisitDiskSafe(c, s, ch, i);
      VisitDisksLaws(c, VisitDisk(c, s, ch, i), ch, i + 1);
    }
  }

  lemma DepartLaws(c: Conf, s: State, i: nat, burst: nat)
    requires DevicesSafe(c, s) && i < |s.disks| && s.cpu.queue != []
    requires LocalLaws(c, s, s.now)
    ensures LocalLaws(c, Depart(s, i, burst), s.now)
  {
    ArriveAtDiskLaws(c.disks[i], s.disks[i], s.cpu.queue[0].val, s.now, burst);
    UpdateResponseTimeBounds(c.cpuCapacity, s.cpu, s.now, 0);
  }

  lemma CpuComputeLaws(c: Conf, s: State, ch: Choices)
    requires WfConf(c) && ValidChoices(c, ch) && Safe(c, s)
    requires LocalLaws(c, s, s.now)
    ensures LocalLaws(c, CpuCompute(c, s, ch), s.now)
  {
    if s.cpu.serving && !Finished(s.cpu) {
      var r := s.(cpu := s.cpu.(queue := DecrementHead(s.cpu.queue)));
      if Finished(r.cpu) && ch.quitDraw > c.quitProb {
        match PickBestDisk(c, r.disks)
        case None =>
        case Some(i) => DepartLaws(c, r, i, ch.diskBurst[i]);
      }
    }
  }

  lemma ScheduleLaws(c: Conf, s: State, ch: Choices)
    requires WfConf(c) && ValidChoices(c, ch) && Safe(c, s)
    requires LocalLaws(c, s, s.now + 1)
    ensures LocalLaws(c, Schedule(c, s, ch), s.now + 1)
  {
    hide Safe, ValidChoices, DiskLaws, VisitDisks;
    var s0 := s.(now := s.now + 1);
    ClockSafe(c, s);
    UserActivitySafe(c, s0, ch);
    VisitDisksLaws(c, UserActivity(c, s0, ch), ch, 0);
  }

  lemma FinishTickLaws(c: Conf, s: State)
    requires WfConf(c) && Safe(c, s) && LocalLaws(c, s, s.now)
    ensures LocalLaws(c, RecordCommonStats(DiskCompute(s)), s.now + 1)
  {
    var r := RecordCommonStats(DiskCompute(s));
    RecordBounds(c.cpuCapacity, s.cpu, s.now);
    forall i | 0 <= i < |s.disks| ensures DiskLaws(c.disks[i], r.disks[i], s.now + 1) {
      ServeAndRecordLaws(c, i, s.disks[i], s.now);
      assert r.disks[i] == RecordDevice(DiskComputeOne(s.disks[i]));
    }
  }

  lemma CpuComputeKeepsTime(c: Conf, s: State, ch: Choices)
    requires Shaped(c, s, ch)
    ensures CpuCompute(c, s, ch).now == s.now
  {
  }

  lemma TickLaws(c: Conf, s: State, ch: Choices)
    requires WfConf(c) && ValidChoices(c, ch) && Safe(c, s)
    requires LocalLaws(c, s, s.now + 1)
    ensures LocalLaws(c, Tick(c, s, ch), s.now + 2)
  {
    hide LocalLaws, Schedule, CpuCompute, DiskCompute, RecordCommonStats;
    ScheduleSafe(c, s, ch);
    ScheduleLaws(c, s, ch);
    var m := Schedule(c, s, ch);
    ScheduleTakesOneTick(c, s, ch);
    CpuComputeSafe(c, m, ch);
    CpuComputeLaws(c, m, ch);
    CpuComputeKeepsTime(c, m, ch);
    FinishTickLaws(c, CpuCompute(c, m, ch));
  }

  // ---------- Laws of the whole system ----------

  /** Total time the terminated jobs spent in the system. */
  function Stay(ts: seq<Departure>): int {
    if ts == [] then 0 else Stay(ts[..|ts| - 1]) + ts[|ts| - 1].tick - ts[|ts| - 1].job.entry
  }

  function Killed(ts: seq<Departure>, id: nat): int {
    if ts == [] then 0 else Killed(ts[..|ts| - 1], id) + (if ts[|ts| - 1].job.id == id then 1 else 0)
  }

  /** Every job that left the CPU for a disk has returned from a disk or is queued at one. */
  ghost predicate Flow(s: State) {
    s.cpu.telemetry.responseCount == DiskSum(s.disks, Answered) + DiskSum(s.disks, Load)
  }

  /** The summed queue lengths are the summed times of all jobs in the system. */
  ghost predicate PopulationIntegral(s: State, clock: int) {
    s.cpu.telemetry.queueSum + DiskSum(s.disks, Queued) == Stay(s.terminated) + Total(s, Residence(clock))
  }

  function Places(s: State, id: nat): int {
    Total(s, Occurrences(id)) + Killed(s.terminated, id)
    + (if s.upcoming.Some? && s.upcoming.value.id == id then 1 else 0)
  }

  /** A job generated so far is in exactly one place, any other in none. */
  ghost predicate OnePlace(s: State, id: nat) {
    Places(s, id) == if id < s.jobCount then 1 else 0
  }

  ghost predicate SystemLaws(s: State, clock: int, id: nat) {
    Flow(s) && PopulationIntegral(s, clock) && OnePlace(s, id)
  }

  lemma TerminatedOneMore(ts: seq<Departure>, t: Departure, id: nat)
    ensures Stay(ts + [t]) == Stay(ts) + t.tick - t.job.entry
    ensures Killed(ts + [t], id) == Killed(ts, id) + (if t.job.id == id then 1 else 0)
  {
    assert (ts + [t])[..|ts|] == ts;
  }

  lemma UserActivitySystem(c: Conf, s: State, ch: Choices, id: nat)
    requires SystemLaws(s, s.now, id)
    ensures SystemLaws(UserActivity(c, s, ch), s.now, id)
  {
    var g := if s.upcoming.None? then GenerateJob(s, ch) else s;
    var e := Item(g.upcoming.value.(arrival := s.now, entry := s.now), s.now);
    QueueSumPush(s.cpu.queue, e, Occurrences(id));
    QueueSumPush(s.cpu.queue, e, Residence(s.now));
  }

  lemma ReturnSystem(s: State, i: nat, burst: nat, id: nat)
    requires i < |s.disks| && s.disks[i].queue != []
    requires SystemLaws(s, s.now, id)
    ensures SystemLaws(ReturnFromDisk(s, i, burst), s.now, id)
  {
    ReturnConserves(s, i, burst, Occurrences(id));
    ReturnConserves(s, i, burst, Residence(s.now));
    var d := RemoveHead(s.disks[i], s.now);
    DiskSumUpdate(s.disks, i, d, Answered);
    DiskSumUpdate(s.disks, i, d, Load);
    DiskSumUpdate(s.disks, i, d, Queued);
  }

  /** Moving the head of the CPU queue to disk `i`: the common part of a swap and of a departure. */
  lemma MoveToDiskFlow(s: State, i: nat, job: JobVal, burst: nat)
    requires i < |s.disks|
    ensures var ds := s.disks[i := ArriveAtDisk(s.disks[i], job, s.now, burst)];
            && DiskSum(ds, Load) == DiskSum(s.disks, Load) + 1
            && DiskSum(ds, Answered) == DiskSum(s.disks, Answered)
            && DiskSum(ds, Queued) == DiskSum(s.disks, Queued)
  {
    var d := ArriveAtDisk(s.disks[i], job, s.now, burst);
    QueueSumPush(s.disks[i].queue, Item(job.(arrival := s.now, burst := burst), s.now), Load);
    DiskSumUpdate(s.disks, i, d, Load);
    DiskSumUpdate(s.disks, i, d, Answered);
    DiskSumUpdate(s.disks, i, d, Queued);
  }

  lemma SwapSystem(s: State, i: nat, returnBurst: nat, swapBurst: nat, id: nat)
    requires i < |s.disks| && s.disks[i].queue != [] && s.cpu.queue != []
    requires SystemLaws(s, s.now, id)
    ensures SystemLaws(Swap(s, i, returnBurst, swapBurst), s.now, id)
  {
    SwapConserves(s, i, returnBurst, swapBurst, Occurrences(id));
    SwapConserves(s, i, returnBurst, swapBurst, Residence(s.now));
    var waiting := s.cpu.queue[0].val;
    MoveToDiskFlow(s, i, waiting, swapBurst);
    var disk := ArriveAtDisk(s.disks[i], waiting, s.now, swapBurst);
    var ds := s.disks[i := disk];
    DiskSumUpdate(ds, i, RemoveHead(disk, s.now), Answered);
    DiskSumUpdate(ds, i, RemoveHead(disk, s.now), Load);
    DiskSumUpdate(ds, i, RemoveHead(disk, s.now), Queued);
  }

  lemma {:induction false} VisitDisksSystem(c: Conf, s: State, ch: Choices, i: nat, id: nat)
    requires Shaped(c, s, ch) && i <= |s.disks|
    requires SystemLaws(s, s.now, id)
    ensures SystemLaws(VisitDisks(c, s, ch, i), s.now, id)
    decreases |s.disks| - i
  {
    if i < |s.disks| {
      if Finished(s.disks[i]) {
        if |s.cpu.queue| < c.cpuCapacity {
          ReturnSystem(s, i, ch.returnBurst[i], id);
        } else if Blocked(s) {
          SwapSystem(s, i, ch.returnBurst[i], ch.swapBurst[i], id);
        }
      }
      VisitDisksSystem(c, VisitDisk(c, s, ch, i), ch, i + 1, id);
    }
  }

  lemma DepartSystem(s: State, i: nat, burst: nat, id: nat)
    requires i < |s.disks| && s.cpu.queue != []
    requires SystemLaws(s, s.now, id)
    ensures SystemLaws(Depart(s, i, burst), s.now, id)
  {
    DepartConserves(s, i, burst, Occurrences(id));
    DepartConserves(s, i, burst, Residence(s.now));
    MoveToDiskFlow(s, i, s.cpu.queue[0].val, burst);
  }

  lemma CpuFinishSystem(c: Conf, s: State, ch: Choices, id: nat)
    requires Shaped(c, s, ch) && s.cpu.queue != []
    requires SystemLaws(s, s.now, id)
    ensures SystemLaws(CpuFinish(c, s, ch), s.now, id)
  {
    if ch.quitDraw > c.quitProb {
      match PickBestDisk(c, s.disks)
      case None =>
      case Some(i) => DepartSystem(s, i, ch.diskBurst[i], id);
    } else {
      TerminatedOneMore(s.terminated, Departure(s.cpu.queue[0].val, s.now), id);
    }
  }

  lemma DecrementSystem(s: State, id: nat)
    requires s.cpu.queue != [] && s.cpu.queue[0].val.burst > 0
    requires SystemLaws(s, s.now, id)
    ensures SystemLaws(s.(cpu := s.cpu.(queue := DecrementHead(s.cpu.queue))), s.now, id)
  {
    var q := s.cpu.queue;
    var job := q[0].val.(burst := q[0].val.burst - 1);
    QueueSumSetHead(q, job, Occurrences(id));
    QueueSumSetHead(q, job, Residence(s.now));
  }

  lemma CpuComputeSystem(c: Conf, s: State, ch: Choices, id: nat)
    requires Shaped(c, s, ch)
    requires SystemLaws(s, s.now, id)
    ensures SystemLaws(CpuCompute(c, s, ch), s.now, id)
  {
    hide SystemLaws, CpuFinish;
    if s.cpu.serving && s.cpu.queue != [] && !Finished(s.cpu) {
      var r := s.(cpu := s.cpu.(queue := DecrementHead(s.cpu.queue)));
      DecrementSystem(s, id);
      if Finished(r.cpu) {
        CpuFinishSystem(c, r, ch, id);
      }
    }
  }

  lemma RecordSystem(s: State, id: nat)
    requires SystemLaws(s, s.now, id)
    ensures SystemLaws(RecordCommonStats(s), s.now + 1, id)
  {
    var r := RecordCommonStats(s);
    DiskSumSame(s.disks, r.disks, Occurrences(id));
    DiskSumSame(s.disks, r.disks, Load);
    DiskSumSame(s.disks, r.disks, Answered);
    DiskSumShift(s.disks, r.disks, Queued, Queued);
    forall i | 0 <= i < |s.disks|
      ensures Measure(r.disks[i], Residence(s.now + 1)) == Measure(s.disks[i], Residence(s.now)) + |s.disks[i].queue|
    {
      QueueSumNextTick(s.disks[i].queue, s.now);
    }
    DiskSumShift(s.disks, r.disks, Residence(s.now), Residence(s.now + 1));
    QueueSumNextTick(s.cpu.queue, s.now);
  }

  lemma FinishTickSystem(s: State, id: nat)
    requires SystemLaws(s, s.now, id)
    ensures SystemLaws(RecordCommonStats(DiskCompute(s)), s.now + 1, id)
  {
    var m := DiskCompute(s);
    DiskComputeConserves(s, Occurrences(id));
    DiskComputeConserves(s, Residence(s.now));
    DiskComputeConserves(s, Load);
    DiskSumSame(s.disks, m.disks, Answered);
    DiskSumSame(s.disks, m.disks, Queued);
    RecordSystem(m, id);
  }

  lemma ClockSystem(s: State, id: nat)
    requires SystemLaws(s, s.now + 1, id)
    ensures SystemLaws(s.(now := s.now + 1), s.now + 1, id)
  {
  }

  lemma FetchSystem(s: State, clock: int, id: nat)
    requires SystemLaws(s, clock, id)
    ensures SystemLaws(CpuFetchNextJob(s), clock, id)
  {
  }

  lemma UserActivityKeepsTime(c: Conf, s: State, ch: Choices)
    ensures UserActivity(c, s, ch).now == s.now && UserActivity(c, s, ch).disks == s.disks
  {
  }

  lemma ScheduleSystem(c: Conf, s: State, ch: Choices, id: nat)
    requires Shaped(c, s, ch)
    requires SystemLaws(s, s.now + 1, id)
    ensures SystemLaws(Schedule(c, s, ch), s.now + 1, id)
  {
    hide UserActivity, VisitDisks, Flow, PopulationIntegral, OnePlace;
    var s0 := s.(now := s.now + 1);
    ClockSystem(s, id);
    UserActivityKeepsTime(c, s0, ch);
    UserActivitySystem(c, s0, ch, id);
    var s1 := UserActivity(c, s0, ch);
    VisitDisksSystem(c, s1, ch, 0, id);
    FetchSystem(VisitDisks(c, s1, ch, 0), s.now + 1, id);
  }

  lemma TickSystem(c: Conf, s: State, ch: Choices, id: nat)
    requires Shaped(c, s, ch)
    requires SystemLaws(s, s.now + 1, id)
    ensures SystemLaws(Tick(c, s, ch), s.now + 2, id)
  {
    hide SystemLaws, Schedule, CpuCompute, DiskCompute, RecordCommonStats;
    ScheduleSystem(c, s, ch, id);
    ScheduleTakesOneTick(c, s, ch);
    var m := Schedule(c, s, ch);
    CpuComputeSystem(c, m, ch, id);
    CpuComputeKeepsTime(c, m, ch);
    FinishTickSystem(CpuCompute(c, m, ch), id);
  }

  // ---------- Every run ----------

  lemma {:induction false} RunLaws(c: Conf, s: State, run: seq<Choices>, id: nat)
    requires WfConf(c) && ValidRun(c, run) && Safe(c, s)
    requires LocalLaws(c, s, s.now + 1) && SystemLaws(s, s.now + 1, id)
    ensures var r := Run(c, s, run);
            LocalLaws(c, r, r.now + 1) && SystemLaws(r, r.now + 1, id)
    decreases |run|
  {
    hide DeviceBounds, DiskLaws, SystemLaws, Tick, Safe;
    if run != [] {
      var prefix, ch := run[..|run| - 1], run[|run| - 1];
      RunLaws(c, s, prefix, id);
      RunSafe(c, s, prefix);
      var m := Run(c, s, prefix);
      TickSafe(c, m, ch);
      TickLaws(c, m, ch);
      TickSystem(c, m, ch, id);
    }
  }

  lemma {:induction false} IdleSum(ds: seq<Device>, g: Gauge)
    requires forall i :: 0 <= i < |ds| ==> ds[i] == IDLE
    ensures DiskSum(ds, g) == 0
  {
    if ds != [] {
      IdleSum(ds[1..], g);
    }
  }

  lemma InitLocal(c: Conf)
    ensures LocalLaws(c, Init(c), 1)
  {
  }

  lemma InitLaws(c: Conf, id: nat)
    ensures LocalLaws(c, Init(c), 1) && SystemLaws(Init(c), 1, id)
  {
    hide LocalLaws, DiskSum, IdleDisks;
    InitLocal(c);
    var s := Init(c);
    IdleSum(s.disks, Load);
    IdleSum(s.disks, Answered);
    IdleSum(s.disks, Queued);
    IdleSum(s.disks, Occurrences(id));
    IdleSum(s.disks, Residence(1));
  }

  lemma ReachableLawsFor(c: Conf, s: State, id: nat)
    requires WfConf(c) && Reachable(c, s)
    ensures LocalLaws(c, s, s.now + 1) && SystemLaws(s, s.now + 1, id)
  {
    hide Run, LocalLaws, SystemLaws, Safe;
    var run :| ValidRun(c, run) && Run(c, Init(c), run) == s;
    InitSafe(c);
    InitLaws(c, id);
    RunLaws(c, Init(c), run, id);
  }

  /** At the end of every tick of every run: Little's law, the utilisation law and the bounds for each
      disk, conservation of flow and of jobs, and the population integral. */
  lemma ReachableLaws(c: Conf, s: State)
    requires WfConf(c) && Reachable(c, s)
    ensures LocalLaws(c, s, s.now + 1)
    ensures Flow(s) && PopulationIntegral(s, s.now + 1)
    ensures forall id: nat :: OnePlace(s, id)
  {
    hide Reachable, LocalLaws, Flow, PopulationIntegral, OnePlace;
    forall id: nat ensures OnePlace(s, id) {
      ReachableLawsFor(c, s, id);
    }
    ReachableLawsFor(c, s, 0);
  }

  /** Throughput of a disk is at most one job per `diskMin` ticks. */
  lemma ThroughputBound(c: Conf, s: State, i: nat)
    requires WfConf(c) && Reachable(c, s) && i < |s.disks| == |c.disks|
    ensures c.disks[i].diskMin * s.disks[i].telemetry.responseCount <= s.disks[i].telemetry.busyTime <= s.now
  {
    hide Reachable;
    ReachableLaws(c, s);
    ReachableSafe(c, s);
    assert DiskLaws(c.disks[i], s.disks[i], s.now + 1);
  }
}
