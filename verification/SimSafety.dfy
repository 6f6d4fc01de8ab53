/** Structural safety: what every phase of every tick keeps. */
module SimSafety {
  import opened PriorityQueue
  import opened SimModel
  import opened SimSums
  import opened Wrappers

  // ---------- The invariant ----------

  ghost predicate CpuSafe(c: Conf, d: Device, now: nat) {
    && |d.queue| <= c.cpuCapacity
    && (d.serving ==> d.queue != [])
    && (Finished(d) ==> d.serving)
    && (forall k :: 1 <= k < |d.queue| ==> d.queue[k].val.burst >= 1)
    && (forall k :: 0 <= k < |d.queue| ==> 0 <= d.queue[k].priority <= now)
    && (forall k :: 0 <= k < |d.queue| ==> d.queue[k].val.arrival <= now && d.queue[k].val.entry <= now)
  }

  /** `room` is the number of jobs the disk may hold: its capacity at a tick boundary, one more in the
      middle of a swap. */
  ghost predicate DiskSafe(c: Conf, i: nat, room: int, d: Device, now: nat)
    requires i < |c.disks|
  {
    && |d.queue| <= room
    && (d.serving ==> d.queue != [])
    && (forall k :: 0 <= k < |d.queue| ==> d.queue[k].val.burst <= c.disk1Max)
    && (forall k :: 0 <= k < |d.queue| && (k == 0 ==> !d.serving) ==> c.disks[i].diskMin <= d.queue[k].val.burst)
    && Sorted(d.queue)
    && (forall k :: 0 <= k < |d.queue| ==> d.queue[k].priority == d.queue[k].val.arrival <= now)
    && (forall k :: 0 <= k < |d.queue| ==> d.queue[k].val.entry <= now)
  }

  ghost predicate DevicesSafe(c: Conf, s: State) {
    && |s.disks| == |c.disks|
    && CpuSafe(c, s.cpu, s.now)
    && (forall i :: 0 <= i < |s.disks| ==> DiskSafe(c, i, c.disks[i].capacity, s.disks[i], s.now))
    && (s.upcoming.Some? ==> s.upcoming.value.burst >= 1)
  }

  /** All disks could be full and there would still be a job left over. */
  ghost predicate Crowded(c: Conf, s: State) {
    Total(s, Load) >= CapacitySum(c.disks) + 1
  }

  ghost predicate Safe(c: Conf, s: State) {
    DevicesSafe(c, s) && (Blocked(s) ==> Crowded(c, s))
  }

  // ---------- Elementary moves ----------

  lemma ReplaceDevices(c: Conf, s: State, cpu: Device, i: nat, d: Device)
    requires DevicesSafe(c, s) && i < |s.disks|
    requires CpuSafe(c, cpu, s.now) && DiskSafe(c, i, c.disks[i].capacity, d, s.now)
    ensures DevicesSafe(c, s.(cpu := cpu, disks := s.disks[i := d]))
  {
  }

  lemma ArriveAtDiskSafe(c: Conf, i: nat, room: int, d: Device, job: JobVal, now: nat, burst: nat)
    requires WfConf(c) && i < |c.disks| && DiskBurst(c, i, burst)
    requires DiskSafe(c, i, room, d, now) && job.entry <= now
    ensures var r := ArriveAtDisk(d, job, now, burst);
            && DiskSafe(c, i, room + 1, r, now)
            && (d.queue != [] ==> r.queue[0] == d.queue[0])
            && |r.queue| == |d.queue| + 1
  {
    hide Push, Sorted;
    var e := Item(job.(arrival := now, burst := burst), now);
    PushKeepsSorted(d.queue, e);
    PushKeepsHead(d.queue, e);
  }

  lemma RemoveHeadSafe(c: Conf, i: nat, room: int, d: Device, now: nat)
    requires WfConf(c) && i < |c.disks| && DiskSafe(c, i, room, d, now) && d.queue != []
    ensures DiskSafe(c, i, room - 1, RemoveHead(d, now), now)
  {
  }

  /** A finished disk head is that disk's current job, so the pointer removeJobFromDisk follows is set. */
  lemma FinishedHeadIsServed(c: Conf, i: nat, room: int, d: Device, now: nat)
    requires WfConf(c) && i < |c.disks| && DiskSafe(c, i, room, d, now)
    ensures Finished(d) ==> d.serving
  {
  }

  lemma ArriveAtCpuSafe(c: Conf, d: Device, job: JobVal, now: nat)
    requires CpuSafe(c, d, now) && |d.queue| < c.cpuCapacity
    requires job.burst >= 1
    ensures var e := Item(job.(arrival := now, entry := now), now);
            var r := d.(queue := Push(d.queue, e));
            CpuSafe(c, r, now) && (Finished(r) <==> Finished(d))
  {
    hide Push;
    PushKeepsHead(d.queue, Item(job.(arrival := now, entry := now), now));
  }

  lemma AppendToCpuSafe(c: Conf, d: Device, job: JobVal, now: nat)
    requires CpuSafe(c, d, now) && |d.queue| < c.cpuCapacity
    requires job.burst >= 1 && job.arrival <= now && job.entry <= now
    ensures var r := d.(queue := d.queue + [Item(job, 0)]);
            CpuSafe(c, r, now) && (Finished(r) <==> Finished(d))
  {
  }

  // ---------- Phases ----------

  lemma GenerateJobSafe(c: Conf, s: State, ch: Choices)
    requires WfConf(c) && ValidChoices(c, ch) && Safe(c, s)
    ensures Safe(c, GenerateJob(s, ch))
  {
  }

  /** What the code relies on when it follows pointers and subtracts arrival times. */
  lemma SafeFacts(c: Conf, s: State)
    requires WfConf(c) && DevicesSafe(c, s)
    ensures s.upcoming.Some? ==> s.upcoming.value.burst >= 1
    ensures |s.cpu.queue| <= c.cpuCapacity
    ensures s.cpu.queue != [] ==> s.cpu.queue[0].priority <= s.now && s.cpu.queue[0].val.arrival <= s.now
    ensures s.cpu.serving ==> s.cpu.queue != []
    ensures forall i :: 0 <= i < |s.disks| && s.disks[i].queue != [] ==>
              && s.disks[i].queue[0].priority <= s.now && s.disks[i].queue[0].val.arrival <= s.now
              && (Finished(s.disks[i]) ==> s.disks[i].serving)
  {
  }

  lemma ArrivalSafe(c: Conf, s: State, job: JobVal)
    requires Safe(c, s) && job.burst >= 1 && |s.cpu.queue| < c.cpuCapacity
    ensures Safe(c, ArriveAtCpu(s, job).(upcoming := None))
  {
    ArriveAtCpuSafe(c, s.cpu, job, s.now);
    QueueSumPush(s.cpu.queue, Item(job.(arrival := s.now, entry := s.now), s.now), Load);
  }

  lemma UserActivitySafe(c: Conf, s: State, ch: Choices)
    requires WfConf(c) && ValidChoices(c, ch) && Safe(c, s)
    ensures Safe(c, UserActivity(c, s, ch))
  {
    GenerateJobSafe(c, s, ch);
    var g := if s.upcoming.None? then GenerateJob(s, ch) else s;
    if g.upcoming.value.arrival <= s.now && |s.cpu.queue| < c.cpuCapacity {
      ArrivalSafe(c, g, g.upcoming.value);
    }
  }

  lemma {:induction false} VisitDisksKeepsTime(c: Conf, s: State, ch: Choices, i: nat)
    requires Shaped(c, s, ch) && i <= |s.disks|
    ensures VisitDisks(c, s, ch, i).now == s.now
    decreases |s.disks| - i
  {
    if i < |s.disks| {
      VisitDisksKeepsTime(c, VisitDisk(c, s, ch, i), ch, i + 1);
    }
  }

  lemma ScheduleTakesOneTick(c: Conf, s: State, ch: Choices)
    requires Shaped(c, s, ch)
    ensures Schedule(c, s, ch).now == s.now + 1
  {
    VisitDisksKeepsTime(c, UserActivity(c, s.(now := s.now + 1), ch), ch, 0);
  }

  lemma ReturnSafe(c: Conf, s: State, i: nat, burst: nat)
    requires WfConf(c) && Safe(c, s) && i < |s.disks| && Finished(s.disks[i])
    requires |s.cpu.queue| < c.cpuCapacity && CpuBurst(c, burst)
    ensures var r := ReturnFromDisk(s, i, burst);
            Safe(c, r) && (Blocked(r) <==> Blocked(s))
  {
    RemoveHeadSafe(c, i, c.disks[i].capacity, s.disks[i], s.now);
    var job := s.disks[i].queue[0].val.(burst := burst);
    AppendToCpuSafe(c, s.cpu, job, s.now);
    ReplaceDevices(c, s, s.cpu.(queue := s.cpu.queue + [Item(job, 0)]), i, RemoveHead(s.disks[i], s.now));
    ReturnConserves(s, i, burst, Load);
  }

  lemma RemoveCpuHeadSafe(c: Conf, d: Device, now: nat)
    requires CpuSafe(c, d, now) && d.queue != []
    ensures CpuSafe(c, RemoveHead(d, now), now)
    ensures CpuSafe(c, d.(queue := d.queue[1..], serving := false), now)
  {
  }

  lemma SwapCpuSafe(c: Conf, s: State, job: JobVal)
    requires CpuSafe(c, s.cpu, s.now) && s.cpu.queue != []
    requires job.burst >= 1 && job.arrival <= s.now && job.entry <= s.now
    ensures var cpu := RemoveHead(s.cpu, s.now);
            CpuSafe(c, cpu.(queue := cpu.queue + [Item(job, 0)]), s.now)
  {
    RemoveCpuHeadSafe(c, s.cpu, s.now);
    AppendToCpuSafe(c, RemoveHead(s.cpu, s.now), job, s.now);
  }

  /** A swap fills the disk to at most one above its capacity, keeps its finished head in front, and
      leaves it as full as before and the CPU as full as before. */
  lemma SwapSafe(c: Conf, s: State, i: nat, returnBurst: nat, swapBurst: nat)
    requires WfConf(c) && Safe(c, s) && i < |s.disks| && Finished(s.disks[i]) && Blocked(s)
    requires CpuBurst(c, returnBurst) && DiskBurst(c, i, swapBurst)
    ensures var mid := ArriveAtDisk(s.disks[i], s.cpu.queue[0].val, s.now, swapBurst);
            && |mid.queue| <= c.disks[i].capacity + 1
            && mid.queue[0] == s.disks[i].queue[0] && mid.serving
    ensures var r := Swap(s, i, returnBurst, swapBurst);
            Safe(c, r) && !Blocked(r)
            && |r.cpu.queue| == |s.cpu.queue| && |r.disks[i].queue| == |s.disks[i].queue|
  {
    hide Push, Sorted;
    var room := c.disks[i].capacity;
    var waiting := s.cpu.queue[0].val;
    var disk := ArriveAtDisk(s.disks[i], waiting, s.now, swapBurst);
    ArriveAtDiskSafe(c, i, room, s.disks[i], waiting, s.now, swapBurst);
    RemoveHeadSafe(c, i, room + 1, disk, s.now);
    var job := disk.queue[0].val.(burst := returnBurst);
    SwapCpuSafe(c, s, job);
    var cpu := RemoveHead(s.cpu, s.now);
    ReplaceDevices(c, s, cpu.(queue := cpu.queue + [Item(job, 0)]), i, RemoveHead(disk, s.now));
    assert s.disks[i := disk][i := RemoveHead(disk, s.now)] == s.disks[i := RemoveHead(disk, s.now)];
  }

  lemma VisitDiskSafe(c: Conf, s: State, ch: Choices, i: nat)
    requires WfConf(c) && ValidChoices(c, ch) && Safe(c, s) && i < |s.disks|
    ensures Safe(c, VisitDisk(c, s, ch, i))
  {
    if Finished(s.disks[i]) {
      if |s.cpu.queue| < c.cpuCapacity {
        ReturnSafe(c, s, i, ch.returnBurst[i]);
      } else if Blocked(s) {
        SwapSafe(c, s, i, ch.returnBurst[i], ch.swapBurst[i]);
      }
    }
  }

  lemma {:induction false} VisitDisksSafe(c: Conf, s: State, ch: Choices, i: nat)
    requires WfConf(c) && ValidChoices(c, ch) && Safe(c, s) && i <= |s.disks|
    ensures Safe(c, VisitDisks(c, s, ch, i))
    decreases |s.disks| - i
  {
    if i < |s.disks| {
      VisitDiskSafe(c, s, ch, i);
      VisitDisksSafe(c, VisitDisk(c, s, ch, i), ch, i + 1);
    }
  }

  // ---------- pickBestDisk ----------

  ghost predicate BestSoFar(c: Conf, ds: seq<Device>, i: nat, best: Option<nat>, qc: nat)
    requires i <= |ds| == |c.disks|
  {
    match best
    case None => qc == INT_MAX && forall j :: 0 <= j < i ==> |ds[j].queue| == c.disks[j].capacity
    case Some(b) =>
      && b < i && qc == |ds[b].queue| < c.disks[b].capacity
      && (forall j :: 0 <= j < i && |ds[j].queue| < c.disks[j].capacity ==> qc <= |ds[j].queue|)
      && (forall j :: 0 <= j < b && |ds[j].queue| < c.disks[j].capacity ==> qc < |ds[j].queue|)
  }

  lemma {:induction false} PickFromIsShortest(c: Conf, ds: seq<Device>, i: nat, best: Option<nat>, qc: nat)
    returns (length: nat)
    requires WfConf(c) && i <= |ds| == |c.disks|
    requires forall j :: 0 <= j < |ds| ==> |ds[j].queue| <= c.disks[j].capacity
    requires BestSoFar(c, ds, i, best, qc)
    ensures BestSoFar(c, ds, |ds|, PickFrom(c, ds, i, best, qc), length)
    decreases |ds| - i
  {
    if i == |ds| {
      length := qc;
    } else if c.disks[i].capacity != |ds[i].queue| && |ds[i].queue| < qc {
      length := PickFromIsShortest(c, ds, i + 1, Some(i), |ds[i].queue|);
    } else {
      length := PickFromIsShortest(c, ds, i + 1, best, qc);
    }
  }

  /** pickBestDisk returns a disk with a free slot and the shortest queue among those, the first such
      disk on ties, and nothing iff no disk has a free slot. The test `queueSize - count` on unsigned
      numbers is a test for a free slot because no disk is over-full. */
  lemma PickBestDiskIsShortest(c: Conf, ds: seq<Device>)
    requires WfConf(c) && |ds| == |c.disks|
    requires forall i :: 0 <= i < |ds| ==> |ds[i].queue| <= c.disks[i].capacity
    ensures var r := PickBestDisk(c, ds);
            && (r.None? <==> forall i :: 0 <= i < |ds| ==> |ds[i].queue| == c.disks[i].capacity)
            && (r.Some? ==>
                  && |ds[r.value].queue| < c.disks[r.value].capacity
                  && (forall i :: 0 <= i < |ds| && |ds[i].queue| < c.disks[i].capacity ==>
                        |ds[r.value].queue| <= |ds[i].queue|)
                  && (forall i :: 0 <= i < r.value && |ds[i].queue| < c.disks[i].capacity ==>
                        |ds[r.value].queue| < |ds[i].queue|))
  {
    var _ := PickFromIsShortest(c, ds, 0, None, INT_MAX);
  }

  // ---------- The CPU and the disks compute ----------

  lemma DepartSafe(c: Conf, s: State, i: nat, burst: nat)
    requires WfConf(c) && DevicesSafe(c, s) && i < |s.disks| && s.cpu.queue != [] && DiskBurst(c, i, burst)
    requires |s.disks[i].queue| < c.disks[i].capacity
    ensures var r := Depart(s, i, burst);
            DevicesSafe(c, r) && !r.cpu.serving
  {
    var job := s.cpu.queue[0].val;
    ArriveAtDiskSafe(c, i, |s.disks[i].queue|, s.disks[i], job, s.now, burst);
    var cpu := s.cpu.(queue := SetHead(s.cpu.queue, job.(arrival := s.now, burst := burst)), serving := true);
    RemoveCpuHeadSafe(c, cpu, s.now);
    var disk := ArriveAtDisk(s.disks[i], job, s.now, burst);
    ReplaceDevices(c, s, RemoveHead(cpu, s.now), i, disk);
  }

  /** The CPU becomes blocked only when every disk is full, so the system holds a job more than the
      disks have room for. */
  lemma CpuFinishSafe(c: Conf, s: State, ch: Choices)
    requires WfConf(c) && ValidChoices(c, ch) && ch.quitDraw > c.quitProb
    requires DevicesSafe(c, s) && s.cpu.queue != []
    ensures Safe(c, CpuFinish(c, s, ch))
  {
    PickBestDiskIsShortest(c, s.disks);
    match PickBestDisk(c, s.disks)
    case None =>
      AllDisksFull(c.disks, s.disks);
      QueueSumLoad(s.cpu.queue);
    case Some(i) =>
      DepartSafe(c, s, i, ch.diskBurst[i]);
  }

  lemma CpuComputeSafe(c: Conf, s: State, ch: Choices)
    requires WfConf(c) && ValidChoices(c, ch) && Safe(c, s)
    ensures Safe(c, CpuCompute(c, s, ch))
  {
    if s.cpu.serving && !Finished(s.cpu) {
      var q := s.cpu.queue;
      var r := s.(cpu := s.cpu.(queue := DecrementHead(q)));
      QueueSumSetHead(q, q[0].val.(burst := q[0].val.burst - 1), Load);
      assert CpuSafe(c, r.cpu, r.now);
      if Finished(r.cpu) {
        if ch.quitDraw > c.quitProb {
          CpuFinishSafe(c, r, ch);
        } else {
          RemoveCpuHeadSafe(c, r.cpu, r.now);
        }
      }
    }
  }

  lemma KillJobSafe(c: Conf, s: State)
    requires DevicesSafe(c, s) && s.cpu.queue != []
    ensures DevicesSafe(c, KillJob(s))
  {
    RemoveCpuHeadSafe(c, s.cpu, s.now);
  }

  lemma DecrementSafe(c: Conf, s: State)
    requires DevicesSafe(c, s) && s.cpu.serving && !Finished(s.cpu)
    ensures DevicesSafe(c, s.(cpu := s.cpu.(queue := DecrementHead(s.cpu.queue))))
  {
  }

  lemma PickBestDiskHasRoom(c: Conf, s: State)
    requires WfConf(c) && DevicesSafe(c, s)
    ensures var r := PickBestDisk(c, s.disks);
            r.Some? ==> |s.disks[r.value].queue| < c.disks[r.value].capacity
  {
    PickBestDiskIsShortest(c, s.disks);
  }

  lemma DiskComputeOneSafe(c: Conf, i: nat, room: int, d: Device, now: nat)
    requires WfConf(c) && i < |c.disks| && DiskSafe(c, i, room, d, now)
    ensures DiskSafe(c, i, room, DiskComputeOne(d), now)
  {
  }

  lemma DiskComputeSafe(c: Conf, s: State)
    requires WfConf(c) && Safe(c, s)
    ensures Safe(c, DiskCompute(s))
  {
    DiskComputeConserves(s, Load);
    var r := DiskCompute(s);
    forall i | 0 <= i < |s.disks|
      ensures DiskSafe(c, i, c.disks[i].capacity, r.disks[i], s.now)
    {
      DiskComputeOneSafe(c, i, c.disks[i].capacity, s.disks[i], s.now);
    }
  }

  lemma ComputeDiskSafe(c: Conf, s: State, i: nat)
    requires WfConf(c) && DevicesSafe(c, s) && i < |s.disks|
    ensures DevicesSafe(c, s.(disks := s.disks[i := DiskComputeOne(s.disks[i])]))
  {
    DiskComputeOneSafe(c, i, c.disks[i].capacity, s.disks[i], s.now);
    ReplaceDevices(c, s, s.cpu, i, DiskComputeOne(s.disks[i]));
  }

  lemma RecordDiskSafe(c: Conf, s: State, i: nat)
    requires DevicesSafe(c, s) && i < |s.disks|
    ensures DevicesSafe(c, s.(disks := s.disks[i := RecordDevice(s.disks[i])]))
  {
    ReplaceDevices(c, s, s.cpu, i, RecordDevice(s.disks[i]));
  }

  lemma RecordCpuSafe(c: Conf, s: State)
    requires DevicesSafe(c, s)
    ensures DevicesSafe(c, s.(cpu := RecordDevice(s.cpu)))
  {
  }

  lemma RecordSafe(c: Conf, s: State)
    requires Safe(c, s)
    ensures Safe(c, RecordCommonStats(s))
  {
    var r := RecordCommonStats(s);
    DiskSumSame(s.disks, r.disks, Load);
  }

  // ---------- Ticks and runs ----------

  lemma CpuFetchNextJobSafe(c: Conf, s: State)
    requires Safe(c, s)
    ensures Safe(c, CpuFetchNextJob(s))
  {
  }

  lemma CpuDetermineJobSafe(c: Conf, s: State, ch: Choices)
    requires WfConf(c) && ValidChoices(c, ch) && Safe(c, s)
    ensures Safe(c, CpuDetermineJob(c, s, ch))
  {
    VisitDisksSafe(c, s, ch, 0);
    CpuFetchNextJobSafe(c, VisitDisks(c, s, ch, 0));
  }

  lemma ClockSafe(c: Conf, s: State)
    requires Safe(c, s)
    ensures Safe(c, s.(now := s.now + 1))
  {
  }

  lemma BurstsSafe(c: Conf, s: State, ch: Choices)
    requires WfConf(c) && ValidChoices(c, ch) && Safe(c, s)
    ensures Safe(c, DiskCompute(CpuCompute(c, s, ch)))
  {
    CpuComputeSafe(c, s, ch);
    DiskComputeSafe(c, CpuCompute(c, s, ch));
  }

  lemma ScheduleSafe(c: Conf, s: State, ch: Choices)
    requires WfConf(c) && ValidChoices(c, ch) && Safe(c, s)
    ensures Safe(c, Schedule(c, s, ch))
  {
    ClockSafe(c, s);
    UserActivitySafe(c, s.(now := s.now + 1), ch);
    CpuDetermineJobSafe(c, UserActivity(c, s.(now := s.now + 1), ch), ch);
  }

  lemma WorkSafe(c: Conf, s: State, ch: Choices)
    requires WfConf(c) && ValidChoices(c, ch) && Safe(c, s)
    ensures Safe(c, Work(c, s, ch))
  {
    ScheduleSafe(c, s, ch);
    BurstsSafe(c, Schedule(c, s, ch), ch);
  }

  lemma TickSafe(c: Conf, s: State, ch: Choices)
    requires WfConf(c) && ValidChoices(c, ch) && Safe(c, s)
    ensures Safe(c, Tick(c, s, ch)) && Tick(c, s, ch).now == s.now + 1
  {
    WorkSafe(c, s, ch);
    RecordSafe(c, Work(c, s, ch));
    ScheduleTakesOneTick(c, s, ch);
  }

  lemma {:induction false} RunSafe(c: Conf, s: State, run: seq<Choices>)
    requires WfConf(c) && ValidRun(c, run) && Safe(c, s)
    ensures Safe(c, Run(c, s, run)) && Run(c, s, run).now == s.now + |run|
    decreases |run|
  {
    if run != [] {
      RunSafe(c, s, run[..|run| - 1]);
      TickSafe(c, Run(c, s, run[..|run| - 1]), run[|run| - 1]);
    }
  }

  lemma InitSafe(c: Conf)
    ensures Safe(c, Init(c))
  {
  }

  /** Safety over whole runs. */
  lemma ReachableSafe(c: Conf, s: State)
    requires WfConf(c) && Reachable(c, s)
    ensures Safe(c, s)
  {
    var run :| ValidRun(c, run) && Run(c, Init(c), run) == s;
    hide Run, Safe;
    InitSafe(c);
    RunSafe(c, Init(c), run);
  }
}
