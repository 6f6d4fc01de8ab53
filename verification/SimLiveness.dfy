/** Liveness: a job that waits on the CPU for a disk gets one within a bounded number of ticks. */
module SimLiveness {
  import opened PriorityQueue
  import opened SimModel
  import opened SimSums
  import opened SimSafety
  import opened Wrappers

  // ---------- When the swap fires ----------

  ghost predicate SwapsAt(c: Conf, s: State, i: nat)
    requires i < |s.disks|
  {
    Finished(s.disks[i]) && |s.cpu.queue| >= c.cpuCapacity && Blocked(s)
  }

  ghost predicate SwapsFrom(c: Conf, s: State, ch: Choices, i: nat)
    requires Shaped(c, s, ch) && i <= |s.disks|
    decreases |s.disks| - i
  {
    i < |s.disks| && (SwapsAt(c, s, i) || SwapsFrom(c, VisitDisk(c, s, ch, i), ch, i + 1))
  }

  /** During this tick the job that waits on the CPU is swapped onto a disk. */
  ghost predicate SwapFires(c: Conf, s: State, ch: Choices)
    requires Shaped(c, s, ch)
  {
    SwapsFrom(c, UserActivity(c, s.(now := s.now + 1), ch), ch, 0)
  }

  lemma VisitWithoutSwap(c: Conf, s: State, ch: Choices, i: nat)
    requires Shaped(c, s, ch) && i < |s.disks| && Blocked(s) && !SwapsAt(c, s, i)
    ensures var r := VisitDisk(c, s, ch, i);
            && Blocked(r) && s.cpu.queue <= r.cpu.queue
            && (|r.cpu.queue| == |s.cpu.queue| ==> r == s && !Finished(s.disks[i]))
  {
  }

  /** While the CPU is blocked and no swap fires, disks only hand finished jobs to the CPU. */
  lemma {:induction false} VisitsWithoutSwap(c: Conf, s: State, ch: Choices, i: nat)
    requires WfConf(c) && ValidChoices(c, ch) && Safe(c, s) && i <= |s.disks|
    requires Blocked(s) && !SwapsFrom(c, s, ch, i)
    ensures var r := VisitDisks(c, s, ch, i);
            && Blocked(r) && s.cpu.queue <= r.cpu.queue
            && (|r.cpu.queue| == |s.cpu.queue| ==>
                  r == s && forall j :: i <= j < |s.disks| ==> !Finished(s.disks[j]))
    decreases |s.disks| - i
  {
    hide VisitDisk, CpuSafe, DiskSafe, Finished, SwapsAt;
    if i < |s.disks| {
      VisitWithoutSwap(c, s, ch, i);
      VisitDiskSafe(c, s, ch, i);
      VisitsWithoutSwap(c, VisitDisk(c, s, ch, i), ch, i + 1);
    }
  }

  lemma ArrivalKeepsHead(c: Conf, s: State, ch: Choices)
    requires WfConf(c) && ValidChoices(c, ch) && Safe(c, s) && s.cpu.queue != []
    ensures var r := UserActivity(c, s, ch);
            && r.cpu.queue != [] && r.cpu.queue[0] == s.cpu.queue[0] && r.cpu.serving == s.cpu.serving
            && |r.cpu.queue| >= |s.cpu.queue| && r.disks == s.disks
  {
  }

  // ---------- The measure ----------

  /** Number of the first disk with a job. */
  function FirstLoaded(ds: seq<Device>): (i: nat)
    ensures i <= |ds| && (i < |ds| ==> ds[i].queue != [])
    ensures forall j :: 0 <= j < i ==> ds[j].queue == []
  {
    if ds == [] || ds[0].queue != [] then 0 else 1 + FirstLoaded(ds[1..])
  }

  /** Burst left at the head of the first disk with a job. */
  function HeadBurst(ds: seq<Device>): nat {
    var i := FirstLoaded(ds);
    if i < |ds| then ds[i].queue[0].val.burst else 0
  }

  /** Free CPU slots first, then the burst at the head of a disk. */
  function Patience(c: Conf, s: State): int {
    (c.cpuCapacity - |s.cpu.queue|) * (c.disk1Max + 1) + HeadBurst(s.disks)
  }

  /** With room for the whole CPU queue on the disks, a blocked CPU means that some disk has a job. */
  lemma BlockedMeansLoadedDisk(c: Conf, s: State)
    requires WfConf(c) && Safe(c, s) && Blocked(s) && CapacitySum(c.disks) >= c.cpuCapacity
    ensures FirstLoaded(s.disks) < |s.disks|
    ensures HeadBurst(s.disks) <= c.disk1Max
  {
    QueueSumLoad(s.cpu.queue);
    var i := SomeDiskLoaded(s.disks);
    assert i < |s.disks|;
  }

  lemma CpuWithinCapacity(c: Conf, s: State)
    requires Safe(c, s)
    ensures |s.cpu.queue| <= c.cpuCapacity
  {
  }

  lemma SameEmptiness(ds: seq<Device>, es: seq<Device>)
    requires |ds| == |es|
    requires forall i :: 0 <= i < |ds| ==> (ds[i].queue == [] <==> es[i].queue == [])
    ensures FirstLoaded(ds) == FirstLoaded(es)
  {
    var i, j := FirstLoaded(ds), FirstLoaded(es);
    if i != j {
      assert false;
    }
  }

  lemma PatienceDrops(free: nat, free': nat, burst: nat, burst': nat, d: nat)
    requires (free' < free && burst' <= d) || (free' == free && burst' < burst)
    ensures free' * (d + 1) + burst' < free * (d + 1) + burst
  {
    if free' < free {
      var k := free - free' - 1;
      assert free * (d + 1) == free' * (d + 1) + (d + 1) + k * (d + 1);
    }
  }

  /** What the rest of the tick does once the disks have been visited and the CPU is blocked. */
  lemma BlockedRest(c: Conf, s: State, ch: Choices)
    requires Shaped(c, s, ch) && Blocked(s)
    ensures var r := RecordCommonStats(DiskCompute(CpuCompute(c, CpuFetchNextJob(s), ch)));
            && Blocked(r) && r.cpu.queue == s.cpu.queue && |r.disks| == |s.disks|
            && (forall i :: 0 <= i < |s.disks| ==> r.disks[i].queue == DiskComputeOne(s.disks[i]).queue)
  {
  }

  /** A tick in which the disks are visited without effect: the head of the first loaded disk is
      served, or there is one free slot less. */
  lemma PatienceAfterVisits(c: Conf, s: State, r: State)
    requires WfConf(c) && Safe(c, s) && Blocked(s) && Safe(c, r) && Blocked(r)
    requires CapacitySum(c.disks) >= c.cpuCapacity
    requires |r.cpu.queue| > |s.cpu.queue| ||
             (|r.cpu.queue| == |s.cpu.queue| && forall i :: 0 <= i < |s.disks| ==>
                !Finished(s.disks[i]) && r.disks[i].queue == DiskComputeOne(s.disks[i]).queue)
    ensures Patience(c, r) < Patience(c, s)
  {
    hide CpuSafe, DiskSafe, Blocked;
    BlockedMeansLoadedDisk(c, s);
    BlockedMeansLoadedDisk(c, r);
    CpuWithinCapacity(c, s);
    CpuWithinCapacity(c, r);
    if |r.cpu.queue| == |s.cpu.queue| {
      SameEmptiness(s.disks, r.disks);
    }
    PatienceDrops(c.cpuCapacity - |s.cpu.queue|, c.cpuCapacity - |r.cpu.queue|,
                  HeadBurst(s.disks), HeadBurst(r.disks), c.disk1Max);
  }

  /** The part of the tick up to the visits of the disks, while the CPU stays blocked. */
  lemma BlockedSchedule(c: Conf, s: State, ch: Choices)
    requires WfConf(c) && ValidChoices(c, ch) && Safe(c, s) && Blocked(s) && !SwapFires(c, s, ch)
    ensures var m := Schedule(c, s, ch);
            && Blocked(m) && m.cpu.queue[0] == s.cpu.queue[0] && |m.cpu.queue| >= |s.cpu.queue|
            && (|m.cpu.queue| == |s.cpu.queue| ==>
                  m.disks == s.disks && forall i :: 0 <= i < |s.disks| ==> !Finished(s.disks[i]))
  {
    hide Safe, UserActivity, VisitDisks;
    var s0 := s.(now := s.now + 1);
    ClockSafe(c, s);
    ArrivalKeepsHead(c, s0, ch);
    UserActivitySafe(c, s0, ch);
    VisitsWithoutSwap(c, UserActivity(c, s0, ch), ch, 0);
  }

  /** Every tick of a blocked CPU either swaps or uses up patience, and the same job keeps waiting. */
  lemma BlockedTick(c: Conf, s: State, ch: Choices)
    requires WfConf(c) && ValidChoices(c, ch) && Safe(c, s)
    requires Blocked(s) && CapacitySum(c.disks) >= c.cpuCapacity && !SwapFires(c, s, ch)
    ensures var r := Tick(c, s, ch);
            Blocked(r) && r.cpu.queue[0] == s.cpu.queue[0] && Patience(c, r) < Patience(c, s)
  {
    hide CpuSafe, DiskSafe, Schedule, RecordCommonStats, DiskCompute, CpuCompute, Patience, DiskComputeOne;
    BlockedSchedule(c, s, ch);
    BlockedRest(c, Schedule(c, s, ch), ch);
    TickSafe(c, s, ch);
    PatienceAfterVisits(c, s, Tick(c, s, ch));
  }

  // ---------- What the swap achieves ----------

  ghost predicate Holds(d: Device, id: nat) {
    exists k :: 0 <= k < |d.queue| && d.queue[k].val.id == id
  }

  lemma PushHolds(d: Device, job: JobVal, now: nat, burst: nat, id: nat)
    requires job.id == id || Holds(d, id)
    requires d.queue != [] ==> d.queue[0].priority <= now
    ensures var q := ArriveAtDisk(d, job, now, burst).queue;
            exists k :: 0 <= k < |q| && q[k].val.id == id && (job.id == id && d.queue != [] ==> k >= 1)
  {
    var e := Item(job.(arrival := now, burst := burst), now);
    var s := Slot(d.queue, now);
    var q := Push(d.queue, e);
    if job.id == id {
      assert q[s].val.id == id;
    } else {
      var k :| 0 <= k < |d.queue| && d.queue[k].val.id == id;
      assert q[if k < s then k else k + 1].val.id == id;
    }
  }

  lemma SwapPutsJobOnDisk(s: State, i: nat, returnBurst: nat, swapBurst: nat)
    requires i < |s.disks| && s.disks[i].queue != [] && s.cpu.queue != []
    requires s.disks[i].queue[0].priority <= s.now
    ensures Holds(Swap(s, i, returnBurst, swapBurst).disks[i], s.cpu.queue[0].val.id)
  {
    var job := s.cpu.queue[0].val;
    PushHolds(s.disks[i], job, s.now, swapBurst, job.id);
    var q := ArriveAtDisk(s.disks[i], job, s.now, swapBurst).queue;
    var k :| 0 <= k < |q| && q[k].val.id == job.id && k >= 1;
    assert q[1..][k - 1].val.id == job.id;
  }

  lemma {:induction false} LaterVisitsKeepDisk(c: Conf, s: State, ch: Choices, i: nat, j: nat)
    requires Shaped(c, s, ch) && i < j <= |s.disks|
    ensures VisitDisks(c, s, ch, j).disks[i] == s.disks[i]
    decreases |s.disks| - j
  {
    if j < |s.disks| {
      LaterVisitsKeepDisk(c, VisitDisk(c, s, ch, j), ch, i, j + 1);
    }
  }

  lemma {:induction false} SwapVisits(c: Conf, s: State, ch: Choices, j: nat) returns (i: nat)
    requires WfConf(c) && ValidChoices(c, ch) && Safe(c, s) && j <= |s.disks|
    requires Blocked(s) && SwapsFrom(c, s, ch, j)
    ensures i < |s.disks| && Holds(VisitDisks(c, s, ch, j).disks[i], s.cpu.queue[0].val.id)
    decreases |s.disks| - j
  {
    hide CpuSafe, Holds, Swap;
    if SwapsAt(c, s, j) {
      i := j;
      SwapPutsJobOnDisk(s, j, ch.returnBurst[j], ch.swapBurst[j]);
      LaterVisitsKeepDisk(c, VisitDisk(c, s, ch, j), ch, j, j + 1);
    } else {
      VisitWithoutSwap(c, s, ch, j);
      VisitDiskSafe(c, s, ch, j);
      i := SwapVisits(c, VisitDisk(c, s, ch, j), ch, j + 1);
    }
  }

  lemma CpuComputeHolds(c: Conf, s: State, ch: Choices, i: nat, id: nat)
    requires WfConf(c) && ValidChoices(c, ch) && Safe(c, s) && i < |s.disks| && Holds(s.disks[i], id)
    ensures Holds(CpuCompute(c, s, ch).disks[i], id)
  {
    hide Push, CpuSafe;
    if s.cpu.serving && s.cpu.queue != [] && !Finished(s.cpu) {
      var r := s.(cpu := s.cpu.(queue := DecrementHead(s.cpu.queue)));
      if Finished(r.cpu) && ch.quitDraw > c.quitProb {
        match PickBestDisk(c, r.disks)
        case None =>
        case Some(b) =>
          var job := r.cpu.queue[0].val;
          PushHolds(r.disks[b], job, s.now, ch.diskBurst[b], if b == i then id else job.id);
      }
    }
  }

  lemma FinishTickHolds(s: State, i: nat, id: nat)
    requires i < |s.disks| && Holds(s.disks[i], id)
    ensures Holds(RecordCommonStats(DiskCompute(s)).disks[i], id)
  {
    var k :| 0 <= k < |s.disks[i].queue| && s.disks[i].queue[k].val.id == id;
    assert DiskComputeOne(s.disks[i]).queue[k].val.id == id;
  }

  /** When the swap fires, the job that was waiting on the CPU ends the tick on a disk. */
  lemma SwappedJobReachesDisk(c: Conf, s: State, ch: Choices)
    requires WfConf(c) && ValidChoices(c, ch) && Safe(c, s) && Blocked(s) && SwapFires(c, s, ch)
    ensures exists i :: 0 <= i < |s.disks| && Holds(Tick(c, s, ch).disks[i], s.cpu.queue[0].val.id)
  {
    hide CpuSafe, DiskSafe, UserActivity, VisitDisks, CpuCompute, RecordCommonStats, DiskCompute, Holds;
    var s0 := s.(now := s.now + 1);
    ClockSafe(c, s);
    ArrivalKeepsHead(c, s0, ch);
    UserActivitySafe(c, s0, ch);
    var s1 := UserActivity(c, s0, ch);
    var i := SwapVisits(c, s1, ch, 0);
    ScheduleSafe(c, s, ch);
    var id := s.cpu.queue[0].val.id;
    CpuComputeHolds(c, Schedule(c, s, ch), ch, i, id);
    FinishTickHolds(CpuCompute(c, Schedule(c, s, ch), ch), i, id);
    assert Tick(c, s, ch) == RecordCommonStats(DiskCompute(CpuCompute(c, Schedule(c, s, ch), ch)));
    assert i < |s.disks|;
  }

  // ---------- Runs ----------

  lemma {:induction false} RunConcat(c: Conf, s: State, a: seq<Choices>, b: seq<Choices>)
    requires ValidRun(c, a) && ValidRun(c, b) && |s.disks| == |c.disks|
    ensures ValidRun(c, a + b) && Run(c, s, a + b) == Run(c, Run(c, s, a), b)
    decreases |b|
  {
    hide Tick;
    if b == [] {
      assert a + b == a;
    } else {
      var b' := b[..|b| - 1];
      RunConcat(c, s, a, b');
      assert (a + b)[..|a + b| - 1] == a + b';
    }
  }

  lemma RunFirst(c: Conf, s: State, ch: Choices, rest: seq<Choices>)
    requires ValidChoices(c, ch) && ValidRun(c, rest) && |s.disks| == |c.disks|
    ensures ValidRun(c, [ch]) && Run(c, s, [ch]) == Tick(c, s, ch)
    ensures ValidRun(c, [ch] + rest) && Run(c, s, [ch] + rest) == Run(c, Tick(c, s, ch), rest)
  {
    hide Tick;
    assert [ch][..0] == [];
    RunConcat(c, s, [ch], rest);
  }

  /** Tick number `k` of the run swaps, and until then the same job waits on the CPU. */
  ghost predicate UnblockedAt(c: Conf, s: State, run: seq<Choices>, k: nat)
    requires ValidRun(c, run) && |s.disks| == |c.disks| && k < |run|
    requires s.cpu.queue != []
  {
    && (forall j :: 0 <= j <= k ==>
          var r := Run(c, s, run[..j]);
          Blocked(r) && r.cpu.queue[0] == s.cpu.queue[0])
    && SwapFires(c, Run(c, s, run[..k]), run[k])
  }

  lemma PatienceNonNegative(c: Conf, s: State)
    requires Safe(c, s)
    ensures Patience(c, s) >= 0
  {
    assert (c.cpuCapacity - |s.cpu.queue|) * (c.disk1Max + 1) >= 0;
  }

  lemma {:induction false} Unblocks(c: Conf, s: State, run: seq<Choices>) returns (k: nat)
    requires WfConf(c) && ValidRun(c, run) && Safe(c, s)
    requires Blocked(s) && CapacitySum(c.disks) >= c.cpuCapacity && |run| > Patience(c, s) >= 0
    ensures k <= Patience(c, s) && UnblockedAt(c, s, run, k)
    decreases |run|
  {
    hide Tick, CpuSafe, DiskSafe, SwapFires, Patience;
    assert run[..0] == [];
    if SwapFires(c, s, run[0]) {
      k := 0;
    } else {
      var ch, rest := run[0], run[1..];
      var r := Tick(c, s, ch);
      BlockedTick(c, s, ch);
      TickSafe(c, s, ch);
      PatienceNonNegative(c, r);
      var k' := Unblocks(c, r, rest);
      k := k' + 1;
      forall j | 0 <= j <= k
        ensures var x := Run(c, s, run[..j]); Blocked(x) && x.cpu.queue[0] == s.cpu.queue[0]
        ensures j >= 1 ==> Run(c, s, run[..j]) == Run(c, r, rest[..j - 1])
      {
        if j >= 1 {
          assert run[..j] == [ch] + rest[..j - 1];
          RunFirst(c, s, ch, rest[..j - 1]);
        }
      }
      assert run[k] == rest[k'];
    }
  }

  /** Bounded unblocking. When the disks together have room for the whole CPU queue, a job that waits
      on the CPU for a disk is swapped onto one within (free CPU slots + 1) * (DISK1_MAX + 1) ticks,
      whatever is drawn and whoever arrives. */
  lemma BoundedUnblocking(c: Conf, s: State, run: seq<Choices>)
    requires WfConf(c) && ValidRun(c, run) && Reachable(c, s) && |s.disks| == |c.disks|
    requires Blocked(s) && CapacitySum(c.disks) >= c.cpuCapacity
    requires |run| >= (c.cpuCapacity - |s.cpu.queue| + 1) * (c.disk1Max + 1)
    ensures exists k: nat :: k < |run| && k < (c.cpuCapacity - |s.cpu.queue| + 1) * (c.disk1Max + 1)
                             && UnblockedAt(c, s, run, k)
  {
    hide Reachable, UnblockedAt, Run;
    ReachableSafe(c, s);
    BlockedMeansLoadedDisk(c, s);
    PatienceNonNegative(c, s);
    var free, d := c.cpuCapacity - |s.cpu.queue|, c.disk1Max;
    assert (free + 1) * (d + 1) == free * (d + 1) + (d + 1);
    var k := Unblocks(c, s, run);
  }

  // ---------- What the CPU records ----------

  lemma {:induction false} VisitsRecordNothing(c: Conf, s: State, ch: Choices, i: nat)
    requires Shaped(c, s, ch) && i <= |s.disks| && !SwapsFrom(c, s, ch, i)
    ensures VisitDisks(c, s, ch, i).cpu.telemetry == s.cpu.telemetry
    decreases |s.disks| - i
  {
    if i < |s.disks| {
      VisitsRecordNothing(c, VisitDisk(c, s, ch, i), ch, i + 1);
    }
  }

  lemma CpuComputeRecordsZero(c: Conf, s: State, ch: Choices)
    requires Shaped(c, s, ch)
    ensures CpuCompute(c, s, ch).cpu.telemetry.responseTimeSum == s.cpu.telemetry.responseTimeSum
  {
  }

  /** Only a swap records a response time for the CPU: ordinary departures record zero, since the arrival
      time has been reset by then, and terminations record nothing. */
  lemma OnlySwapsRecord(c: Conf, s: State, ch: Choices)
    requires Shaped(c, s, ch) && !SwapFires(c, s, ch)
    ensures Tick(c, s, ch).cpu.telemetry.responseTimeSum == s.cpu.telemetry.responseTimeSum
  {
    hide CpuCompute, VisitDisks, SwapsFrom;
    VisitsRecordNothing(c, UserActivity(c, s.(now := s.now + 1), ch), ch, 0);
    CpuComputeRecordsZero(c, Schedule(c, s, ch), ch);
  }
}
