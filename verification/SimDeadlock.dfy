/** Deadlock freedom with its exact condition: the simulation can get stuck iff the disks together have
    less room than the CPU queue. */
module SimDeadlock {
  import opened PriorityQueue
  import opened SimModel
  import opened SimSums
  import opened SimSafety
  import opened SimLiveness
  import opened SimOrder
  import opened Wrappers

  /** The CPU waits for a disk and no disk has a job that could trigger the swap. */
  ghost predicate Stuck(s: State) {
    Blocked(s) && forall i :: 0 <= i < |s.disks| ==> s.disks[i].queue == []
  }

  /** No job has moved, been served or been terminated between the two states. */
  ghost predicate SameJobs(a: State, b: State) {
    && a.cpu.queue == b.cpu.queue && a.terminated == b.terminated
    && |a.disks| == |b.disks|
    && forall i :: 0 <= i < |a.disks| ==> a.disks[i].queue == b.disks[i].queue
  }

  // ---------- With enough room: never stuck ----------

  lemma NeverStuck(c: Conf, s: State)
    requires Safe(c, s) && CapacitySum(c.disks) >= c.cpuCapacity
    ensures !Stuck(s)
  {
    if Stuck(s) {
      AllDisksEmpty(s.disks);
      QueueSumLoad(s.cpu.queue);
    }
  }

  // ---------- Stuck is for ever ----------

  lemma {:induction false} VisitsOfEmptyDisks(c: Conf, s: State, ch: Choices, i: nat)
    requires Shaped(c, s, ch) && i <= |s.disks|
    requires forall j :: 0 <= j < |s.disks| ==> s.disks[j].queue == []
    ensures VisitDisks(c, s, ch, i) == s
    decreases |s.disks| - i
  {
    if i < |s.disks| {
      VisitsOfEmptyDisks(c, s, ch, i + 1);
    }
  }

  lemma UserActivityEffect(c: Conf, s: State, ch: Choices)
    ensures var r := UserActivity(c, s, ch);
            r.cpu.serving == s.cpu.serving && r.terminated == s.terminated && r.now == s.now
  {
  }

  lemma StuckTick(c: Conf, s: State, ch: Choices)
    requires Shaped(c, s, ch) && Safe(c, s) && Stuck(s)
    ensures var s1 := UserActivity(c, s.(now := s.now + 1), ch);
            var r := Tick(c, s, ch);
            Stuck(r) && SameJobs(s1, r) && s.cpu.queue <= r.cpu.queue && s.terminated == r.terminated
  {
    hide UserActivity, CpuSafe, DiskSafe;
    var s1 := UserActivity(c, s.(now := s.now + 1), ch);
    ArrivalAppends(c, s, ch);
    UserActivityEffect(c, s.(now := s.now + 1), ch);
    VisitsOfEmptyDisks(c, s1, ch, 0);
  }

  /** A stuck simulation stays stuck: whatever is drawn, no job that is in the system ever moves again. */
  lemma {:induction false} StuckForever(c: Conf, s: State, run: seq<Choices>)
    requires WfConf(c) && ValidRun(c, run) && Safe(c, s) && Stuck(s)
    ensures var r := Run(c, s, run);
            Stuck(r) && s.cpu.queue <= r.cpu.queue && r.terminated == s.terminated
    decreases |run|
  {
    hide Tick, CpuSafe, DiskSafe, Stuck, SameJobs;
    if run != [] {
      var prefix, ch := run[..|run| - 1], run[|run| - 1];
      StuckForever(c, s, prefix);
      RunSafe(c, s, prefix);
      StuckTick(c, Run(c, s, prefix), ch);
    }
  }

  // ---------- Anything else moves ----------

  ghost predicate ArrivedAt(b: Queue, now: nat) {
    exists k :: 0 <= k < |b| && b[k].val.arrival == now
  }

  /** `b` is visibly not the queue `a` had: it is shorter or has a job that arrived in tick `now`. */
  ghost predicate Altered(a: Queue, b: Queue, now: nat) {
    |b| < |a| || ArrivedAt(b, now)
  }

  ghost predicate NothingToVisit(c: Conf, s: State, i: nat)
    requires i < |s.disks|
  {
    !Finished(s.disks[i]) || (|s.cpu.queue| >= c.cpuCapacity && !Blocked(s))
  }

  lemma SwapAlters(s: State, i: nat, returnBurst: nat, swapBurst: nat)
    requires i < |s.disks| && s.disks[i].queue != [] && s.cpu.queue != []
    requires s.disks[i].queue[0].priority <= s.now
    ensures ArrivedAt(Swap(s, i, returnBurst, swapBurst).disks[i].queue, s.now)
  {
    var e := Item(s.cpu.queue[0].val.(arrival := s.now, burst := swapBurst), s.now);
    var q := Push(s.disks[i].queue, e);
    var k := Slot(s.disks[i].queue, s.now);
    assert q[k] == e && k >= 1;
    assert q[1..][k - 1].val.arrival == s.now;
  }

  /** Visiting the disks changes nothing at all or visibly alters some disk. */
  lemma {:induction false} VisitsAlter(c: Conf, s: State, ch: Choices, i: nat)
    requires WfConf(c) && ValidChoices(c, ch) && Safe(c, s) && i <= |s.disks|
    ensures var r := VisitDisks(c, s, ch, i);
            || (r == s && forall j :: i <= j < |s.disks| ==> NothingToVisit(c, s, j))
            || exists j :: i <= j < |s.disks| && Altered(s.disks[j].queue, r.disks[j].queue, s.now)
    decreases |s.disks| - i
  {
    hide CpuSafe, ArrivedAt, Swap, UpdateResponseTime;
    if i < |s.disks| {
      var r := VisitDisks(c, s, ch, i);
      if NothingToVisit(c, s, i) {
        VisitsAlter(c, s, ch, i + 1);
      } else {
        LaterVisitsKeepDisk(c, VisitDisk(c, s, ch, i), ch, i, i + 1);
        if |s.cpu.queue| >= c.cpuCapacity {
          SwapAlters(s, i, ch.returnBurst[i], ch.swapBurst[i]);
        }
        assert Altered(s.disks[i].queue, r.disks[i].queue, s.now);
      }
    }
  }

  lemma PushArrives(d: Device, job: JobVal, now: nat, burst: nat)
    ensures ArrivedAt(ArriveAtDisk(d, job, now, burst).queue, now)
  {
    var e := Item(job.(arrival := now, burst := burst), now);
    assert Push(d.queue, e)[Slot(d.queue, now)] == e;
  }

  /** The CPU phase does not undo an alteration, and if the CPU can compute it makes one. */
  lemma CpuComputeAlters(c: Conf, s: State, ch: Choices)
    requires Shaped(c, s, ch)
    ensures var r := CpuCompute(c, s, ch);
            && (forall i :: 0 <= i < |s.disks| ==>
                  r.disks[i] == s.disks[i] || ArrivedAt(r.disks[i].queue, s.now))
            && (s.cpu.serving && s.cpu.queue != [] && !Finished(s.cpu) ==>
                  || r.cpu.queue != s.cpu.queue
                  || |r.terminated| > |s.terminated|
                  || exists i :: 0 <= i < |s.disks| && ArrivedAt(r.disks[i].queue, s.now))
  {
    hide ArrivedAt, ArriveAtDisk, PickBestDisk;
    if s.cpu.serving && s.cpu.queue != [] && !Finished(s.cpu) {
      var q := s.cpu.queue;
      var r := s.(cpu := s.cpu.(queue := DecrementHead(q)));
      assert r.cpu.queue[0].val.burst != q[0].val.burst;
      if Finished(r.cpu) && ch.quitDraw > c.quitProb {
        match PickBestDisk(c, r.disks)
        case None =>
        case Some(i) =>
          PushArrives(r.disks[i], r.cpu.queue[0].val, s.now, ch.diskBurst[i]);
          assert ArrivedAt(CpuCompute(c, s, ch).disks[i].queue, s.now);
      }
    }
  }

  lemma FinishTickEffect(s: State)
    ensures var r := RecordCommonStats(DiskCompute(s));
            && r.cpu.queue == s.cpu.queue && r.terminated == s.terminated && |r.disks| == |s.disks|
            && (forall i, now :: 0 <= i < |s.disks| && ArrivedAt(s.disks[i].queue, now) ==>
                  ArrivedAt(r.disks[i].queue, now))
            && (forall i :: 0 <= i < |s.disks| ==> |r.disks[i].queue| == |s.disks[i].queue|)
            && (forall i :: 0 <= i < |s.disks| && s.disks[i].queue != [] && !Finished(s.disks[i]) ==>
                  r.disks[i].queue[0].val.burst == s.disks[i].queue[0].val.burst - 1)
  {
    var r := RecordCommonStats(DiskCompute(s));
    forall i, now | 0 <= i < |s.disks| && ArrivedAt(s.disks[i].queue, now)
      ensures ArrivedAt(r.disks[i].queue, now)
    {
      var k :| 0 <= k < |s.disks[i].queue| && s.disks[i].queue[k].val.arrival == now;
      assert r.disks[i].queue[k].val.arrival == now;
    }
  }

  /** Jobs that were on the disks before this tick arrived before this tick. */
  ghost predicate OldDisks(s: State) {
    forall i :: 0 <= i < |s.disks| ==> !ArrivedAt(s.disks[i].queue, s.now)
  }

  lemma LoadedDisk(c: Conf, s: State) returns (i: nat)
    requires Safe(c, s) && Total(s, Load) > 0 && !Stuck(s) && (s.cpu.queue == [] || Finished(s.cpu))
    ensures i < |s.disks| && s.disks[i].queue != []
  {
    if s.cpu.queue == [] {
      i := SomeDiskLoaded(s.disks);
    } else {
      i :| 0 <= i < |s.disks| && s.disks[i].queue != [];
    }
  }

  /** The rest of a tick moves some job unless the simulation is stuck. */
  lemma RestMoves(c: Conf, s: State, ch: Choices)
    requires WfConf(c) && ValidChoices(c, ch) && Safe(c, s) && OldDisks(s)
    requires c.cpuCapacity >= 1 && Total(s, Load) > 0 && !Stuck(s)
    ensures !SameJobs(s, RecordCommonStats(DiskCompute(CpuCompute(c, CpuDetermineJob(c, s, ch), ch))))
  {
    hide RecordCommonStats, DiskCompute, CpuCompute, ArrivedAt, VisitDisks, DiskSafe;
    var v := VisitDisks(c, s, ch, 0);
    var m := CpuFetchNextJob(v);
    var x := CpuCompute(c, m, ch);
    VisitsAlter(c, s, ch, 0);
    VisitDisksKeepsTime(c, s, ch, 0);
    CpuComputeAlters(c, m, ch);
    FinishTickEffect(x);
    if v == s {
      assert m.disks == s.disks && m.cpu.queue == s.cpu.queue && m.terminated == s.terminated;
      if s.cpu.queue == [] || Finished(s.cpu) {
        var i := LoadedDisk(c, s);
        assert NothingToVisit(c, s, i);
        assert x.disks[i] == s.disks[i] || ArrivedAt(x.disks[i].queue, s.now);
      }
    }
  }

  lemma OldDisksAt(c: Conf, s: State)
    requires Safe(c, s)
    ensures OldDisks(s.(now := s.now + 1))
  {
  }

  lemma UserActivityNotStuck(c: Conf, s: State, ch: Choices)
    requires WfConf(c) && ValidChoices(c, ch) && Safe(c, s) && !Stuck(s)
    ensures var r := UserActivity(c, s.(now := s.now + 1), ch);
            !Stuck(r) && OldDisks(r)
  {
    hide DiskSafe, Push;
    var s0 := s.(now := s.now + 1);
    UserActivityEffect(c, s0, ch);
    if s.cpu.queue != [] {
      ClockSafe(c, s);
      ArrivalKeepsHead(c, s0, ch);
    }
    OldDisksAt(c, s);
  }

  /** Exact progress: once the arrival of a tick has been dealt with, the tick moves, serves or
      terminates some job iff the simulation is not stuck. */
  lemma ProgressIffNotStuck(c: Conf, s: State, ch: Choices)
    requires WfConf(c) && ValidChoices(c, ch) && Safe(c, s) && c.cpuCapacity >= 1
    requires Total(UserActivity(c, s.(now := s.now + 1), ch), Load) > 0
    ensures SameJobs(UserActivity(c, s.(now := s.now + 1), ch), Tick(c, s, ch)) <==> Stuck(s)
  {
    hide UserActivity, CpuDetermineJob, CpuCompute, DiskCompute, RecordCommonStats, SameJobs, CpuSafe, DiskSafe, Total,
         OldDisks;
    var s0 := s.(now := s.now + 1);
    if Stuck(s) {
      StuckTick(c, s, ch);
    } else {
      ClockSafe(c, s);
      UserActivitySafe(c, s0, ch);
      UserActivityNotStuck(c, s, ch);
      RestMoves(c, UserActivity(c, s0, ch), ch);
    }
  }
}
