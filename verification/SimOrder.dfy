/** Order of service: the CPU queue is a FIFO although it mixes two kinds of priorities, and each disk
    serves in nondecreasing order of arrival tick. */
module SimOrder {
  import opened PriorityQueue
  import opened SimModel
  import opened SimSums
  import opened SimSafety
  import opened SimLiveness
  import opened Wrappers

  // ---------- The CPU queue ----------

  /** A job that enters the system goes to the very end of the CPU queue. */
  lemma ArrivalAppends(c: Conf, s: State, ch: Choices)
    requires Safe(c, s)
    ensures var q := s.cpu.queue;
            var r := UserActivity(c, s.(now := s.now + 1), ch).cpu.queue;
            r == q || (exists job :: r == q + [Item(job, s.now + 1)] && job.arrival == job.entry == s.now + 1)
  {
    var s0 := s.(now := s.now + 1);
    var g := if s.upcoming.None? then GenerateJob(s0, ch) else s0;
    if g.upcoming.value.arrival <= g.now && |g.cpu.queue| < c.cpuCapacity {
      var job := g.upcoming.value.(arrival := s0.now, entry := s0.now);
      AppendsExactlyWhen(s.cpu.queue, s0.now);
      assert Push(s.cpu.queue, Item(job, s0.now)) == s.cpu.queue + [Item(job, s0.now)];
    }
  }

  ghost function Ids(q: Queue): (ids: seq<nat>)
    ensures |ids| == |q| && forall k :: 0 <= k < |q| ==> ids[k] == q[k].val.id
  {
    seq(|q|, k requires 0 <= k < |q| => q[k].val.id)
  }

  // What enters and what leaves the CPU queue, as the events of the tick have it.

  /** The job admitted in the tick after s. */
  ghost function Admitted(c: Conf, s: State, ch: Choices): seq<nat> {
    var g := if s.upcoming.None? then GenerateJob(s, ch) else s;
    if g.upcoming.value.arrival <= s.now + 1 && |s.cpu.queue| < c.cpuCapacity then [g.upcoming.value.id] else []
  }

  /** The finished job that disk i hands back to the CPU queue, if it does. */
  ghost function BackFrom(c: Conf, s: State, i: nat): seq<nat>
    requires i < |s.disks|
  {
    if Finished(s.disks[i]) && (|s.cpu.queue| < c.cpuCapacity || Blocked(s)) then [s.disks[i].queue[0].val.id] else []
  }

  /** The job on the CPU that is swapped to disk i, if one is. */
  ghost function SwappedTo(c: Conf, s: State, i: nat): seq<nat>
    requires i < |s.disks|
  {
    if SwapsAt(c, s, i) then [s.cpu.queue[0].val.id] else []
  }

  /** The finished heads of the disks from i on, in visiting order. */
  ghost function HandedBack(c: Conf, s: State, ch: Choices, i: nat): seq<nat>
    requires Shaped(c, s, ch) && i <= |s.disks|
    decreases |s.disks| - i
  {
    if i == |s.disks| then []
    else BackFrom(c, s, i) + HandedBack(c, VisitDisk(c, s, ch, i), ch, i + 1)
  }

  /** The jobs swapped from the CPU to the disks from i on. */
  ghost function SwappedOut(c: Conf, s: State, ch: Choices, i: nat): seq<nat>
    requires Shaped(c, s, ch) && i <= |s.disks|
    decreases |s.disks| - i
  {
    if i == |s.disks| then []
    else SwappedTo(c, s, i) + SwappedOut(c, VisitDisk(c, s, ch, i), ch, i + 1)
  }

  /** The job that uses up its burst and departs to a disk or is terminated. */
  ghost function Done(c: Conf, s: State, ch: Choices): seq<nat>
    requires |s.disks| == |c.disks|
  {
    if s.cpu.serving && s.cpu.queue != [] && s.cpu.queue[0].val.burst == 1
       && (ch.quitDraw <= c.quitProb || PickBestDisk(c, s.disks).Some?)
    then [s.cpu.queue[0].val.id]
    else []
  }

  ghost function TickIn(c: Conf, s: State, ch: Choices): seq<nat>
    requires Shaped(c, s, ch)
  {
    Admitted(c, s, ch) + HandedBack(c, UserActivity(c, s.(now := s.now + 1), ch), ch, 0)
  }

  ghost function TickOut(c: Conf, s: State, ch: Choices): seq<nat>
    requires Shaped(c, s, ch)
  {
    SwappedOut(c, UserActivity(c, s.(now := s.now + 1), ch), ch, 0) + Done(c, Schedule(c, s, ch), ch)
  }

  /** The jobs that enter the CPU queue during a run, in order. */
  ghost function RunIn(c: Conf, s: State, run: seq<Choices>): seq<nat>
    requires ValidRun(c, run) && |s.disks| == |c.disks|
    decreases |run|
  {
    if run == [] then []
    else RunIn(c, s, run[..|run| - 1]) + TickIn(c, Run(c, s, run[..|run| - 1]), run[|run| - 1])
  }

  /** The jobs that leave it, in order. */
  ghost function RunOut(c: Conf, s: State, run: seq<Choices>): seq<nat>
    requires ValidRun(c, run) && |s.disks| == |c.disks|
    decreases |run|
  {
    if run == [] then []
    else RunOut(c, s, run[..|run| - 1]) + TickOut(c, Run(c, s, run[..|run| - 1]), run[|run| - 1])
  }

  /** A queue p has become q: what entered stands behind p, and what left stood before q. */
  ghost predicate Served(p: Queue, entered: seq<nat>, left: seq<nat>, q: Queue) {
    Ids(p) + entered == left + Ids(q)
  }

  lemma ServedTwice(p: Queue, q: Queue, r: Queue, in0: seq<nat>, out0: seq<nat>, in1: seq<nat>, out1: seq<nat>)
    requires Served(p, in0, out0, q) && Served(q, in1, out1, r)
    ensures Served(p, in0 + in1, out0 + out1, r)
  {
    calc {
      Ids(p) + (in0 + in1);
      (Ids(p) + in0) + in1;
      (out0 + Ids(q)) + in1;
      out0 + (Ids(q) + in1);
      out0 + (out1 + Ids(r));
      (out0 + out1) + Ids(r);
    }
  }

  lemma ServedAppend(q: Queue, e: Item<JobVal>)
    ensures Served(q, [e.val.id], [], q + [e])
  {
    assert Ids(q + [e]) == Ids(q) + [e.val.id];
  }

  lemma ServedHead(q: Queue, r: Queue)
    requires q != [] && Ids(r) == Ids(q)
    ensures Served(q, [], [q[0].val.id], r[1..])
  {
    assert Ids(q) == [q[0].val.id] + Ids(r[1..]);
  }

  lemma ServedNothing(q: Queue, r: Queue)
    requires Ids(r) == Ids(q)
    ensures Served(q, [], [], r)
  {
  }

  /** How many jobs have left the CPU queue so far, as the program records it. */
  ghost function Departures(s: State): int {
    s.cpu.telemetry.responseCount + |s.terminated|
  }

  lemma PushToCpuAppends(c: Conf, s: State, e: Item<JobVal>)
    requires Safe(c, s) && e.priority == s.now + 1
    ensures Push(s.cpu.queue, e) == s.cpu.queue + [e]
  {
    AppendsExactlyWhen(s.cpu.queue, e.priority);
  }

  lemma ArrivalServed(c: Conf, s: State, ch: Choices)
    requires Safe(c, s)
    ensures var r := UserActivity(c, s.(now := s.now + 1), ch);
            Served(s.cpu.queue, Admitted(c, s, ch), [], r.cpu.queue) && Departures(r) == Departures(s)
  {
    hide Served, Push, Safe;
    var s0 := s.(now := s.now + 1);
    var g := if s.upcoming.None? then GenerateJob(s0, ch) else s0;
    if g.upcoming.value.arrival <= g.now && |g.cpu.queue| < c.cpuCapacity {
      var e := Item(g.upcoming.value.(arrival := s0.now, entry := s0.now), s0.now);
      PushToCpuAppends(c, s, e);
      ServedAppend(s.cpu.queue, e);
    } else {
      ServedNothing(s.cpu.queue, s.cpu.queue);
    }
  }

  lemma HeadStaysOnDisk(c: Conf, s: State, i: nat, e: Item<JobVal>)
    requires Safe(c, s) && i < |s.disks| && s.disks[i].queue != [] && e.priority == s.now
    ensures |Push(s.disks[i].queue, e)| > 0 && Push(s.disks[i].queue, e)[0] == s.disks[i].queue[0]
  {
    assert DiskSafe(c, i, c.disks[i].capacity, s.disks[i], s.now);
    PushKeepsHead(s.disks[i].queue, e);
  }

  lemma VisitServed(c: Conf, s: State, ch: Choices, i: nat)
    requires Safe(c, s) && Shaped(c, s, ch) && i < |s.disks|
    ensures var r := VisitDisk(c, s, ch, i);
            && Served(s.cpu.queue, BackFrom(c, s, i), SwappedTo(c, s, i), r.cpu.queue)
            && Departures(r) == Departures(s) + |SwappedTo(c, s, i)|
  {
    hide Served, Push, Safe;
    var q := s.cpu.queue;
    if BackFrom(c, s, i) == [] {
      ServedNothing(q, q);
    } else if |q| < c.cpuCapacity {
      ServedAppend(q, Item(s.disks[i].queue[0].val.(burst := ch.returnBurst[i]), 0));
    } else {
      HeadStaysOnDisk(c, s, i, Item(q[0].val.(arrival := s.now, burst := ch.swapBurst[i]), s.now));
      var e := Item(s.disks[i].queue[0].val.(burst := ch.returnBurst[i]), 0);
      ServedHead(q, q);
      ServedAppend(q[1..], e);
      ServedTwice(q, q[1..], q[1..] + [e], [], [q[0].val.id], [e.val.id], []);
      assert [] + [e.val.id] == [e.val.id] && [q[0].val.id] + [] == [q[0].val.id];
    }
  }

  lemma {:induction false} VisitsServed(c: Conf, s: State, ch: Choices, i: nat)
    requires WfConf(c) && ValidChoices(c, ch) && Safe(c, s) && Shaped(c, s, ch) && i <= |s.disks|
    ensures var r := VisitDisks(c, s, ch, i);
            && Served(s.cpu.queue, HandedBack(c, s, ch, i), SwappedOut(c, s, ch, i), r.cpu.queue)
            && Departures(r) == Departures(s) + |SwappedOut(c, s, ch, i)|
    decreases |s.disks| - i
  {
    hide Served, Safe, VisitDisk, SwappedTo, BackFrom, WfConf, ValidChoices, Departures;
    if i == |s.disks| {
      ServedNothing(s.cpu.queue, s.cpu.queue);
    } else {
      var m := VisitDisk(c, s, ch, i);
      VisitServed(c, s, ch, i);
      VisitDiskSafe(c, s, ch, i);
      VisitsServed(c, m, ch, i + 1);
      ServedTwice(s.cpu.queue, m.cpu.queue, VisitDisks(c, m, ch, i + 1).cpu.queue,
                  BackFrom(c, s, i), SwappedTo(c, s, i), HandedBack(c, m, ch, i + 1), SwappedOut(c, m, ch, i + 1));
    }
  }

  lemma CpuComputeServed(c: Conf, s: State, ch: Choices)
    requires Shaped(c, s, ch)
    ensures var r := CpuCompute(c, s, ch);
            && Served(s.cpu.queue, [], Done(c, s, ch), r.cpu.queue)
            && Departures(r) == Departures(s) + |Done(c, s, ch)|
  {
    var q := s.cpu.queue;
    ServedNothing(q, q);
    if s.cpu.serving && q != [] && !Finished(s.cpu) {
      var q' := DecrementHead(q);
      assert Ids(q') == Ids(q);
      ServedNothing(q, q');
      if q'[0].val.burst == 0 {
        ServedHead(q, q');
        match PickBestDisk(c, s.disks)
        case None =>
        case Some(i) =>
          var job := q'[0].val.(arrival := s.now, burst := ch.diskBurst[i]);
          assert Ids(SetHead(q', job)) == Ids(q);
          ServedHead(q, SetHead(q', job));
      }
    }
  }

  lemma FetchServed(s: State)
    ensures CpuFetchNextJob(s).cpu.queue == s.cpu.queue && Departures(CpuFetchNextJob(s)) == Departures(s)
  {
  }

  lemma FinishTickServed(s: State)
    ensures var r := RecordCommonStats(DiskCompute(s)); r.cpu.queue == s.cpu.queue && Departures(r) == Departures(s)
  {
  }

  lemma TickServed(c: Conf, s: State, ch: Choices)
    requires WfConf(c) && ValidChoices(c, ch) && Safe(c, s) && Shaped(c, s, ch)
    ensures var r := Tick(c, s, ch);
            && Served(s.cpu.queue, TickIn(c, s, ch), TickOut(c, s, ch), r.cpu.queue)
            && Departures(r) == Departures(s) + |TickOut(c, s, ch)|
  {
    hide Served, CpuSafe, DiskSafe, UserActivity, VisitDisks, CpuCompute, CpuFetchNextJob, DiskCompute,
         RecordCommonStats, Departures, Admitted, HandedBack, SwappedOut, Done, WfConf, ValidChoices, Crowded;
    var s1 := UserActivity(c, s.(now := s.now + 1), ch);
    ArrivalServed(c, s, ch);
    ClockSafe(c, s);
    UserActivitySafe(c, s.(now := s.now + 1), ch);
    VisitsServed(c, s1, ch, 0);
    var s2 := VisitDisks(c, s1, ch, 0);
    FetchServed(s2);
    var s3 := CpuDetermineJob(c, s1, ch);
    CpuComputeServed(c, s3, ch);
    var s4 := CpuCompute(c, s3, ch);
    FinishTickServed(s4);
    var handed, swapped := HandedBack(c, s1, ch, 0), SwappedOut(c, s1, ch, 0);
    ServedTwice(s.cpu.queue, s1.cpu.queue, s2.cpu.queue, Admitted(c, s, ch), [], handed, swapped);
    ServedTwice(s.cpu.queue, s2.cpu.queue, s4.cpu.queue, Admitted(c, s, ch) + handed, [] + swapped,
                [], Done(c, s3, ch));
    assert Admitted(c, s, ch) + handed + [] == TickIn(c, s, ch);
    assert [] + swapped + Done(c, s3, ch) == TickOut(c, s, ch);
  }

  /** Over any run the CPU queue is a FIFO: the jobs it held and those that enter it, in the order of the events
      that admit and hand them back, are the jobs that leave it, in the order of the events that swap them,
      send them to a disk or terminate them, followed by those it still holds. The jobs that leave are as many
      as the response times and terminations that the program records. */
  lemma {:induction false} CpuQueueIsFifo(c: Conf, s: State, run: seq<Choices>)
    requires WfConf(c) && ValidRun(c, run) && Safe(c, s)
    ensures var r := Run(c, s, run);
            && Ids(s.cpu.queue) + RunIn(c, s, run) == RunOut(c, s, run) + Ids(r.cpu.queue)
            && |RunOut(c, s, run)|
            == (r.cpu.telemetry.responseCount + |r.terminated|) - (s.cpu.telemetry.responseCount + |s.terminated|)
    decreases |run|
  {
    hide CpuSafe, DiskSafe, Tick, TickIn, TickOut, Ids;
    if run == [] {
      assert Ids(s.cpu.queue) + [] == [] + Ids(s.cpu.queue);
    } else {
      var prefix, ch := run[..|run| - 1], run[|run| - 1];
      CpuQueueIsFifo(c, s, prefix);
      RunSafe(c, s, prefix);
      var m := Run(c, s, prefix);
      TickServed(c, m, ch);
      ServedTwice(s.cpu.queue, m.cpu.queue, Tick(c, m, ch).cpu.queue, RunIn(c, s, prefix), RunOut(c, s, prefix),
                  TickIn(c, m, ch), TickOut(c, m, ch));
    }
  }

  // ---------- The disk queues ----------

  /** Every job queued at the disk arrived at tick `since` or later. */
  ghost predicate ArrivedSince(d: Device, since: nat) {
    forall k :: 0 <= k < |d.queue| ==> d.queue[k].val.arrival >= since
  }

  lemma ArriveSince(d: Device, job: JobVal, now: nat, burst: nat, since: nat)
    requires ArrivedSince(d, since) && since <= now
    ensures ArrivedSince(ArriveAtDisk(d, job, now, burst), since)
  {
    var e := Item(job.(arrival := now, burst := burst), now);
    var r := Push(d.queue, e);
    var s := Slot(d.queue, now);
    forall k | 0 <= k < |r| ensures r[k].val.arrival >= since {
      assert r[k] == if k < s then d.queue[k] else if k == s then e else d.queue[k - 1];
    }
  }

  lemma RemoveSince(d: Device, now: nat, since: nat)
    requires d.queue != [] && ArrivedSince(d, since)
    ensures ArrivedSince(RemoveHead(d, now), since)
  {
  }

  lemma VisitDiskSince(c: Conf, s: State, ch: Choices, j: nat, i: nat, since: nat)
    requires Shaped(c, s, ch) && j < |s.disks| && i < |s.disks|
    requires ArrivedSince(s.disks[i], since) && since <= s.now
    ensures VisitDisk(c, s, ch, j).now == s.now && ArrivedSince(VisitDisk(c, s, ch, j).disks[i], since)
  {
    hide ArrivedSince, ArriveAtDisk;
    if i == j && Finished(s.disks[i]) {
      if |s.cpu.queue| < c.cpuCapacity {
        RemoveSince(s.disks[i], s.now, since);
      } else if Blocked(s) {
        var job := s.cpu.queue[0].val;
        ArriveSince(s.disks[i], job, s.now, ch.swapBurst[i], since);
        RemoveSince(ArriveAtDisk(s.disks[i], job, s.now, ch.swapBurst[i]), s.now, since);
      }
    }
  }

  lemma {:induction false} VisitDisksSince(c: Conf, s: State, ch: Choices, j: nat, i: nat, since: nat)
    requires Shaped(c, s, ch) && j <= |s.disks| && i < |s.disks|
    requires ArrivedSince(s.disks[i], since) && since <= s.now
    ensures ArrivedSince(VisitDisks(c, s, ch, j).disks[i], since)
    decreases |s.disks| - j
  {
    if j < |s.disks| {
      VisitDiskSince(c, s, ch, j, i, since);
      VisitDisksSince(c, VisitDisk(c, s, ch, j), ch, j + 1, i, since);
    }
  }

  lemma CpuComputeSince(c: Conf, s: State, ch: Choices, i: nat, since: nat)
    requires Shaped(c, s, ch) && i < |s.disks|
    requires ArrivedSince(s.disks[i], since) && since <= s.now
    ensures ArrivedSince(CpuCompute(c, s, ch).disks[i], since)
  {
    hide Push;
    if s.cpu.serving && s.cpu.queue != [] && !Finished(s.cpu) {
      var job := DecrementHead(s.cpu.queue)[0].val;
      ArriveSince(s.disks[i], job, s.now, ch.diskBurst[i], since);
    }
  }

  lemma UserActivityTime(c: Conf, s: State, ch: Choices)
    ensures UserActivity(c, s, ch).now == s.now
  {
  }

  lemma FinishTickSince(s: State, i: nat, since: nat)
    requires i < |s.disks| && ArrivedSince(s.disks[i], since)
    ensures ArrivedSince(RecordCommonStats(DiskCompute(s)).disks[i], since)
  {
  }

  lemma TickSince(c: Conf, s: State, ch: Choices, i: nat, since: nat)
    requires Shaped(c, s, ch) && i < |s.disks|
    requires ArrivedSince(s.disks[i], since) && since <= s.now
    ensures ArrivedSince(Tick(c, s, ch).disks[i], since)
  {
    hide ArrivedSince, UserActivity, VisitDisks, CpuCompute;
    var s1 := UserActivity(c, s.(now := s.now + 1), ch);
    UserActivityTime(c, s.(now := s.now + 1), ch);
    VisitDisksSince(c, s1, ch, 0, i, since);
    VisitDisksKeepsTime(c, s1, ch, 0);
    var s2 := CpuDetermineJob(c, s1, ch);
    CpuComputeSince(c, s2, ch, i, since);
    FinishTickSince(CpuCompute(c, s2, ch), i, since);
  }

  /** Over any run a disk never serves a job that arrived there earlier than its head did at the start:
      its services are in nondecreasing order of arrival tick. */
  lemma {:induction false} DiskServesInArrivalOrder(c: Conf, s: State, run: seq<Choices>, i: nat)
    requires WfConf(c) && ValidRun(c, run) && Safe(c, s) && i < |s.disks| && s.disks[i].queue != []
    ensures ArrivedSince(Run(c, s, run).disks[i], s.disks[i].queue[0].val.arrival)
    decreases |run|
  {
    hide Tick, CpuSafe;
    if run == [] {
      assert forall k :: 0 <= k < |s.disks[i].queue| ==>
          s.disks[i].queue[0].priority <= s.disks[i].queue[k].priority;
    } else {
      var prefix, ch := run[..|run| - 1], run[|run| - 1];
      DiskServesInArrivalOrder(c, s, prefix, i);
      RunSafe(c, s, prefix);
      TickSince(c, Run(c, s, prefix), ch, i, s.disks[i].queue[0].val.arrival);
    }
  }
}
