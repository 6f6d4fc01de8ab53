/** What becomes of the jobs in a tick, written out field by field: who arrives and when, what a visit to a disk
    moves, which burst is used up, and which job terminates, departs or waits. */
module SimFate {
  import opened PriorityQueue
  import opened SimModel
  import opened SimSums
  import opened SimSafety
  import opened SimLaws
  import opened Wrappers

  // ---------- Arrivals ----------

  /** The job that waits for admission in the tick after s. */
  ghost function NextJob(s: State, ch: Choices): JobVal {
    if s.upcoming.Some? then s.upcoming.value
    else JobVal(s.jobCount, s.lastArrival + ch.gap, ch.newBurst, 0)
  }

  lemma PushAtEnd(q: Queue, e: Item<JobVal>)
    ensures Slot(q, e.priority) == |q| ==> Push(q, e) == q + [e]
  {
  }

  /** A new job is made in the tick exactly when none is waiting: it gets the next id, arrives one gap after
      its predecessor and brings the burst drawn. It is admitted in the first tick in which it is due and the
      CPU queue has room, stamped with that tick, behind all others. */
  lemma ArrivalExactly(c: Conf, s: State, ch: Choices)
    requires Safe(c, s)
    ensures var job, t := NextJob(s, ch), s.now + 1;
            var r := UserActivity(c, s.(now := t), ch);
            var due := job.arrival <= t && |s.cpu.queue| < c.cpuCapacity;
            && r.now == t && r.disks == s.disks && r.terminated == s.terminated
            && r.jobCount == s.jobCount + (if s.upcoming.None? then 1 else 0)
            && r.lastArrival == s.lastArrival + (if s.upcoming.None? then ch.gap else 0)
            && r.upcoming == (if due then None else Some(job))
            && r.cpu == (if due then s.cpu.(queue := s.cpu.queue + [Item(JobVal(job.id, t, job.burst, t), t)])
                         else s.cpu)
  {
    hide Push;
    AppendsExactlyWhen(s.cpu.queue, s.now + 1);
    var job := NextJob(s, ch);
    var e := Item(JobVal(job.id, s.now + 1, job.burst, s.now + 1), s.now + 1);
    PushAtEnd(s.cpu.queue, e);
  }

  // ---------- A visit to a disk ----------

  /** What one turn of the loop over the disks does, case by case. */
  lemma VisitExactly(c: Conf, s: State, ch: Choices, i: nat)
    requires Safe(c, s) && Shaped(c, s, ch) && i < |s.disks|
    ensures var d, q, r := s.disks[i], s.cpu.queue, VisitDisk(c, s, ch, i);
            && (d.queue == [] || d.queue[0].val.burst > 0 ==> r == s)
            && (d.queue != [] && d.queue[0].val.burst == 0 ==>
                  var h := d.queue[0].val;
                  var back := Item(JobVal(h.id, h.arrival, ch.returnBurst[i], h.entry), 0);
                  if |q| < c.cpuCapacity then
                    && r.cpu == s.cpu.(queue := q + [back])
                    && r.disks[i].queue == d.queue[1..] && !r.disks[i].serving
                  else if s.cpu.serving && q != [] && q[0].val.burst == 0 then
                    var w := Item(JobVal(q[0].val.id, s.now, ch.swapBurst[i], q[0].val.entry), s.now);
                    && r.cpu.queue == q[1..] + [back] && !r.cpu.serving
                    && Push(d.queue, w)[0] == d.queue[0]
                    && r.disks[i].queue == Push(d.queue, w)[1..] && !r.disks[i].serving
                  else
                    r == s)
            && (forall j :: 0 <= j < |s.disks| && j != i ==> r.disks[j] == s.disks[j])
            && r.(cpu := s.cpu, disks := s.disks) == s
  {
    hide Push, CpuSafe, Sorted;
    var d := s.disks[i];
    assert DiskSafe(c, i, c.disks[i].capacity, d, s.now);
    if Finished(d) && |s.cpu.queue| >= c.cpuCapacity && Blocked(s) {
      var w := s.cpu.queue[0].val;
      PushKeepsHead(d.queue, Item(w.(arrival := s.now, burst := ch.swapBurst[i]), s.now));
    }
  }

  // ---------- The rest of the tick ----------

  /** A queue whose head has been served for one tick. */
  ghost function Worked(q: Queue): (r: Queue)
    ensures |r| == |q|
  {
    if q != [] && q[0].val.burst > 0 then
      var h := q[0].val;
      [Item(JobVal(h.id, h.arrival, h.burst - 1, h.entry), q[0].priority)] + q[1..]
    else
      q
  }

  /** Every disk has served its head, and has a current job exactly when it has a job. */
  ghost predicate DisksWork(ds: seq<Device>, es: seq<Device>) {
    && |es| == |ds|
    && (forall i :: 0 <= i < |ds| ==> es[i].queue == Worked(ds[i].queue))
    && (forall i :: 0 <= i < |ds| ==> (es[i].serving <==> es[i].queue != []))
  }

  /** The job on the CPU is about to use up its burst. */
  ghost predicate Finishing(m: State) {
    m.cpu.queue != [] && m.cpu.queue[0].val.burst == 1
  }

  ghost predicate AllFull(c: Conf, ds: seq<Device>)
    requires |ds| == |c.disks|
  {
    forall i :: 0 <= i < |ds| ==> |ds[i].queue| >= c.disks[i].capacity
  }

  /** Disk i has room, no disk with room has a shorter queue, and none before it one as short. */
  ghost predicate ShortestWithRoom(c: Conf, ds: seq<Device>, i: nat)
    requires |ds| == |c.disks|
  {
    && i < |ds| && |ds[i].queue| < c.disks[i].capacity
    && (forall j :: 0 <= j < |ds| && |ds[j].queue| < c.disks[j].capacity ==> |ds[i].queue| <= |ds[j].queue|)
    && (forall j :: 0 <= j < i && |ds[j].queue| < c.disks[j].capacity ==> |ds[i].queue| < |ds[j].queue|)
  }

  ghost function WithJob(ds: seq<Device>, i: nat, e: Item<JobVal>): seq<Device>
    requires i < |ds|
  {
    ds[i := ds[i].(queue := Push(ds[i].queue, e))]
  }

  /** The fate of the job on the CPU: m is the state in which the tick starts to compute, r has its CPU and its
      terminated jobs afterwards, ds the disks before they serve their heads. A job that uses up its burst
      terminates when the draw says so; otherwise it goes to the shortest disk with room, or still heads the CPU
      queue when there is none. */
  ghost predicate Fate(c: Conf, m: State, ch: Choices, r: State, ds: seq<Device>)
    requires |m.disks| == |c.disks| == |ch.diskBurst|
  {
    var q := m.cpu.queue;
    if !Finishing(m) then
      r.terminated == m.terminated && r.cpu.queue == Worked(q) && (r.cpu.serving <==> q != []) && ds == m.disks
    else
      var h := q[0].val;
      if ch.quitDraw <= c.quitProb then
        && r.terminated == m.terminated + [Departure(JobVal(h.id, h.arrival, 0, h.entry), m.now)]
        && r.cpu.queue == q[1..] && !r.cpu.serving && ds == m.disks
      else if AllFull(c, m.disks) then
        && r.terminated == m.terminated
        && r.cpu.queue == [Item(JobVal(h.id, h.arrival, 0, h.entry), q[0].priority)] + q[1..] && r.cpu.serving
        && ds == m.disks
      else
        && r.terminated == m.terminated
        && r.cpu.queue == q[1..] && !r.cpu.serving
        && (exists i: nat :: ShortestWithRoom(c, m.disks, i)
              && ds == WithJob(m.disks, i, Item(JobVal(h.id, m.now, ch.diskBurst[i], h.entry), m.now)))
  }

  lemma DiskWorks(c: Conf, i: nat, d: Device, now: nat)
    requires WfConf(c) && i < |c.disks| && DiskSafe(c, i, c.disks[i].capacity, d, now)
    ensures var r := RecordDevice(DiskComputeOne(d));
            r.queue == Worked(d.queue) && (r.serving <==> r.queue != [])
  {
  }

  lemma TickEnds(c: Conf, s: State)
    requires WfConf(c) && Safe(c, s)
    ensures var r := RecordCommonStats(DiskCompute(s));
            && DisksWork(s.disks, r.disks) && r.cpu.queue == s.cpu.queue && r.cpu.serving == s.cpu.serving
            && r.terminated == s.terminated && r.upcoming == s.upcoming && r.jobCount == s.jobCount
            && r.lastArrival == s.lastArrival
  {
    hide Worked, DiskSafe, CpuSafe, DiskComputeOne, Crowded;
    forall i | 0 <= i < |s.disks| ensures
        var r := RecordDevice(DiskComputeOne(s.disks[i]));
        r.queue == Worked(s.disks[i].queue) && (r.serving <==> r.queue != []) {
      DiskWorks(c, i, s.disks[i], s.now);
    }
  }

  lemma PicksShortest(c: Conf, m: State)
    requires WfConf(c) && Safe(c, m)
    ensures var b := PickBestDisk(c, m.disks);
            (b.None? <==> AllFull(c, m.disks)) && (b.Some? ==> ShortestWithRoom(c, m.disks, b.value))
  {
    PickBestDiskIsShortest(c, m.disks);
  }

  lemma ComputesExactly(c: Conf, m: State, ch: Choices)
    requires WfConf(c) && ValidChoices(c, ch) && Safe(c, m) && (m.cpu.serving <==> m.cpu.queue != [])
    ensures var r := CpuCompute(c, m, ch); Fate(c, m, ch, r, r.disks)
  {
    hide Push, PickBestDisk, DiskSafe, Crowded, AllFull, ShortestWithRoom;
    PicksShortest(c, m);
  }

  lemma ScheduleFetches(c: Conf, s: State, ch: Choices)
    requires WfConf(c) && ValidChoices(c, ch) && Safe(c, s)
    ensures var m := Schedule(c, s, ch); m.cpu.serving <==> m.cpu.queue != []
  {
    hide VisitDisks, UserActivity, DiskSafe;
    ScheduleSafe(c, s, ch);
  }

  lemma {:induction false} VisitsKeepArrivals(c: Conf, s: State, ch: Choices, i: nat)
    requires Shaped(c, s, ch) && i <= |s.disks|
    ensures var r := VisitDisks(c, s, ch, i);
            && r.terminated == s.terminated && r.upcoming == s.upcoming && r.jobCount == s.jobCount
            && r.lastArrival == s.lastArrival
    decreases |s.disks| - i
  {
    if i < |s.disks| {
      VisitsKeepArrivals(c, VisitDisk(c, s, ch, i), ch, i + 1);
    }
  }

  lemma ArrivalKeepsTerminated(c: Conf, s: State, ch: Choices)
    ensures UserActivity(c, s.(now := s.now + 1), ch).terminated == s.terminated
  {
  }

  /** In every tick of every safe state the fate of the job on the CPU is as stated, and every disk serves
      its head. */
  lemma TickFate(c: Conf, s: State, ch: Choices)
    requires WfConf(c) && ValidChoices(c, ch) && Safe(c, s)
    ensures var m, r := Schedule(c, s, ch), Tick(c, s, ch);
            && m.now == s.now + 1 && m.terminated == s.terminated && (m.cpu.serving <==> m.cpu.queue != [])
            && exists ds :: Fate(c, m, ch, r, ds) && DisksWork(ds, r.disks)
  {
    hide CpuSafe, DiskSafe, Crowded, DisksWork, Worked, WithJob, AllFull, ShortestWithRoom, UserActivity, VisitDisks,
         CpuCompute, RecordCommonStats, DiskCompute;
    var m := Schedule(c, s, ch);
    ScheduleSafe(c, s, ch);
    ScheduleTakesOneTick(c, s, ch);
    ScheduleFetches(c, s, ch);
    ArrivalKeepsTerminated(c, s, ch);
    VisitsKeepArrivals(c, UserActivity(c, s.(now := s.now + 1), ch), ch, 0);
    ComputesExactly(c, m, ch);
    CpuComputeSafe(c, m, ch);
    var w := CpuCompute(c, m, ch);
    TickEnds(c, w);
    assert Fate(c, m, ch, Tick(c, s, ch), w.disks);
  }

  // ---------- Over runs: who terminates ----------

  /** What the tick after s terminates, read off the state in which it starts to compute. */
  ghost function Killing(c: Conf, s: State, ch: Choices): seq<Departure>
    requires Shaped(c, s, ch)
  {
    var m := Schedule(c, s, ch);
    if Finishing(m) && ch.quitDraw <= c.quitProb then
      var h := m.cpu.queue[0].val;
      [Departure(JobVal(h.id, h.arrival, 0, h.entry), s.now + 1)]
    else
      []
  }

  ghost function Killings(c: Conf, s: State, run: seq<Choices>): seq<Departure>
    requires ValidRun(c, run) && |s.disks| == |c.disks|
    decreases |run|
  {
    if run == [] then []
    else Killings(c, s, run[..|run| - 1]) + Killing(c, Run(c, s, run[..|run| - 1]), run[|run| - 1])
  }

  lemma TickKills(c: Conf, s: State, ch: Choices)
    requires WfConf(c) && ValidChoices(c, ch) && Safe(c, s)
    ensures Tick(c, s, ch).terminated == s.terminated + Killing(c, s, ch)
  {
    hide Safe, DisksWork, Worked, WithJob, AllFull, ShortestWithRoom, Schedule, Tick;
    TickFate(c, s, ch);
  }

  /** The jobs terminated in a run are exactly those that use up their burst in a tick whose draw says so,
      in that order and with those ticks. */
  lemma {:induction false} TerminatesExactly(c: Conf, s: State, run: seq<Choices>)
    requires WfConf(c) && ValidRun(c, run) && Safe(c, s)
    ensures Run(c, s, run).terminated == s.terminated + Killings(c, s, run)
    decreases |run|
  {
    hide CpuSafe, DiskSafe, Crowded, Tick, Killing;
    if run == [] {
    } else {
      var prefix, ch := run[..|run| - 1], run[|run| - 1];
      TerminatesExactly(c, s, prefix);
      RunSafe(c, s, prefix);
      var m := Run(c, s, prefix);
      TickKills(c, m, ch);
      assert s.terminated + Killings(c, s, prefix) + Killing(c, m, ch) == s.terminated + Killings(c, s, run);
    }
  }

  // ---------- A terminated job is nowhere else ----------

  ghost predicate Queued(q: Queue, id: nat) {
    exists k :: 0 <= k < |q| && q[k].val.id == id
  }

  lemma {:induction false} KilledNonNegative(ts: seq<Departure>, id: nat)
    ensures Killed(ts, id) >= 0
    decreases |ts|
  {
    if ts != [] {
      KilledNonNegative(ts[..|ts| - 1], id);
    }
  }

  lemma {:induction false} KilledCounts(ts: seq<Departure>, k: nat)
    requires k < |ts|
    ensures Killed(ts, ts[k].job.id) >= 1
    decreases |ts|
  {
    KilledNonNegative(ts[..|ts| - 1], ts[k].job.id);
    if k < |ts| - 1 {
      KilledCounts(ts[..|ts| - 1], k);
    }
  }

  lemma {:induction false} DiskSumAtLeast(ds: seq<Device>, id: nat)
    ensures DiskSum(ds, Occurrences(id)) >= 0
    ensures forall i :: 0 <= i < |ds| && Queued(ds[i].queue, id) ==> DiskSum(ds, Occurrences(id)) >= 1
  {
    if ds != [] {
      DiskSumAtLeast(ds[1..], id);
      OccurrencesNonNegative(ds[0].queue, id);
      forall i | 0 <= i < |ds| && Queued(ds[i].queue, id) ensures DiskSum(ds, Occurrences(id)) >= 1 {
        if i == 0 {
          var k :| 0 <= k < |ds[0].queue| && ds[0].queue[k].val.id == id;
          QueueSumOccurs(ds[0].queue, k, id);
        } else {
          assert Queued(ds[1..][i - 1].queue, id);
        }
      }
    }
  }

  lemma QueuedOccurs(q: Queue, id: nat)
    requires Queued(q, id)
    ensures QueueSum(q, Occurrences(id)) >= 1
  {
    var k :| 0 <= k < |q| && q[k].val.id == id;
    QueueSumOccurs(q, k, id);
  }

  /** In every reachable state a terminated job is in no queue, and nobody else has its id. */
  lemma TerminatedIsGone(c: Conf, s: State, k: nat)
    requires WfConf(c) && Reachable(c, s) && k < |s.terminated|
    ensures var id := s.terminated[k].job.id;
            && id < s.jobCount && !Queued(s.cpu.queue, id)
            && (forall i :: 0 <= i < |s.disks| ==> !Queued(s.disks[i].queue, id))
            && (s.upcoming.Some? ==> s.upcoming.value.id != id)
  {
    hide Reachable, Queued;
    var id := s.terminated[k].job.id;
    ReachableLaws(c, s);
    assert OnePlace(s, id);
    KilledCounts(s.terminated, k);
    DiskSumAtLeast(s.disks, id);
    OccurrencesNonNegative(s.cpu.queue, id);
    if Queued(s.cpu.queue, id) {
      QueuedOccurs(s.cpu.queue, id);
    }
  }

  // ---------- Over runs: who arrives ----------

  /** The gaps drawn in the ticks of the run that find no job waiting for admission. */
  ghost function Gaps(c: Conf, s: State, run: seq<Choices>): seq<nat>
    requires ValidRun(c, run) && |s.disks| == |c.disks|
    decreases |run|
  {
    if run == [] then []
    else
      var prefix := run[..|run| - 1];
      Gaps(c, s, prefix) + (if Run(c, s, prefix).upcoming.None? then [run[|run| - 1].gap] else [])
  }

  ghost function SumOf(xs: seq<nat>): nat {
    if xs == [] then 0 else SumOf(xs[..|xs| - 1]) + xs[|xs| - 1]
  }

  lemma SumOneMore(xs: seq<nat>, x: nat)
    ensures SumOf(xs + [x]) == SumOf(xs) + x
  {
    assert (xs + [x])[..|xs|] == xs;
  }

  /** The last job made is the one that waits for admission, if one waits. */
  ghost predicate LastWaits(s: State) {
    s.upcoming.Some? ==> s.jobCount > 0 && s.upcoming.value.id == s.jobCount - 1
                         && s.upcoming.value.arrival == s.lastArrival
  }

  lemma ComputeKeepsArrivals(c: Conf, m: State, ch: Choices)
    requires Shaped(c, m, ch)
    ensures var r := CpuCompute(c, m, ch);
            r.upcoming == m.upcoming && r.jobCount == m.jobCount && r.lastArrival == m.lastArrival
  {
    hide Push, PickBestDisk;
  }

  lemma TickArrives(c: Conf, s: State, ch: Choices)
    requires WfConf(c) && ValidChoices(c, ch) && Safe(c, s) && LastWaits(s)
    ensures var r := Tick(c, s, ch);
            && r.jobCount == s.jobCount + (if s.upcoming.None? then 1 else 0)
            && r.lastArrival == s.lastArrival + (if s.upcoming.None? then ch.gap else 0)
            && LastWaits(r)
  {
    hide CpuSafe, DiskSafe, Crowded, UserActivity, VisitDisks, CpuCompute, RecordCommonStats, DiskCompute, DisksWork,
         Fate;
    ArrivalExactly(c, s, ch);
    VisitsKeepArrivals(c, UserActivity(c, s.(now := s.now + 1), ch), ch, 0);
    var m := Schedule(c, s, ch);
    ScheduleSafe(c, s, ch);
    ComputeKeepsArrivals(c, m, ch);
    CpuComputeSafe(c, m, ch);
    TickEnds(c, CpuCompute(c, m, ch));
  }

  /** Over any run from the start, job number k is due at the sum of the first k + 1 gaps drawn for it and its
      predecessors, one gap being drawn in each tick that finds no job waiting. */
  lemma {:induction false} ArrivalTimes(c: Conf, run: seq<Choices>)
    requires WfConf(c) && ValidRun(c, run)
    ensures var r, gaps := Run(c, Init(c), run), Gaps(c, Init(c), run);
            && r.jobCount == |gaps| && r.lastArrival == SumOf(gaps)
            && (r.upcoming.Some? ==>
                  |gaps| > 0 && r.upcoming.value.id == |gaps| - 1 && r.upcoming.value.arrival == SumOf(gaps))
    decreases |run|
  {
    hide CpuSafe, DiskSafe, Crowded, Tick;
    if run == [] {
    } else {
      var prefix, ch := run[..|run| - 1], run[|run| - 1];
      ArrivalTimes(c, prefix);
      InitSafe(c);
      RunSafe(c, Init(c), prefix);
      TickArrives(c, Run(c, Init(c), prefix), ch);
      var gaps := Gaps(c, Init(c), prefix);
      SumOneMore(gaps, ch.gap);
      assert gaps + [] == gaps;
    }
  }
}
