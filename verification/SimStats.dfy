/** What the recorded statistics count. For the CPU and for every disk each counter is tied to what happens in the
    run: the ticks it ends with a current job, the lengths of its queue at the ends of ticks, and the times the
    jobs that leave it have spent there. */
module SimStats {
  import opened PriorityQueue
  import opened SimModel
  import opened SimSafety
  import opened SimLiveness
  import opened SimOrder
  import opened SimFate
  import opened Wrappers

  datatype Site = Cpu | Disk(i: nat)

  ghost predicate Has(s: State, site: Site) {
    site.Disk? ==> site.i < |s.disks|
  }

  ghost function At(s: State, site: Site): Device
    requires Has(s, site)
  {
    if site.Cpu? then s.cpu else s.disks[site.i]
  }

  ghost function Sum(xs: seq<int>): int {
    if xs == [] then 0 else Sum(xs[..|xs| - 1]) + xs[|xs| - 1]
  }

  /** The largest of m and the numbers of xs. */
  ghost function Largest(m: int, xs: seq<int>): (r: int)
    ensures r >= m && (forall k :: 0 <= k < |xs| ==> r >= xs[k]) && (r == m || r in xs)
  {
    if xs == [] then m
    else
      var r := Largest(m, xs[..|xs| - 1]);
      if xs[|xs| - 1] > r then xs[|xs| - 1] else r
  }

  lemma {:induction false} SumConcat(a: seq<int>, b: seq<int>)
    ensures Sum(a + b) == Sum(a) + Sum(b)
  {
    if b == [] {
      assert a + b == a;
    } else {
      assert (a + b)[..|a + b| - 1] == a + b[..|b| - 1];
      SumConcat(a, b[..|b| - 1]);
    }
  }

  lemma {:induction false} LargestConcat(m: int, a: seq<int>, b: seq<int>)
    ensures Largest(m, a + b) == Largest(Largest(m, a), b)
  {
    if b == [] {
      assert a + b == a;
    } else {
      assert (a + b)[..|a + b| - 1] == a + b[..|b| - 1];
      LargestConcat(m, a, b[..|b| - 1]);
    }
  }

  // ---------- Response times ----------

  /** Telemetry t once the given response times are recorded in it. */
  ghost function Answering(t: Telemetry, times: seq<int>): Telemetry {
    Telemetry(t.totalTime, t.busyTime, t.queueSum, t.maxQueueSize,
              Largest(t.maxResponseTime, times), t.responseTimeSum + Sum(times), t.responseCount + |times|)
  }

  lemma AnsweringTwice(t: Telemetry, a: seq<int>, b: seq<int>)
    ensures Answering(Answering(t, a), b) == Answering(t, a + b)
  {
    SumConcat(a, b);
    LargestConcat(t.maxResponseTime, a, b);
  }

  lemma AnsweringOne(t: Telemetry, time: int)
    ensures UpdateResponseTime(time, t) == Answering(t, [time])
  {
    var xs := [time];
    assert xs[..|xs| - 1] == [];
    assert Sum(xs) == Sum(xs[..|xs| - 1]) + time;
  }

  /** How long the job that leaves the device in the visit to disk i has been there: the finished head that
      disk i hands back, and the job swapped from the CPU. */
  ghost function TimesOfVisit(c: Conf, s: State, i: nat, site: Site): seq<int>
    requires i < |s.disks|
  {
    match site
    case Cpu => if SwappedTo(c, s, i) != [] then [s.now - s.cpu.queue[0].val.arrival] else []
    case Disk(j) => if i == j && BackFrom(c, s, i) != [] then [s.now - s.disks[i].queue[0].val.arrival] else []
  }

  ghost function TimesOfVisits(c: Conf, s: State, ch: Choices, i: nat, site: Site): seq<int>
    requires Shaped(c, s, ch) && i <= |s.disks|
    decreases |s.disks| - i
  {
    if i == |s.disks| then []
    else TimesOfVisit(c, s, i, site) + TimesOfVisits(c, VisitDisk(c, s, ch, i), ch, i + 1, site)
  }

  /** A job that departs to a disk when its burst is used up counts as zero, since it has been stamped with the
      current tick; a job that is terminated does not count. */
  ghost function TimeOfDeparture(c: Conf, m: State, ch: Choices, site: Site): seq<int>
    requires |m.disks| == |c.disks|
  {
    if site.Cpu? && Finishing(m) && ch.quitDraw > c.quitProb && !AllFull(c, m.disks) then [0] else []
  }

  ghost function TickTimes(c: Conf, s: State, ch: Choices, site: Site): seq<int>
    requires Shaped(c, s, ch)
  {
    TimesOfVisits(c, UserActivity(c, s.(now := s.now + 1), ch), ch, 0, site)
    + TimeOfDeparture(c, Schedule(c, s, ch), ch, site)
  }

  lemma AnsweringNothing(t: Telemetry)
    ensures Answering(t, []) == t
  {
  }

  lemma VisitAnswers(c: Conf, s: State, ch: Choices, i: nat, site: Site)
    requires Safe(c, s) && Shaped(c, s, ch) && i < |s.disks| && Has(s, site)
    ensures At(VisitDisk(c, s, ch, i), site).telemetry == Answering(At(s, site).telemetry, TimesOfVisit(c, s, i, site))
  {
    hide Push, CpuSafe, DiskSafe, Crowded, Largest, UpdateResponseTime;
    var t := At(s, site).telemetry;
    AnsweringNothing(t);
    if BackFrom(c, s, i) != [] {
      AnsweringOne(s.cpu.telemetry, s.now - (if s.cpu.queue == [] then 0 else s.cpu.queue[0].val.arrival));
      AnsweringOne(s.disks[i].telemetry, s.now - s.disks[i].queue[0].val.arrival);
      if SwappedTo(c, s, i) != [] {
        HeadStaysOnDisk(c, s, i, Item(s.cpu.queue[0].val.(arrival := s.now, burst := ch.swapBurst[i]), s.now));
      }
    }
  }

  lemma {:induction false} VisitsAnswer(c: Conf, s: State, ch: Choices, i: nat, site: Site)
    requires WfConf(c) && ValidChoices(c, ch) && Safe(c, s) && Shaped(c, s, ch) && i <= |s.disks| && Has(s, site)
    ensures At(VisitDisks(c, s, ch, i), site).telemetry
         == Answering(At(s, site).telemetry, TimesOfVisits(c, s, ch, i, site))
    decreases |s.disks| - i
  {
    hide Safe, VisitDisk, WfConf, ValidChoices, Answering, TimesOfVisit;
    if i == |s.disks| {
      AnsweringNothing(At(s, site).telemetry);
    } else {
      var m := VisitDisk(c, s, ch, i);
      VisitAnswers(c, s, ch, i, site);
      VisitDiskSafe(c, s, ch, i);
      VisitsAnswer(c, m, ch, i + 1, site);
      AnsweringTwice(At(s, site).telemetry, TimesOfVisit(c, s, i, site), TimesOfVisits(c, m, ch, i + 1, site));
    }
  }

  lemma ComputeAnswers(c: Conf, m: State, ch: Choices, site: Site)
    requires WfConf(c) && ValidChoices(c, ch) && Safe(c, m) && (m.cpu.serving <==> m.cpu.queue != []) && Has(m, site)
    ensures At(CpuCompute(c, m, ch), site).telemetry
         == Answering(At(m, site).telemetry, TimeOfDeparture(c, m, ch, site))
  {
    hide Push, PickBestDisk, CpuSafe, DiskSafe, Crowded, AllFull, ShortestWithRoom, Largest, UpdateResponseTime;
    PicksShortest(c, m);
    AnsweringNothing(At(m, site).telemetry);
    AnsweringOne(m.cpu.telemetry, 0);
  }

  // ---------- Busy ticks and queue lengths ----------

  ghost function Recording(t: Telemetry, d: Device): Telemetry {
    Telemetry(t.totalTime + 1, t.busyTime + (if d.serving then 1 else 0), t.queueSum + |d.queue|,
              Largest(t.maxQueueSize, [|d.queue|]), t.maxResponseTime, t.responseTimeSum, t.responseCount)
  }

  lemma TickRecords(s: State, site: Site)
    requires Has(s, site)
    ensures var r := RecordCommonStats(DiskCompute(s));
            At(r, site).telemetry == Recording(At(s, site).telemetry, At(r, site))
  {
    hide DecrementHead;
    var r := RecordCommonStats(DiskCompute(s));
    assert [|At(r, site).queue|][..0] == [];
  }

  lemma TickStatistics(c: Conf, s: State, ch: Choices, site: Site)
    requires WfConf(c) && ValidChoices(c, ch) && Safe(c, s) && Has(s, site)
    ensures var r := Tick(c, s, ch);
            At(r, site).telemetry
            == Recording(Answering(At(s, site).telemetry, TickTimes(c, s, ch, site)), At(r, site))
  {
    hide CpuSafe, DiskSafe, Crowded, UserActivity, VisitDisks, CpuCompute, RecordCommonStats, DiskCompute, Answering,
         Recording, TimesOfVisits, TimeOfDeparture;
    var s1 := UserActivity(c, s.(now := s.now + 1), ch);
    ArrivalExactly(c, s, ch);
    ClockSafe(c, s);
    UserActivitySafe(c, s.(now := s.now + 1), ch);
    VisitsAnswer(c, s1, ch, 0, site);
    var m := Schedule(c, s, ch);
    ScheduleSafe(c, s, ch);
    ScheduleFetches(c, s, ch);
    ComputeAnswers(c, m, ch, site);
    TickRecords(CpuCompute(c, m, ch), site);
    AnsweringTwice(At(s, site).telemetry, TimesOfVisits(c, s1, ch, 0, site), TimeOfDeparture(c, m, ch, site));
  }

  // ---------- Over runs ----------

  /** The number of ticks of the run at whose end the device has a current job. */
  ghost function BusyTicks(c: Conf, s: State, run: seq<Choices>, site: Site): nat
    requires ValidRun(c, run) && |s.disks| == |c.disks| && Has(s, site)
    decreases |run|
  {
    if run == [] then 0
    else BusyTicks(c, s, run[..|run| - 1], site) + (if At(Run(c, s, run), site).serving then 1 else 0)
  }

  /** The length of the device's queue at the end of each tick of the run. */
  ghost function Lengths(c: Conf, s: State, run: seq<Choices>, site: Site): seq<int>
    requires ValidRun(c, run) && |s.disks| == |c.disks| && Has(s, site)
    decreases |run|
  {
    if run == [] then []
    else Lengths(c, s, run[..|run| - 1], site) + [|At(Run(c, s, run), site).queue|]
  }

  /** The response times of the device in the run, in the order of the events that record them. */
  ghost function Times(c: Conf, s: State, run: seq<Choices>, site: Site): seq<int>
    requires ValidRun(c, run) && |s.disks| == |c.disks| && Has(s, site)
    decreases |run|
  {
    if run == [] then []
    else
      var prefix := run[..|run| - 1];
      Times(c, s, prefix, site) + TickTimes(c, Run(c, s, prefix), run[|run| - 1], site)
  }

  /** The statistics of a device whose telemetry was t, after a run. */
  ghost function Statistics(t: Telemetry, ticks: nat, busy: nat, lengths: seq<int>, times: seq<int>): Telemetry {
    Telemetry(t.totalTime + ticks, t.busyTime + busy, t.queueSum + Sum(lengths), Largest(t.maxQueueSize, lengths),
              Largest(t.maxResponseTime, times), t.responseTimeSum + Sum(times), t.responseCount + |times|)
  }

  lemma OneMoreTick(t: Telemetry, ticks: nat, busy: nat, lengths: seq<int>, times: seq<int>, now: seq<int>, d: Device)
    ensures Recording(Answering(Statistics(t, ticks, busy, lengths, times), now), d)
         == Statistics(t, ticks + 1, busy + (if d.serving then 1 else 0), lengths + [|d.queue|], times + now)
  {
    SumConcat(lengths, [|d.queue|]);
    SumConcat(times, now);
    LargestConcat(t.maxQueueSize, lengths, [|d.queue|]);
    LargestConcat(t.maxResponseTime, times, now);
    assert Sum([|d.queue|]) == |d.queue| by { assert [|d.queue|][..0] == []; }
  }

  lemma StatisticsStart(t: Telemetry)
    ensures Statistics(t, 0, 0, [], []) == t
  {
  }

  /** Over every run the seven counters of the CPU and of each disk are exactly: the ticks; the ticks at whose end
      the device has a current job; the sum and the maximum of the queue lengths at the ends of ticks; and the
      maximum, the sum and the number of the response times. */
  lemma {:induction false} StatisticsExactly(c: Conf, s: State, run: seq<Choices>, site: Site)
    requires WfConf(c) && ValidRun(c, run) && Safe(c, s) && Has(s, site)
    ensures At(Run(c, s, run), site).telemetry
         == Statistics(At(s, site).telemetry, |run|, BusyTicks(c, s, run, site), Lengths(c, s, run, site),
                       Times(c, s, run, site))
    decreases |run|
  {
    hide CpuSafe, DiskSafe, Crowded, Tick, TickTimes, Answering, Recording, Sum, Largest;
    if run == [] {
      StatisticsStart(At(s, site).telemetry);
    } else {
      var prefix, ch := run[..|run| - 1], run[|run| - 1];
      StatisticsExactly(c, s, prefix, site);
      RunSafe(c, s, prefix);
      var m := Run(c, s, prefix);
      TickStatistics(c, m, ch, site);
      OneMoreTick(At(s, site).telemetry, |prefix|, BusyTicks(c, s, prefix, site), Lengths(c, s, prefix, site),
                  Times(c, s, prefix, site), TickTimes(c, m, ch, site), At(Run(c, s, run), site));
    }
  }

  /** From the start every counter begins at zero. */
  lemma StatisticsFromStart(c: Conf, run: seq<Choices>, site: Site)
    requires WfConf(c) && ValidRun(c, run) && Has(Init(c), site)
    ensures var t := At(Run(c, Init(c), run), site).telemetry;
            var lengths, times := Lengths(c, Init(c), run, site), Times(c, Init(c), run, site);
            && t.totalTime == |run| && t.busyTime == BusyTicks(c, Init(c), run, site)
            && t.queueSum == Sum(lengths) && t.maxQueueSize == Largest(0, lengths)
            && t.responseCount == |times| && t.responseTimeSum == Sum(times) && t.maxResponseTime == Largest(0, times)
  {
    hide Run, Safe, Sum, Largest;
    InitSafe(c);
    StatisticsExactly(c, Init(c), run, site);
  }
}
