/** Sums over the jobs of a queue and over the disks, and what each elementary move does to them. */
module SimSums {
  import opened PriorityQueue
  import opened SimModel
  import opened Wrappers

  /** What is added up. The first three do not depend on where a job is or on its burst. */
  datatype Gauge =
    | Load                     // number of jobs
    | Occurrences(id: nat)     // how often a job id occurs
    | Residence(clock: int)    // time since the job entered the system
    | Age(clock: int)          // time since the job arrived at its device
    | Backlog                  // burst left, plus one for the job itself
    | Queued                   // telemetry: queueSum
    | Answered                 // telemetry: responseCount
  {
    predicate Conserved() {
      Load? || Occurrences? || Residence?
    }
  }

  function Weight(g: Gauge, j: JobVal): int {
    match g
    case Load => 1
    case Occurrences(id) => if j.id == id then 1 else 0
    case Residence(clock) => clock - j.entry
    case Age(clock) => clock - j.arrival
    case Backlog => j.burst + 1
    case Queued => 0
    case Answered => 0
  }

  function QueueSum(q: Queue, g: Gauge): int {
    if q == [] then 0 else Weight(g, q[0].val) + QueueSum(q[1..], g)
  }

  function Measure(d: Device, g: Gauge): int {
    match g
    case Queued => d.telemetry.queueSum
    case Answered => d.telemetry.responseCount
    case _ => QueueSum(d.queue, g)
  }

  function DiskSum(ds: seq<Device>, g: Gauge): int {
    if ds == [] then 0 else Measure(ds[0], g) + DiskSum(ds[1..], g)
  }

  /** Over the whole system. */
  function Total(s: State, g: Gauge): int {
    Measure(s.cpu, g) + DiskSum(s.disks, g)
  }

  function CapacitySum(disks: seq<DiskConf>): nat {
    if disks == [] then 0 else disks[0].capacity + CapacitySum(disks[1..])
  }

  // ---------- Queues ----------

  lemma {:induction false} QueueSumConcat(a: Queue, b: Queue, g: Gauge)
    ensures QueueSum(a + b, g) == QueueSum(a, g) + QueueSum(b, g)
  {
    if a == [] {
      assert a + b == b;
    } else {
      assert (a + b)[1..] == a[1..] + b;
      QueueSumConcat(a[1..], b, g);
    }
  }

  lemma QueueSumAppend(q: Queue, e: Item<JobVal>, g: Gauge)
    ensures QueueSum(q + [e], g) == QueueSum(q, g) + Weight(g, e.val)
  {
    QueueSumConcat(q, [e], g);
    assert QueueSum([e], g) == Weight(g, e.val);
  }

  lemma QueueSumInserted(q: Queue, s: nat, e: Item<JobVal>, g: Gauge)
    requires s <= |q|
    ensures QueueSum(Inserted(q, s, e), g) == QueueSum(q, g) + Weight(g, e.val)
  {
    hide QueueSum;
    QueueSumConcat(q[..s] + [e], q[s..], g);
    QueueSumAppend(q[..s], e, g);
    QueueSumConcat(q[..s], q[s..], g);
    assert q == q[..s] + q[s..];
    assert Inserted(q, s, e) == q[..s] + [e] + q[s..];
  }

  lemma QueueSumPush(q: Queue, e: Item<JobVal>, g: Gauge)
    ensures QueueSum(Push(q, e), g) == QueueSum(q, g) + Weight(g, e.val)
  {
    QueueSumInserted(q, Slot(q, e.priority), e, g);
  }

  lemma QueueSumSetHead(q: Queue, j: JobVal, g: Gauge)
    requires q != []
    ensures QueueSum(SetHead(q, j), g) == QueueSum(q, g) - Weight(g, q[0].val) + Weight(g, j)
  {
    assert SetHead(q, j)[1..] == q[1..];
  }

  lemma {:induction false} QueueSumLoad(q: Queue)
    ensures QueueSum(q, Load) == |q|
  {
    if q != [] {
      QueueSumLoad(q[1..]);
    }
  }

  /** One tick later every job is one tick older. */
  lemma {:induction false} QueueSumNextTick(q: Queue, clock: int)
    ensures QueueSum(q, Age(clock + 1)) == QueueSum(q, Age(clock)) + |q|
    ensures QueueSum(q, Residence(clock + 1)) == QueueSum(q, Residence(clock)) + |q|
  {
    if q != [] {
      QueueSumNextTick(q[1..], clock);
    }
  }

  lemma {:induction false} OccurrencesNonNegative(q: Queue, id: nat)
    ensures QueueSum(q, Occurrences(id)) >= 0
  {
    if q != [] {
      OccurrencesNonNegative(q[1..], id);
    }
  }

  lemma {:induction false} QueueSumOccurs(q: Queue, k: nat, id: nat)
    requires k < |q| && q[k].val.id == id
    ensures QueueSum(q, Occurrences(id)) >= 1
  {
    OccurrencesNonNegative(q[1..], id);
    if k > 0 {
      QueueSumOccurs(q[1..], k - 1, id);
    }
  }

  // ---------- Disks ----------

  lemma {:induction false} DiskSumUpdate(ds: seq<Device>, i: nat, d: Device, g: Gauge)
    requires i < |ds|
    ensures DiskSum(ds[i := d], g) == DiskSum(ds, g) - Measure(ds[i], g) + Measure(d, g)
  {
    if i == 0 {
      assert ds[0 := d][1..] == ds[1..];
    } else {
      assert ds[i := d][1..] == ds[1..][i - 1 := d];
      DiskSumUpdate(ds[1..], i - 1, d, g);
    }
  }

  lemma {:induction false} DiskSumSame(ds: seq<Device>, es: seq<Device>, g: Gauge)
    requires |ds| == |es|
    requires forall i :: 0 <= i < |ds| ==> Measure(ds[i], g) == Measure(es[i], g)
    ensures DiskSum(ds, g) == DiskSum(es, g)
  {
    if ds != [] {
      DiskSumSame(ds[1..], es[1..], g);
    }
  }

  /** Statement of the per-disk sums pointwise: `a` and `b` differ on each disk as `x` and `y` do. */
  lemma {:induction false} DiskSumShift(ds: seq<Device>, es: seq<Device>, a: Gauge, b: Gauge)
    requires |ds| == |es|
    requires forall i :: 0 <= i < |ds| ==> Measure(es[i], b) == Measure(ds[i], a) + |ds[i].queue|
    ensures DiskSum(es, b) == DiskSum(ds, a) + DiskSum(ds, Load)
  {
    if ds != [] {
      QueueSumLoad(ds[0].queue);
      DiskSumShift(ds[1..], es[1..], a, b);
    }
  }

  lemma {:induction false} DiskSumLess(ds: seq<Device>, es: seq<Device>, g: Gauge)
    requires |ds| == |es|
    requires forall i :: 0 <= i < |ds| ==> Measure(es[i], g) <= Measure(ds[i], g)
    ensures DiskSum(es, g) <= DiskSum(ds, g)
    ensures (exists i :: 0 <= i < |ds| && Measure(es[i], g) < Measure(ds[i], g)) ==> DiskSum(es, g) < DiskSum(ds, g)
  {
    if ds != [] {
      DiskSumLess(ds[1..], es[1..], g);
      if i :| 0 < i < |ds| && Measure(es[i], g) < Measure(ds[i], g) {
        assert Measure(es[1..][i - 1], g) < Measure(ds[1..][i - 1], g);
      }
    }
  }

  lemma {:induction false} DiskLoadNonNegative(ds: seq<Device>)
    ensures DiskSum(ds, Load) >= 0
  {
    if ds != [] {
      QueueSumLoad(ds[0].queue);
      DiskLoadNonNegative(ds[1..]);
    }
  }

  /** The load of the disks is positive iff some disk is not empty. */
  lemma {:induction false} SomeDiskLoaded(ds: seq<Device>) returns (i: nat)
    requires DiskSum(ds, Load) > 0
    ensures i < |ds| && ds[i].queue != []
    ensures forall j :: 0 <= j < i ==> ds[j].queue == []
  {
    QueueSumLoad(ds[0].queue);
    if ds[0].queue != [] {
      i := 0;
    } else {
      i := SomeDiskLoaded(ds[1..]);
      i := i + 1;
    }
  }

  lemma {:induction false} AllDisksFull(disks: seq<DiskConf>, ds: seq<Device>)
    requires |disks| == |ds|
    requires forall i :: 0 <= i < |ds| ==> |ds[i].queue| == disks[i].capacity
    ensures DiskSum(ds, Load) == CapacitySum(disks)
  {
    if ds != [] {
      QueueSumLoad(ds[0].queue);
      AllDisksFull(disks[1..], ds[1..]);
    }
  }

  lemma {:induction false} AllDisksEmpty(ds: seq<Device>)
    requires forall i :: 0 <= i < |ds| ==> ds[i].queue == []
    ensures DiskSum(ds, Load) == 0
  {
    if ds != [] {
      AllDisksEmpty(ds[1..]);
    }
  }

  // ---------- Conservation: no move loses, copies or renames a job ----------

  lemma ReturnConserves(s: State, i: nat, burst: nat, g: Gauge)
    requires i < |s.disks| && s.disks[i].queue != [] && g.Conserved()
    ensures Total(ReturnFromDisk(s, i, burst), g) == Total(s, g)
  {
    DiskSumUpdate(s.disks, i, RemoveHead(s.disks[i], s.now), g);
    QueueSumAppend(s.cpu.queue, Item(s.disks[i].queue[0].val.(burst := burst), 0), g);
  }

  lemma SwapConserves(s: State, i: nat, returnBurst: nat, swapBurst: nat, g: Gauge)
    requires i < |s.disks| && s.disks[i].queue != [] && s.cpu.queue != [] && g.Conserved()
    ensures Total(Swap(s, i, returnBurst, swapBurst), g) == Total(s, g)
  {
    var waiting := s.cpu.queue[0].val;
    var disk := ArriveAtDisk(s.disks[i], waiting, s.now, swapBurst);
    var mid := s.(cpu := RemoveHead(s.cpu, s.now), disks := s.disks[i := disk]);
    DiskSumUpdate(s.disks, i, disk, g);
    QueueSumPush(s.disks[i].queue, Item(waiting.(arrival := s.now, burst := swapBurst), s.now), g);
    ReturnConserves(mid, i, returnBurst, g);
  }

  lemma VisitDiskConserves(c: Conf, s: State, ch: Choices, i: nat, g: Gauge)
    requires Shaped(c, s, ch) && i < |s.disks| && g.Conserved()
    ensures Total(VisitDisk(c, s, ch, i), g) == Total(s, g)
  {
    if Finished(s.disks[i]) {
      if |s.cpu.queue| < c.cpuCapacity {
        ReturnConserves(s, i, ch.returnBurst[i], g);
      } else if Blocked(s) {
        SwapConserves(s, i, ch.returnBurst[i], ch.swapBurst[i], g);
      }
    }
  }

  lemma {:induction false} VisitDisksConserves(c: Conf, s: State, ch: Choices, i: nat, g: Gauge)
    requires Shaped(c, s, ch) && i <= |s.disks| && g.Conserved()
    ensures Total(VisitDisks(c, s, ch, i), g) == Total(s, g)
    decreases |s.disks| - i
  {
    if i < |s.disks| {
      VisitDiskConserves(c, s, ch, i, g);
      VisitDisksConserves(c, VisitDisk(c, s, ch, i), ch, i + 1, g);
    }
  }

  lemma DepartConserves(s: State, i: nat, burst: nat, g: Gauge)
    requires i < |s.disks| && s.cpu.queue != [] && g.Conserved()
    ensures Total(Depart(s, i, burst), g) == Total(s, g)
  {
    var job := s.cpu.queue[0].val;
    var disk := ArriveAtDisk(s.disks[i], job, s.now, burst);
    DiskSumUpdate(s.disks, i, disk, g);
    QueueSumPush(s.disks[i].queue, Item(job.(arrival := s.now, burst := burst), s.now), g);
    QueueSumSetHead(s.cpu.queue, job.(arrival := s.now, burst := burst), g);
  }

  /** The CPU loses a job only by terminating it. */
  lemma CpuComputeConserves(c: Conf, s: State, ch: Choices, g: Gauge)
    requires Shaped(c, s, ch) && g.Conserved()
    ensures var r := CpuCompute(c, s, ch);
            || (r.terminated == s.terminated && Total(r, g) == Total(s, g))
            || (exists job :: r.terminated == s.terminated + [Departure(job, s.now)]
                   && Total(r, g) == Total(s, g) - Weight(g, job))
  {
    if s.cpu.serving && s.cpu.queue != [] && !Finished(s.cpu) {
      var q := s.cpu.queue;
      var r := s.(cpu := s.cpu.(queue := DecrementHead(q)));
      QueueSumSetHead(q, q[0].val.(burst := q[0].val.burst - 1), g);
      if Finished(r.cpu) && ch.quitDraw > c.quitProb {
        match PickBestDisk(c, r.disks)
        case None =>
        case Some(i) => DepartConserves(r, i, ch.diskBurst[i], g);
      }
    }
  }

  lemma DiskComputeOneKeeps(d: Device, g: Gauge)
    requires !g.Backlog?
    ensures Measure(DiskComputeOne(d), g) == Measure(d, g)
  {
    if d.queue != [] && d.queue[0].val.burst > 0 {
      QueueSumSetHead(d.queue, d.queue[0].val.(burst := d.queue[0].val.burst - 1), g);
    }
  }

  lemma DiskComputeConserves(s: State, g: Gauge)
    requires !g.Backlog?
    ensures Total(DiskCompute(s), g) == Total(s, g)
  {
    var r := DiskCompute(s);
    forall i | 0 <= i < |s.disks| ensures Measure(s.disks[i], g) == Measure(r.disks[i], g) {
      DiskComputeOneKeeps(s.disks[i], g);
    }
    DiskSumSame(s.disks, r.disks, g);
  }
}
