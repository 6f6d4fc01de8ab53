/** The simulator as the program has it: jobs, devices and linked queues on the heap, updated in place.
    Every phase of a tick is proved to do what the corresponding step of SimModel says. */
module Simulator {
  import opened PriorityQueue
  import opened SimModel
  import opened SimSums
  import opened SimSafety
  import opened Wrappers
  import M = SimModel

  /** Conversion of a size_t to int, which is what the priority of a queue node is. */
  function ToInt(n: nat): (p: int)
    ensures n <= INT_MAX ==> p == n
  {
    var low := n % 0x1_0000_0000;
    if low <= INT_MAX then low else low - 0x1_0000_0000
  }

  class Job {
    const id: nat
    var arrivalTime: nat
    var burstTime: nat
    ghost var entry: nat
    ghost var home: object?  // the device whose queue the job is in

    constructor (id: nat, arrivalTime: nat, burstTime: nat)
      ensures Val() == JobVal(id, arrivalTime, burstTime, 0) && home == null
    {
      this.id, this.arrivalTime, this.burstTime := id, arrivalTime, burstTime;
      this.entry, this.home := 0, null;
    }

    ghost function Val(): JobVal
      reads this
    {
      JobVal(id, arrivalTime, burstTime, entry)
    }
  }

  // ---------- Devices ----------

  ghost function JobsOf(nodes: seq<Node<Job>>): set<Job> {
    set n | n in nodes :: n.val
  }

  lemma JobsInserted(nodes: seq<Node<Job>>, s: nat, node: Node<Job>)
    requires s <= |nodes|
    ensures JobsOf(Inserted(nodes, s, node)) == JobsOf(nodes) + {node.val}
    ensures forall n <- Inserted(nodes, s, node) :: n in nodes || n == node
  {
    var r := Inserted(nodes, s, node);
    forall n | n in nodes ensures n in r {
      var k :| 0 <= k < |nodes| && nodes[k] == n;
      assert r[if k < s then k else k + 1] == n;
    }
    assert r[s] == node;
  }

  ghost predicate Distinct(nodes: seq<Node<Job>>) {
    forall i, j :: 0 <= i < j < |nodes| ==> nodes[i].val != nodes[j].val
  }

  lemma DistinctInserted(nodes: seq<Node<Job>>, s: nat, node: Node<Job>)
    requires Distinct(nodes) && s <= |nodes|
    requires forall k :: 0 <= k < |nodes| ==> nodes[k].val != node.val
    ensures Distinct(Inserted(nodes, s, node))
  {
  }

  /** The CPU or a disk. */
  class Device {
    const queue: PQueue<Job>
    const capacity: nat
    var currentJob: Job?
    var telemetry: Telemetry
    ghost var view: M.Device

    constructor (capacity: nat)
      ensures Valid() && view == IDLE && this.capacity == capacity
      ensures fresh(Footprint())
    {
      this.queue := new PQueue();
      this.capacity := capacity;
      this.currentJob, this.telemetry, this.view := null, ZERO, IDLE;
    }

    ghost function Jobs(): set<Job>
      reads queue
    {
      JobsOf(queue.nodes)
    }

    ghost function Footprint(): (f: set<object>)
      reads this, queue
      ensures this in f && queue in f
    {
      {this, queue} + (set n | n in queue.nodes) + Jobs()
    }

    /** The view shows the queue from position `from` on, the current job and the statistics. */
    ghost predicate Shows(from: nat)
      reads Footprint()
    {
      && queue.Valid()
      && |queue.nodes| == |view.queue|
      && (forall k {:trigger queue.nodes[k]} :: from <= k < |queue.nodes| ==> ShownAt(queue.nodes[k], view.queue[k]))
      && (forall k {:trigger queue.nodes[k]} :: 0 <= k < |queue.nodes| ==>
            view.queue[k].priority == queue.nodes[k].priority)
      && Distinct(queue.nodes)
      && view.telemetry == telemetry
      && (view.serving <==> currentJob != null)
      && (currentJob != null ==> queue.nodes != [] && currentJob == queue.nodes[0].val)
    }

    ghost predicate ShownAt(n: Node<Job>, item: Item<JobVal>)
      reads n.val
    {
      item.val == n.val.Val() && n.val.home == this
    }

    ghost predicate Valid()
      reads Footprint()
    {
      Shows(0)
    }

    /** removeJobFromCPU and removeJobFromDisk. The head of the queue may have been reset already. */
    method RemoveJob(now: nat)
      requires Shows(1) && currentJob != null && currentJob.arrivalTime <= now
      modifies this, queue
      ensures Valid()
      ensures queue.nodes == old(queue.nodes)[1..] && Footprint() <= old(Footprint())
      ensures old(currentJob) !in Jobs() && old(currentJob) !in Footprint()
      ensures view == M.Device(old(view.queue)[1..], false,
                               UpdateResponseTime(now - old(currentJob.arrivalTime), old(telemetry)))
    {
      hide UpdateResponseTime, PQueue.Valid;
      var responseTime := now - currentJob.arrivalTime;
      telemetry := UpdateResponseTime(responseTime, telemetry);
      queue.Advance();
      currentJob := null;
      view := M.Device(view.queue[1..], false, telemetry);
      forall k | 0 <= k < |queue.nodes| ensures ShownAt(queue.nodes[k], view.queue[k]) {
        assert queue.nodes[k] == old(queue.nodes)[k + 1];
      }
    }

    /** What Valid says about the head of the queue. */
    lemma AtHead()
      requires Valid()
      ensures Shows(1) && queue.Valid() && |queue.nodes| == |view.queue|
      ensures currentJob != null <==> view.serving
      ensures currentJob != null ==> queue.nodes != [] && currentJob == queue.nodes[0].val
      ensures queue.nodes != [] ==>
                var job := queue.nodes[0].val;
                && queue.head == queue.nodes[0] && job.Val() == view.queue[0].val
                && job in Jobs() && job in Footprint() && job.home == this
    {
    }

    lemma Parts()
      ensures this in Footprint() && queue in Footprint() && Jobs() <= Footprint()
      ensures forall n :: n in queue.nodes ==> n in Footprint()
      ensures forall o <- Footprint() :: allocated(o)
    {
    }

    twostate lemma Stays()
      requires old(Valid()) && unchanged(old(Footprint()))
      ensures Valid() && view == old(view) && Footprint() == old(Footprint())
    {
    }

    /** Resetting the job at the head leaves the rest of the queue as it is shown. */
    twostate lemma HeadReset()
      requires old(Valid()) && old(queue.nodes) != []
      requires unchanged(old(Footprint()) - {old(queue.nodes)[0].val})
      ensures Shows(1) && view.telemetry == telemetry && |view.queue| == |queue.nodes|
      ensures currentJob != null ==> queue.nodes != [] && currentJob == queue.nodes[0].val
    {
    }

    method QueueSize() returns (size: nat)
      requires Valid()
      ensures size == |view.queue|
    {
      size := queue.SizeQueue();
    }

    /** Assigns the burst of the job at the head of the queue. */
    method SetBurst(burst: nat)
      requires Valid() && queue.nodes != []
      modifies this`view, queue.nodes[0].val`burstTime
      ensures Valid() && Footprint() == old(Footprint())
      ensures view == old(view).(queue := SetHead(old(view.queue), old(view.queue)[0].val.(burst := burst)))
    {
      queue.head.val.burstTime := burst;
      view := view.(queue := SetHead(view.queue, view.queue[0].val.(burst := burst)));
    }

    /** cpuEnter and diskEnter. */
    method Enter()
      requires Valid() && queue.nodes != []
      modifies this`view, this`currentJob
      ensures Valid() && view == old(view).(serving := true) && Footprint() == old(Footprint())
    {
      currentJob := queue.head.val;
      view := view.(serving := true);
    }

    method Kill()
      requires Valid() && queue.nodes != []
      modifies this`view, this`currentJob, queue
      ensures Valid() && Footprint() <= old(Footprint())
      ensures view == old(view).(queue := old(view.queue)[1..], serving := false)
    {
      queue.PopQueue();
      currentJob := null;
      view := view.(queue := view.queue[1..], serving := false);
      forall k | 0 <= k < |queue.nodes| ensures ShownAt(queue.nodes[k], view.queue[k]) {
        assert queue.nodes[k] == old(queue.nodes)[k + 1];
      }
    }

    lemma JobsInFootprint()
      ensures forall j <- Jobs() :: j in Footprint()
    {
    }

    /** One iteration of the loop of diskCompute. */
    method Compute()
      requires Valid()
      modifies this`view, this`currentJob, Jobs()
      ensures Valid() && view == DiskComputeOne(old(view)) && Footprint() == old(Footprint())
    {
      if currentJob == null {
        var empty := queue.IsEmpty();
        if !empty && queue.head.val.burstTime > 0 {
          Enter();
        }
      }
      if currentJob != null && currentJob.burstTime > 0 {
        SetBurst(currentJob.burstTime - 1);
      }
    }

    /** One device in recordCommonStats. */
    method Record()
      requires Valid()
      modifies this`view, this`telemetry
      ensures Valid() && view == RecordDevice(old(view)) && Footprint() == old(Footprint())
    {
      var t := telemetry.(totalTime := telemetry.totalTime + 1);
      if currentJob != null {
        t := t.(busyTime := t.busyTime + 1);
      }
      var qs := queue.SizeQueue();
      if qs > t.maxQueueSize {
        t := t.(maxQueueSize := qs);
      }
      telemetry := t.(queueSum := t.queueSum + qs);
      view := view.(telemetry := telemetry);
    }

    /** Pushes a job that already carries the values the view is to show. */
    method Enqueue(job: Job, priority: int)
      requires Valid() && job !in Jobs() && job.home == this
      requires currentJob != null ==> view.queue[0].priority <= priority
      modifies this`view, queue, queue.nodes
      ensures Valid()
      ensures view == old(view).(queue := Push(old(view.queue), Item(job.Val(), priority)))
      ensures job in Footprint()
      ensures fresh(Footprint() - old(Footprint()) - {job})
    {
      hide PQueue.Valid, SlotFrom, Distinct;
      ghost var nodes, items := queue.nodes, view.queue;
      ghost var node := queue.PushQueue(job, priority);
      ghost var s := Slot(items, priority);
      SlotDependsOnPriorities(items, ItemsOf(nodes), priority);
      JobsInserted(nodes, s, node);
      Place(nodes, s, node);
    }

    method EnqueueEnd(job: Job)
      requires Valid() && job !in Jobs()
      modifies this`view, job`home, queue, queue.nodes
      ensures Valid()
      ensures view == old(view).(queue := old(view.queue) + [Item(job.Val(), 0)])
      ensures job.Val() == old(job.Val())
      ensures job in Footprint() && job.home == this
      ensures fresh(Footprint() - old(Footprint()) - {job})
    {
      hide PQueue.Valid, SlotFrom, Distinct;
      ghost var nodes := queue.nodes;
      job.home := this;
      ghost var node := queue.PushQueueEnd(job);
      JobsInserted(nodes, |nodes|, node);
      Place(nodes, |nodes|, node);
    }

    /** The view follows an insertion into the list. */
    ghost method Place(nodes: seq<Node<Job>>, s: nat, node: Node<Job>)
      requires queue.Valid() && s <= |nodes| == |view.queue| && queue.nodes == Inserted(nodes, s, node)
      requires Distinct(nodes) && forall k :: 0 <= k < |nodes| ==> nodes[k].val != node.val
      requires forall k :: 0 <= k < |nodes| ==>
                 ShownAt(nodes[k], view.queue[k]) && view.queue[k].priority == nodes[k].priority
      requires node.val.home == this && view.telemetry == telemetry
      requires view.serving <==> currentJob != null
      requires currentJob != null ==> nodes != [] && currentJob == nodes[0].val && s >= 1
      modifies this`view
      ensures Valid()
      ensures view == old(view).(queue := Inserted(old(view.queue), s, Item(node.val.Val(), node.priority)))
    {
      DistinctInserted(nodes, s, node);
      view := view.(queue := Inserted(view.queue, s, Item(node.val.Val(), node.priority)));
    }

    method ArriveAtCpu(job: Job, now: nat)
      requires Valid() && job !in Jobs() && now <= INT_MAX
      requires view.queue != [] ==> view.queue[0].priority <= now
      modifies this`view, job, queue, queue.nodes
      ensures Valid() && currentJob == old(currentJob)
      ensures view == old(view).(
                        queue := Push(old(view.queue), Item(old(job.Val()).(arrival := now, entry := now), now)))
      ensures job in Footprint() && job.home == this
      ensures fresh(Footprint() - old(Footprint()) - {job})
    {
      hide PQueue.Valid, Push;
      job.arrivalTime := now;
      job.entry := now;
      job.home := this;
      Enqueue(job, ToInt(job.arrivalTime));
    }

    method ArriveAtDisk(job: Job, now: nat, burst: nat)
      requires Valid() && job !in Jobs() && now <= INT_MAX
      requires view.queue != [] ==> view.queue[0].priority <= now
      modifies this`view, job, queue, queue.nodes
      ensures Valid() && currentJob == old(currentJob)
      ensures view == M.ArriveAtDisk(old(view), old(job.Val()), now, burst)
      ensures job.Val() == old(job.Val()).(arrival := now, burst := burst)
      ensures job in Footprint() && job.home == this
      ensures fresh(Footprint() - old(Footprint()) - {job})
    {
      hide PQueue.Valid, Push;
      job.arrivalTime := now;
      job.burstTime := burst;
      job.home := this;
      Enqueue(job, ToInt(job.arrivalTime));
    }
  }

  lemma DisjointFootprints(d: Device, e: Device)
    requires d.Valid() && e.Valid() && d != e && d.queue != e.queue
    ensures d.Footprint() !! e.Footprint()
  {
    forall o | o in d.Footprint() ensures o !in e.Footprint() {
    }
  }

  lemma JobsAreAtHome(d: Device, job: Job)
    requires d.Valid() && job in d.Footprint()
    ensures job.home == d && job in d.Jobs()
  {
    assert job in d.Jobs();
  }

  /** returnFromDisk */
  method ReturnFromDisk(disk: Device, cpu: Device, now: nat)
    requires disk.Valid() && cpu.Valid() && disk != cpu && disk.queue != cpu.queue
    requires disk.view.serving && disk.view.queue != [] && disk.view.queue[0].val.arrival <= now
    modifies disk.Footprint(), cpu.Footprint()
    ensures disk.Valid() && disk.view == RemoveHead(old(disk.view), now)
    ensures cpu.Valid() && cpu.view == old(cpu.view).(
                             queue := old(cpu.view).queue + [Item(old(disk.view).queue[0].val, 0)])
    ensures disk.Footprint() <= old(disk.Footprint())
    ensures fresh(cpu.Footprint() - old(cpu.Footprint()) - old(disk.Footprint()))
  {
    hide Device.Shows, Device.Footprint;
    DisjointFootprints(disk, cpu);
    disk.Parts();
    cpu.Parts();
    disk.AtHead();
    var job := disk.currentJob;
    disk.RemoveJob(now);
    cpu.Stays();
    disk.Parts();
    label removed:
    cpu.EnqueueEnd(job);
    disk.Stays@removed();
    forall o | o in cpu.Footprint() && o !in old(cpu.Footprint()) && o !in old(disk.Footprint()) ensures fresh(o) {
      assert o in cpu.Footprint() - old@removed(cpu.Footprint()) - {job};
      assert fresh@removed(o);
    }
  }

  /** removeJobFromCPU followed by arriveAtDisk */
  method MoveToDisk(cpu: Device, disk: Device, now: nat, burst: nat)
    requires disk.Valid() && cpu.Valid() && disk != cpu && disk.queue != cpu.queue && now <= INT_MAX
    requires cpu.view.serving && cpu.view.queue != [] && cpu.view.queue[0].val.arrival <= now
    requires disk.view.queue != [] && disk.view.queue[0].priority <= now
    modifies disk.Footprint(), cpu.Footprint()
    ensures disk.Valid() && disk.view == M.ArriveAtDisk(old(disk.view), old(cpu.view).queue[0].val, now, burst)
    ensures cpu.Valid() && cpu.view == RemoveHead(old(cpu.view), now)
    ensures cpu.Footprint() <= old(cpu.Footprint())
    ensures fresh(disk.Footprint() - old(cpu.Footprint()) - old(disk.Footprint()))
  {
    hide Device.Shows, Device.Footprint, Push, UpdateResponseTime;
    DisjointFootprints(disk, cpu);
    disk.Parts();
    cpu.Parts();
    cpu.AtHead();
    var cpuJob := cpu.currentJob;
    cpu.RemoveJob(now);
    disk.Stays();
    cpu.Parts();
    label removed:
    disk.ArriveAtDisk(cpuJob, now, burst);
    cpu.Stays@removed();
    forall o | o in disk.Footprint() && o !in old(cpu.Footprint()) && o !in old(disk.Footprint()) ensures fresh(o) {
      assert o in disk.Footprint() - old@removed(disk.Footprint()) - {cpuJob};
      assert fresh@removed(o);
    }
  }

  /** The finished job at the head of a disk gets a CPU burst and moves to the end of the CPU queue. */
  method ReturnJob(disk: Device, cpu: Device, burst: nat, now: nat)
    requires disk.Valid() && cpu.Valid() && disk != cpu && disk.queue != cpu.queue
    requires disk.view.serving && disk.view.queue != [] && disk.view.queue[0].val.arrival <= now
    modifies disk.Footprint(), cpu.Footprint()
    ensures disk.Valid() && disk.view == RemoveHead(old(disk.view), now)
    ensures cpu.Valid() && cpu.view == old(cpu.view).(
                             queue := old(cpu.view).queue + [Item(old(disk.view).queue[0].val.(burst := burst), 0)])
    ensures disk.Footprint() <= old(disk.Footprint())
    ensures fresh(cpu.Footprint() - old(cpu.Footprint()) - old(disk.Footprint()))
  {
    hide Device.Shows;
    DisjointFootprints(disk, cpu);
    disk.AtHead();
    disk.SetBurst(burst);
    ReturnFromDisk(disk, cpu, now);
  }

  method NewDisks(conf: Conf) returns (devices: seq<Device>, ghost footprints: set<object>)
    ensures fresh(footprints) && |devices| == |conf.disks|
    ensures forall i :: 0 <= i < |devices| ==>
              && devices[i] in footprints && devices[i].queue in footprints && devices[i].Footprint() <= footprints
              && devices[i].Valid() && devices[i].view == IDLE && devices[i].capacity == conf.disks[i].capacity
    ensures forall i, j :: 0 <= i < j < |devices| ==>
              devices[i] != devices[j] && devices[i].queue != devices[j].queue
  {
    hide Device.Shows;
    devices, footprints := [], {};
    while |devices| < |conf.disks|
      invariant fresh(footprints) && |devices| <= |conf.disks|
      invariant forall i :: 0 <= i < |devices| ==>
                  && devices[i] in footprints && devices[i].queue in footprints && devices[i].Footprint() <= footprints
                  && devices[i].Valid() && devices[i].view == IDLE && devices[i].capacity == conf.disks[i].capacity
      invariant forall i, j :: 0 <= i < j < |devices| ==>
                  devices[i] != devices[j] && devices[i].queue != devices[j].queue
    {
      var d := new Device(conf.disks[|devices|].capacity);
      footprints := footprints + d.Footprint();
      devices := devices + [d];
    }
  }

  lemma InitParts(c: Conf)
    requires WfConf(c)
    ensures var s := Init(c);
            && s.cpu == IDLE && |s.disks| == |c.disks| && (forall i :: 0 <= i < |s.disks| ==> s.disks[i] == IDLE)
            && s.now == s.jobCount == s.lastArrival == 0 && s.upcoming == None
            && DevicesSafe(c, s) && !Blocked(s)
  {
    InitSafe(c);
  }

  lemma PushBehindHead(q: Queue, job: JobVal, e: Item<JobVal>)
    requires q != [] && q[0].priority <= e.priority
    ensures Push(SetHead(q, job), e)[1..] == Push(q, e)[1..]
    ensures Push(SetHead(q, job), e)[0] == SetHead(q, job)[0] && Push(q, e)[0] == q[0]
  {
    SlotDependsOnPriorities(SetHead(q, job), q, e.priority);
  }

  /** The deadlock resolution: the job on the CPU goes to the disk, which may be full, and the finished
      job of the disk goes to the CPU queue. */
  method SwapJobs(disk: Device, cpu: Device, returnBurst: nat, swapBurst: nat, now: nat)
    requires disk.Valid() && cpu.Valid() && disk != cpu && disk.queue != cpu.queue && now <= INT_MAX
    requires disk.view.serving && disk.view.queue != [] && disk.view.queue[0].val.arrival <= now
    requires disk.view.queue[0].priority <= now
    requires cpu.view.serving && cpu.view.queue != [] && cpu.view.queue[0].val.arrival <= now
    modifies disk.Footprint(), cpu.Footprint()
    ensures disk.Valid() && cpu.Valid()
    ensures var waiting := old(cpu.view).queue[0].val;
            var d := M.ArriveAtDisk(old(disk.view), waiting, now, swapBurst);
            var c := RemoveHead(old(cpu.view), now);
            && disk.view == RemoveHead(d, now)
            && cpu.view == c.(queue := c.queue + [Item(old(disk.view).queue[0].val.(burst := returnBurst), 0)])
    ensures fresh(cpu.Footprint() - old(cpu.Footprint()) - old(disk.Footprint()))
    ensures fresh(disk.Footprint() - old(cpu.Footprint()) - old(disk.Footprint()))
  {
    hide Device.Shows, Device.Footprint, Push, UpdateResponseTime;
    DisjointFootprints(disk, cpu);
    disk.Parts();
    cpu.Parts();
    disk.AtHead();
    ghost var q, waiting := disk.view.queue, cpu.view.queue[0].val;
    disk.SetBurst(returnBurst);
    cpu.Stays();
    PushBehindHead(q, disk.view.queue[0].val, Item(waiting.(arrival := now, burst := swapBurst), now));
    label reset:
    MoveToDisk(cpu, disk, now, swapBurst);
    ghost var held := disk.Footprint();
    forall o | o in held && o !in old(cpu.Footprint()) && o !in old(disk.Footprint()) ensures fresh(o) {
      assert o in disk.Footprint() - old@reset(cpu.Footprint()) - old@reset(disk.Footprint());
      assert fresh@reset(o);
    }
    label moved:
    ReturnFromDisk(disk, cpu, now);
    forall o | o in disk.Footprint() && o !in old(cpu.Footprint()) && o !in old(disk.Footprint()) ensures fresh(o) {
      assert o in held;
    }
    forall o | o in cpu.Footprint() && o !in old(cpu.Footprint()) && o !in old(disk.Footprint()) ensures fresh(o) {
      if o in held {
        assert fresh(o);
      } else {
        assert o in cpu.Footprint() - old@moved(cpu.Footprint()) - old@moved(disk.Footprint());
        assert fresh@moved(o);
      }
    }
  }

  /** arriveAtDisk followed by removeJobFromCPU: for a moment the job is in both queues. */
  method DepartJob(cpu: Device, disk: Device, now: nat, burst: nat)
    requires disk.Valid() && cpu.Valid() && disk != cpu && disk.queue != cpu.queue && now <= INT_MAX
    requires cpu.view.serving && cpu.view.queue != []
    requires disk.view.queue != [] ==> disk.view.queue[0].priority <= now
    modifies disk.Footprint(), cpu.Footprint()
    ensures var job := old(cpu.view).queue[0].val;
            && disk.Valid() && disk.view == M.ArriveAtDisk(old(disk.view), job, now, burst)
            && cpu.Valid() && cpu.view == RemoveHead(
                 old(cpu.view).(queue := SetHead(old(cpu.view).queue, job.(arrival := now, burst := burst))), now)
    ensures cpu.Footprint() <= old(cpu.Footprint())
    ensures fresh(disk.Footprint() - old(cpu.Footprint()) - old(disk.Footprint()))
  {
    hide Device.Shows, Device.Footprint, Device.Jobs, Push, UpdateResponseTime;
    disk.Parts();
    cpu.Parts();
    DisjointFootprints(disk, cpu);
    cpu.AtHead();
    var job := cpu.currentJob;
    label before:
    disk.ArriveAtDisk(job, now, burst);
    cpu.HeadReset@before();
    assert cpu !in disk.Footprint() && cpu.queue !in disk.Footprint();
    disk.Parts();
    label reset:
    cpu.RemoveJob(now);
    disk.Stays@reset();
  }

  // ---------- The simulator ----------

  class Simulator {
    const conf: Conf
    const cpu: Device
    const disks: seq<Device>
    var simTime: nat
    var upcomingJob: Job?
    var jobCount: nat
    var lastArrivalTime: nat
    ghost var st: State
    ghost var Repr: set<object>  // the devices, queues, nodes and jobs

    ghost predicate Apart(d: Device, e: Device) {
      d != e && d.queue != e.queue
    }

    /** Devices share no node and no job. */
    lemma DisjointDevices()
      requires DevicesShown()
      ensures forall i :: 0 <= i < |disks| ==> cpu.Footprint() !! disks[i].Footprint()
      ensures forall i, j :: 0 <= i < |disks| && 0 <= j < |disks| && i != j ==>
                disks[i].Footprint() !! disks[j].Footprint()
    {
      forall i | 0 <= i < |disks| ensures cpu.Footprint() !! disks[i].Footprint() {
        DisjointFootprints(cpu, disks[i]);
      }
      forall i, j | 0 <= i < |disks| && 0 <= j < |disks| && i != j
        ensures disks[i].Footprint() !! disks[j].Footprint()
      {
        DisjointFootprints(disks[i], disks[j]);
      }
    }

    /** The upcoming job is in no device. */
    lemma UpcomingIsNowhere()
      requires DevicesShown() && upcomingJob != null && upcomingJob.home == null
      ensures upcomingJob !in cpu.Footprint()
      ensures forall i :: 0 <= i < |disks| ==> upcomingJob !in disks[i].Footprint()
    {
      var job := upcomingJob;
      if job in cpu.Footprint() { JobsAreAtHome(cpu, job); }
      forall i | 0 <= i < |disks| ensures job !in disks[i].Footprint() {
        if job in disks[i].Footprint() { JobsAreAtHome(disks[i], job); }
      }
    }

    /** No two parts of the state share an object. */
    lemma Separate()
      requires Core()
      ensures forall i :: 0 <= i < |disks| ==> cpu.Footprint() !! disks[i].Footprint()
      ensures forall i, j :: 0 <= i < |disks| && 0 <= j < |disks| && i != j ==>
                disks[i].Footprint() !! disks[j].Footprint()
      ensures upcomingJob != null ==>
                upcomingJob !in cpu.Footprint() && forall i :: 0 <= i < |disks| ==> upcomingJob !in disks[i].Footprint()
    {
      DisjointDevices();
      if upcomingJob != null {
        UpcomingIsNowhere();
      }
    }

    ghost predicate Wired() {
      && cpu.capacity == conf.cpuCapacity && |disks| == |conf.disks|
      && (forall i :: 0 <= i < |disks| ==> disks[i].capacity == conf.disks[i].capacity)
      && (forall i :: 0 <= i < |disks| ==> Apart(cpu, disks[i]))
      && (forall i, j :: 0 <= i < j < |disks| ==> Apart(disks[i], disks[j]))
    }

    /** The devices are in order and `st` is what they show. */
    ghost predicate DevicesShown()
      reads this, Repr
    {
      && this !in Repr && Wired()
      && |st.disks| == |disks|
      && cpu in Repr && cpu.queue in Repr && cpu.Footprint() <= Repr && cpu.Valid() && st.cpu == cpu.view
      && (forall i :: 0 <= i < |disks| ==>
            && disks[i] in Repr && disks[i].queue in Repr && disks[i].Footprint() <= Repr
            && disks[i].Valid() && st.disks[i] == disks[i].view)
    }

    ghost predicate Core()
      reads this, Repr
    {
      && DevicesShown()
      && st.now == simTime && st.jobCount == jobCount && st.lastArrival == lastArrivalTime
      && (upcomingJob != null ==> upcomingJob in Repr && upcomingJob.home == null)
      && st.upcoming == (if upcomingJob == null then None else Some(upcomingJob.Val()))
      && WfConf(conf) && DevicesSafe(conf, st)
    }

    ghost predicate Valid()
      reads this, Repr
    {
      Core() && (Blocked(st) ==> Crowded(conf, st))
    }

    constructor (conf: Conf)
      requires WfConf(conf)
      ensures Valid() && fresh(Repr) && this.conf == conf
      ensures st == Init(conf)
    {
      hide DevicesSafe, WfConf, Device.Shows, Device.Valid, Device.Jobs, Init, Blocked, Crowded;
      InitParts(conf);
      this.conf := conf;
      var processor := new Device(conf.cpuCapacity);
      ghost var own := processor.Footprint();
      processor.Parts();
      label made:
      var devices, footprints := NewDisks(conf);
      processor.Stays@made();
      cpu, disks := processor, devices;
      simTime, upcomingJob, jobCount, lastArrivalTime := 0, null, 0, 0;
      st := Init(conf);
      Repr := own + footprints;
      new;
      assert cpu.Footprint() == own && cpu.Valid();
      assert Wired();
    }

    method GenerateJob(ch: Choices)
      requires Valid() && upcomingJob == null && ValidChoices(conf, ch)
      modifies this
      ensures Valid() && upcomingJob != null && fresh(Repr - old(Repr))
      ensures st == M.GenerateJob(old(st), ch)
      ensures simTime == old(simTime)
    {
      hide Device.Shows, Wired, DevicesSafe, WfConf, ValidChoices;
      GenerateJobSafe(conf, st, ch);
      var arrivalTime := lastArrivalTime + ch.gap;
      upcomingJob := new Job(jobCount, arrivalTime, ch.newBurst);
      jobCount := jobCount + 1;
      lastArrivalTime := arrivalTime;
      Repr := Repr + {upcomingJob};
      st := M.GenerateJob(st, ch);
    }

    /** Devices stay as they are while nothing that belongs to them changes. */
    twostate lemma DisksStay()
      requires forall i :: 0 <= i < |disks| ==> old(disks[i].Valid()) && unchanged(old(disks[i].Footprint()))
      ensures forall i :: 0 <= i < |disks| ==>
                && disks[i].Valid() && disks[i].view == old(disks[i].view)
                && disks[i].Footprint() == old(disks[i].Footprint())
    {
    }

    /** The upcoming job enters the CPU queue. */
    method ArriveUpcoming()
      requires simTime <= INT_MAX
      requires Valid() && upcomingJob != null && |st.cpu.queue| < conf.cpuCapacity
      modifies this, Repr
      ensures Valid() && fresh(Repr - old(Repr))
      ensures st == M.ArriveAtCpu(old(st), old(upcomingJob.Val())).(upcoming := None)
      ensures simTime == old(simTime)
    {
      hide DevicesSafe, WfConf, Device.Shows, Device.Valid, Device.Jobs, Wired, Crowded, Blocked, Push;
      Separate();
      SafeFacts(conf, st);
      ghost var arrived := M.ArriveAtCpu(st, upcomingJob.Val()).(upcoming := None);
      ArrivalSafe(conf, st, upcomingJob.Val());
      cpu.ArriveAtCpu(upcomingJob, simTime);
      DisksStay();
      st := arrived;
      Repr := Repr + cpu.Footprint();
      upcomingJob := null;
    }

    method UserActivity(ch: Choices)
      requires simTime <= INT_MAX
      requires Valid() && ValidChoices(conf, ch)
      modifies this, Repr
      ensures Valid() && fresh(Repr - old(Repr))
      ensures st == M.UserActivity(conf, old(st), ch)
      ensures simTime == old(simTime)
    {
      hide Safe, WfConf, ValidChoices, Device.Shows;
      if upcomingJob == null {
        GenerateJob(ch);
      }
      var size := cpu.QueueSize();
      if upcomingJob.arrivalTime <= simTime && size < cpu.capacity {
        ArriveUpcoming();
      }
    }

    // ---------- cpuDetermineJob ----------

    /** A finished job of disk `i` returns to the CPU queue. */
    method ReturnFromDisk(i: nat, burst: nat)
      requires Valid() && i < |disks| && Finished(st.disks[i]) && CpuBurst(conf, burst)
      requires |st.cpu.queue| < conf.cpuCapacity
      modifies this, Repr
      ensures Valid() && fresh(Repr - old(Repr))
      ensures st == M.ReturnFromDisk(old(st), i, burst)
      ensures simTime == old(simTime)
    {
      hide DevicesSafe, WfConf, Device.Shows, Device.Footprint;
      Separate();
      SafeFacts(conf, st);
      ReturnSafe(conf, st, i, burst);
      st := M.ReturnFromDisk(st, i, burst);
      ReturnJob(disks[i], cpu, burst, simTime);
      Repr := Repr + cpu.Footprint();
    }

    /** The job that waits on the CPU and the finished job of disk `i` change places. */
    method SwapWithDisk(i: nat, returnBurst: nat, swapBurst: nat)
      requires simTime <= INT_MAX
      requires Valid() && i < |disks| && Finished(st.disks[i]) && Blocked(st)
      requires CpuBurst(conf, returnBurst) && DiskBurst(conf, i, swapBurst)
      modifies this, Repr
      ensures Valid() && fresh(Repr - old(Repr))
      ensures st == M.Swap(old(st), i, returnBurst, swapBurst)
      ensures simTime == old(simTime)
    {
      hide DevicesSafe, WfConf, Device.Shows, Device.Footprint, Device.Jobs, Device.Valid, Wired, Crowded, Push;
      Separate();
      SafeFacts(conf, st);
      SwapSafe(conf, st, i, returnBurst, swapBurst);
      st := M.Swap(st, i, returnBurst, swapBurst);
      SwapJobs(disks[i], cpu, returnBurst, swapBurst, simTime);
      Repr := Repr + cpu.Footprint() + disks[i].Footprint();
    }

    /** One iteration of the loop of cpuDetermineJob. */
    method VisitDisk(i: nat, ch: Choices)
      requires simTime <= INT_MAX
      requires Valid() && ValidChoices(conf, ch) && i < |disks|
      modifies this, Repr
      ensures Valid() && fresh(Repr - old(Repr))
      ensures st == M.VisitDisk(conf, old(st), ch, i)
      ensures simTime == old(simTime)
    {
      hide DevicesSafe, WfConf, Device.Shows, Device.Footprint;
      var disk := disks[i];
      disk.AtHead();
      cpu.AtHead();
      var empty := disk.queue.IsEmpty();
      if empty {
        return;
      }
      var job := disk.queue.head.val;
      var cpuQueueCount := cpu.QueueSize();
      if job.burstTime == 0 {
        if cpuQueueCount < cpu.capacity {
          ReturnFromDisk(i, ch.returnBurst[i]);
        } else if cpu.currentJob != null && cpu.currentJob.burstTime == 0 {
          SwapWithDisk(i, ch.returnBurst[i], ch.swapBurst[i]);
        }
      }
    }

    method CpuFetchNextJob() returns (found: bool)
      requires Valid()
      modifies this, Repr
      ensures Valid() && fresh(Repr - old(Repr))
      ensures st == M.CpuFetchNextJob(old(st)) && found == st.cpu.serving
      ensures simTime == old(simTime)
    {
      hide DevicesSafe, WfConf, Device.Shows, Device.Footprint;
      Separate();
      CpuFetchNextJobSafe(conf, st);
      cpu.AtHead();
      if cpu.currentJob == null {
        var empty := cpu.queue.IsEmpty();
        if !empty {
          st := M.CpuFetchNextJob(st);
          cpu.Enter();
          return true;
        } else {
          return false;
        }
      }
      return true;
    }

    method CpuDetermineJob(ch: Choices) returns (busy: bool)
      requires simTime <= INT_MAX
      requires Valid() && ValidChoices(conf, ch)
      modifies this, Repr
      ensures Valid() && fresh(Repr - old(Repr))
      ensures st == M.CpuDetermineJob(conf, old(st), ch)
      ensures busy <==> st.cpu.serving && !Finished(st.cpu)
      ensures simTime == old(simTime)
    {
      hide Safe, WfConf, Device.Shows, Device.Footprint, M.VisitDisk;
      var i := 0;
      while i < |disks|
        invariant i <= |disks|
        invariant Valid() && fresh(Repr - old(Repr))
        invariant simTime == old(simTime)
        invariant M.VisitDisks(conf, st, ch, i) == M.VisitDisks(conf, old(st), ch, 0)
      {
        VisitDisk(i, ch);
        i := i + 1;
      }
      var found := CpuFetchNextJob();
      if !found {
        return false;
      }
      cpu.AtHead();
      if cpu.currentJob.burstTime == 0 {
        return false;
      }
      return true;
    }

    // ---------- The CPU computes ----------

    method PickBestDisk() returns (best: Option<nat>)
      requires Core()
      ensures best == M.PickBestDisk(conf, st.disks)
    {
      hide DevicesSafe, WfConf, Device.Shows, Device.Footprint;
      best := None;
      var qc: nat := INT_MAX;
      var i := 0;
      while i < |disks|
        invariant i <= |disks| && (best.Some? ==> best.value < |disks|)
        invariant PickFrom(conf, st.disks, i, best, qc) == M.PickBestDisk(conf, st.disks)
      {
        var diskQueueCount := disks[i].QueueSize();
        if disks[i].capacity != diskQueueCount && diskQueueCount < qc {
          best := Some(i);
          qc := diskQueueCount;
        }
        i := i + 1;
      }
    }

    method Depart(i: nat, burst: nat)
      requires simTime <= INT_MAX
      requires Core() && st.cpu.serving && i < |disks| && DiskBurst(conf, i, burst)
      requires |st.disks[i].queue| < conf.disks[i].capacity
      modifies this, Repr
      ensures Valid() && fresh(Repr - old(Repr))
      ensures st == M.Depart(old(st), i, burst)
      ensures simTime == old(simTime)
    {
      hide DevicesSafe, WfConf, Device.Shows, Device.Footprint, Device.Jobs, Device.Valid, Wired, Crowded, Push;
      Separate();
      SafeFacts(conf, st);
      DepartSafe(conf, st, i, burst);
      st := M.Depart(st, i, burst);
      DepartJob(cpu, disks[i], simTime, burst);
      Repr := Repr + disks[i].Footprint();
    }

    method KillJob()
      requires Core() && st.cpu.queue != []
      modifies this, Repr
      ensures Valid() && fresh(Repr - old(Repr))
      ensures st == M.KillJob(old(st))
      ensures simTime == old(simTime)
    {
      hide DevicesSafe, WfConf, Device.Shows, Device.Footprint;
      Separate();
      KillJobSafe(conf, st);
      cpu.AtHead();
      st := M.KillJob(st);
      cpu.Kill();
    }

    /** The job on the CPU has used up its burst. */
    method CpuFinish(ch: Choices)
      requires simTime <= INT_MAX
      requires Core() && st.cpu.serving && ValidChoices(conf, ch)
      modifies this, Repr
      ensures Valid() && fresh(Repr - old(Repr))
      ensures st == M.CpuFinish(conf, old(st), ch)
      ensures simTime == old(simTime)
    {
      hide Device.Shows, Device.Footprint, DevicesSafe, WfConf, M.Depart, M.KillJob;
      SafeFacts(conf, st);
      if ch.quitDraw > conf.quitProb {
        CpuFinishSafe(conf, st, ch);
        PickBestDiskHasRoom(conf, st);
        var best := PickBestDisk();
        if best.Some? {
          Depart(best.value, ch.diskBurst[best.value]);
        }
      } else {
        KillJob();
      }
    }

    method CpuCompute(busy: bool, ch: Choices)
      requires simTime <= INT_MAX
      requires Valid() && ValidChoices(conf, ch) && (busy <==> st.cpu.serving && !Finished(st.cpu))
      modifies this, Repr
      ensures Valid() && fresh(Repr - old(Repr))
      ensures st == M.CpuCompute(conf, old(st), ch)
      ensures simTime == old(simTime)
    {
      hide DevicesSafe, WfConf, Device.Shows, Device.Footprint, M.CpuFinish;
      Separate();
      SafeFacts(conf, st);
      if busy {
        cpu.AtHead();
        CpuComputeSafe(conf, st, ch);
        DecrementSafe(conf, st);
        st := st.(cpu := st.cpu.(queue := DecrementHead(st.cpu.queue)));
        cpu.SetBurst(cpu.currentJob.burstTime - 1);
        cpu.AtHead();
        if cpu.currentJob.burstTime == 0 {
          CpuFinish(ch);
        }
      }
    }

    // ---------- The disks compute, the tick is recorded ----------

    /** Disks before `i` have computed. */
    ghost predicate ComputedUpTo(before: State, i: nat)
      reads this
      requires |before.disks| == |st.disks|
    {
      && st == before.(disks := st.disks)
      && (forall j :: 0 <= j < |st.disks| ==>
            st.disks[j] == if j < i then DiskComputeOne(before.disks[j]) else before.disks[j])
    }

    method ComputeDisk(i: nat)
      requires Core() && i < |disks|
      modifies this, Repr
      ensures Core() && fresh(Repr - old(Repr))
      ensures st == old(st).(disks := old(st).disks[i := DiskComputeOne(old(st).disks[i])])
      ensures simTime == old(simTime)
    {
      hide DevicesSafe, WfConf, Device.Shows, Device.Footprint;
      Separate();
      ComputeDiskSafe(conf, st, i);
      st := st.(disks := st.disks[i := DiskComputeOne(st.disks[i])]);
      disks[i].JobsInFootprint();
      disks[i].Compute();
    }

    method DiskCompute()
      requires Valid()
      modifies this, Repr
      ensures Valid() && fresh(Repr - old(Repr))
      ensures st == M.DiskCompute(old(st))
      ensures simTime == old(simTime)
    {
      hide DevicesSafe, WfConf, Device.Shows, Device.Footprint, DiskComputeOne;
      ghost var before := st;
      DiskComputeSafe(conf, st);
      var i := 0;
      while i < |disks|
        invariant i <= |disks|
        invariant Core() && fresh(Repr - old(Repr))
        invariant |before.disks| == |st.disks| && ComputedUpTo(before, i)
      {
        ComputeDisk(i);
        i := i + 1;
      }
      assert st.disks == M.DiskCompute(before).disks;
    }

    method RecordDisk(i: nat)
      requires Core() && i < |disks|
      modifies this, Repr
      ensures Core() && fresh(Repr - old(Repr))
      ensures st == old(st).(disks := old(st).disks[i := RecordDevice(old(st).disks[i])])
      ensures simTime == old(simTime)
    {
      hide DevicesSafe, WfConf, Device.Shows, Device.Footprint;
      Separate();
      RecordDiskSafe(conf, st, i);
      st := st.(disks := st.disks[i := RecordDevice(st.disks[i])]);
      disks[i].Record();
    }

    method RecordCpu()
      requires Core()
      modifies this, Repr
      ensures Core() && fresh(Repr - old(Repr))
      ensures st == old(st).(cpu := RecordDevice(old(st).cpu))
      ensures simTime == old(simTime)
    {
      hide DevicesSafe, WfConf, Device.Shows, Device.Footprint;
      Separate();
      RecordCpuSafe(conf, st);
      st := st.(cpu := RecordDevice(st.cpu));
      cpu.Record();
    }

    method RecordCommonStats()
      requires Valid()
      modifies this, Repr
      ensures Valid() && fresh(Repr - old(Repr))
      ensures st == M.RecordCommonStats(old(st))
      ensures simTime == old(simTime)
    {
      hide DevicesSafe, WfConf, Device.Shows, Device.Footprint, RecordDevice;
      ghost var before := st;
      RecordSafe(conf, st);
      RecordCpu();
      ghost var mid := st;
      var i := 0;
      while i < |disks|
        invariant i <= |disks|
        invariant Core() && fresh(Repr - old(Repr))
        invariant |mid.disks| == |st.disks| && st == mid.(disks := st.disks)
        invariant forall j :: 0 <= j < |st.disks| ==>
                    st.disks[j] == if j < i then RecordDevice(mid.disks[j]) else mid.disks[j]
      {
        RecordDisk(i);
        i := i + 1;
      }
      assert st.disks == M.RecordCommonStats(before).disks;
    }

    // ---------- Ticks and runs ----------

    /** The body of the loop of simulate; the clock has already been advanced from `before`. */
    method Tick(ch: Choices, ghost before: State)
      requires simTime <= INT_MAX
      requires Valid() && ValidChoices(conf, ch) && Shaped(conf, before, ch)
      requires st == before.(now := before.now + 1)
      modifies this, Repr
      ensures Valid() && fresh(Repr - old(Repr))
      ensures st == M.Tick(conf, before, ch)
      ensures simTime == old(simTime)
    {
      hide Core, M.UserActivity, M.CpuDetermineJob, M.CpuCompute, M.DiskCompute, M.RecordCommonStats;
      UserActivity(ch);
      var busy := CpuDetermineJob(ch);
      CpuCompute(busy, ch);
      DiskCompute();
      RecordCommonStats();
    }

    /** The whole simulation, from the initial state to tick `finTime`, one element of `run` per tick. */
    method Simulate(finTime: nat, run: seq<Choices>)
      requires Valid() && st == Init(conf)
      requires finTime <= INT_MAX && |run| == finTime && ValidRun(conf, run)
      modifies this, Repr
      ensures Valid() && fresh(Repr - old(Repr))
      ensures st == Run(conf, Init(conf), run).(now := finTime + 1)
    {
      hide Core, M.Tick;
      ClockShown();
      AdvanceClock();
      ghost var s := Init(conf);
      assert run[..0] == [] && Run(conf, s, []) == s;
      while simTime <= finTime
        invariant Valid() && fresh(Repr - old(Repr)) && 1 <= simTime <= finTime + 1
        invariant s == Run(conf, Init(conf), run[..simTime - 1]) && st == s.(now := simTime) && s.now == simTime - 1
        decreases finTime + 1 - simTime
      {
        var ch := run[simTime - 1];
        ghost var prefix := run[..simTime];
        assert prefix[..|prefix| - 1] == run[..simTime - 1];
        Tick(ch, s);
        ClockShown();
        s := st;
        AdvanceClock();
      }
      assert run[..simTime - 1] == run;
    }

    lemma ClockShown()
      requires Valid()
      ensures st.now == simTime
    {
    }

    /** ++simTime */
    method AdvanceClock()
      requires Valid()
      modifies this
      ensures Valid() && Repr == old(Repr)
      ensures st == old(st).(now := old(st).now + 1) && simTime == old(simTime) + 1
    {
      hide Device.Shows, DevicesSafe, WfConf;
      ClockSafe(conf, st);
      simTime := simTime + 1;
      st := st.(now := simTime);
    }
  }
}
