/** The discrete event simulator as a function from one tick boundary to the next.
    Every random draw of a tick is a field of `Choices`; a run is a sequence of choices.
    The classes in Simulator.dfy are proved to carry out exactly these steps. */
module SimModel {
  import opened PriorityQueue
  import opened Wrappers

  const INT_MAX := 0x7FFF_FFFF

  // ---------- Configuration, state and choices ----------

  datatype DiskConf = DiskConf(capacity: nat, diskMin: nat)

  datatype Conf = Conf(
    arriveMin: nat, arriveMax: nat, quitProb: nat,
    cpuMin: nat, cpuMax: nat, disk1Max: nat,
    cpuCapacity: nat, disks: seq<DiskConf>)

  /** What the simulator needs of its configuration. Every disk draws its burst from
      [its own minimum, DISK1_MAX], so the minimum of each disk is compared with DISK1_MAX. */
  ghost predicate WfConf(c: Conf) {
    && c.arriveMin <= c.arriveMax
    && 1 <= c.cpuMin <= c.cpuMax
    && (forall i :: 0 <= i < |c.disks| ==>
          1 <= c.disks[i].diskMin <= c.disk1Max && c.disks[i].capacity <= INT_MAX)
  }

  /** `entry` is a history variable: the tick in which the job entered the system. */
  datatype JobVal = JobVal(id: nat, arrival: nat, burst: nat, entry: nat)

  type Queue = seq<Item<JobVal>>

  datatype Telemetry = Telemetry(
    totalTime: int, busyTime: int, queueSum: int, maxQueueSize: int,
    maxResponseTime: int, responseTimeSum: int, responseCount: int)

  const ZERO := Telemetry(0, 0, 0, 0, 0, 0, 0)

  /** `serving` says that currentJob is set; it is then the job at the head of the queue. */
  datatype Device = Device(queue: Queue, serving: bool, telemetry: Telemetry)

  datatype Departure = Departure(job: JobVal, tick: nat)

  /** `terminated` is a history variable: the jobs killed so far and when. */
  datatype State = State(
    now: nat, cpu: Device, disks: seq<Device>,
    upcoming: Option<JobVal>, jobCount: nat, lastArrival: nat,
    terminated: seq<Departure>)

  const IDLE := Device([], false, ZERO)

  function IdleDisks(n: nat): (ds: seq<Device>)
    ensures |ds| == n && forall i :: 0 <= i < n ==> ds[i] == IDLE
  {
    seq(n, _ => IDLE)
  }

  function Init(c: Conf): State {
    State(0, IDLE, IdleDisks(|c.disks|), None, 0, 0, [])
  }

  /** The draws of one tick. For each disk: the CPU burst a job gets when it returns from it, the disk
      burst a job gets when it is swapped onto it, and the one it gets when it departs to it. */
  datatype Choices = Choices(
    gap: nat, newBurst: nat, returnBurst: seq<nat>, swapBurst: seq<nat>,
    quitDraw: nat, diskBurst: seq<nat>)

  predicate CpuBurst(c: Conf, b: nat) {
    c.cpuMin <= b <= c.cpuMax
  }

  predicate DiskBurst(c: Conf, i: nat, b: nat)
    requires i < |c.disks|
  {
    c.disks[i].diskMin <= b <= c.disk1Max
  }

  ghost predicate ValidChoices(c: Conf, ch: Choices) {
    && c.arriveMin <= ch.gap <= c.arriveMax
    && CpuBurst(c, ch.newBurst)
    && |ch.returnBurst| == |ch.swapBurst| == |ch.diskBurst| == |c.disks|
    && ch.quitDraw <= 100
    && (forall i :: 0 <= i < |c.disks| ==> CpuBurst(c, ch.returnBurst[i]))
    && (forall i :: 0 <= i < |c.disks| ==> DiskBurst(c, i, ch.swapBurst[i]))
    && (forall i :: 0 <= i < |c.disks| ==> DiskBurst(c, i, ch.diskBurst[i]))
  }

  ghost predicate ValidRun(c: Conf, run: seq<Choices>) {
    forall k :: 0 <= k < |run| ==> ValidChoices(c, run[k])
  }

  /** The state and the choices have one component for each configured disk. */
  predicate Shaped(c: Conf, s: State, ch: Choices) {
    |s.disks| == |ch.returnBurst| == |ch.swapBurst| == |ch.diskBurst| == |c.disks|
  }

  // ---------- Telemetry ----------

  function UpdateResponseTime(time: int, t: Telemetry): Telemetry {
    t.(maxResponseTime := if time > t.maxResponseTime then time else t.maxResponseTime,
       responseTimeSum := t.responseTimeSum + time,
       responseCount := t.responseCount + 1)
  }

  function RecordDevice(d: Device): Device {
    var t := d.telemetry;
    d.(telemetry := t.(
         totalTime := t.totalTime + 1,
         busyTime := if d.serving then t.busyTime + 1 else t.busyTime,
         maxQueueSize := if |d.queue| > t.maxQueueSize then |d.queue| else t.maxQueueSize,
         queueSum := t.queueSum + |d.queue|))
  }

  function RecordCommonStats(s: State): State {
    s.(cpu := RecordDevice(s.cpu),
       disks := seq(|s.disks|, i requires 0 <= i < |s.disks| => RecordDevice(s.disks[i])))
  }

  // ---------- Moving jobs ----------

  function SetHead(q: Queue, job: JobVal): Queue
    requires q != []
  {
    q[0 := q[0].(val := job)]
  }

  /** removeJobFromCPU and removeJobFromDisk: record the response time of the head and unlink it. */
  function RemoveHead(d: Device, now: nat): Device
    requires d.queue != []
  {
    Device(d.queue[1..], false, UpdateResponseTime(now - d.queue[0].val.arrival, d.telemetry))
  }

  function ArriveAtDisk(d: Device, job: JobVal, now: nat, burst: nat): (r: Device)
    ensures |r.queue| == |d.queue| + 1 && r.serving == d.serving
  {
    d.(queue := Push(d.queue, Item(job.(arrival := now, burst := burst), now)))
  }

  function ReturnFromDisk(s: State, i: nat, burst: nat): (r: State)
    requires i < |s.disks| && s.disks[i].queue != []
    ensures |r.disks| == |s.disks|
  {
    var job := s.disks[i].queue[0].val.(burst := burst);
    s.(disks := s.disks[i := RemoveHead(s.disks[i], s.now)],
       cpu := s.cpu.(queue := s.cpu.queue + [Item(job, 0)]))
  }

  /** The job on the CPU goes to disk `i`, which may be full, and the finished head of disk `i` takes
      its place in the CPU queue. */
  function Swap(s: State, i: nat, returnBurst: nat, swapBurst: nat): (r: State)
    requires i < |s.disks| && s.disks[i].queue != [] && s.cpu.queue != []
    ensures |r.disks| == |s.disks|
  {
    var waiting := s.cpu.queue[0].val;
    var cpu := RemoveHead(s.cpu, s.now);
    var disk := ArriveAtDisk(s.disks[i], waiting, s.now, swapBurst);
    ReturnFromDisk(s.(cpu := cpu, disks := s.disks[i := disk]), i, returnBurst)
  }

  /** arriveAtDisk followed by removeJobFromCPU. The job is reset while it is still at the head of the
      CPU queue, so the response time recorded for it is zero. */
  function Depart(s: State, i: nat, burst: nat): (r: State)
    requires i < |s.disks| && s.cpu.queue != []
    ensures |r.disks| == |s.disks|
  {
    var job := s.cpu.queue[0].val;
    var disk := ArriveAtDisk(s.disks[i], job, s.now, burst);
    var cpu := s.cpu.(queue := SetHead(s.cpu.queue, job.(arrival := s.now, burst := burst)));
    s.(cpu := RemoveHead(cpu, s.now), disks := s.disks[i := disk])
  }

  function KillJob(s: State): State
    requires s.cpu.queue != []
  {
    s.(cpu := s.cpu.(queue := s.cpu.queue[1..], serving := false),
       terminated := s.terminated + [Departure(s.cpu.queue[0].val, s.now)])
  }

  // ---------- The phases of a tick ----------

  function GenerateJob(s: State, ch: Choices): State {
    var arrival := s.lastArrival + ch.gap;
    s.(upcoming := Some(JobVal(s.jobCount, arrival, ch.newBurst, 0)),
       jobCount := s.jobCount + 1,
       lastArrival := arrival)
  }

  function ArriveAtCpu(s: State, job: JobVal): State {
    var arrived := job.(arrival := s.now, entry := s.now);
    s.(cpu := s.cpu.(queue := Push(s.cpu.queue, Item(arrived, s.now))))
  }

  function UserActivity(c: Conf, s: State, ch: Choices): (r: State)
    ensures r.disks == s.disks
  {
    var g := if s.upcoming.None? then GenerateJob(s, ch) else s;
    if g.upcoming.value.arrival <= g.now && |g.cpu.queue| < c.cpuCapacity then
      ArriveAtCpu(g, g.upcoming.value).(upcoming := None)
    else
      g
  }

  predicate Finished(d: Device) {
    d.queue != [] && d.queue[0].val.burst == 0
  }

  /** The job on the CPU has used up its burst and waits for a disk. */
  predicate Blocked(s: State) {
    s.cpu.serving && Finished(s.cpu)
  }

  function VisitDisk(c: Conf, s: State, ch: Choices, i: nat): (r: State)
    requires Shaped(c, s, ch) && i < |s.disks|
    ensures Shaped(c, r, ch)
  {
    if !Finished(s.disks[i]) then s
    else if |s.cpu.queue| < c.cpuCapacity then ReturnFromDisk(s, i, ch.returnBurst[i])
    else if Blocked(s) then Swap(s, i, ch.returnBurst[i], ch.swapBurst[i])
    else s
  }

  function VisitDisks(c: Conf, s: State, ch: Choices, i: nat): (r: State)
    requires Shaped(c, s, ch) && i <= |s.disks|
    ensures Shaped(c, r, ch)
    decreases |s.disks| - i
  {
    if i == |s.disks| then s else VisitDisks(c, VisitDisk(c, s, ch, i), ch, i + 1)
  }

  function CpuFetchNextJob(s: State): State {
    if !s.cpu.serving && s.cpu.queue != [] then s.(cpu := s.cpu.(serving := true)) else s
  }

  function CpuDetermineJob(c: Conf, s: State, ch: Choices): (r: State)
    requires Shaped(c, s, ch)
    ensures Shaped(c, r, ch)
  {
    CpuFetchNextJob(VisitDisks(c, s, ch, 0))
  }

  /** `best` and `qc` are the running choice and its queue length. */
  function PickFrom(c: Conf, ds: seq<Device>, i: nat, best: Option<nat>, qc: nat): (r: Option<nat>)
    requires i <= |ds| == |c.disks|
    requires best.Some? ==> best.value < |ds|
    ensures r.Some? ==> r.value < |ds|
    decreases |ds| - i
  {
    if i == |ds| then best
    else if c.disks[i].capacity != |ds[i].queue| && |ds[i].queue| < qc then
      PickFrom(c, ds, i + 1, Some(i), |ds[i].queue|)
    else
      PickFrom(c, ds, i + 1, best, qc)
  }

  function PickBestDisk(c: Conf, ds: seq<Device>): (r: Option<nat>)
    requires |ds| == |c.disks|
    ensures r.Some? ==> r.value < |ds|
  {
    PickFrom(c, ds, 0, None, INT_MAX)
  }

  /** The job at the head of the CPU queue has just used up its burst. */
  function CpuFinish(c: Conf, s: State, ch: Choices): (r: State)
    requires Shaped(c, s, ch) && s.cpu.queue != []
    ensures Shaped(c, r, ch)
  {
    if ch.quitDraw > c.quitProb then
      match PickBestDisk(c, s.disks)
      case None => s
      case Some(i) => Depart(s, i, ch.diskBurst[i])
    else
      KillJob(s)
  }

  function DecrementHead(q: Queue): Queue
    requires q != [] && q[0].val.burst > 0
  {
    SetHead(q, q[0].val.(burst := q[0].val.burst - 1))
  }

  function CpuCompute(c: Conf, s: State, ch: Choices): (r: State)
    requires Shaped(c, s, ch)
    ensures Shaped(c, r, ch)
  {
    if !s.cpu.serving || s.cpu.queue == [] || Finished(s.cpu) then s
    else
      var r := s.(cpu := s.cpu.(queue := DecrementHead(s.cpu.queue)));
      if Finished(r.cpu) then CpuFinish(c, r, ch) else r
  }

  function DiskComputeOne(d: Device): Device {
    if d.queue != [] && d.queue[0].val.burst > 0 then
      Device(DecrementHead(d.queue), true, d.telemetry)
    else
      d
  }

  function DiskCompute(s: State): State {
    s.(disks := seq(|s.disks|, i requires 0 <= i < |s.disks| => DiskComputeOne(s.disks[i])))
  }

  /** The clock advances, a job may arrive, and the CPU gets the job it will work on. */
  function Schedule(c: Conf, s: State, ch: Choices): (r: State)
    requires Shaped(c, s, ch)
    ensures Shaped(c, r, ch)
  {
    CpuDetermineJob(c, UserActivity(c, s.(now := s.now + 1), ch), ch)
  }

  /** The tick up to the point where the disks have computed, before the statistics are recorded. */
  function Work(c: Conf, s: State, ch: Choices): State
    requires Shaped(c, s, ch)
  {
    DiskCompute(CpuCompute(c, Schedule(c, s, ch), ch))
  }

  function Tick(c: Conf, s: State, ch: Choices): (r: State)
    requires Shaped(c, s, ch)
    ensures |r.disks| == |s.disks|
  {
    RecordCommonStats(Work(c, s, ch))
  }

  ghost function Run(c: Conf, s: State, run: seq<Choices>): (r: State)
    requires ValidRun(c, run) && |s.disks| == |c.disks|
    ensures |r.disks| == |c.disks|
    decreases |run|
  {
    if run == [] then s
    else Tick(c, Run(c, s, run[..|run| - 1]), run[|run| - 1])
  }

  ghost predicate Reachable(c: Conf, s: State) {
    exists run :: ValidRun(c, run) && Run(c, Init(c), run) == s
  }
}
