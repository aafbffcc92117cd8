/** The only step that changes an assignment later: a worker that gave up its device comes back on the
  * CPU. Process starts and notices to the API server are the environment's.
  */
module WorkerReassignment {
  import opened CapacityPlan

  datatype Outcome = NotApplicable | Restarted | StartFailed

  /** Which hooks the caller installed. */
  datatype Hooks = Hooks(notifyCrash: bool, startWorker: bool, notifyRestarted: bool)

  /** The hooks called, in order. */
  datatype Event = CrashNotice(id: nat) | Start(id: nat, ok: bool) | RestartNotice(id: nat)

  function DemoteToCpu(a: Assignment, reason: AssignmentReason): Assignment {
    a.(backend := Cpu, reason := reason)
  }

  /** The first entry of a worker, or the number of entries. */
  function EntryOf(a: seq<Assignment>, workerId: int, n: nat): (k: nat)
    requires n <= |a|
    ensures n <= k <= |a|
    ensures forall i | n <= i < k :: a[i].workerId != workerId
    ensures k < |a| ==> a[k].workerId == workerId
    decreases |a| - n
  {
    if n == |a| || a[n].workerId == workerId then n else EntryOf(a, workerId, n + 1)
  }

  predicate Handled(a: seq<Assignment>, workerId: int, isReassignExit: bool, running: bool) {
    && workerId >= 0 && isReassignExit && running
    && var k := EntryOf(a, workerId, 0);
       k < |a| && a[k].backend == Cuda
  }

  function Demoted(a: seq<Assignment>, k: nat): seq<Assignment>
    requires k < |a|
  {
    a[k := DemoteToCpu(a[k], DeviceFault)]
  }

  function Calls(id: nat, hooks: Hooks, started: bool): seq<Event> {
    (if hooks.notifyCrash then [CrashNotice(id)] else []) +
    (if hooks.startWorker then [Start(id, started)] else []) +
    (if hooks.startWorker && started && hooks.notifyRestarted then [RestartNotice(id)] else [])
  }

  lemma {:induction false} CountAfterChange(a: seq<Assignment>, k: nat, x: Assignment, backend: Backend)
    requires k < |a|
    ensures CountOf(a[k := x], backend) + (if a[k].backend == backend then 1 else 0)
         == CountOf(a, backend) + (if x.backend == backend then 1 else 0)
  {
    var last := |a| - 1;
    if k < last {
      CountAfterChange(a[..last], k, x, backend);
      assert a[k := x][..last] == a[..last][k := x];
    } else {
      assert a[k := x][..last] == a[..last];
    }
  }

  /** Where a call stands among those of one reassignment. */
  function Turn(e: Event): nat {
    match e
    case CrashNotice(_) => 0
    case Start(_, _) => 1
    case RestartNotice(_) => 2
  }

  /** The API server learns of the crash before the replacement starts, and of the restart after it and
    * only if it came up. Every hook there is gets one call, with the worker's id. */
  lemma CallsInTurn(id: nat, hooks: Hooks, started: bool)
    ensures var c := Calls(id, hooks, started);
            && (CrashNotice(id) in c <==> hooks.notifyCrash)
            && (Start(id, true) in c <==> hooks.startWorker && started)
            && (Start(id, false) in c <==> hooks.startWorker && !started)
            && (RestartNotice(id) in c <==> hooks.notifyRestarted && Start(id, true) in c)
            && (forall e | e in c :: e.id == id)
            && forall p, q | 0 <= p < q < |c| :: Turn(c[p]) < Turn(c[q])
  {
    var crash := if hooks.notifyCrash then [CrashNotice(id)] else [];
    var start := if hooks.startWorker then [Start(id, started)] else [];
    assert forall e | e in crash :: e == CrashNotice(id);
    assert forall e | e in start :: e == Start(id, started);
    assert hooks.notifyCrash ==> crash[0] == CrashNotice(id);
    assert hooks.startWorker ==> start[0] == Start(id, started);
  }

  /** A demotion moves one worker from the GPU to the CPU and leaves everything else alone. */
  lemma DemotionLowersCuda(a: seq<Assignment>, k: nat)
    requires k < |a| && a[k].backend == Cuda
    ensures |Demoted(a, k)| == |a| && forall i | 0 <= i < |a| && i != k :: Demoted(a, k)[i] == a[i]
    ensures Demoted(a, k)[k] == Assignment(a[k].workerId, Cpu, a[k].gpuIndex, DeviceFault)
    ensures CountOf(Demoted(a, k), Cuda) == CountOf(a, Cuda) - 1
    ensures CountOf(Demoted(a, k), Cpu) == CountOf(a, Cpu) + 1
    ensures Numbered(a) ==> Numbered(Demoted(a, k))
  {
    CountAfterChange(a, k, DemoteToCpu(a[k], DeviceFault), Cuda);
    CountAfterChange(a, k, DemoteToCpu(a[k], DeviceFault), Cpu);
  }

  /** The supervisor's plan and assignments, from discovery on. */
  class Supervisor {
    const report: HardwareReport
    const limits: Limits
    const plan: Plan

    var assignments: seq<Assignment>
    ghost var handled: nat
    ghost var events: seq<Event>

    /** In every reachable state the GPU workers still fit the device, and every reassignment handled
      * so far took one of them away. */
    ghost predicate Valid()
      reads this
    {
      && Planned(plan, report, limits)
      && |assignments| == PlaceableWorkerCount(plan, limits.maxWorkers) && Numbered(assignments)
      && CountOf(assignments, Cuda) + handled <= plan.gpuWorkerCapacity
      && CountOf(assignments, Cuda) + CountOf(assignments, Cpu) == |assignments|
      && VramHolds(CountOf(assignments, Cuda), report, limits)
    }

    /** Discovery: the configured worker count is also the planner's ceiling. */
    constructor (hardware: HardwareReport, capacity: Limits, workerCount: int)
      ensures Valid() && handled == 0 && events == []
      ensures report == hardware && limits == capacity.(maxWorkers := workerCount)
      ensures RamHolds(CountOf(assignments, Cpu), report, limits)
          || (CountOf(assignments, Cuda) == 0 && |assignments| == 1)
      ensures workerCount > 0 ==> 1 <= |assignments| <= workerCount
    {
      var l := capacity.(maxWorkers := workerCount);
      var p, best := PlanCapacity(hardware, l);
      var count := PlaceableWorkerCount(p, workerCount);
      var a := AssignWorkers(p, count);
      AssignmentsFit(p, hardware, l, CountOf(a, Cuda), CountOf(a, Cpu));
      report, limits, plan, assignments := hardware, l, p, a;
      handled, events := 0, [];
    }

    /** At most as many reassignments are ever handled as there were GPU slots. */
    lemma ReassignmentsAreBounded()
      requires Valid()
      ensures handled <= plan.gpuWorkerCapacity
      ensures handled == plan.gpuWorkerCapacity ==> CountOf(assignments, Cuda) == 0
    {
    }

    method ApplyReassignment(workerId: int, isReassignExit: bool, running: bool, hooks: Hooks)
      returns (outcome: Outcome)
      requires Valid()
      modifies this
      ensures Valid()
      ensures outcome != NotApplicable <==> Handled(old(assignments), workerId, isReassignExit, running)
      ensures outcome == NotApplicable
          ==> assignments == old(assignments) && handled == old(handled) && events == old(events)
      ensures outcome != NotApplicable ==>
                && assignments == Demoted(old(assignments), EntryOf(old(assignments), workerId, 0))
                && CountOf(assignments, Cuda) == CountOf(old(assignments), Cuda) - 1 && handled == old(handled) + 1
                && events == old(events) + Calls(workerId, hooks, outcome == Restarted)
    {
      if workerId < 0 || !isReassignExit || !running {
        return NotApplicable;
      }
      var target := FindEntry(workerId);
      if target == |assignments| {
        return NotApplicable;
      }
      if assignments[target].backend != Cuda {
        return NotApplicable;
      }
      DemotionLowersCuda(assignments, target);
      FewerWorkersFit(CountOf(assignments, Cuda), CountOf(assignments, Cuda) - 1, report, limits);
      assignments := assignments[target := DemoteToCpu(assignments[target], DeviceFault)];
      handled := handled + 1;
      var started := CallHooks(workerId, hooks);
      outcome := if started then Restarted else StartFailed;
    }

    method FindEntry(workerId: nat) returns (target: nat)
      ensures target == EntryOf(assignments, workerId, 0)
    {
      target := 0;
      while target < |assignments| && assignments[target].workerId != workerId
        invariant target <= |assignments|
        invariant EntryOf(assignments, workerId, 0) == EntryOf(assignments, workerId, target)
      {
        target := target + 1;
      }
    }

    /** The API server learns of the crash before the replacement starts, and of the restart only if
      * it did. */
    method CallHooks(workerId: nat, hooks: Hooks) returns (started: bool)
      modifies `events
      ensures events == old(events) + Calls(workerId, hooks, started)
      ensures !hooks.startWorker ==> !started
    {
      if hooks.notifyCrash {
        events := events + [CrashNotice(workerId)];
      }
      started := false;
      if hooks.startWorker {
        started := *;
        events := events + [Start(workerId, started)];
      }
      if started && hooks.notifyRestarted {
        events := events + [RestartNotice(workerId)];
      }
    }
  }

  lemma FewerGpuHolds(n: nat, m: nat, freeBytes: nat, l: Limits)
    requires GpuHolds(n, freeBytes, l) && m <= n
    ensures GpuHolds(m, freeBytes, l)
  {
    var r := NotNegative(l.gpuReserveMb);
    var fewer, more := m * l.workerGpuMb + r, n * l.workerGpuMb + r;
    assert fewer <= more by { FewerFit(m, n, l.workerGpuMb, n * l.workerGpuMb); }
    FewerFit(fewer, more, MEGABYTE, freeBytes);
  }

  lemma FewerWorkersFit(n: nat, m: nat, report: HardwareReport, l: Limits)
    requires VramHolds(n, report, l) && m <= n
    ensures VramHolds(m, report, l)
  {
    if m > 0 {
      var k: nat :| FirstMaximum(report.gpus, k) && GpuHolds(n, report.gpus[k].freeBytes, l);
      FewerGpuHolds(n, m, report.gpus[k].freeBytes, l);
    }
  }
}
