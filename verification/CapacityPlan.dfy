/** How many workers the host can hold: a plan from the hardware report, and the assignments made
  * from it.
  */
module CapacityPlan {
  datatype GpuDevice = GpuDevice(name: string, description: string, freeBytes: nat, totalBytes: nat)

  datatype HardwareReport = HardwareReport(gpus: seq<GpuDevice>, ramTotalBytes: nat, ramAvailableBytes: nat,
                                           note: string, probeOk: bool)

  datatype Limits = Limits(maxWorkers: int, gpuReserveMb: int, workerGpuMb: int, ramReserveMb: int, workerRamMb: int)

  datatype GpuReason = Unplanned | ProbeSilent | NoGpu | BadGpuBudget | BelowBudget | GpuSized
  datatype CpuReason = CpuUnplanned | RamUnknown | BadRamBudget | CpuSized

  datatype Plan = Plan(gpuWorkerCapacity: nat, cpuWorkerCapacity: nat, totalVramMb: nat, freeVramMb: nat,
                       usableGpuMb: nat, totalRamMb: nat, availableRamMb: nat, usableRamMb: nat,
                       gpuName: string, gpuIndex: nat, gpuReason: GpuReason, cpuReason: CpuReason)

  datatype Backend = Cuda | Cpu

  datatype AssignmentReason = GpuSlot(slot: nat, of: nat) | NoGpuSlot | GpuFilled | DeviceFault

  datatype Assignment = Assignment(workerId: nat, backend: Backend, gpuIndex: nat, reason: AssignmentReason)

  const MEGABYTE := 1024 * 1024

  // ---- small arithmetic ----------------------------------------------------------------

  function BytesToMb(bytes: nat): nat {
    bytes / MEGABYTE
  }

  function ClampToRange(value: int, ceiling: nat): nat {
    if value <= 0 then 0 else if value > ceiling then ceiling else value
  }

  function NotNegative(x: int): nat {
    if x > 0 then x else 0
  }

  lemma ShareFits(usable: nat, budget: nat, n: nat)
    requires budget > 0 && n <= usable / budget
    ensures n * budget <= usable
  {
    assert usable == usable / budget * budget + usable % budget;
    assert n * budget <= usable / budget * budget;
  }

  lemma OneMoreDoesNot(usable: nat, budget: nat, n: nat)
    requires budget > 0 && n == usable / budget
    ensures usable < (n + 1) * budget
  {
    assert usable == usable / budget * budget + usable % budget;
  }

  // ---- the device ordinal in a name ----------------------------------------------------

  predicate IsDigit(c: char) {
    '0' <= c <= '9'
  }

  function DigitOf(c: char): nat
    requires IsDigit(c)
  {
    c as int - '0' as int
  }

  ghost predicate Digits(name: string, from: nat, end: nat) {
    from <= end <= |name| && forall i | from <= i < end :: IsDigit(name[i])
  }

  /** The number written by name[from..end]. */
  function ValueOf(name: string, from: nat, end: nat): nat
    requires Digits(name, from, end)
    decreases end - from
  {
    if from == end then 0 else ValueOf(name, from, end - 1) * 10 + DigitOf(name[end - 1])
  }

  /** Where the digits at the end of the name begin. */
  ghost predicate TailBegins(name: string, start: nat) {
    Digits(name, start, |name|) && (start > 0 ==> !IsDigit(name[start - 1]))
  }

  /** A number only grows as digits are read. */
  lemma {:induction false} ValueGrows(name: string, from: nat, mid: nat, end: nat)
    requires from <= mid && Digits(name, mid, end) && Digits(name, from, mid) && Digits(name, from, end)
    ensures ValueOf(name, from, mid) <= ValueOf(name, from, end)
    decreases end
  {
    if mid < end {
      ValueGrows(name, from, mid, end - 1);
    }
  }

  const MAX_ORDINAL := 1024

  /** The number at the end of a device name, unless there is none or it is implausibly large. The
    * accumulator stays small whatever the name. */
  method DeviceOrdinalFromName(name: string, fallback: nat) returns (ordinal: nat)
    ensures forall start: nat | TailBegins(name, start) ::
              ordinal == if start < |name| && ValueOf(name, start, |name|) <= MAX_ORDINAL
                         then ValueOf(name, start, |name|) else fallback
  {
    var start: nat := |name|;
    while start > 0 && IsDigit(name[start - 1])
      invariant start <= |name| && Digits(name, start, |name|)
    {
      start := start - 1;
    }
    forall s: nat | TailBegins(name, s) ensures s == start {
      TailIsUnique(name, s, start);
    }
    if start == |name| {
      return fallback;
    }
    ordinal := 0;
    var i: nat := start;
    while i < |name|
      invariant start <= i <= |name| && ordinal == ValueOf(name, start, i) <= MAX_ORDINAL
    {
      ordinal := ordinal * 10 + DigitOf(name[i]);
      assert ordinal == ValueOf(name, start, i + 1) <= MAX_ORDINAL * 10 + 9;
      if ordinal > MAX_ORDINAL {
        ValueGrows(name, start, i + 1, |name|);
        return fallback;
      }
      i := i + 1;
    }
  }

  lemma TailIsUnique(name: string, s: nat, t: nat)
    requires TailBegins(name, s) && TailBegins(name, t)
    ensures s == t
  {
  }

  /** How a driver numbers its devices. */
  function Decimal(n: nat): (s: string)
    ensures |s| > 0 && Digits(s, 0, |s|)
    decreases n
  {
    if n < 10 then [('0' as int + n) as char] else Decimal(n / 10) + [('0' as int + n % 10) as char]
  }

  lemma {:induction false} DecimalReadsBack(prefix: string, n: nat)
    ensures ValueOf(prefix + Decimal(n), |prefix|, |prefix + Decimal(n)|) == n
    decreases n
  {
    var name := prefix + Decimal(n);
    if n >= 10 {
      DecimalReadsBack(prefix, n / 10);
      var shorter := prefix + Decimal(n / 10);
      SameDigits(shorter, name, |prefix|, |shorter|);
    } else {
      assert ValueOf(name, |prefix|, |prefix|) == 0;
    }
  }

  lemma {:induction false} SameDigits(a: string, b: string, from: nat, end: nat)
    requires Digits(a, from, end) && end <= |b| && a[..end] == b[..end]
    ensures Digits(b, from, end)
    ensures ValueOf(a, from, end) == ValueOf(b, from, end)
    decreases end
  {
    forall i | from <= i < end ensures IsDigit(b[i]) {
      assert a[..end][i] == b[..end][i];
    }
    if from < end {
      assert a[..end][..end - 1] == a[..end - 1] && b[..end][..end - 1] == b[..end - 1];
      SameDigits(a, b, from, end - 1);
      assert a[..end][end - 1] == b[..end][end - 1];
    }
  }

  /** A device named by a word and its ordinal gives the ordinal back. */
  lemma NumberedNameReadsBack(prefix: string, n: nat)
    requires prefix == [] || !IsDigit(prefix[|prefix| - 1])
    ensures TailBegins(prefix + Decimal(n), |prefix|)
    ensures ValueOf(prefix + Decimal(n), |prefix|, |prefix + Decimal(n)|) == n
  {
    DecimalReadsBack(prefix, n);
  }

  // ---- the plan ------------------------------------------------------------------------

  /** The device with the most free memory; the first of them on a tie. */
  ghost predicate FirstMaximum(gpus: seq<GpuDevice>, k: nat) {
    && k < |gpus|
    && (forall i | 0 <= i < |gpus| :: gpus[i].freeBytes <= gpus[k].freeBytes)
    && forall i | 0 <= i < k :: gpus[i].freeBytes < gpus[k].freeBytes
  }

  /** n workers of a budget fit into what is usable, and either no more do or the ceiling is met. */
  ghost predicate LargestFit(n: nat, usable: nat, budget: nat, ceiling: nat) {
    && n <= ceiling && n * budget <= usable
    && (n == ceiling || usable < (n + 1) * budget)
  }

  lemma ShareIsLargestFit(usable: nat, budget: nat, ceiling: nat)
    requires budget > 0
    ensures LargestFit(ClampToRange(usable / budget, ceiling), usable, budget, ceiling)
  {
    var n := ClampToRange(usable / budget, ceiling);
    ShareFits(usable, budget, n);
    OneMoreDoesNot(usable, budget, usable / budget);
  }

  /** The GPU half of a plan is right for device k: sizes in whole megabytes, and as many workers as
    * the free memory less the reserve can hold. */
  ghost predicate GpuPlanned(plan: Plan, report: HardwareReport, l: Limits, k: nat) {
    && FirstMaximum(report.gpus, k)
    && plan.freeVramMb == BytesToMb(report.gpus[k].freeBytes)
    && plan.totalVramMb == BytesToMb(report.gpus[k].totalBytes)
    && plan.usableGpuMb == NotNegative(plan.freeVramMb - NotNegative(l.gpuReserveMb))
    && (if l.workerGpuMb <= 0 then plan.gpuReason == BadGpuBudget && plan.gpuWorkerCapacity == 0
        else
          && LargestFit(plan.gpuWorkerCapacity, plan.usableGpuMb, l.workerGpuMb, NotNegative(l.maxWorkers))
          && (plan.gpuReason == BelowBudget || plan.gpuReason == GpuSized)
          && (plan.gpuReason == BelowBudget <==> plan.usableGpuMb < l.workerGpuMb))
  }

  ghost predicate CpuPlanned(plan: Plan, report: HardwareReport, l: Limits) {
    && plan.totalRamMb == BytesToMb(report.ramTotalBytes) && plan.availableRamMb == BytesToMb(report.ramAvailableBytes)
    && plan.usableRamMb == NotNegative(plan.availableRamMb - NotNegative(l.ramReserveMb))
    && (if report.ramAvailableBytes == 0 then plan.cpuReason == RamUnknown && plan.cpuWorkerCapacity == 0
        else if l.workerRamMb <= 0 then plan.cpuReason == BadRamBudget && plan.cpuWorkerCapacity == 0
        else plan.cpuReason == CpuSized && LargestFit(plan.cpuWorkerCapacity, plan.usableRamMb, l.workerRamMb,
                                                      NotNegative(NotNegative(l.maxWorkers) - plan.gpuWorkerCapacity)))
  }

  /** What the plan says of device k apart from its size: its name and its driver ordinal. */
  ghost predicate Named(plan: Plan, gpus: seq<GpuDevice>, k: nat) {
    && k < |gpus|
    && plan.gpuName == (if gpus[k].description == "" then gpus[k].name else gpus[k].description)
    && forall start: nat | TailBegins(gpus[k].name, start) ::
         plan.gpuIndex == if start < |gpus[k].name| && ValueOf(gpus[k].name, start, |gpus[k].name|) <= MAX_ORDINAL
                          then ValueOf(gpus[k].name, start, |gpus[k].name|) else k
  }

  method PlanCapacity(report: HardwareReport, limits: Limits) returns (plan: Plan, ghost best: nat)
    ensures !report.probeOk ==> plan.gpuReason == ProbeSilent && plan.gpuWorkerCapacity == 0
    ensures report.probeOk && report.gpus == [] ==> plan.gpuReason == NoGpu && plan.gpuWorkerCapacity == 0
    ensures report.probeOk && report.gpus != []
        ==> GpuPlanned(plan, report, limits, best) && Named(plan, report.gpus, best)
    ensures CpuPlanned(plan, report, limits)
    ensures Planned(plan, report, limits)
  {
    best := 0;
    plan := Plan(0, 0, 0, 0, 0, 0, 0, 0, "", 0, Unplanned, CpuUnplanned);
    if !report.probeOk {
      plan := plan.(gpuReason := ProbeSilent);
    } else if report.gpus == [] {
      plan := plan.(gpuReason := NoGpu);
    } else {
      var position := BestDevice(report.gpus);
      best := position;
      plan := PlanGpu(report, limits, position, plan);
    }
    ghost var gpuHalf := plan;
    plan := PlanCpu(report, limits, plan);
    assert report.probeOk && report.gpus != [] ==> GpuPlanned(plan, report, limits, best) by {
      assert report.probeOk && report.gpus != [] ==> GpuPlanned(gpuHalf, report, limits, best);
    }
  }

  /** The GPU half, for the device chosen. */
  method PlanGpu(report: HardwareReport, limits: Limits, k: nat, start: Plan) returns (plan: Plan)
    requires FirstMaximum(report.gpus, k) && start.gpuWorkerCapacity == 0
    ensures GpuPlanned(plan, report, limits, k) && Named(plan, report.gpus, k)
    ensures plan.cpuWorkerCapacity == start.cpuWorkerCapacity
  {
    var chosen := report.gpus[k];
    var ordinal := DeviceOrdinalFromName(chosen.name, k);
    var free := BytesToMb(chosen.freeBytes);
    var reserve := if limits.gpuReserveMb > 0 then limits.gpuReserveMb else 0;
    var usable := if free - reserve > 0 then free - reserve else 0;
    plan := start.(gpuName := if chosen.description == "" then chosen.name else chosen.description, gpuIndex := ordinal,
                   totalVramMb := BytesToMb(chosen.totalBytes), freeVramMb := free, usableGpuMb := usable);
    if !(limits.workerGpuMb > 0) {
      plan := plan.(gpuReason := BadGpuBudget);
    } else if usable < limits.workerGpuMb {
      plan := plan.(gpuReason := BelowBudget);
      assert 0 * limits.workerGpuMb == 0;
    } else {
      var ceiling := if limits.maxWorkers > 0 then limits.maxWorkers else 0;
      ShareIsLargestFit(usable, limits.workerGpuMb, ceiling);
      plan := plan.(gpuWorkerCapacity := ClampToRange(usable / limits.workerGpuMb, ceiling), gpuReason := GpuSized);
    }
  }

  /** The CPU half, out of what the GPU half leaves of the ceiling. */
  method PlanCpu(report: HardwareReport, limits: Limits, gpuHalf: Plan) returns (plan: Plan)
    requires gpuHalf.cpuWorkerCapacity == 0
    ensures CpuPlanned(plan, report, limits)
    ensures plan == gpuHalf.(cpuWorkerCapacity := plan.cpuWorkerCapacity, totalRamMb := plan.totalRamMb,
                             cpuReason := plan.cpuReason, availableRamMb := plan.availableRamMb,
                             usableRamMb := plan.usableRamMb)
  {
    var ceiling := if limits.maxWorkers > 0 then limits.maxWorkers else 0;
    var cpuCeiling: nat := if ceiling - gpuHalf.gpuWorkerCapacity > 0 then ceiling - gpuHalf.gpuWorkerCapacity else 0;
    var available := BytesToMb(report.ramAvailableBytes);
    var reserve := if limits.ramReserveMb > 0 then limits.ramReserveMb else 0;
    var usable := if available - reserve > 0 then available - reserve else 0;
    plan := gpuHalf.(totalRamMb := BytesToMb(report.ramTotalBytes), availableRamMb := available, usableRamMb := usable);
    if report.ramAvailableBytes == 0 {
      plan := plan.(cpuReason := RamUnknown);
    } else if !(limits.workerRamMb > 0) {
      plan := plan.(cpuReason := BadRamBudget);
    } else {
      ShareIsLargestFit(usable, limits.workerRamMb, cpuCeiling);
      plan := plan.(cpuWorkerCapacity := ClampToRange(usable / limits.workerRamMb, cpuCeiling), cpuReason := CpuSized);
    }
  }

  method BestDevice(gpus: seq<GpuDevice>) returns (best: nat)
    requires gpus != []
    ensures FirstMaximum(gpus, best)
  {
    best := 0;
    var i: nat := 1;
    while i < |gpus|
      invariant i <= |gpus| && FirstMaximum(gpus[..i], best)
    {
      if gpus[i].freeBytes > gpus[best].freeBytes {
        best := i;
      }
      assert gpus[..i + 1] == gpus[..i] + [gpus[i]];
      i := i + 1;
    }
    assert gpus[..i] == gpus;
  }

  // ---- what a plan guarantees ----------------------------------------------------------

  /** The plan came from the report. */
  ghost predicate Planned(plan: Plan, report: HardwareReport, l: Limits) {
    && CpuPlanned(plan, report, l)
    && (plan.gpuWorkerCapacity > 0 ==> report.probeOk && exists k: nat :: GpuPlanned(plan, report, l, k))
  }

  /** n workers on the GPU with the most free memory, and the reserve, fit in it, to the byte. */
  ghost predicate VramHolds(n: nat, report: HardwareReport, l: Limits) {
    n > 0 ==> exists k: nat :: FirstMaximum(report.gpus, k) && GpuHolds(n, report.gpus[k].freeBytes, l)
  }

  ghost predicate GpuHolds(n: nat, freeBytes: nat, l: Limits) {
    l.workerGpuMb > 0 && (n * l.workerGpuMb + NotNegative(l.gpuReserveMb)) * MEGABYTE <= freeBytes
  }

  ghost predicate RamHolds(n: nat, report: HardwareReport, l: Limits) {
    n > 0 ==>
      l.workerRamMb > 0 && (n * l.workerRamMb + NotNegative(l.ramReserveMb)) * MEGABYTE <= report.ramAvailableBytes
  }

  /** Whole megabytes that fit the rounded-down size fit the real one. */
  lemma MegabytesFit(need: nat, bytes: nat)
    requires need <= BytesToMb(bytes)
    ensures need * MEGABYTE <= bytes
  {
    ShareFits(bytes, MEGABYTE, need);
  }

  lemma FewerFit(n: nat, capacity: nat, budget: nat, usable: nat)
    requires n <= capacity && capacity * budget <= usable
    ensures n * budget <= usable
  {
    assert n * budget <= capacity * budget;
  }

  /** Sizes count the whole megabytes, all of them. */
  lemma MegabytesAreWhole(bytes: nat)
    ensures BytesToMb(bytes) * 1048576 <= bytes < (BytesToMb(bytes) + 1) * 1048576
  {
    ShareFits(bytes, MEGABYTE, BytesToMb(bytes));
    OneMoreDoesNot(bytes, MEGABYTE, BytesToMb(bytes));
  }

  lemma TooMany(need: nat, bytes: nat)
    requires BytesToMb(bytes) < need
    ensures bytes < need * MEGABYTE
  {
    MegabytesAreWhole(bytes);
    FewerFit(BytesToMb(bytes) + 1, need, MEGABYTE, need * MEGABYTE);
  }

  /** Below its ceiling a plan leaves no room for one more worker: with it, workers and reserve would
    * not fit the device, or the RAM. */
  lemma CapacityIsLargest(plan: Plan, report: HardwareReport, l: Limits, k: nat)
    requires Planned(plan, report, l)
    ensures l.workerGpuMb > 0 && GpuPlanned(plan, report, l, k) && plan.gpuWorkerCapacity < l.maxWorkers
        ==> !GpuHolds(plan.gpuWorkerCapacity + 1, report.gpus[k].freeBytes, l)
    ensures l.workerRamMb > 0 && plan.gpuWorkerCapacity + plan.cpuWorkerCapacity < l.maxWorkers
        ==> !RamHolds(plan.cpuWorkerCapacity + 1, report, l)
  {
    if l.workerGpuMb > 0 && GpuPlanned(plan, report, l, k) && plan.gpuWorkerCapacity < l.maxWorkers {
      TooMany((plan.gpuWorkerCapacity + 1) * l.workerGpuMb + NotNegative(l.gpuReserveMb), report.gpus[k].freeBytes);
    }
    if l.workerRamMb > 0 && plan.gpuWorkerCapacity + plan.cpuWorkerCapacity < l.maxWorkers {
      TooMany((plan.cpuWorkerCapacity + 1) * l.workerRamMb + NotNegative(l.ramReserveMb), report.ramAvailableBytes);
    }
  }

  lemma CapacityFits(plan: Plan, report: HardwareReport, l: Limits, n: nat)
    requires Planned(plan, report, l)
    ensures n <= plan.gpuWorkerCapacity ==> VramHolds(n, report, l)
    ensures n <= plan.cpuWorkerCapacity ==> RamHolds(n, report, l)
    ensures plan.gpuWorkerCapacity + plan.cpuWorkerCapacity <= NotNegative(l.maxWorkers)
  {
    if 0 < n <= plan.gpuWorkerCapacity {
      var k: nat :| GpuPlanned(plan, report, l, k);
      FewerFit(n, plan.gpuWorkerCapacity, l.workerGpuMb, plan.usableGpuMb);
      assert 0 < n * l.workerGpuMb <= plan.usableGpuMb by { FewerFit(1, n, l.workerGpuMb, n * l.workerGpuMb); }
      MegabytesFit(n * l.workerGpuMb + NotNegative(l.gpuReserveMb), report.gpus[k].freeBytes);
      assert GpuHolds(n, report.gpus[k].freeBytes, l);
    }
    if 0 < n <= plan.cpuWorkerCapacity {
      FewerFit(n, plan.cpuWorkerCapacity, l.workerRamMb, plan.usableRamMb);
      assert 0 < n * l.workerRamMb <= plan.usableRamMb by { FewerFit(1, n, l.workerRamMb, n * l.workerRamMb); }
      MegabytesFit(n * l.workerRamMb + NotNegative(l.ramReserveMb), report.ramAvailableBytes);
    }
    if plan.gpuWorkerCapacity > 0 {
      var k: nat :| GpuPlanned(plan, report, l, k);
    }
  }

  // ---- assignments ---------------------------------------------------------------------

  /** Workers to start: no more than the devices and the operator allow, yet always one. */
  function PlaceableWorkerCount(plan: Plan, configured: int): (n: nat)
    ensures configured <= 0 ==> n == 0
    ensures configured > 0 ==> 1 <= n <= configured && (n <= plan.gpuWorkerCapacity + plan.cpuWorkerCapacity || n == 1)
    ensures configured > 0 && n < configured ==> plan.gpuWorkerCapacity + plan.cpuWorkerCapacity <= n
  {
    if configured <= 0 then 0
    else
      var placeable := plan.gpuWorkerCapacity + plan.cpuWorkerCapacity;
      if placeable >= configured then configured else if placeable < 1 then 1 else placeable
  }

  function CountOf(a: seq<Assignment>, backend: Backend): nat {
    if a == [] then 0
    else CountOf(a[..|a| - 1], backend) + if a[|a| - 1].backend == backend then 1 else 0
  }

  lemma CountOfLonger(a: seq<Assignment>, x: Assignment)
    ensures CountOf(a + [x], Cuda) == CountOf(a, Cuda) + if x.backend == Cuda then 1 else 0
    ensures CountOf(a + [x], Cpu) == CountOf(a, Cpu) + if x.backend == Cpu then 1 else 0
  {
    assert (a + [x])[..|a|] == a;
  }

  /** Worker ids are 0, 1, 2, ... */
  ghost predicate Numbered(a: seq<Assignment>) {
    forall i | 0 <= i < |a| :: a[i].workerId == i
  }

  /** The reason a worker stands where it does: its slot among those there are, or why it has none. */
  ghost predicate ReasonFor(x: Assignment, slots: nat) {
    match x.reason
    case GpuSlot(slot, of) => x.backend == Cuda && slot == x.workerId + 1 <= of == slots
    case NoGpuSlot => x.backend == Cpu && slots == 0
    case GpuFilled => x.backend == Cpu && 0 < slots <= x.workerId
    case DeviceFault => false
  }

  /** The GPU slots go to the lowest ids, and every GPU worker gets the planned device. */
  method AssignWorkers(plan: Plan, workerCount: int) returns (a: seq<Assignment>)
    ensures |a| == NotNegative(workerCount) && Numbered(a)
    ensures forall i | 0 <= i < |a| :: a[i].backend == if i < plan.gpuWorkerCapacity then Cuda else Cpu
    ensures forall i | 0 <= i < |a| && a[i].backend == Cuda :: a[i].gpuIndex == plan.gpuIndex
    ensures forall i | 0 <= i < |a| :: ReasonFor(a[i], plan.gpuWorkerCapacity)
    ensures CountOf(a, Cuda) == if |a| < plan.gpuWorkerCapacity then |a| else plan.gpuWorkerCapacity
    ensures CountOf(a, Cuda) + CountOf(a, Cpu) == |a|
  {
    a := [];
    if workerCount <= 0 {
      return;
    }
    var workerId: nat := 0;
    while workerId < workerCount
      invariant |a| == workerId <= workerCount && Numbered(a)
      invariant forall i | 0 <= i < |a| :: a[i].backend == if i < plan.gpuWorkerCapacity then Cuda else Cpu
      invariant forall i | 0 <= i < |a| && a[i].backend == Cuda :: a[i].gpuIndex == plan.gpuIndex
      invariant forall i | 0 <= i < |a| :: ReasonFor(a[i], plan.gpuWorkerCapacity)
      invariant CountOf(a, Cuda) == if |a| < plan.gpuWorkerCapacity then |a| else plan.gpuWorkerCapacity
      invariant CountOf(a, Cuda) + CountOf(a, Cpu) == |a|
    {
      var next;
      if workerId < plan.gpuWorkerCapacity {
        next := Assignment(workerId, Cuda, plan.gpuIndex, GpuSlot(workerId + 1, plan.gpuWorkerCapacity));
      } else {
        next := Assignment(workerId, Cpu, 0, if plan.gpuWorkerCapacity == 0 then NoGpuSlot else GpuFilled);
      }
      assert ReasonFor(next, plan.gpuWorkerCapacity);
      CountOfLonger(a, next);
      a := a + [next];
      workerId := workerId + 1;
    }
  }

  /** What the supervisor starts from: the VRAM of the chosen device holds its workers, and so does the
    * RAM, but for the single worker the floor insists on. */
  lemma AssignmentsFit(plan: Plan, report: HardwareReport, l: Limits, cuda: nat, cpu: nat)
    requires Planned(plan, report, l)
    requires cuda + cpu == PlaceableWorkerCount(plan, l.maxWorkers)
    requires cuda == if cuda + cpu < plan.gpuWorkerCapacity then cuda + cpu else plan.gpuWorkerCapacity
    ensures cuda <= plan.gpuWorkerCapacity && VramHolds(cuda, report, l)
    ensures RamHolds(cpu, report, l) || (cuda == 0 && cpu == 1 && plan.gpuWorkerCapacity + plan.cpuWorkerCapacity == 0)
    ensures l.maxWorkers > 0 ==> 1 <= cuda + cpu <= l.maxWorkers
  {
    CapacityFits(plan, report, l, cuda);
    CapacityFits(plan, report, l, cpu);
  }
}
