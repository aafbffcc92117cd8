/** The router drives one request down the ladder: it tries the active tier, reports its fault, and
  * follows the ladder to the next tier until one serves, none is left, or the engine cannot follow.
  */
module BackendRouters {
  import opened LadderModel
  import opened DeviceLadders

  datatype Execution = Execution(text: string, fault: DeviceFault, detail: string)

  datatype RouteResult = RouteResult(text: string, device: string, degraded: bool, degradedReason: string,
                                     fault: DeviceFault, detail: string)

  /** Which of the returns of `route` was taken. */
  datatype Exit = NoTier | Served | Exhausted | HookRefused

  /** One round of the routing loop: the tier tried, what its adapter can do, and how it went. */
  datatype Attempt = Attempt(index: nat, registered: bool, executable: bool, execution: Execution)

  // ---- runs of the ladder --------------------------------------------------------------

  /** States the ladder passes through while no new session begins. */
  ghost predicate IsRun(run: seq<Ladder>, first: Ladder, last: Ladder) {
    && |run| > 0 && run[0] == first && run[|run| - 1] == last
    && forall p | 0 < p < |run| :: Onward(run[p - 1], run[p])
  }

  lemma RunGrows(run: seq<Ladder>, first: Ladder, last: Ladder, next: Ladder)
    requires IsRun(run, first, last) && Onward(last, next)
    ensures IsRun(run + [next], first, next)
  {
    forall p | 0 < p < |run + [next]|
      ensures Onward((run + [next])[p - 1], (run + [next])[p])
    {
      assert p < |run| ==> Onward(run[p - 1], run[p]);
    }
  }

  lemma RunsJoin(a: seq<Ladder>, first: Ladder, mid: Ladder, b: seq<Ladder>, last: Ladder)
    requires IsRun(a, first, mid) && IsRun(b, mid, last)
    ensures IsRun(a + b[1..], first, last)
  {
    var r := a + b[1..];
    forall p | 0 < p < |r|
      ensures Onward(r[p - 1], r[p])
    {
      if p < |a| {
        assert Onward(a[p - 1], a[p]);
      } else {
        assert Onward(b[p - |a|], b[p - |a| + 1]);
      }
    }
  }

  /** Once a device was removed and left, no run re-enters it. */
  lemma {:induction false} RemovedNeverReentered(run: seq<Ladder>, first: Ladder, last: Ladder, i: nat)
    requires IsRun(run, first, last)
    requires i < |first.tiers| && first.tiers[i].sessionFatal && first.activeIndex != i
    ensures forall p | 0 <= p < |run| :: StaysOut(run[p], i)
    decreases |run|
  {
    if |run| > 1 {
      var shorter := run[..|run| - 1];
      assert IsRun(shorter, first, shorter[|shorter| - 1]) by {
        forall p | 0 < p < |shorter| ensures Onward(shorter[p - 1], shorter[p]) {
          assert Onward(run[p - 1], run[p]);
        }
      }
      RemovedNeverReentered(shorter, first, shorter[|shorter| - 1], i);
      assert StaysOut(shorter[|run| - 2], i) && Onward(run[|run| - 2], run[|run| - 1]);
      forall p | 0 <= p < |run| ensures StaysOut(run[p], i) {
        assert p < |run| - 1 ==> run[p] == shorter[p];
      }
    }
  }

  ghost predicate StaysOut(l: Ladder, i: nat) {
    i < |l.tiers| && l.tiers[i].sessionFatal && l.activeIndex != i
  }

  /** So a device reported removed, and left for a lower tier, is out of use until a new session begins. */
  lemma RemovalLastsTheSession(l: Ladder, now: int, looks: seq<Look>, quarantine: nat, interval: nat,
                               run: seq<Ladder>, last: Ladder)
    requires RouterInv(l) && l.active != "" && |looks| == |l.tiers|
    requires FallsBack(l, Removed, now, looks, quarantine, interval)
    requires IsRun(run, FaultReported(l, Removed, now, looks, quarantine, interval), last)
    ensures forall p | 0 <= p < |run| :: run[p].activeIndex != l.activeIndex
  {
    FaultSetsAside(l, Removed, now, looks, quarantine, interval, Look(now, now, Unusable));
    FaultKeepsRouterInv(l, Removed, now, looks, quarantine, interval);
    RemovedNeverReentered(run, run[0], last, l.activeIndex);
    forall p | 0 <= p < |run| ensures run[p].activeIndex != l.activeIndex {
      assert StaysOut(run[p], l.activeIndex);
    }
  }

  /** A baseline, once set, is the baseline of the whole run. */
  lemma {:induction false} BaselineFixed(run: seq<Ladder>, first: Ladder, last: Ladder)
    requires IsRun(run, first, last) && first.baselineSet
    ensures last.baselineSet && last.baselineIndex == first.baselineIndex && |last.tiers| == |first.tiers|
    decreases |run|
  {
    if |run| > 1 {
      var shorter := run[..|run| - 1];
      assert IsRun(shorter, first, shorter[|shorter| - 1]) by {
        forall p | 0 < p < |shorter| ensures Onward(shorter[p - 1], shorter[p]) {
          assert Onward(run[p - 1], run[p]);
        }
      }
      BaselineFixed(shorter, first, shorter[|shorter| - 1]);
      assert Onward(run[|run| - 2], run[|run| - 1]);
    }
  }

  // ---- what one request does -----------------------------------------------------------

  predicate Ok(e: Execution) {
    e.fault == NoFault
  }

  /** Tiers are tried strictly downward, none twice. */
  ghost predicate Descending(attempts: seq<Attempt>) {
    forall p, q | 0 <= p < q < |attempts| :: attempts[p].index < attempts[q].index
  }

  ghost predicate AllBelow(attempts: seq<Attempt>, n: nat) {
    forall p | 0 <= p < |attempts| :: attempts[p].index < n
  }

  ghost predicate AllFaulted(attempts: seq<Attempt>) {
    forall p | 0 <= p < |attempts| :: !Ok(attempts[p].execution)
  }

  /** Only a registered adapter that can execute ever succeeds. */
  ghost predicate Genuine(attempts: seq<Attempt>) {
    forall p | 0 <= p < |attempts| && Ok(attempts[p].execution) :: attempts[p].registered && attempts[p].executable
  }

  /** Exactly the tiers that failed have one more fault on record. */
  ghost predicate FaultsRecorded(before: seq<Tier>, after: seq<Tier>, attempts: seq<Attempt>) {
    && |before| == |after|
    && forall i | 0 <= i < |before| ::
         after[i].consecutiveFaults == before[i].consecutiveFaults + if FailedAt(attempts, i) then 1 else 0
  }

  /** Exactly tier k took one more fault. */
  ghost predicate OneMoreFault(before: seq<Tier>, after: seq<Tier>, k: nat) {
    && k < |before| == |after|
    && forall i | 0 <= i < |before| ::
         after[i].consecutiveFaults == before[i].consecutiveFaults + if i == k then 1 else 0
  }

  ghost predicate FailedAt(attempts: seq<Attempt>, i: nat) {
    exists p | 0 <= p < |attempts| :: attempts[p].index == i && !Ok(attempts[p].execution)
  }

  lemma FailureRecorded(before: seq<Tier>, mid: seq<Tier>, after: seq<Tier>, attempts: seq<Attempt>, a: Attempt)
    requires FaultsRecorded(before, mid, attempts) && !Ok(a.execution)
    requires AllBelow(attempts, a.index) && OneMoreFault(mid, after, a.index)
    ensures FaultsRecorded(before, after, attempts + [a])
  {
    forall i | 0 <= i < |before|
      ensures FailedAt(attempts + [a], i) <==> FailedAt(attempts, i) || i == a.index
      ensures i == a.index ==> !FailedAt(attempts, i)
    {
      var longer := attempts + [a];
      assert longer[|attempts|] == a;
      if FailedAt(attempts, i) {
        var p :| 0 <= p < |attempts| && attempts[p].index == i && !Ok(attempts[p].execution);
        assert longer[p] == attempts[p];
      }
    }
  }

  lemma DescendingFits(attempts: seq<Attempt>, n: nat)
    requires Descending(attempts) && AllBelow(attempts, n)
    ensures |attempts| <= n
    decreases n
  {
    if attempts != [] {
      var shorter := attempts[..|attempts| - 1];
      DescendingFits(shorter, attempts[|attempts| - 1].index);
    }
  }

  /** What the caller is told, for each way out. */
  ghost predicate Answered(r: RouteResult, exit: Exit, attempts: seq<Attempt>, l: Ladder) {
    match exit
    case NoTier =>
      && attempts == [] && l.active == ""
      && r == RouteResult("", "", false, "", Unavailable, "no usable tier in the ladder")
    case Served =>
      && attempts != [] && Ok(Last(attempts).execution) && AllFaulted(attempts[..|attempts| - 1])
      && OnTier(l, Last(attempts).index)
      && r == RouteResult(Last(attempts).execution.text, l.active, Degraded(l), l.reason, NoFault, "")
    case Exhausted =>
      && attempts != [] && AllFaulted(attempts)
      && OnTier(l, Last(attempts).index)
      && r == Broken(Last(attempts).execution, l)
    case HookRefused =>
      && attempts != [] && AllFaulted(attempts)
      && Last(attempts).index < l.activeIndex && OnTier(l, l.activeIndex)
      && r == Broken(Last(attempts).execution, l)
  }

  function Last(attempts: seq<Attempt>): Attempt
    requires attempts != []
  {
    attempts[|attempts| - 1]
  }

  ghost predicate OnTier(l: Ladder, i: nat) {
    i < |l.tiers| && l.activeIndex == i && l.active == l.tiers[i].name
  }

  /** Partial text goes back with the fault. */
  function Broken(e: Execution, l: Ladder): RouteResult {
    RouteResult(e.text, l.active, Degraded(l), l.reason, e.fault, e.detail)
  }

  /** Between rounds: the tiers above the active one down to where routing began have all failed. */
  ghost predicate Rounds(first: Ladder, before: Ladder, run: seq<Ladder>, attempts: seq<Attempt>, l: Ladder) {
    && IsRun(run, first, l) && before in run
    && (if attempts == [] then l.activeIndex == before.activeIndex else attempts[0].index == before.activeIndex)
    && Descending(attempts) && AllFaulted(attempts) && FaultsRecorded(before.tiers, l.tiers, attempts)
    && AllBelow(attempts, l.activeIndex) && |attempts| <= l.activeIndex
  }

  /** After the last round. */
  ghost predicate Finished(first: Ladder, before: Ladder, run: seq<Ladder>, attempts: seq<Attempt>, l: Ladder) {
    && IsRun(run, first, l) && before in run
    && (attempts != [] ==> attempts[0].index == before.activeIndex)
    && Descending(attempts) && AllBelow(attempts, |l.tiers|) && |attempts| <= |l.tiers|
    && Genuine(attempts) && FaultsRecorded(before.tiers, l.tiers, attempts)
  }

  lemma RoundServes(first: Ladder, before: Ladder, run: seq<Ladder>, attempts: seq<Attempt>, l: Ladder, a: Attempt)
    requires Rounds(first, before, run, attempts, l) && OnTier(l, a.index)
    requires Ok(a.execution) && a.registered && a.executable
    ensures Finished(first, before, run, attempts + [a], l)
    ensures Answered(
              RouteResult(a.execution.text, l.active, Degraded(l), l.reason, NoFault, ""), Served, attempts + [a], l)
  {
    DescendingFits(attempts + [a], |l.tiers|);
    forall i | 0 <= i < |l.tiers|
      ensures FailedAt(attempts + [a], i) <==> FailedAt(attempts, i)
    {
      if FailedAt(attempts, i) {
        var p :| 0 <= p < |attempts| && attempts[p].index == i && !Ok(attempts[p].execution);
        assert (attempts + [a])[p] == attempts[p];
      }
    }
    assert (attempts + [a])[..|attempts|] == attempts;
  }

  /** The ladder l became m by the fault of attempt a. */
  lemma RoundFails(first: Ladder, before: Ladder, run: seq<Ladder>, attempts: seq<Attempt>, l: Ladder, a: Attempt,
                   m: Ladder)
    requires Rounds(first, before, run, attempts, l) && OnTier(l, a.index) && !Ok(a.execution)
    requires Onward(l, m) && OneMoreFault(l.tiers, m.tiers, a.index) && l.activeIndex <= m.activeIndex
    ensures Finished(first, before, run + [m], attempts + [a], m)
    ensures OnTier(m, a.index) ==> Answered(Broken(a.execution, m), Exhausted, attempts + [a], m)
    ensures l.activeIndex < m.activeIndex ==> Rounds(first, before, run + [m], attempts + [a], m)
  {
    RunGrows(run, first, l, m);
    FailureRecorded(before.tiers, l.tiers, m.tiers, attempts, a);
    DescendingFits(attempts + [a], |l.tiers|);
    assert before in run + [m];
  }

  lemma RoundFollows(first: Ladder, before: Ladder, run: seq<Ladder>, attempts: seq<Attempt>, l: Ladder, a: Attempt,
                     m: Ladder)
    requires Rounds(first, before, run, attempts + [a], l) && Finished(first, before, run, attempts + [a], l)
    requires Onward(l, m) && SameRecords(l.tiers, m.tiers) && l.activeIndex == m.activeIndex
    ensures Rounds(first, before, run + [m], attempts + [a], m)
    ensures Finished(first, before, run + [m], attempts + [a], m)
    ensures OnTier(m, m.activeIndex) ==> Answered(Broken(a.execution, m), HookRefused, attempts + [a], m)
  {
    RunGrows(run, first, l, m);
    assert before in run + [m];
  }

  /** The ladder was searched for a tier to recover, and m is what came of it. */
  ghost predicate RecoveryTried(l: Ladder, m: Ladder, interval: nat) {
    l.activeIndex <= |l.tiers| && exists looks: seq<Look> :: |looks| == |l.tiers| && m == Recovered(l, looks, interval)
  }

  ghost predicate RecoveryTriedIn(run: seq<Ladder>, interval: nat) {
    exists p :: 0 <= p < |run| - 1 && RecoveryTried(run[p], run[p + 1], interval)
  }

  lemma StillTried(run: seq<Ladder>, longer: seq<Ladder>, interval: nat)
    requires run <= longer && RecoveryTriedIn(run, interval)
    ensures RecoveryTriedIn(longer, interval)
  {
    var p :| 0 <= p < |run| - 1 && RecoveryTried(run[p], run[p + 1], interval);
    assert longer[p] == run[p] && longer[p + 1] == run[p + 1];
  }

  class BackendRouter {
    const ladder: DeviceLadder
    var backends: set<string>
    var hasHook: bool
    /** The tier the engine behind the hook was last sent to. */
    ghost var told: string

    /** The engine runs the tier the ladder says is active. */
    ghost predicate InStep()
      reads this, ladder
    {
      hasHook ==> told == ladder.active
    }

    ghost predicate Valid()
      reads this, ladder
    {
      ladder.Sound() && RouterInv(ladder.State())
    }

    constructor (order: seq<string>, quarantineMs: int, probeIntervalMs: int)
      requires forall i | 0 <= i < |order| :: order[i] != ""
      ensures Valid() && fresh(ladder) && |ladder.tiers| == |order|
      ensures ladder.active == "" && !ladder.baselineSet && backends == {} && !hasHook
    {
      ladder := new DeviceLadder(order, quarantineMs, probeIntervalMs);
      backends := {};
      hasHook := false;
      told := "";
    }

    method RegisterBackend(name: string)
      requires Valid()
      modifies `backends, ladder`tiers
      ensures Valid() && backends == old(backends) + {name}
      ensures Onward(old(ladder.State()), ladder.State())
    {
      backends := backends + {name};
      ladder.InvalidateProbeCache();
    }

    /** The hook is installed while the engine runs the active tier. */
    method SetFallbackHook()
      modifies `hasHook, `told
      ensures hasHook && InStep()
    {
      hasHook := true;
      told := ladder.active;
    }

    method BeginSession()
      requires Valid()
      modifies ladder`tiers, ladder`trace
      ensures Valid() && ladder.State() == SessionBegun(old(ladder.State()))
    {
      SessionKeepsRouterInv(ladder.State());
      ladder.BeginSession();
    }

    /** Status lines, and a hook reading the ladder, ask for the health of any tiers. */
    method StatusQueries()
      requires Valid()
      modifies ladder`tiers, ladder`trace, ladder`clock
      ensures Valid() && SameRecords(old(ladder.tiers), ladder.tiers)
      ensures Onward(old(ladder.State()), ladder.State())
    {
      var queries: nat := *;
      while queries > 0 && |ladder.tiers| > 0
        invariant Valid() && SameRecords(old(ladder.tiers), ladder.tiers)
      {
        var i: nat :| i < |ladder.tiers|;
        var _, _ := ladder.TierState(i);
        queries := queries - 1;
      }
    }

    /** The fallback hook sends the engine from one tier to the next, and says whether it came up; it
      * may read the ladder but does not move it. */
    method CallHook(previous: string, next: string) returns (accepted: bool)
      requires Valid() && hasHook && previous != "" && next == ladder.active
      modifies `told, ladder`tiers, ladder`trace, ladder`clock
      ensures Valid() && SameRecords(old(ladder.tiers), ladder.tiers)
      ensures Onward(old(ladder.State()), ladder.State())
      ensures told == next && InStep()
    {
      told := next;
      StatusQueries();
      accepted := *;
    }

    method Select() returns (ok: bool, ghost run: seq<Ladder>)
      requires Valid() && ladder.active == ""
      modifies ladder
      ensures Valid() && ok == (ladder.active != "")
      ensures IsRun(run, old(ladder.State()), ladder.State())
    {
      ghost var l := ladder.State();
      ghost var looks;
      ok, looks := ladder.Select();
      SelectKeepsRouterInv(l, looks, ladder.probeInterval);
      run := [l, ladder.State()];
      ghost var mid := ladder.State();
      StatusQueries();
      RunGrows(run, l, mid, ladder.State());
      run := run + [ladder.State()];
    }

    /** The ladder takes a fault of its active tier: the fault goes on record, and the ladder either
      * moves down or stays. */
    method Report(fault: DeviceFault) returns (fell: bool)
      requires Valid() && ladder.active != ""
      modifies ladder
      ensures Valid() && ladder.active != "" && Onward(old(ladder.State()), ladder.State())
      ensures if fell then old(ladder.activeIndex) < ladder.activeIndex
          else ladder.activeIndex == old(ladder.activeIndex)
      ensures OneMoreFault(old(ladder.tiers), ladder.tiers, old(ladder.activeIndex))
      ensures !fell ==> ladder.active == old(ladder.active)
    {
      ghost var l := ladder.State();
      ghost var now, looks;
      fell, now, looks := ladder.ReportFault(fault);
      FaultKeepsRouterInv(l, fault, now, looks, ladder.quarantine, ladder.probeInterval);
    }

    /** The ladder looks for a higher tier that has served its quarantine, and moves there. */
    method Recover() returns (moved: bool)
      requires Valid() && ladder.active != ""
      modifies ladder
      ensures Valid() && ladder.active != "" && Onward(old(ladder.State()), ladder.State())
      ensures RecoveryTried(old(ladder.State()), ladder.State(), ladder.probeInterval)
      ensures if moved then ladder.activeIndex < old(ladder.activeIndex) < |old(ladder.tiers)|
                            && old(ladder.tiers)[ladder.activeIndex].consecutiveFaults > 0
              else ladder.activeIndex == old(ladder.activeIndex) && ladder.active == old(ladder.active)
    {
      ghost var l := ladder.State();
      ghost var looks;
      moved, looks := ladder.RecoverEligibleTier();
      RecoveryKeepsRouterInv(l, looks, ladder.probeInterval);
    }

    /** Looks for a higher tier that has served its quarantine, and moves there. If the engine cannot be
      * brought up on it, the recovered tier counts as faulted, and the engine follows whatever the
      * ladder makes of that. */
    method AttemptRecovery() returns (recovered: bool, ghost run: seq<Ladder>)
      requires Valid() && ladder.active != ""
      modifies ladder, `told
      ensures Valid() && ladder.active != "" && (old(InStep()) ==> InStep())
      ensures IsRun(run, old(ladder.State()), ladder.State())
      ensures |run| > 1 && RecoveryTried(run[0], run[1], ladder.probeInterval)
      ensures recovered ==> ladder.activeIndex == run[1].activeIndex < run[0].activeIndex
      ensures recovered ==> old(ladder.tiers)[ladder.activeIndex].consecutiveFaults > 0
      ensures !recovered && run[1].activeIndex == run[0].activeIndex ==> ladder.State() == run[1]
      ensures !recovered && run[1].activeIndex != run[0].activeIndex ==>
                hasHook && OneMoreFault(run[1].tiers, ladder.tiers, run[1].activeIndex)
    {
      ghost var l := ladder.State();
      var previous := ladder.active;
      recovered := Recover();
      ghost var up := ladder.State();
      run := [l, up];
      if recovered {
        ghost var rest;
        recovered, rest := FollowUp(previous);
        RunsJoin(run, l, up, rest, ladder.State());
        run := run + rest[1..];
      }
    }

    /** The engine follows the recovery, or the recovered tier is given up again. */
    method FollowUp(previous: string) returns (accepted: bool, ghost run: seq<Ladder>)
      requires Valid() && ladder.active != "" && previous != ""
      modifies ladder, `told
      ensures Valid() && ladder.active != "" && InStep()
      ensures IsRun(run, old(ladder.State()), ladder.State())
      ensures if accepted then ladder.activeIndex == old(ladder.activeIndex)
              else hasHook && OneMoreFault(old(ladder.tiers), ladder.tiers, old(ladder.activeIndex))
    {
      ghost var l := ladder.State();
      var next := ladder.active;
      StatusQueries();
      accepted := true;
      if hasHook {
        accepted := CallHook(previous, next);
      }
      run := [l, ladder.State()];
      if !accepted {
        ghost var asked, rest := ladder.State(), [];
        rest := GiveUp(next);
        RunsJoin(run, l, asked, rest, ladder.State());
        run := run + rest[1..];
      }
    }

    /** The recovered tier counts as faulted, and the engine follows the ladder. */
    method GiveUp(next: string) returns (ghost run: seq<Ladder>)
      requires Valid() && ladder.active == next != "" && hasHook && InStep()
      modifies ladder, `told
      ensures Valid() && ladder.active != "" && InStep()
      ensures IsRun(run, old(ladder.State()), ladder.State())
      ensures OneMoreFault(old(ladder.tiers), ladder.tiers, old(ladder.activeIndex))
    {
      ghost var l := ladder.State();
      var fell := Report(RuntimeError);
      ghost var down := ladder.State();
      run := [l, down];
      if fell && hasHook {
        var _ := CallHook(next, ladder.active);
        RunGrows(run, l, down, ladder.State());
        run := run + [ladder.State()];
      }
    }

    /** One tier's adapter runs the prompt. An adapter that cannot execute never counts as success. */
    method Execute(tier: string) returns (registered: bool, executable: bool, e: Execution)
      ensures registered == (tier in backends)
      ensures Ok(e) ==> registered && executable
      ensures !registered ==> e == Execution("", Unavailable, "no backend adapter registered for tier " + tier)
    {
      registered, executable := tier in backends, false;
      if !registered {
        e := Execution("", Unavailable, "no backend adapter registered for tier " + tier);
      } else {
        executable := *;
        e := *;
        if !executable && Ok(e) {
          e := e.(fault := Unavailable, detail := "adapter for " + tier + " reported success but cannot execute");
        }
      }
    }

    /** The engine follows the ladder down. */
    method FollowDown(previous: string) returns (accepted: bool)
      requires Valid() && ladder.active != "" && previous != ""
      modifies `told, ladder`tiers, ladder`trace, ladder`clock
      ensures Valid() && SameRecords(old(ladder.tiers), ladder.tiers) && InStep()
      ensures Onward(old(ladder.State()), ladder.State())
      ensures !accepted ==> hasHook
    {
      StatusQueries();
      accepted := true;
      if hasHook {
        accepted := CallHook(previous, ladder.active);
      }
    }

    /** Before the first round: a tier is active, the highest that recovery allows. */
    method Start() returns (ok: bool, ghost run: seq<Ladder>)
      requires Valid()
      modifies ladder, `told
      ensures Valid() && ok == (ladder.active != "")
      ensures old(InStep()) && old(ladder.active) != "" ==> InStep()
      ensures IsRun(run, old(ladder.State()), ladder.State()) && ladder.State() in run
      ensures ok ==> RecoveryTriedIn(run, ladder.probeInterval)
    {
      ghost var first := ladder.State();
      run := [first];
      ok := true;
      if ladder.active == "" {
        ok, run := Select();
      }
      if ok {
        ghost var mid := ladder.State();
        ghost var recovery;
        var recovered;
        recovered, recovery := AttemptRecovery();
        RunsJoin(run, first, mid, recovery, ladder.State());
        ghost var at := |run| - 1;
        run := run + recovery[1..];
        assert run[at] == recovery[0] && run[at + 1] == recovery[1];
      }
      assert run[|run| - 1] == ladder.State();
    }

    /** One round: try the active tier; unless it serves, follow the ladder one step down. */
    method TryTier(ghost first: Ladder, ghost before: Ladder, ghost soFar: seq<Ladder>, ghost tried: seq<Attempt>)
      returns (settled: bool, r: RouteResult, exit: Exit, ghost run: seq<Ladder>, ghost attempts: seq<Attempt>)
      requires Valid() && ladder.active != ""
      requires Rounds(first, before, soFar, tried, ladder.State())
      modifies ladder, `told
      ensures Valid() && (old(InStep()) ==> InStep())
      ensures if settled
              then Answered(r, exit, attempts, ladder.State()) && Finished(first, before, run, attempts, ladder.State())
              else ladder.active != "" && Rounds(first, before, run, attempts, ladder.State())
      ensures settled || |attempts| == |tried| + 1
      ensures |ladder.tiers| == |old(ladder.tiers)| && soFar <= run
      ensures settled && exit == HookRefused ==> hasHook
    {
      ghost var was := ladder.State();
      var tier := ladder.active;
      var registered, executable, e := Execute(tier);
      ghost var a := Attempt(ladder.activeIndex, registered, executable, e);
      attempts, run := tried + [a], soFar;
      if e.fault == NoFault {
        RoundServes(first, before, run, tried, was, a);
        r := RouteResult(e.text, tier, ladder.activeIndex > ladder.baselineIndex, ladder.degradedReason, NoFault, "");
        return true, r, Served, run, attempts;
      }
      var fell := Report(e.fault);
      RoundFails(first, before, run, tried, was, a, ladder.State());
      run := run + [ladder.State()];
      if !fell {
        r := RouteResult(e.text, tier, ladder.activeIndex > ladder.baselineIndex, ladder.degradedReason, e.fault,
            e.detail);
        return true, r, Exhausted, run, attempts;
      }
      was := ladder.State();
      var accepted := FollowDown(tier);
      RoundFollows(first, before, run, tried, was, a, ladder.State());
      run := run + [ladder.State()];
      settled, exit := !accepted, HookRefused;
      r := RouteResult(e.text, ladder.active, ladder.activeIndex > ladder.baselineIndex, ladder.degradedReason,
          e.fault, e.detail);
    }

    /** Tiers are tried strictly downward from where recovery left the ladder, and the loop always ends
      * in one of the four exits: it cannot run out of rounds. */
    method Route() returns (r: RouteResult, exit: Exit, ghost attempts: seq<Attempt>, ghost before: Ladder,
                 ghost run: seq<Ladder>)
      requires Valid()
      modifies ladder, `told
      ensures Valid() && Answered(r, exit, attempts, ladder.State())
      ensures old(InStep()) && old(ladder.active) != "" ==> InStep()
      ensures exit == HookRefused ==> hasHook
      ensures exit != NoTier ==> RecoveryTriedIn(run, ladder.probeInterval)
      ensures Finished(old(ladder.State()), before, run, attempts, ladder.State())
    {
      ghost var first := ladder.State();
      var ok;
      ok, run := Start();
      before, attempts := ladder.State(), [];
      ghost var begun, inStep := run, InStep();
      if !ok {
        r := RouteResult("", "", false, "", Unavailable, "no usable tier in the ladder");
        exit := NoTier;
        return;
      }
      var rounds := |ladder.tiers| + 1;
      var i := 0;
      while i < rounds
        invariant i == |attempts| && rounds == |ladder.tiers| + 1
        invariant Valid() && ladder.active != "" && (inStep ==> InStep())
        invariant Rounds(first, before, run, attempts, ladder.State())
        invariant begun <= run
      {
        var settled;
        settled, r, exit, run, attempts := TryTier(first, before, run, attempts);
        if settled {
          StillTried(begun, run, ladder.probeInterval);
          return;
        }
        i := i + 1;
      }
      assert false;
    }
  }
}
