/** The device ladder as the worker holds it: an object updated in place. The clock and the probes are
  * the environment's; each method is shown to compute what LadderModel says for the answers it got.
  */
module DeviceLadders {
  import opened LadderModel

  /** The probes a walk over the first n tiers adds to the trace. */
  function Looked(trace: Trace, tiers: seq<Tier>, looks: seq<Look>, interval: nat, recovering: bool, n: nat): Trace
    requires n <= |tiers| == |looks|
  {
    trace.(probes := trace.probes + ProbesOf(tiers, looks, interval, recovering, n))
  }

  /** FirstEligible is the only index that is eligible with nothing eligible before it. */
  lemma {:induction false} FirstEligibleIs(tiers: seq<Tier>, looks: seq<Look>, interval: nat, recovering: bool,
                                           i: nat, end: nat, k: nat)
    requires i <= k <= end <= |tiers| == |looks|
    requires NoneEligible(tiers, looks, interval, recovering, k)
    requires k < end ==> Eligible(tiers[k], looks[k], interval, recovering)
    ensures FirstEligible(tiers, looks, interval, recovering, i, end) == k
    decreases k - i
  {
    if i < k {
      FirstEligibleIs(tiers, looks, interval, recovering, i + 1, end, k);
    }
  }

  ghost predicate NoneEligible(tiers: seq<Tier>, looks: seq<Look>, interval: nat, recovering: bool, n: nat)
    requires n <= |tiers| == |looks|
  {
    forall j | 0 <= j < n :: !Eligible(tiers[j], looks[j], interval, recovering)
  }

  /** A walk that has looked at the first n tiers and found nothing. */
  ghost predicate Walked(was: seq<Tier>, seen: Trace, looks: seq<Look>, interval: nat, recovering: bool, n: nat,
                         tiers: seq<Tier>, trace: Trace)
  {
    && n <= |was| == |looks| == |tiers|
    && NoneEligible(was, looks, interval, recovering, n)
    && tiers == AfterLooks(was, looks, interval, recovering, n)
    && trace == Looked(seen, was, looks, interval, recovering, n)
  }

  /** Looking at the next tier. */
  lemma WalkOn(was: seq<Tier>, seen: Trace, looks: seq<Look>, interval: nat, recovering: bool, n: nat,
               tiers: seq<Tier>, trace: Trace, tiers': seq<Tier>, trace': Trace)
    requires n < |was| && Walked(was, seen, looks, interval, recovering, n, tiers, trace)
    requires if Considered(tiers[n], looks[n], recovering)
             then tiers' == tiers[n := Probed(tiers[n], looks[n], interval)]
               && trace' == trace.(probes := trace.probes + ProbesHere(tiers[n], looks[n], interval, n))
             else tiers' == tiers && trace' == trace
    ensures tiers[n] == was[n]
    ensures tiers' == AfterLooks(was, looks, interval, recovering, n + 1)
    ensures trace' == Looked(seen, was, looks, interval, recovering, n + 1)
    ensures !Eligible(was[n], looks[n], interval, recovering) ==>
              Walked(was, seen, looks, interval, recovering, n + 1, tiers', trace')
  {
  }

  /** Where a walk from instant t stops, and what it leaves behind: the first eligible tier before end,
    * fit to be moved to, or end itself. */
  ghost predicate WalkDone(was: seq<Tier>, seen: Trace, looks: seq<Look>, interval: nat, recovering: bool, end: nat,
                           k: nat, tiers: seq<Tier>, trace: Trace, t: int)
  {
    && k <= end <= |was| == |looks| == |tiers| == |trace.faultAt|
    && k == FirstEligible(was, looks, interval, recovering, 0, end)
    && tiers == AfterLooks(was, looks, interval, recovering, Reached(k, end))
    && TraceSound(tiers, trace, EndOf(looks, t))
    && trace == seen.(probes := trace.probes) && seen.probes <= trace.probes
    && (k < end ==> FitToLand(looks, trace, interval, k))
    && forall j | 0 <= j < k :: PassedOver(looks, trace, interval, recovering, j)
  }

  lemma WalkSound(was: seq<Tier>, seen: Trace, looks: seq<Look>, interval: nat, recovering: bool, n: nat,
                  tiers: seq<Tier>, trace: Trace, t: int)
    requires n <= |was| && LooksFrom(looks, t, |was|) && TraceSound(was, seen, t)
    requires tiers == AfterLooks(was, looks, interval, recovering, n)
    requires trace == Looked(seen, was, looks, interval, recovering, n)
    ensures |tiers| == |was| && TraceSound(tiers, trace, EndOf(looks, t))
    ensures forall i | 0 <= i < n ::
              if Eligible(was[i], looks[i], interval, recovering) then FitToLand(looks, trace, interval, i)
              else PassedOver(looks, trace, interval, recovering, i)
  {
    LooksKeepTrace(was, looks, interval, recovering, n, seen, t);
    EndIsLater(looks, t, |was|);
    LaterSound(tiers, trace, t, EndOf(looks, t));
  }

  lemma WalkLands(was: seq<Tier>, seen: Trace, looks: seq<Look>, interval: nat, recovering: bool, end: nat, n: nat,
                  tiers: seq<Tier>, trace: Trace, t: int)
    requires n < end <= |was| && LooksFrom(looks, t, |was|) && TraceSound(was, seen, t)
    requires NoneEligible(was, looks, interval, recovering, n) && Eligible(was[n], looks[n], interval, recovering)
    requires tiers == AfterLooks(was, looks, interval, recovering, n + 1)
    requires trace == Looked(seen, was, looks, interval, recovering, n + 1)
    ensures WalkDone(was, seen, looks, interval, recovering, end, n, tiers, trace, t)
  {
    assert n == FirstEligible(was, looks, interval, recovering, 0, end) by {
      FirstEligibleIs(was, looks, interval, recovering, 0, end, n);
    }
    WalkSound(was, seen, looks, interval, recovering, n + 1, tiers, trace, t);
  }

  lemma WalkEnds(was: seq<Tier>, seen: Trace, looks: seq<Look>, interval: nat, recovering: bool, end: nat,
                 tiers: seq<Tier>, trace: Trace, t: int)
    requires LooksFrom(looks, t, |was|) && TraceSound(was, seen, t)
    requires Walked(was, seen, looks, interval, recovering, end, tiers, trace)
    ensures WalkDone(was, seen, looks, interval, recovering, end, end, tiers, trace, t)
  {
    FirstEligibleIs(was, looks, interval, recovering, 0, end, end);
    WalkSound(was, seen, looks, interval, recovering, end, tiers, trace, t);
  }

  /** What the walk's end means for selection and for recovery. */
  lemma SelectedAt(l: Ladder, looks: seq<Look>, interval: nat, n: nat, tiers: seq<Tier>)
    requires n <= |l.tiers| == |looks| && FirstEligible(l.tiers, looks, interval, false, 0, |l.tiers|) == n
    requires tiers == AfterLooks(l.tiers, looks, interval, false, Reached(n, |l.tiers|))
    ensures |tiers| == |l.tiers| && SelectIndex(l, looks, interval) == n
    ensures Selected(l, looks, interval) ==
            if n < |l.tiers|
            then Ladder(tiers, n, tiers[n].name, true, if l.baselineSet then l.baselineIndex else n,
                        if l.baselineSet && l.baselineIndex < n then l.reason else "")
            else l.(tiers := tiers, active := "")
  {
  }

  lemma RecoveredAt(l: Ladder, looks: seq<Look>, interval: nat, n: nat, tiers: seq<Tier>)
    requires n <= l.activeIndex <= |l.tiers| == |looks| && l.active != ""
    requires FirstEligible(l.tiers, looks, interval, true, 0, l.activeIndex) == n
    requires tiers == AfterLooks(l.tiers, looks, interval, true, Reached(n, l.activeIndex))
    ensures |tiers| == |l.tiers| && (Recovers(l, looks, interval) <==> n < l.activeIndex)
    ensures Recovered(l, looks, interval) ==
            if n < l.activeIndex
            then l.(tiers := tiers, activeIndex := n, active := tiers[n].name,
                    reason := if n <= l.baselineIndex then "" else l.reason)
            else l.(tiers := tiers)
  {
  }

  lemma EndIsLater(looks: seq<Look>, t: int, n: nat)
    requires LooksFrom(looks, t, n)
    ensures t <= EndOf(looks, t)
  {
  }

  lemma LaterSound(tiers: seq<Tier>, trace: Trace, t: int, later: int)
    requires TraceSound(tiers, trace, t) && t <= later
    ensures TraceSound(tiers, trace, later)
  {
  }

  /** A fault forgets the cached answer, so what the cache says stays newer than the fault. */
  lemma MarkKeepsTrace(l: Ladder, fault: DeviceFault, now: int, quarantine: nat, trace: Trace, clock: int)
    requires HasActive(l) && TraceSound(l.tiers, trace, clock) && clock <= now && trace.quarantine == quarantine
    ensures TraceSound(Marked(l, fault, now, quarantine).tiers, Recorded(trace, l.activeIndex, fault, now), now)
  {
    var tiers := Marked(l, fault, now, quarantine).tiers;
    var trace' := Recorded(trace, l.activeIndex, fault, now);
    forall i | 0 <= i < |tiers|
      ensures CacheSound(tiers, trace', i) && RecordRight(tiers, trace', i)
    {
      assert CacheSound(l.tiers, trace, i) && RecordRight(l.tiers, trace, i);
      FaultIsRecorded(l.tiers, trace, l.activeIndex, fault, now, i);
    }
  }

  /** Refreshing one tier's cache, as every status line does. */
  lemma ProbeKeepsTrace(tiers: seq<Tier>, look: Look, interval: nat, i: nat, trace: Trace, clock: int)
    requires i < |tiers| && TraceSound(tiers, trace, clock) && clock <= look.usableAt <= look.probedAt
    ensures TraceSound(tiers[i := Probed(tiers[i], look, interval)],
                       trace.(probes := trace.probes + ProbesHere(tiers[i], look, interval, i)), look.probedAt)
  {
    var tiers' := tiers[i := Probed(tiers[i], look, interval)];
    var trace' := trace.(probes := trace.probes + ProbesHere(tiers[i], look, interval, i));
    forall j | 0 <= j < |tiers|
      ensures CacheSound(tiers', trace', j) && RecordRight(tiers', trace', j)
    {
      assert CacheSound(tiers, trace, j) && RecordRight(tiers, trace, j);
      ProbesDoNotMatter(tiers, tiers', trace, trace', j);
    }
  }

  function ProbesHere(tier: Tier, look: Look, interval: nat, i: nat): set<Probe> {
    if CacheFresh(tier, look, interval) then {} else {Probe(i, look.probedAt, look.probe)}
  }

  lemma CachesDroppedSound(tiers: seq<Tier>, trace: Trace, clock: int, cleared: seq<Tier>)
    requires TraceSound(tiers, trace, clock) && |cleared| == |tiers|
    requires forall i | 0 <= i < |tiers| :: cleared[i] == tiers[i].(probeCacheValid := false)
    ensures TraceSound(cleared, trace, clock)
  {
    forall i | 0 <= i < |tiers| ensures RecordRight(cleared, trace, i) {
      assert RecordRight(tiers, trace, i);
    }
  }

  lemma SessionSound(tiers: seq<Tier>, trace: Trace, clock: int)
    requires TraceSound(tiers, trace, clock)
    ensures TraceSound(ResetTo(tiers, |tiers|), trace.(session := |trace.faults|), clock)
  {
    forall i | 0 <= i < |tiers| ensures RecordRight(ResetTo(tiers, |tiers|), trace.(session := |trace.faults|), i) {
      assert RecordRight(tiers, trace, i);
      SessionIsRecorded(tiers, trace, i);
    }
  }

  class DeviceLadder {
    const quarantine: nat
    const probeInterval: nat

    var tiers: seq<Tier>
    var activeIndex: nat
    var active: string
    var baselineIndex: nat
    var baselineSet: bool
    var degradedReason: string

    /** The steady clock: it never goes back. */
    var clock: int
    /** Everything the probes answered and all faults reported so far. */
    ghost var trace: Trace

    ghost function State(): Ladder
      reads this
    {
      Ladder(tiers, activeIndex, active, baselineSet, baselineIndex, degradedReason)
    }

    ghost predicate Sound()
      reads this
    {
      TraceSound(tiers, trace, clock) && trace.quarantine == quarantine
    }

    /** Negative settings count as zero. */
    constructor (order: seq<string>, quarantineMs: int, probeIntervalMs: int)
      ensures quarantine == (if quarantineMs > 0 then quarantineMs else 0)
      ensures probeInterval == (if probeIntervalMs > 0 then probeIntervalMs else 0)
      ensures Sound() && |tiers| == |order| && forall i | 0 <= i < |order| :: tiers[i] == FreshTier(order[i])
      ensures State() == Ladder(tiers, 0, "", false, 0, "")
      ensures (forall i | 0 <= i < |order| :: order[i] != "") ==> RouterInv(State())
    {
      quarantine := if quarantineMs > 0 then quarantineMs else 0;
      probeInterval := if probeIntervalMs > 0 then probeIntervalMs else 0;
      tiers, activeIndex, active, baselineIndex, baselineSet, degradedReason := [], 0, "", 0, false, "";
      clock := 0;
      trace := Trace(seq(|order|, _ => 0), {}, [], 0, quarantine);
      new;
      var i := 0;
      while i < |order|
        invariant i <= |order| && |tiers| == i
        invariant forall j | 0 <= j < i :: tiers[j] == FreshTier(order[j])
        invariant State() == Ladder(tiers, 0, "", false, 0, "")
        invariant trace == Trace(seq(|order|, _ => 0), {}, [], 0, quarantine) && clock == 0
      {
        tiers := tiers + [FreshTier(order[i])];
        i := i + 1;
      }
    }

    /** What each tier would show if it were looked at now: any answers, at any later instants. */
    method Outlook() returns (looks: seq<Look>)
      ensures LooksFrom(looks, clock, |tiers|)
    {
      var same := Look(clock, clock, Unusable);
      assert LooksFrom(seq(|tiers|, _ => same), clock, |tiers|);
      looks :| LooksFrom(looks, clock, |tiers|);
    }

    method Glance() returns (look: Look)
      ensures clock <= look.usableAt <= look.probedAt
    {
      ghost var same := Look(clock, clock, Unusable);
      assert clock <= same.usableAt <= same.probedAt;
      look :| clock <= look.usableAt <= look.probedAt;
    }

    method ProbeTierCached(index: nat, look: Look) returns (r: ProbeResult)
      requires index < |tiers|
      modifies `tiers, `trace
      ensures r == ProbeAnswer(old(tiers[index]), look, probeInterval)
      ensures tiers == old(tiers)[index := Probed(old(tiers[index]), look, probeInterval)]
      ensures trace == old(trace).(
                 probes := old(trace).probes + ProbesHere(old(tiers[index]), look, probeInterval, index))
    {
      var tier := tiers[index];
      if probeInterval > 0 && tier.probeCacheValid && look.probedAt - tier.probeCachedAt < probeInterval {
        return tier.cachedProbe;
      }
      trace := trace.(probes := trace.probes + {Probe(index, look.probedAt, look.probe)});
      tiers := tiers[index := tier.(cachedProbe := look.probe, probeCachedAt := look.probedAt,
          probeCacheValid := true)];
      return tiers[index].cachedProbe;
    }

    /** A status line asks for the health of a tier, which may refresh its cache but moves nothing. */
    method TierState(index: nat) returns (quarantined: bool, r: ProbeResult)
      requires index < |tiers| && Sound()
      modifies `tiers, `trace, `clock
      ensures Sound() && SameRecords(old(tiers), tiers) && old(clock) <= clock
      ensures r == Available ==> exists at :: Probe(index, at, Available) in trace.probes && trace.faultAt[index] <= at
    {
      var look := Glance();
      ProbeKeepsTrace(tiers, look, probeInterval, index, trace, clock);
      assert CacheSound(tiers, trace, index);
      quarantined := look.usableAt < tiers[index].quarantinedUntil;
      r := ProbeTierCached(index, look);
      clock := look.probedAt;
      assert CacheSound(tiers, trace, index);
      assert r == Available && CacheFresh(old(tiers[index]), look, probeInterval) ==>
          Probe(index, old(tiers[index]).probeCachedAt, Available) in trace.probes;
    }

    /** One tier of a walk: whether it may take over. */
    method LookAt(k: nat, recovering: bool, look: Look) returns (lands: bool)
      requires k < |tiers|
      modifies `tiers, `trace
      ensures lands == Eligible(old(tiers[k]), look, probeInterval, recovering)
      ensures if Considered(old(tiers[k]), look, recovering)
              then tiers == old(tiers)[k := Probed(old(tiers[k]), look, probeInterval)]
                && trace == old(trace).(probes := old(trace).probes + ProbesHere(old(tiers[k]), look, probeInterval, k))
              else tiers == old(tiers) && trace == old(trace)
    {
      if (recovering && tiers[k].consecutiveFaults == 0) || tiers[k].sessionFatal
         || look.usableAt < tiers[k].quarantinedUntil {
        return false;
      }
      var r := ProbeTierCached(k, look);
      lands := r == Available;
    }

    /** Looks down the ladder for the first tier that may take over; both directions of movement walk
      * this way, a recovery past tiers that never faulted and no further than the active one. */
    method Walk(recovering: bool, end: nat, looks: seq<Look>) returns (k: nat)
      requires Sound() && end <= |tiers| && LooksFrom(looks, clock, |tiers|)
      modifies `tiers, `trace
      ensures WalkDone(old(tiers), old(trace), looks, probeInterval, recovering, end, k, tiers, trace, clock)
    {
      ghost var was, seen := tiers, trace;
      k := 0;
      while k < end
        invariant k <= end && Walked(was, seen, looks, probeInterval, recovering, k, tiers, trace)
      {
        ghost var before, beforeTrace := tiers, trace;
        var lands := LookAt(k, recovering, looks[k]);
        WalkOn(was, seen, looks, probeInterval, recovering, k, before, beforeTrace, tiers, trace);
        if lands {
          WalkLands(was, seen, looks, probeInterval, recovering, end, k, tiers, trace, clock);
          return;
        }
        k := k + 1;
      }
      WalkEnds(was, seen, looks, probeInterval, recovering, end, tiers, trace, clock);
    }

    method Select() returns (ok: bool, ghost looks: seq<Look>)
      requires Sound()
      modifies this
      ensures LooksFrom(looks, old(clock), |old(tiers)|) && clock == EndOf(looks, old(clock))
      ensures State() == Selected(old(State()), looks, probeInterval)
      ensures ok == (SelectIndex(old(State()), looks, probeInterval) < |old(tiers)|)
      ensures Sound() && trace == old(trace).(probes := trace.probes) && old(trace.probes) <= trace.probes
      ensures ok ==> FitToLand(looks, trace, probeInterval, activeIndex)
      ensures forall j | 0 <= j < if ok then activeIndex else |tiers| ::
                PassedOver(looks, trace, probeInterval, false, j)
    {
      var outlook := Outlook();
      looks := outlook;
      ghost var l := State();
      var i := Walk(false, |tiers|, outlook);
      SelectedAt(l, outlook, probeInterval, i, tiers);
      clock := EndOf(outlook, clock);
      if i == |tiers| {
        active := "";
        return false, looks;
      }
      activeIndex := i;
      active := tiers[i].name;
      if !baselineSet {
        baselineIndex := i;
        baselineSet := true;
      }
      if activeIndex <= baselineIndex {
        degradedReason := "";
      }
      ok := true;
    }

    method ReportFault(fault: DeviceFault) returns (moved: bool, ghost now: int, ghost looks: seq<Look>)
      requires Sound()
      modifies this
      ensures old(clock) <= now && LooksFrom(looks, now, |old(tiers)|) && clock == EndOf(looks, now)
      ensures State() == FaultReported(old(State()), fault, now, looks, quarantine, probeInterval)
      ensures moved == FallsBack(old(State()), fault, now, looks, quarantine, probeInterval)
      ensures Sound() && old(trace.probes) <= trace.probes
      ensures var before := if HasActive(old(State())) then Recorded(old(trace), old(activeIndex), fault, now)
                            else old(trace);
              trace == before.(probes := trace.probes)
      ensures moved ==> FitToLand(looks, trace, probeInterval, activeIndex)
    {
      if active == "" || activeIndex >= |tiers| {
        now := clock;
        looks := PassTime();
        return false, now, looks;
      }
      now := MarkFault(fault);
      var previousIndex, previousActive := activeIndex, active;
      var ok;
      ok, looks := Select();
      if !ok || activeIndex <= previousIndex {
        activeIndex := previousIndex;
        active := previousActive;
        return false, now, looks;
      }
      degradedReason := tiers[previousIndex].name + ":" + FaultName(fault);
      return true, now, looks;
    }

    method PassTime() returns (ghost looks: seq<Look>)
      requires Sound()
      modifies `clock
      ensures LooksFrom(looks, old(clock), |tiers|) && clock == EndOf(looks, old(clock)) && Sound()
    {
      var outlook := Outlook();
      looks := outlook;
      LaterSound(tiers, trace, clock, EndOf(looks, clock));
      clock := EndOf(outlook, clock);
    }

    /** Puts the fault on the record of the active tier. */
    method MarkFault(fault: DeviceFault) returns (ghost now: int)
      requires Sound() && HasActive(State())
      modifies `tiers, `trace, `clock
      ensures old(clock) <= now && clock == now && Sound()
      ensures State() == Marked(old(State()), fault, now, quarantine)
      ensures trace == Recorded(old(trace), activeIndex, fault, now)
    {
      var look := Glance();
      now := look.usableAt;
      MarkKeepsTrace(State(), fault, now, quarantine, trace, clock);
      var tier := tiers[activeIndex];
      tier := tier.(probeCacheValid := false, consecutiveFaults := tier.consecutiveFaults + 1, lastFault := fault,
                    quarantinedUntil := look.usableAt + quarantine);
      if fault == Removed {
        tier := tier.(sessionFatal := true);
      }
      tiers := tiers[activeIndex := tier];
      trace := Recorded(trace, activeIndex, fault, now);
      clock := look.usableAt;
    }

    /** Only ever moves up, and only to a tier that once faulted. */
    method RecoverEligibleTier() returns (moved: bool, ghost looks: seq<Look>)
      requires Sound() && activeIndex <= |tiers|
      modifies this
      ensures LooksFrom(looks, old(clock), |old(tiers)|) && clock == EndOf(looks, old(clock))
      ensures State() == Recovered(old(State()), looks, probeInterval)
      ensures moved == Recovers(old(State()), looks, probeInterval)
      ensures Sound() && trace == old(trace).(probes := trace.probes) && old(trace.probes) <= trace.probes
      ensures moved ==> activeIndex < old(activeIndex) && old(tiers)[activeIndex].consecutiveFaults > 0
      ensures moved ==> FitToLand(looks, trace, probeInterval, activeIndex)
      ensures active != "" ==> forall j | 0 <= j < activeIndex :: PassedOver(looks, trace, probeInterval, true, j)
    {
      var outlook := Outlook();
      looks := outlook;
      ghost var l := State();
      if active == "" || activeIndex == 0 {
        EndIsLater(outlook, clock, |tiers|);
        LaterSound(tiers, trace, clock, EndOf(outlook, clock));
        clock := EndOf(outlook, clock);
        return false, looks;
      }
      var i := Walk(true, activeIndex, outlook);
      RecoveredAt(l, outlook, probeInterval, i, tiers);
      clock := EndOf(outlook, clock);
      if i == activeIndex {
        return false, looks;
      }
      activeIndex := i;
      active := tiers[i].name;
      if activeIndex <= baselineIndex {
        degradedReason := "";
      }
      moved := true;
    }

    method InvalidateProbeCache()
      requires Sound()
      modifies `tiers
      ensures Sound() && SameRecords(old(tiers), tiers)
      ensures forall i | 0 <= i < |tiers| :: tiers[i] == old(tiers)[i].(probeCacheValid := false)
    {
      ghost var was := tiers;
      var i := 0;
      while i < |tiers|
        invariant i <= |tiers| == |was|
        invariant forall j | 0 <= j < |was| :: tiers[j] == if j < i then was[j].(probeCacheValid := false) else was[j]
      {
        tiers := tiers[i := tiers[i].(probeCacheValid := false)];
        i := i + 1;
      }
      CachesDroppedSound(was, trace, clock, tiers);
    }

    /** The only way back for a removed device. */
    method BeginSession()
      requires Sound()
      modifies `tiers, `trace
      ensures Sound() && State() == SessionBegun(old(State())) && trace == old(trace).(session := |old(trace.faults)|)
    {
      ghost var was := tiers;
      var i := 0;
      while i < |tiers|
        invariant i <= |tiers| == |was|
        invariant tiers == ResetTo(was, i) && trace == old(trace)
      {
        tiers := tiers[i := tiers[i].(sessionFatal := false, quarantinedUntil := 0, probeCacheValid := false)];
        i := i + 1;
      }
      SessionSound(was, trace, clock);
      trace := trace.(session := |trace.faults|);
    }
  }
}
