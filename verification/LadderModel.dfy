/** The device ladder as values: tiers, the answers the outside world gives while the ladder looks
  * at them, and what selecting, faulting and recovering come to.
  */
module LadderModel {
  datatype DeviceFault = NoFault | Unavailable | Removed | UnsupportedOp | RuntimeError

  datatype ProbeResult = Available | Unusable

  datatype Tier = Tier(name: string, consecutiveFaults: nat, lastFault: DeviceFault, sessionFatal: bool,
                       quarantinedUntil: int, probeCacheValid: bool, probeCachedAt: int, cachedProbe: ProbeResult)

  function FreshTier(name: string): Tier {
    Tier(name, 0, NoFault, false, 0, false, 0, Unusable)
  }

  /** What the ladder would see if it looked at a tier now: the clock when it checks the quarantine,
    * the clock when it consults the probe cache, and the answer of a probe taken then. */
  datatype Look = Look(usableAt: int, probedAt: int, probe: ProbeResult)

  /** One look per tier, in ladder order, with a clock that does not go back, from time t on. */
  predicate LooksFrom(looks: seq<Look>, t: int, n: nat) {
    && |looks| == n
    && (forall i | 0 <= i < n :: t <= looks[i].usableAt <= looks[i].probedAt)
    && forall i, j | 0 <= i < j < n :: looks[i].probedAt <= looks[j].usableAt
  }

  function EndOf(looks: seq<Look>, t: int): int {
    if looks == [] then t else looks[|looks| - 1].probedAt
  }

  datatype Ladder = Ladder(tiers: seq<Tier>, activeIndex: nat, active: string, baselineSet: bool, baselineIndex: nat,
                           reason: string)

  predicate Degraded(l: Ladder) {
    l.activeIndex > l.baselineIndex
  }

  // ---- one tier ------------------------------------------------------------------------

  predicate Usable(tier: Tier, look: Look) {
    !tier.sessionFatal && !(look.usableAt < tier.quarantinedUntil)
  }

  /** The cached answer is used while it is younger than the interval; 0 turns the cache off. */
  predicate CacheFresh(tier: Tier, look: Look, interval: nat) {
    0 < interval && tier.probeCacheValid && look.probedAt - tier.probeCachedAt < interval
  }

  function ProbeAnswer(tier: Tier, look: Look, interval: nat): ProbeResult {
    if CacheFresh(tier, look, interval) then tier.cachedProbe else look.probe
  }

  function Probed(tier: Tier, look: Look, interval: nat): Tier {
    if CacheFresh(tier, look, interval) then tier
    else tier.(cachedProbe := look.probe, probeCachedAt := look.probedAt, probeCacheValid := true)
  }

  /** Recovery only considers tiers that have faulted; selection considers all. */
  predicate Considered(tier: Tier, look: Look, recovering: bool) {
    (recovering ==> tier.consecutiveFaults > 0) && Usable(tier, look)
  }

  predicate Eligible(tier: Tier, look: Look, interval: nat, recovering: bool) {
    Considered(tier, look, recovering) && ProbeAnswer(tier, look, interval) == Available
  }

  // ---- looking down the ladder ---------------------------------------------------------

  /** The first eligible tier from index i on below end, or end. */
  function FirstEligible(tiers: seq<Tier>, looks: seq<Look>, interval: nat, recovering: bool, i: nat,
                         end: nat): (k: nat)
    requires i <= end <= |tiers| == |looks|
    ensures i <= k <= end
    ensures forall j | i <= j < k :: !Eligible(tiers[j], looks[j], interval, recovering)
    ensures k < end ==> Eligible(tiers[k], looks[k], interval, recovering)
    decreases end - i
  {
    if i == end || Eligible(tiers[i], looks[i], interval, recovering) then i
    else FirstEligible(tiers, looks, interval, recovering, i + 1, end)
  }

  function Seen(tier: Tier, look: Look, interval: nat, recovering: bool): Tier {
    if Considered(tier, look, recovering) then Probed(tier, look, interval) else tier
  }

  /** The tiers after the first n have been looked at: only probe caches change. */
  function AfterLooks(tiers: seq<Tier>, looks: seq<Look>, interval: nat, recovering: bool, n: nat): (r: seq<Tier>)
    requires n <= |tiers| == |looks|
    ensures |r| == |tiers|
    ensures forall i | 0 <= i < |tiers| ::
              r[i] == if i < n then Seen(tiers[i], looks[i], interval, recovering) else tiers[i]
  {
    if n == 0 then tiers
    else
      AfterLooks(tiers, looks, interval, recovering, n - 1)
        [n - 1 := Seen(tiers[n - 1], looks[n - 1], interval, recovering)]
  }

  /** How many tiers a walk looks at: up to and including the one it lands on. */
  function Reached(k: nat, end: nat): nat {
    if k < end then k + 1 else end
  }

  // ---- select, fault, recover ----------------------------------------------------------

  function SelectIndex(l: Ladder, looks: seq<Look>, interval: nat): nat
    requires |looks| == |l.tiers|
  {
    FirstEligible(l.tiers, looks, interval, false, 0, |l.tiers|)
  }

  function Selected(l: Ladder, looks: seq<Look>, interval: nat): Ladder
    requires |looks| == |l.tiers|
  {
    var k := SelectIndex(l, looks, interval);
    var tiers := AfterLooks(l.tiers, looks, interval, false, Reached(k, |l.tiers|));
    if k < |l.tiers| then
      var baseline := if l.baselineSet then l.baselineIndex else k;
      Ladder(tiers, k, tiers[k].name, true, baseline, if k <= baseline then "" else l.reason)
    else l.(tiers := tiers, active := "")
  }

  function FaultName(fault: DeviceFault): string {
    match fault
    case NoFault => "none"
    case Unavailable => "device_unavailable"
    case Removed => "device_removed"
    case UnsupportedOp => "unsupported_operation"
    case RuntimeError => "runtime_error"
  }

  function Faulted(tier: Tier, fault: DeviceFault, now: int, quarantine: nat): Tier {
    tier.(probeCacheValid := false, consecutiveFaults := tier.consecutiveFaults + 1, lastFault := fault,
          quarantinedUntil := now + quarantine, sessionFatal := tier.sessionFatal || fault == Removed)
  }

  predicate HasActive(l: Ladder) {
    l.active != "" && l.activeIndex < |l.tiers|
  }

  function Marked(l: Ladder, fault: DeviceFault, now: int, quarantine: nat): Ladder
    requires HasActive(l)
  {
    l.(tiers := l.tiers[l.activeIndex := Faulted(l.tiers[l.activeIndex], fault, now, quarantine)])
  }

  /** Does the fault lead to a lower tier? Exactly when the first eligible tier of the whole ladder
    * lies below the faulted one. */
  predicate FallsBack(l: Ladder, fault: DeviceFault, now: int, looks: seq<Look>, quarantine: nat, interval: nat)
    requires |looks| == |l.tiers|
  {
    HasActive(l) &&
    var k := SelectIndex(Marked(l, fault, now, quarantine), looks, interval);
    l.activeIndex < k < |l.tiers|
  }

  function FaultReported(l: Ladder, fault: DeviceFault, now: int, looks: seq<Look>, quarantine: nat,
                         interval: nat): Ladder
    requires |looks| == |l.tiers|
  {
    if !HasActive(l) then l
    else
      var s := Selected(Marked(l, fault, now, quarantine), looks, interval);
      if FallsBack(l, fault, now, looks, quarantine, interval)
      then s.(reason := l.tiers[l.activeIndex].name + ":" + FaultName(fault))
      else s.(activeIndex := l.activeIndex, active := l.active)
  }

  function RecoverIndex(l: Ladder, looks: seq<Look>, interval: nat): nat
    requires l.activeIndex <= |l.tiers| == |looks|
  {
    FirstEligible(l.tiers, looks, interval, true, 0, l.activeIndex)
  }

  predicate Recovers(l: Ladder, looks: seq<Look>, interval: nat)
    requires l.activeIndex <= |l.tiers| == |looks|
  {
    l.active != "" && RecoverIndex(l, looks, interval) < l.activeIndex
  }

  function Recovered(l: Ladder, looks: seq<Look>, interval: nat): Ladder
    requires l.activeIndex <= |l.tiers| == |looks|
  {
    if l.active == "" then l
    else
      var k := RecoverIndex(l, looks, interval);
      var tiers := AfterLooks(l.tiers, looks, interval, true, Reached(k, l.activeIndex));
      if k < l.activeIndex
      then l.(tiers := tiers, activeIndex := k, active := tiers[k].name,
              reason := if k <= l.baselineIndex then "" else l.reason)
      else l.(tiers := tiers)
  }

  function SessionBegun(l: Ladder): Ladder {
    l.(tiers := ResetTo(l.tiers, |l.tiers|))
  }

  function ResetTo(tiers: seq<Tier>, n: nat): (r: seq<Tier>)
    requires n <= |tiers|
    ensures |r| == |tiers|
    ensures forall i | 0 <= i < |tiers| ::
              r[i] == if i < n then tiers[i].(sessionFatal := false, quarantinedUntil := 0, probeCacheValid := false)
                  else tiers[i]
  {
    if n == 0 then tiers
    else
      ResetTo(tiers, n - 1)
        [n - 1 := tiers[n - 1].(sessionFatal := false, quarantinedUntil := 0, probeCacheValid := false)]
  }

  // ---- where a move may land -----------------------------------------------------------

  datatype Probe = Probe(tier: nat, at: int, result: ProbeResult)

  datatype FaultEvent = FaultEvent(tier: nat, at: int, fault: DeviceFault)

  /** The history: when each tier last faulted, every probe ever taken, every fault ever reported, how many of
    * those came before the present session, and how long a faulted tier is set aside. */
  datatype Trace = Trace(faultAt: seq<int>, probes: set<Probe>, faults: seq<FaultEvent>, session: nat,
                         quarantine: nat)

  /** Tier i was reported removed since the session began. */
  ghost predicate RemovedSince(trace: Trace, i: nat) {
    exists k :: trace.session <= k < |trace.faults| && trace.faults[k].tier == i && trace.faults[k].fault == Removed
  }

  /** Until when tier i is set aside for the last of its faults this session; 0 if it had none. */
  ghost function SetAsideUntil(trace: Trace, i: nat): int {
    SetAsideTo(trace, i, |trace.faults|)
  }

  ghost function SetAsideTo(trace: Trace, i: nat, n: nat): int
    requires n <= |trace.faults|
  {
    if n <= trace.session then 0
    else if trace.faults[n - 1].tier == i then trace.faults[n - 1].at + trace.quarantine
    else SetAsideTo(trace, i, n - 1)
  }

  ghost function FaultsOf(faults: seq<FaultEvent>, i: nat, n: nat): nat
    requires n <= |faults|
  {
    if n == 0 then 0 else FaultsOf(faults, i, n - 1) + if faults[n - 1].tier == i then 1 else 0
  }

  /** What a tier remembers of its faults agrees with the history. */
  ghost predicate RecordRight(tiers: seq<Tier>, trace: Trace, i: nat)
    requires i < |tiers|
  {
    && (tiers[i].sessionFatal <==> RemovedSince(trace, i))
    && tiers[i].quarantinedUntil == SetAsideUntil(trace, i)
    && tiers[i].consecutiveFaults == FaultsOf(trace.faults, i, |trace.faults|)
  }

  /** The history with one more fault. */
  function Recorded(trace: Trace, k: nat, fault: DeviceFault, now: int): Trace
    requires k < |trace.faultAt|
  {
    trace.(faultAt := trace.faultAt[k := now], faults := trace.faults + [FaultEvent(k, now, fault)])
  }

  lemma {:induction false} SetAsidePrefix(trace: Trace, longer: Trace, i: nat, n: nat)
    requires n <= |trace.faults| && trace.faults <= longer.faults
    requires trace.session == longer.session && trace.quarantine == longer.quarantine
    ensures SetAsideTo(longer, i, n) == SetAsideTo(trace, i, n)
  {
    if n > trace.session {
      SetAsidePrefix(trace, longer, i, n - 1);
    }
  }

  lemma {:induction false} FaultsOfPrefix(faults: seq<FaultEvent>, longer: seq<FaultEvent>, i: nat, n: nat)
    requires n <= |faults| && faults <= longer
    ensures FaultsOf(longer, i, n) == FaultsOf(faults, i, n)
  {
    if n > 0 {
      FaultsOfPrefix(faults, longer, i, n - 1);
    }
  }

  /** Marking the faulted tier keeps all records right. */
  lemma FaultIsRecorded(tiers: seq<Tier>, trace: Trace, k: nat, fault: DeviceFault, now: int, i: nat)
    requires k < |tiers| == |trace.faultAt| && i < |tiers| && trace.session <= |trace.faults|
    requires RecordRight(tiers, trace, i)
    ensures RecordRight(tiers[k := Faulted(tiers[k], fault, now, trace.quarantine)], Recorded(trace, k, fault, now), i)
  {
    var longer, n := Recorded(trace, k, fault, now), |trace.faults|;
    SetAsidePrefix(trace, longer, i, n);
    FaultsOfPrefix(trace.faults, longer.faults, i, n);
    assert longer.faults[n] == FaultEvent(k, now, fault);
    assert RemovedSince(longer, i) <==> RemovedSince(trace, i) || (i == k && fault == Removed) by {
      if RemovedSince(trace, i) {
        var j :| trace.session <= j < n && trace.faults[j].tier == i && trace.faults[j].fault == Removed;
        assert longer.faults[j] == trace.faults[j];
      }
    }
  }

  /** A new session leaves no fault of this session on record. */
  lemma SessionIsRecorded(tiers: seq<Tier>, trace: Trace, i: nat)
    requires i < |tiers| && RecordRight(tiers, trace, i)
    ensures RecordRight(ResetTo(tiers, |tiers|), trace.(session := |trace.faults|), i)
  {
    var next := trace.(session := |trace.faults|);
    FaultsOfPrefix(trace.faults, next.faults, i, |trace.faults|);
  }

  /** The probes taken while the first n tiers are looked at. */
  function ProbesOf(tiers: seq<Tier>, looks: seq<Look>, interval: nat, recovering: bool, n: nat): set<Probe>
    requires n <= |tiers| == |looks|
  {
    if n == 0 then {}
    else ProbesOf(tiers, looks, interval, recovering, n - 1) +
         if Considered(tiers[n - 1], looks[n - 1], recovering) && !CacheFresh(tiers[n - 1], looks[n - 1], interval)
         then {Probe(n - 1, looks[n - 1].probedAt, looks[n - 1].probe)} else {}
  }

  lemma {:induction false} ProbesOfHas(tiers: seq<Tier>, looks: seq<Look>, interval: nat, recovering: bool, n: nat,
                                       i: nat)
    requires i < n <= |tiers| == |looks|
    requires Considered(tiers[i], looks[i], recovering) && !CacheFresh(tiers[i], looks[i], interval)
    ensures Probe(i, looks[i].probedAt, looks[i].probe) in ProbesOf(tiers, looks, interval, recovering, n)
  {
    if i < n - 1 {
      ProbesOfHas(tiers, looks, interval, recovering, n - 1, i);
    }
  }

  /** A valid cache entry is the answer of a probe taken no earlier than the tier's last fault. */
  ghost predicate CacheSound(tiers: seq<Tier>, trace: Trace, i: nat)
    requires i < |tiers| == |trace.faultAt|
  {
    tiers[i].probeCacheValid ==>
      Probe(i, tiers[i].probeCachedAt, tiers[i].cachedProbe) in trace.probes
      && trace.faultAt[i] <= tiers[i].probeCachedAt
  }

  ghost predicate TraceSound(tiers: seq<Tier>, trace: Trace, clock: int) {
    && |trace.faultAt| == |tiers|
    && (forall i | 0 <= i < |tiers| :: trace.faultAt[i] <= clock)
    && (forall i | 0 <= i < |tiers| :: CacheSound(tiers, trace, i))
    && trace.session <= |trace.faults| && forall i | 0 <= i < |tiers| :: RecordRight(tiers, trace, i)
  }

  /** The tier's last word: a probe no older than its last fault, taken just now or within the interval. */
  ghost predicate Reported(looks: seq<Look>, trace: Trace, interval: nat, i: nat, result: ProbeResult)
    requires i < |looks| == |trace.faultAt|
  {
    exists at :: && Probe(i, at, result) in trace.probes
                 && trace.faultAt[i] <= at
                 && (at == looks[i].probedAt || looks[i].probedAt - at < interval)
  }

  /** A tier fit to be moved to, by the history alone: not removed this session, no longer set aside, and
    * reported available. */
  ghost predicate FitToLand(looks: seq<Look>, trace: Trace, interval: nat, i: nat)
    requires i < |looks| == |trace.faultAt|
  {
    && !RemovedSince(trace, i) && SetAsideUntil(trace, i) <= looks[i].usableAt
    && Reported(looks, trace, interval, i, Available)
  }

  /** Why a walk passes a tier over, by the history alone. */
  ghost predicate PassedOver(looks: seq<Look>, trace: Trace, interval: nat, recovering: bool, i: nat)
    requires i < |looks| == |trace.faultAt|
  {
    || RemovedSince(trace, i) || looks[i].usableAt < SetAsideUntil(trace, i)
    || (recovering && FaultsOf(trace.faults, i, |trace.faults|) == 0)
    || Reported(looks, trace, interval, i, Unusable)
  }

  /** Looking down the ladder keeps the history right; a tier the walk finds eligible is fit, and one it does
    * not is passed over for cause. */
  lemma LooksKeepTrace(tiers: seq<Tier>, looks: seq<Look>, interval: nat, recovering: bool, n: nat, trace: Trace,
                       clock: int)
    requires n <= |tiers| && LooksFrom(looks, clock, |tiers|) && TraceSound(tiers, trace, clock)
    ensures var trace' := trace.(probes := trace.probes + ProbesOf(tiers, looks, interval, recovering, n));
            var tiers' := AfterLooks(tiers, looks, interval, recovering, n);
            && TraceSound(tiers', trace', clock)
            && forall i | 0 <= i < n ::
                 if Eligible(tiers[i], looks[i], interval, recovering) then FitToLand(looks, trace', interval, i)
                 else PassedOver(looks, trace', interval, recovering, i)
  {
    var trace' := trace.(probes := trace.probes + ProbesOf(tiers, looks, interval, recovering, n));
    var tiers' := AfterLooks(tiers, looks, interval, recovering, n);
    forall i | 0 <= i < |tiers|
      ensures CacheSound(tiers', trace', i)
    {
      assert CacheSound(tiers, trace, i);
      if i < n && Considered(tiers[i], looks[i], recovering) && !CacheFresh(tiers[i], looks[i], interval) {
        ProbesOfHas(tiers, looks, interval, recovering, n, i);
      }
    }
    forall i | 0 <= i < |tiers|
      ensures RecordRight(tiers', trace', i)
    {
      ProbesDoNotMatter(tiers, tiers', trace, trace', i);
    }
    forall i | 0 <= i < n
      ensures if Eligible(tiers[i], looks[i], interval, recovering) then FitToLand(looks, trace', interval, i)
              else PassedOver(looks, trace', interval, recovering, i)
    {
      assert RecordRight(tiers', trace', i);
      if Considered(tiers[i], looks[i], recovering) {
        AnswerIsReported(tiers, looks, interval, recovering, n, trace, trace', clock, i);
      }
    }
  }

  lemma {:induction false} SetAsideSame(a: Trace, b: Trace, i: nat, n: nat)
    requires n <= |a.faults| && a.faults == b.faults && a.session == b.session && a.quarantine == b.quarantine
    ensures SetAsideTo(a, i, n) == SetAsideTo(b, i, n)
  {
    if n > a.session {
      SetAsideSame(a, b, i, n - 1);
    }
  }

  /** Records depend on the faults alone. */
  lemma ProbesDoNotMatter(tiers: seq<Tier>, tiers': seq<Tier>, trace: Trace, trace': Trace, i: nat)
    requires i < |tiers| == |tiers'| && RecordRight(tiers, trace, i)
    requires trace'.faults == trace.faults && trace'.session == trace.session && trace'.quarantine == trace.quarantine
    requires tiers'[i].sessionFatal == tiers[i].sessionFatal && tiers'[i].quarantinedUntil == tiers[i].quarantinedUntil
    requires tiers'[i].consecutiveFaults == tiers[i].consecutiveFaults
    ensures RecordRight(tiers', trace', i)
  {
    SetAsideSame(trace, trace', i, |trace.faults|);
  }

  lemma AnswerIsReported(tiers: seq<Tier>, looks: seq<Look>, interval: nat, recovering: bool, n: nat, trace: Trace,
                         trace': Trace, clock: int, i: nat)
    requires i < n <= |tiers| && LooksFrom(looks, clock, |tiers|) && TraceSound(tiers, trace, clock)
    requires trace' == trace.(probes := trace.probes + ProbesOf(tiers, looks, interval, recovering, n))
    requires Considered(tiers[i], looks[i], recovering)
    ensures Reported(looks, trace', interval, i, ProbeAnswer(tiers[i], looks[i], interval))
  {
    assert CacheSound(tiers, trace, i);
    if CacheFresh(tiers[i], looks[i], interval) {
      assert Probe(i, tiers[i].probeCachedAt, tiers[i].cachedProbe) in trace'.probes;
    } else {
      ProbesOfHas(tiers, looks, interval, recovering, n, i);
      assert Probe(i, looks[i].probedAt, looks[i].probe) in trace'.probes;
    }
  }

  // ---- runs driven by the router -------------------------------------------------------

  /** The router's view: the active tier is at or below the baseline, only such tiers ever faulted. */
  ghost predicate RouterInv(l: Ladder) {
    && (forall i | 0 <= i < |l.tiers| :: l.tiers[i].name != "")
    && (l.active != "" ==> l.baselineSet && l.activeIndex < |l.tiers| && l.tiers[l.activeIndex].name == l.active)
    && (!l.baselineSet ==> l.active == "" && l.baselineIndex == 0)
    && (l.baselineSet ==> l.active != "" && l.baselineIndex <= l.activeIndex)
    && forall i | 0 <= i < |l.tiers| && l.tiers[i].consecutiveFaults > 0 :: l.baselineSet && l.baselineIndex <= i
  }

  /** Nothing but a new session brings a removed device back, names never change, and the baseline is
    * fixed once set. */
  ghost predicate Onward(l: Ladder, m: Ladder) {
    && |m.tiers| == |l.tiers|
    && (forall i | 0 <= i < |l.tiers| :: m.tiers[i].name == l.tiers[i].name)
    && (forall i | 0 <= i < |l.tiers| && l.tiers[i].sessionFatal :: m.tiers[i].sessionFatal)
    && (l.baselineSet ==> m.baselineSet && m.baselineIndex == l.baselineIndex)
    && (m.activeIndex != l.activeIndex ==> m.activeIndex < |m.tiers| && !m.tiers[m.activeIndex].sessionFatal)
  }

  lemma OnwardTransitive(a: Ladder, b: Ladder, c: Ladder)
    requires Onward(a, b) && Onward(b, c)
    ensures |c.tiers| == |a.tiers|
    ensures forall i | 0 <= i < |a.tiers| :: c.tiers[i].name == a.tiers[i].name
    ensures forall i | 0 <= i < |a.tiers| && a.tiers[i].sessionFatal :: c.tiers[i].sessionFatal
    ensures a.baselineSet ==> c.baselineSet && c.baselineIndex == a.baselineIndex
  {
  }

  lemma SelectKeepsRouterInv(l: Ladder, looks: seq<Look>, interval: nat)
    requires RouterInv(l) && l.active == "" && |looks| == |l.tiers|
    ensures RouterInv(Selected(l, looks, interval)) && Onward(l, Selected(l, looks, interval))
    ensures Selected(l, looks, interval).active != "" <==> SelectIndex(l, looks, interval) < |l.tiers|
  {
  }

  /** A probe answers for the interval that follows it and no longer; then, or with the interval 0, the tier is
    * probed again. */
  lemma ProbeIsShared(tier: Tier, look: Look, later: Look, interval: nat)
    requires !CacheFresh(tier, look, interval)
    ensures ProbeAnswer(tier, look, interval) == look.probe
    ensures var t := Probed(tier, look, interval);
            if 0 < interval && later.probedAt < look.probedAt + interval
            then ProbeAnswer(t, later, interval) == look.probe && Probed(t, later, interval) == t
            else ProbeAnswer(t, later, interval) == later.probe
                 && Probed(t, later, interval) == Probed(t.(probeCacheValid := false), later, interval)
  {
  }

  /** In a new session a tier may be selected exactly if a new probe finds it available, whatever came before. */
  lemma SessionStartsAfresh(l: Ladder, i: nat, look: Look, interval: nat)
    requires i < |l.tiers| && 0 <= look.usableAt
    ensures var t := SessionBegun(l).tiers[i];
            && (Eligible(t, look, interval, false) <==> look.probe == Available)
            && t.consecutiveFaults == l.tiers[i].consecutiveFaults && t.lastFault == l.tiers[i].lastFault
  {
  }

  /** The first tier ever selected is the baseline, and with it nothing is degraded. */
  lemma FirstSelectionIsBaseline(l: Ladder, looks: seq<Look>, interval: nat)
    requires !l.baselineSet && |looks| == |l.tiers| && SelectIndex(l, looks, interval) < |l.tiers|
    ensures var m := Selected(l, looks, interval);
            m.baselineSet && m.baselineIndex == m.activeIndex && !Degraded(m) && m.reason == ""
  {
  }

  /** A recovery takes the reason away exactly if it ends the degradation. */
  lemma RecoveryClearsReason(l: Ladder, looks: seq<Look>, interval: nat)
    requires RouterInv(l) && l.active != "" && |looks| == |l.tiers| && Recovers(l, looks, interval)
    ensures var m := Recovered(l, looks, interval); m.reason == if Degraded(m) then l.reason else ""
  {
    RecoveryKeepsRouterInv(l, looks, interval);
  }

  /** The reason given for a fallback names the tier that failed and how. */
  lemma ReasonTells(l: Ladder, fault: DeviceFault, other: DeviceFault, now: int, looks: seq<Look>, quarantine: nat,
                    interval: nat)
    requires |looks| == |l.tiers| && FallsBack(l, fault, now, looks, quarantine, interval)
    ensures FaultReported(l, fault, now, looks, quarantine, interval).reason
         == l.tiers[l.activeIndex].name + ":" + FaultName(fault)
    ensures FaultName(fault) == FaultName(other) ==> fault == other
  {
    assert FaultName(fault)[0] == FaultName(other)[0] && |FaultName(fault)| == |FaultName(other)| ==> fault == other;
  }

  /** What looking at tiers leaves alone. */
  ghost predicate SameRecords(a: seq<Tier>, b: seq<Tier>) {
    && |a| == |b|
    && forall i | 0 <= i < |a| ::
         b[i].name == a[i].name && b[i].consecutiveFaults == a[i].consecutiveFaults
         && b[i].sessionFatal == a[i].sessionFatal
  }

  lemma LooksKeepRecords(tiers: seq<Tier>, looks: seq<Look>, interval: nat, recovering: bool, n: nat)
    requires n <= |tiers| == |looks|
    ensures SameRecords(tiers, AfterLooks(tiers, looks, interval, recovering, n))
  {
  }

  lemma MarkKeepsRouterInv(l: Ladder, fault: DeviceFault, now: int, quarantine: nat)
    requires RouterInv(l) && l.active != ""
    ensures var m := Marked(l, fault, now, quarantine);
            && RouterInv(m) && Onward(l, m)
            && m.tiers[l.activeIndex].consecutiveFaults == l.tiers[l.activeIndex].consecutiveFaults + 1
  {
  }

  /** Moving the active index over tiers whose records stay the same. */
  lemma MoveKeepsRouterInv(l: Ladder, m: Ladder)
    requires RouterInv(l) && l.baselineSet && SameRecords(l.tiers, m.tiers)
    requires m.baselineSet && m.baselineIndex == l.baselineIndex <= m.activeIndex < |m.tiers|
    requires m.active == m.tiers[m.activeIndex].name
    requires m.activeIndex != l.activeIndex ==> !m.tiers[m.activeIndex].sessionFatal
    ensures RouterInv(m) && Onward(l, m)
  {
  }

  /** A fault never moves the ladder up, and moves it down exactly when it reports that it did. */
  lemma FaultKeepsRouterInv(l: Ladder, fault: DeviceFault, now: int, looks: seq<Look>, quarantine: nat, interval: nat)
    requires RouterInv(l) && l.active != "" && |looks| == |l.tiers|
    ensures var m := FaultReported(l, fault, now, looks, quarantine, interval);
            && RouterInv(m) && Onward(l, m) && m.active != ""
            && l.activeIndex <= m.activeIndex
            && (FallsBack(l, fault, now, looks, quarantine, interval) <==> l.activeIndex < m.activeIndex)
            && forall i | 0 <= i < |l.tiers| ::
                 m.tiers[i].consecutiveFaults == l.tiers[i].consecutiveFaults + if i == l.activeIndex then 1 else 0
  {
    var marked := Marked(l, fault, now, quarantine);
    MarkKeepsRouterInv(l, fault, now, quarantine);
    var k := SelectIndex(marked, looks, interval);
    var n := Reached(k, |l.tiers|);
    LooksKeepRecords(marked.tiers, looks, interval, false, n);
    var m := FaultReported(l, fault, now, looks, quarantine, interval);
    assert m.tiers == AfterLooks(marked.tiers, looks, interval, false, n);
    MoveKeepsRouterInv(marked, m);
    OnwardTransitive(l, marked, m);
  }

  /** A fault other than a removal puts its tier aside until now + quarantine and no longer; a removal marks it for
    * the session, and so does no other fault. */
  lemma FaultSetsAside(l: Ladder, fault: DeviceFault, now: int, looks: seq<Look>, quarantine: nat, interval: nat,
                       later: Look)
    requires HasActive(l) && |looks| == |l.tiers|
    ensures var was, after := l.tiers[l.activeIndex],
                              FaultReported(l, fault, now, looks, quarantine, interval).tiers[l.activeIndex];
            && (after.sessionFatal <==> was.sessionFatal || fault == Removed)
            && (Usable(after, later) <==> !was.sessionFatal && fault != Removed && now + quarantine <= later.usableAt)
            && after.lastFault == fault && after.consecutiveFaults == was.consecutiveFaults + 1
  {
    var marked := Marked(l, fault, now, quarantine);
    var n := Reached(SelectIndex(marked, looks, interval), |l.tiers|);
    assert FaultReported(l, fault, now, looks, quarantine, interval).tiers
        == AfterLooks(marked.tiers, looks, interval, false, n);
    assert marked.tiers[l.activeIndex] == Faulted(l.tiers[l.activeIndex], fault, now, quarantine);
  }

  /** A recovery moves up, never past the baseline: only tiers at or below it ever faulted. */
  lemma RecoveryKeepsRouterInv(l: Ladder, looks: seq<Look>, interval: nat)
    requires RouterInv(l) && l.active != "" && |looks| == |l.tiers|
    ensures var m := Recovered(l, looks, interval);
            && RouterInv(m) && Onward(l, m) && m.active != ""
            && m.activeIndex <= l.activeIndex
            && (Recovers(l, looks, interval) <==> m.activeIndex < l.activeIndex)
  {
    var k := RecoverIndex(l, looks, interval);
    var n := Reached(k, l.activeIndex);
    LooksKeepRecords(l.tiers, looks, interval, true, n);
    var m := Recovered(l, looks, interval);
    assert m.tiers == AfterLooks(l.tiers, looks, interval, true, n);
    assert k < l.activeIndex ==> Eligible(l.tiers[k], looks[k], interval, true);
    MoveKeepsRouterInv(l, m);
  }

  lemma SessionKeepsRouterInv(l: Ladder)
    requires RouterInv(l)
    ensures RouterInv(SessionBegun(l))
  {
  }

  /** In every router-driven run `degraded` says exactly that the active tier is not the baseline. */
  lemma DegradedMeansOffBaseline(l: Ladder)
    requires RouterInv(l) && l.active != ""
    ensures Degraded(l) <==> l.activeIndex != l.baselineIndex
  {
  }

  /** Calling `select` while a tier is active is not covered by that: the ladder may then move above
    * its baseline, and does so exactly when a higher tier has become eligible. */
  lemma SelectAgainMayRise(l: Ladder, looks: seq<Look>, interval: nat)
    requires RouterInv(l) && l.active != "" && |looks| == |l.tiers| && SelectIndex(l, looks, interval) < |l.tiers|
    ensures RouterInv(Selected(l, looks, interval)) <==> l.baselineIndex <= SelectIndex(l, looks, interval)
  {
  }

  /** When a fault leads to a lower tier: exactly if one is eligible there and none is at or above the
    * faulted tier. */
  lemma FallsBackExactlyWhen(l: Ladder, fault: DeviceFault, now: int, looks: seq<Look>, quarantine: nat, interval: nat)
    requires HasActive(l) && |looks| == |l.tiers|
    ensures var m := Marked(l, fault, now, quarantine);
            FallsBack(l, fault, now, looks, quarantine, interval) <==>
            && (forall i | 0 <= i <= l.activeIndex :: !Eligible(m.tiers[i], looks[i], interval, false))
            && exists i :: l.activeIndex < i < |l.tiers| && Eligible(m.tiers[i], looks[i], interval, false)
  {
    var m := Marked(l, fault, now, quarantine);
    var k := SelectIndex(m, looks, interval);
    if k < |l.tiers| {
      assert Eligible(m.tiers[k], looks[k], interval, false);
    }
  }

  /** A fault leads downward only if nothing above is eligible: here the lower tier is free and
    * healthy, but a higher one is too, so no move is made. */
  lemma EligibleAboveBlocksFallback()
    ensures var tiers := [FreshTier("cuda"), FreshTier("npu"), FreshTier("cpu")];
            var looks := [Look(5, 5, Available), Look(5, 5, Available), Look(5, 5, Available)];
            var l := Ladder(tiers, 1, "npu", true, 1, "");
            && RouterInv(l)
            && Eligible(tiers[2], looks[2], 0, false)
            && !FallsBack(l, RuntimeError, 5, looks, 10, 0)
  {
  }

  /** When a fault leaves a reason behind: a fallback always gives one, and a fault that moves nothing
    * keeps the old one unless it found the baseline (or better) eligible again, which clears it. */
  lemma ReasonAfterFault(l: Ladder, fault: DeviceFault, now: int, looks: seq<Look>, quarantine: nat, interval: nat)
    requires RouterInv(l) && l.active != "" && |looks| == |l.tiers|
    ensures FaultReported(l, fault, now, looks, quarantine, interval).reason != "" <==>
            FallsBack(l, fault, now, looks, quarantine, interval) ||
            (l.reason != "" && l.baselineIndex < SelectIndex(Marked(l, fault, now, quarantine), looks, interval))
  {
    var marked := Marked(l, fault, now, quarantine);
    var k := SelectIndex(marked, looks, interval);
    assert marked.baselineSet && marked.baselineIndex == l.baselineIndex < |l.tiers|;
    if FallsBack(l, fault, now, looks, quarantine, interval) {
      assert |FaultReported(l, fault, now, looks, quarantine, interval).reason| > 0;
    }
  }

  /** So a ladder can be degraded and give no reason. From fresh tiers: the first is selected and
    * faults, the second takes over with a reason; it faults when the first has served its quarantine,
    * the move up is refused, and the reason is gone. */
  lemma DegradedMayHaveNoReason()
    ensures var start := Ladder([FreshTier("cuda"), FreshTier("cpu")], 0, "", false, 0, "");
            var started := Selected(start, AllAvailable(0), 0);
            var fallen := FaultReported(started, RuntimeError, 1, AllAvailable(1), 10, 0);
            var stuck := FaultReported(fallen, RuntimeError, 20, AllAvailable(20), 10, 0);
            && RouterInv(start) && started.active == "cuda" && !Degraded(started)
            && fallen.active == "cpu" && Degraded(fallen) && fallen.reason == "cuda:runtime_error"
            && stuck.active == "cpu" && Degraded(stuck) && stuck.reason == ""
  {
    var start := Ladder([FreshTier("cuda"), FreshTier("cpu")], 0, "", false, 0, "");
    assert SelectIndex(start, AllAvailable(0), 0) == 0;
    var started := Selected(start, AllAvailable(0), 0);
    var first := Marked(started, RuntimeError, 1, 10);
    assert !Eligible(first.tiers[0], AllAvailable(1)[0], 0, false)
        && Eligible(first.tiers[1], AllAvailable(1)[1], 0, false);
    assert SelectIndex(first, AllAvailable(1), 0) == 1;
    var fallen := FaultReported(started, RuntimeError, 1, AllAvailable(1), 10, 0);
    assert fallen.reason == "cuda:runtime_error";
    var second := Marked(fallen, RuntimeError, 20, 10);
    assert Eligible(second.tiers[0], AllAvailable(20)[0], 0, false);
    assert SelectIndex(second, AllAvailable(20), 0) == 0;
  }

  /** Two healthy tiers, looked at in one instant. */
  function AllAvailable(now: int): seq<Look> {
    [Look(now, now, Available), Look(now, now, Available)]
  }
}
