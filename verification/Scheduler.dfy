/** The shell's scheduler: a bounded queue, a global and a per-client cap, priority with ageing,
  * timers and cancel. Each handler runs to completion; a handler is one step of the machine.
  */
module Scheduler {
  import opened JobOrder

  /** How an accepted job ended. */
  datatype Outcome = Done | Failed | Cancelled | TimedOutQueued | TimedOutRunning

  /** What the closures made by one start of a job remember. */
  datatype Run = Run(job: Job, aborted: bool, execTimedOut: bool, released: bool, settled: bool)

  /** The event that ended a job. */
  datatype Ending = CancelWhileQueued | QueueTimer | ExecTimer | WorkResolved | WorkRejected

  datatype Submission = Accepted(uid: nat) | Overloaded

  datatype CancelResult = CancelledQueued | CancelledActive | NotCancelled

  // ---- the state as values -------------------------------------------------------------

  function CountOf(per: map<MfeId, nat>, m: MfeId): nat {
    if m in per then per[m] else 0
  }

  function ActiveOf(active: map<RequestId, Job>, m: MfeId): set<RequestId> {
    set id | id in active && active[id].mfeId == m
  }

  /** The counter of client m agrees with the running jobs of m; idle clients have no entry. */
  ghost predicate CounterRight(active: map<RequestId, Job>, per: map<MfeId, nat>, m: MfeId) {
    && CountOf(per, m) == |ActiveOf(active, m)|
    && (m in per <==> ActiveOf(active, m) != {})
  }

  /** perMfeActive after a job of client m starts. */
  function Counted(per: map<MfeId, nat>, m: MfeId): map<MfeId, nat> {
    per[m := CountOf(per, m) + 1]
  }

  /** perMfeActive after a job of client m gives its slot back. */
  function Uncounted(per: map<MfeId, nat>, m: MfeId): map<MfeId, nat> {
    if CountOf(per, m) <= 1 then per - {m} else per[m := CountOf(per, m) - 1]
  }

  predicate CanRun(active: map<RequestId, Job>, per: map<MfeId, nat>, maxSlots: nat, maxPerMfe: nat, job: Job) {
    |active| < maxSlots && CountOf(per, job.mfeId) < maxPerMfe
  }

  /** Waiting jobs stand in arrival order, with distinct ids none of which is running. */
  ghost predicate QueueOk(queue: seq<Job>, active: map<RequestId, Job>, nextUid: nat, clock: int) {
    && (forall p, q | 0 <= p < q < |queue| :: Earlier(queue[p], queue[q]))
    && forall p | 0 <= p < |queue| :: Waiting(queue[p], active, nextUid, clock)
  }

  ghost predicate Earlier(a: Job, b: Job) {
    a.uid < b.uid && a.createdAt <= b.createdAt && a.requestId != b.requestId
  }

  ghost predicate Waiting(job: Job, active: map<RequestId, Job>, nextUid: nat, clock: int) {
    job.uid < nextUid && job.createdAt <= clock && job.requestId !in active
  }

  /** The active map and the unreleased runs are the same jobs. */
  ghost predicate RunsOk(active: map<RequestId, Job>, runs: map<nat, Run>, nextUid: nat) {
    && (forall id | id in active :: ActiveHasRun(active, runs, id))
    && (forall u | u in runs :: RunIsSound(active, runs, nextUid, u))
  }

  ghost predicate ActiveHasRun(active: map<RequestId, Job>, runs: map<nat, Run>, id: RequestId)
    requires id in active
  {
    var job := active[id];
    job.requestId == id && job.uid in runs && runs[job.uid].job == job && !runs[job.uid].released
  }

  ghost predicate RunIsSound(active: map<RequestId, Job>, runs: map<nat, Run>, nextUid: nat, u: nat)
    requires u in runs
  {
    var run := runs[u];
    && run.job.uid == u && u < nextUid
    && (!run.released ==> run.job.requestId in active && active[run.job.requestId] == run.job)
    && (run.execTimedOut ==> run.released)
    && (run.settled ==> run.released)
  }

  ghost predicate Queued(queue: seq<Job>, u: nat) {
    exists p :: 0 <= p < |queue| && queue[p].uid == u
  }

  ghost predicate Running(runs: map<nat, Run>, u: nat) {
    u in runs && !runs[u].released
  }

  /** Every accepted job is in exactly one of the three places: queued, running, finished. */
  ghost predicate PlacesOk(queue: seq<Job>, runs: map<nat, Run>, finished: map<nat, Outcome>, nextUid: nat) {
    && (forall u :: OnePlace(queue, runs, finished, nextUid, u))
    && forall p | 0 <= p < |queue| :: queue[p].uid !in runs
  }

  ghost predicate OnePlace(queue: seq<Job>, runs: map<nat, Run>, finished: map<nat, Outcome>, nextUid: nat, u: nat) {
    && (u in finished <==> u < nextUid && !Queued(queue, u) && !Running(runs, u))
    && !(Queued(queue, u) && Running(runs, u))
  }

  predicate SameClass(a: Job, b: Job) {
    a.mfeId == b.mfeId && a.priority == b.priority
  }

  /** Jobs of one client and priority have started, and will start, in arrival order. */
  ghost predicate StartsOk(starts: seq<Job>, queue: seq<Job>, runs: map<nat, Run>) {
    && (forall p | 0 <= p < |starts| :: IsRun(runs, starts[p]))
    && (forall p, q | 0 <= p < q < |starts| :: InClassOrder(starts[p], starts[q]))
    && forall p, q | 0 <= p < |starts| && 0 <= q < |queue| :: InClassOrder(starts[p], queue[q])
  }

  ghost predicate InClassOrder(a: Job, b: Job) {
    SameClass(a, b) ==> a.uid < b.uid
  }

  ghost predicate IsRun(runs: map<nat, Run>, job: Job) {
    job.uid in runs && runs[job.uid].job == job
  }

  ghost predicate CapsOk(queue: seq<Job>, active: map<RequestId, Job>, per: map<MfeId, nat>,
                         maxSlots: nat, maxPerMfe: nat, maxQueue: nat)
  {
    && |queue| <= maxQueue && |active| <= maxSlots
    && (forall m :: CounterRight(active, per, m))
    && forall m :: CountOf(per, m) <= maxPerMfe
  }

  /** No slot is idle while a waiting job may use it. */
  ghost predicate WorkConserving(queue: seq<Job>, active: map<RequestId, Job>, per: map<MfeId, nat>,
                                 maxSlots: nat, maxPerMfe: nat)
  {
    |active| == maxSlots || forall p | 0 <= p < |queue| :: CountOf(per, queue[p].mfeId) == maxPerMfe
  }

  function RemoveAt<T>(xs: seq<T>, i: nat): (r: seq<T>)
    requires i < |xs|
    ensures |r| == |xs| - 1
    ensures forall p | 0 <= p < |r| :: r[p] == if p < i then xs[p] else xs[p + 1]
  {
    xs[..i] + xs[i + 1..]
  }

  // ---- the story of each job -----------------------------------------------------------

  /** How a job ended, by the event that ended it and whether a cancel reached it while it ran. */
  function OutcomeOf(e: Ending, cancelled: bool): Outcome {
    match e
    case CancelWhileQueued => Cancelled
    case QueueTimer => TimedOutQueued
    case ExecTimer => TimedOutRunning
    case WorkResolved => Done
    case WorkRejected => if cancelled then Cancelled else Failed
  }

  function SettledBy(resolved: bool): Ending {
    if resolved then WorkResolved else WorkRejected
  }

  /** The record of cancel requests and ending events agrees with what the runs remember and with the
    * outcomes. */
  ghost predicate StoryOk(runs: map<nat, Run>, finished: map<nat, Outcome>, asked: set<nat>, ends: map<nat, Ending>) {
    && finished.Keys == ends.Keys && (forall u | u in asked :: u in runs)
    && (forall u | u in finished :: finished[u] == OutcomeOf(ends[u], u in asked))
    && forall u | u in runs :: RunStory(runs, asked, ends, u)
  }

  /** A run that holds its slot was told to stop exactly if a cancel reached it; it timed out exactly if its
    * timer ended it, and was told to stop then too. */
  ghost predicate RunStory(runs: map<nat, Run>, asked: set<nat>, ends: map<nat, Ending>, u: nat)
    requires u in runs
  {
    && (!runs[u].released ==> (runs[u].aborted <==> u in asked) && u !in ends)
    && (runs[u].execTimedOut <==> u in ends && ends[u] == ExecTimer)
    && (runs[u].execTimedOut ==> runs[u].aborted)
  }

  /** In every reachable state each outcome tells what ended the job. */
  lemma OutcomesTell(runs: map<nat, Run>, finished: map<nat, Outcome>, asked: set<nat>, ends: map<nat, Ending>, u: nat)
    requires StoryOk(runs, finished, asked, ends) && u in finished
    ensures u in ends
    ensures finished[u] == Done <==> ends[u] == WorkResolved
    ensures finished[u] == Failed <==> ends[u] == WorkRejected && u !in asked
    ensures finished[u] == Cancelled <==> ends[u] == CancelWhileQueued || (ends[u] == WorkRejected && u in asked)
    ensures finished[u] == TimedOutQueued <==> ends[u] == QueueTimer
    ensures finished[u] == TimedOutRunning <==> ends[u] == ExecTimer
  {
  }

  lemma StartStory(s: State, l: Limits, asked: set<nat>, ends: map<nat, Ending>, i: nat)
    requires Inv(s, l) && StoryOk(s.runs, s.finished, asked, ends) && i < |s.queue|
    ensures var t := Started(s, i); StoryOk(t.runs, t.finished, asked, ends)
  {
    var t, u := Started(s, i), s.queue[i].uid;
    assert OnePlace(s.queue, s.runs, s.finished, s.nextUid, u) && Queued(s.queue, u);
    forall v | v in t.runs ensures RunStory(t.runs, asked, ends, v) {
      assert v != u ==> RunStory(s.runs, asked, ends, v);
    }
  }

  lemma DropStory(s: State, l: Limits, asked: set<nat>, ends: map<nat, Ending>, i: nat, e: Ending)
    requires Inv(s, l) && StoryOk(s.runs, s.finished, asked, ends) && i < |s.queue|
    requires e.CancelWhileQueued? || e.QueueTimer?
    ensures var t := Dropped(s, i, OutcomeOf(e, false));
            StoryOk(t.runs, t.finished, asked, ends[s.queue[i].uid := e])
  {
    var u := s.queue[i].uid;
    forall v | v in s.runs ensures RunStory(s.runs, asked, ends[u := e], v) {
      assert v != u && RunStory(s.runs, asked, ends, v);
    }
  }

  lemma AskStory(s: State, l: Limits, asked: set<nat>, ends: map<nat, Ending>, u: nat)
    requires Inv(s, l) && StoryOk(s.runs, s.finished, asked, ends) && Running(s.runs, u)
    ensures StoryOk(s.runs[u := s.runs[u].(aborted := true)], s.finished, asked + {u}, ends)
  {
    var runs := s.runs[u := s.runs[u].(aborted := true)];
    assert OnePlace(s.queue, s.runs, s.finished, s.nextUid, u);
    forall v | v in runs ensures RunStory(runs, asked + {u}, ends, v) {
      assert RunStory(s.runs, asked, ends, v);
    }
  }

  lemma ReleaseStory(s: State, l: Limits, asked: set<nat>, ends: map<nat, Ending>, run: Run, e: Ending)
    requires Inv(s, l) && StoryOk(s.runs, s.finished, asked, ends) && Running(s.runs, run.job.uid)
    requires run.released && (run.execTimedOut <==> e == ExecTimer) && (run.execTimedOut ==> run.aborted)
    ensures var t := Released(s, run, OutcomeOf(e, run.job.uid in asked));
            StoryOk(t.runs, t.finished, asked, ends[run.job.uid := e])
  {
    var u := run.job.uid;
    var runs := s.runs[u := run];
    forall v | v in runs ensures RunStory(runs, asked, ends[u := e], v) {
      if v != u {
        assert RunStory(s.runs, asked, ends, v);
      }
    }
    EndStory(s.finished, asked, ends, u, e);
  }

  lemma EndStory(finished: map<nat, Outcome>, asked: set<nat>, ends: map<nat, Ending>, u: nat, e: Ending)
    requires finished.Keys == ends.Keys && forall v | v in finished :: finished[v] == OutcomeOf(ends[v], v in asked)
    ensures var f := finished[u := OutcomeOf(e, u in asked)];
            && f.Keys == ends[u := e].Keys
            && forall v | v in f :: f[v] == OutcomeOf(ends[u := e][v], v in asked)
  {
  }

  lemma LateSettleStory(s: State, asked: set<nat>, ends: map<nat, Ending>, u: nat)
    requires StoryOk(s.runs, s.finished, asked, ends) && u in s.runs && s.runs[u].released
    ensures StoryOk(s.runs[u := s.runs[u].(settled := true)], s.finished, asked, ends)
  {
    var runs := s.runs[u := s.runs[u].(settled := true)];
    forall v | v in runs ensures RunStory(runs, asked, ends, v) {
      assert RunStory(s.runs, asked, ends, v);
    }
  }

  // ---- fairness ------------------------------------------------------------------------

  /** Job j may be served before k at this instant: a job of a higher class it overtakes only after waiting the
    * gap, one of its class only if it arrived first, and one of a lower class unless that came the gap
    * earlier. */
  ghost predicate FairOver(j: Job, k: Job, now: int, agingMs: int) {
    && (Above(k.priority, j.priority) ==> Gap(k.priority, j.priority) * agingMs <= now - j.createdAt)
    && (k.priority == j.priority ==> j.uid < k.uid)
    && (Above(j.priority, k.priority) ==> j.createdAt < k.createdAt + Gap(j.priority, k.priority) * agingMs)
  }

  /** The job picked is fair to every runnable one left waiting. */
  lemma FirstIsFair(s: State, l: Limits, j: Job, k: Job, now: int, agingMs: int)
    requires Inv(s, l) && 0 < agingMs && s.clock <= now && FirstRunnable(s, l, j, now, agingMs)
    requires k in s.queue && k != j && CanRun(s.active, s.per, l.maxSlots, l.maxPerMfe, k)
    ensures FairOver(j, k, now, agingMs)
  {
    var p: nat :| p < |s.queue| && s.queue[p] == j;
    var q: nat :| q < |s.queue| && s.queue[q] == k;
    assert Waiting(s.queue[q], s.active, s.nextUid, s.clock);
    BeforeIsTotal(j, k, j, now, agingMs);
    if Above(k.priority, j.priority) {
      LiftedHasWaited(j, k, now, agingMs);
    }
    if j.priority == k.priority && q < p {
      assert Earlier(s.queue[q], s.queue[p]);
      EarlierGoesFirst(k, j, now, agingMs);
    } else if p < q {
      assert Earlier(s.queue[p], s.queue[q]);
    }
    if Above(j.priority, k.priority) && k.createdAt + Gap(j.priority, k.priority) * agingMs <= j.createdAt {
      ScaleOrder(1, Gap(j.priority, k.priority), agingMs);
      AgedJobGoesFirst(k, j, now, agingMs);
    }
  }

  /** One start of a scheduling pass: the state it was made in, and the job it went to. */
  datatype Pick = Pick(state: State, job: Job)

  /** Every pick went to a job that was runnable then, and fair to all other runnable ones. */
  ghost predicate PicksFair(picks: seq<Pick>, l: Limits, agingMs: int) {
    forall p | 0 <= p < |picks| :: PickFair(picks[p], l, agingMs)
  }

  ghost predicate PickFair(p: Pick, l: Limits, agingMs: int) {
    var s := p.state;
    && p.job in s.queue && CanRun(s.active, s.per, l.maxSlots, l.maxPerMfe, p.job)
    && forall k | k in s.queue && k != p.job && CanRun(s.active, s.per, l.maxSlots, l.maxPerMfe, k) ::
         FairOver(p.job, k, s.clock, agingMs)
  }

  lemma PickIsFair(s: State, l: Limits, j: Job, agingMs: int)
    requires Inv(s, l) && 0 < agingMs && FirstRunnable(s, l, j, s.clock, agingMs)
    ensures PickFair(Pick(s, j), l, agingMs)
  {
    forall k | k in s.queue && k != j && CanRun(s.active, s.per, l.maxSlots, l.maxPerMfe, k)
      ensures FairOver(j, k, s.clock, agingMs)
    {
      FirstIsFair(s, l, j, k, s.clock, agingMs);
    }
  }

  /** The jobs started from s to t are those of the picks, in their order. */
  ghost predicate PicksAre(s: State, picks: seq<Pick>, t: State) {
    && |t.starts| == |s.starts| + |picks| && s.starts <= t.starts
    && forall p | 0 <= p < |picks| :: t.starts[|s.starts| + p] == picks[p].job && PickStands(s, picks, p)
  }

  /** Pick p was made when exactly the earlier ones had been. */
  ghost predicate PickStands(s: State, picks: seq<Pick>, p: nat)
    requires p < |picks|
  {
    |picks[p].state.starts| == |s.starts| + p
  }

  /** From s the job picked, at some later instant and fairly, has left the queue for a slot. */
  ghost predicate StartedFrom(s: State, pick: Pick, t: State, l: Limits, agingMs: int) {
    && pick.state == s.(clock := pick.state.clock) && s.clock <= pick.state.clock && PickFair(pick, l, agingMs)
    && Inv(pick.state, l)
    && exists i :: 0 <= i < |s.queue| && s.queue[i] == pick.job && t == Started(pick.state, i)
  }

  lemma PicksGrow(s: State, picks: seq<Pick>, m: State, t: State, l: Limits, agingMs: int, pick: Pick)
    requires OnlyStarts(s, m) && PicksAre(s, picks, m) && PicksFair(picks, l, agingMs)
    requires StartedFrom(m, pick, t, l, agingMs)
    ensures OnlyStarts(s, t) && PicksAre(s, picks + [pick], t) && PicksFair(picks + [pick], l, agingMs)
    ensures |t.queue| < |m.queue|
  {
    var i :| 0 <= i < |m.queue| && m.queue[i] == pick.job && t == Started(pick.state, i);
    OnlyStartsClock(s, m, pick.state.clock);
    OnlyStartsStep(s, pick.state, l, i);
    forall p | 0 <= p < |picks + [pick]|
      ensures t.starts[|s.starts| + p] == (picks + [pick])[p].job && PickStands(s, picks + [pick], p)
    {
      assert p < |picks| ==> PickStands(s, picks, p);
    }
  }

  // ---- the effect of each change -------------------------------------------------------

  lemma CountStart(active: map<RequestId, Job>, per: map<MfeId, nat>, job: Job, m: MfeId)
    requires job.requestId !in active && CounterRight(active, per, m)
    ensures CounterRight(active[job.requestId := job], Counted(per, job.mfeId), m)
  {
    var active' := active[job.requestId := job];
    if m == job.mfeId {
      assert ActiveOf(active', m) == ActiveOf(active, m) + {job.requestId};
    } else {
      assert ActiveOf(active', m) == ActiveOf(active, m);
    }
  }

  lemma CountRelease(active: map<RequestId, Job>, per: map<MfeId, nat>, job: Job, m: MfeId)
    requires job.requestId in active && active[job.requestId] == job && CounterRight(active, per, m)
    ensures CounterRight(active - {job.requestId}, Uncounted(per, job.mfeId), m)
  {
    var active' := active - {job.requestId};
    if m == job.mfeId {
      assert ActiveOf(active', m) == ActiveOf(active, m) - {job.requestId};
      assert job.requestId in ActiveOf(active, m);
    } else {
      assert ActiveOf(active', m) == ActiveOf(active, m);
    }
  }

  /** Slot accounting needs distinct ids, and nothing else: after a start the counters are right for all
    * clients exactly if the id was not running already. If it was, the number of active entries stays
    * as it was although one job more runs, and the first of the two to settle removes the other's
    * entry. */
  lemma DuplicateIdUndercounts(active: map<RequestId, Job>, per: map<MfeId, nat>, job: Job)
    requires forall m :: CounterRight(active, per, m)
    ensures var both := active[job.requestId := job];
            && ((forall m :: CounterRight(both, Counted(per, job.mfeId), m)) <==> job.requestId !in active)
            && (job.requestId in active ==> |both| == |active| && job.requestId !in both - {job.requestId})
  {
    var both := active[job.requestId := job];
    if job.requestId in active {
      var other := active[job.requestId];
      assert both.Keys == active.Keys;
      assert CounterRight(active, per, other.mfeId);
      if other.mfeId == job.mfeId {
        assert ActiveOf(both, job.mfeId) == ActiveOf(active, job.mfeId);
      } else {
        assert ActiveOf(both, other.mfeId) == ActiveOf(active, other.mfeId) - {job.requestId};
        assert job.requestId in ActiveOf(active, other.mfeId);
      }
      assert !CounterRight(both, Counted(per, job.mfeId), other.mfeId);
    } else {
      forall m ensures CounterRight(both, Counted(per, job.mfeId), m) {
        CountStart(active, per, job, m);
      }
    }
  }

  lemma RemoveFromQueue(queue: seq<Job>, active: map<RequestId, Job>, nextUid: nat, clock: int, i: nat)
    requires QueueOk(queue, active, nextUid, clock) && i < |queue|
    ensures QueueOk(RemoveAt(queue, i), active, nextUid, clock)
    ensures forall u :: Queued(RemoveAt(queue, i), u) <==> Queued(queue, u) && u != queue[i].uid
  {
    var rest := RemoveAt(queue, i);
    forall p, q | 0 <= p < q < |rest|
      ensures Earlier(rest[p], rest[q])
    {
      assert Earlier(queue[if p < i then p else p + 1], queue[if q < i then q else q + 1]);
    }
    forall u
      ensures Queued(rest, u) <==> Queued(queue, u) && u != queue[i].uid
    {
      QueuedAfterRemove(queue, active, nextUid, clock, i, u);
    }
  }

  lemma QueuedAfterRemove(queue: seq<Job>, active: map<RequestId, Job>, nextUid: nat, clock: int, i: nat, u: nat)
    requires QueueOk(queue, active, nextUid, clock) && i < |queue|
    ensures Queued(RemoveAt(queue, i), u) <==> Queued(queue, u) && u != queue[i].uid
  {
    var rest := RemoveAt(queue, i);
    if Queued(rest, u) {
      var p :| 0 <= p < |rest| && rest[p].uid == u;
      if p < i {
        assert Earlier(queue[p], queue[i]);
      } else {
        assert Earlier(queue[i], queue[p + 1]);
      }
    }
    if Queued(queue, u) && u != queue[i].uid {
      var p :| 0 <= p < |queue| && queue[p].uid == u;
      assert rest[if p < i then p else p - 1].uid == u;
    }
  }

  // ---- steps on whole states -----------------------------------------------------------

  datatype Limits = Limits(maxSlots: nat, maxPerMfe: nat, maxQueue: nat)

  datatype State = State(queue: seq<Job>, active: map<RequestId, Job>, per: map<MfeId, nat>, runs: map<nat, Run>,
                         finished: map<nat, Outcome>, starts: seq<Job>, nextUid: nat, clock: int)

  ghost predicate Inv(s: State, l: Limits) {
    && QueueOk(s.queue, s.active, s.nextUid, s.clock)
    && RunsOk(s.active, s.runs, s.nextUid)
    && PlacesOk(s.queue, s.runs, s.finished, s.nextUid)
    && StartsOk(s.starts, s.queue, s.runs)
    && CapsOk(s.queue, s.active, s.per, l.maxSlots, l.maxPerMfe, l.maxQueue)
  }

  ghost predicate Conserving(s: State, l: Limits) {
    WorkConserving(s.queue, s.active, s.per, l.maxSlots, l.maxPerMfe)
  }

  function Submitted(s: State, job: Job): State {
    s.(queue := s.queue + [job], nextUid := s.nextUid + 1)
  }

  /** A waiting job ends without having run. */
  function Dropped(s: State, i: nat, outcome: Outcome): State
    requires i < |s.queue|
  {
    s.(queue := RemoveAt(s.queue, i), finished := s.finished[s.queue[i].uid := outcome])
  }

  function Started(s: State, i: nat): State
    requires i < |s.queue|
  {
    var job := s.queue[i];
    s.(queue := RemoveAt(s.queue, i),
       active := s.active[job.requestId := job],
       per := Counted(s.per, job.mfeId),
       runs := s.runs[job.uid := Run(job, false, false, false, false)],
       starts := s.starts + [job])
  }

  /** A running job ends and its slot is free again; run is what its closures remember from then on. */
  function Released(s: State, run: Run, outcome: Outcome): State {
    s.(active := s.active - {run.job.requestId},
       per := Uncounted(s.per, run.job.mfeId),
       runs := s.runs[run.job.uid := run],
       finished := s.finished[run.job.uid := outcome])
  }

  function Noted(s: State, run: Run): State {
    s.(runs := s.runs[run.job.uid := run])
  }

  lemma SubmitKeepsInv(s: State, l: Limits, job: Job)
    requires Inv(s, l) && |s.queue| < l.maxQueue
    requires job.uid == s.nextUid && job.createdAt == s.clock
    requires job.requestId !in s.active && forall p | 0 <= p < |s.queue| :: s.queue[p].requestId != job.requestId
    ensures Inv(Submitted(s, job), l)
  {
    var t := Submitted(s, job);
    forall p | 0 <= p < |t.queue|
      ensures Waiting(t.queue[p], t.active, t.nextUid, t.clock)
    {
      if p < |s.queue| {
        assert Waiting(s.queue[p], s.active, s.nextUid, s.clock);
      }
    }
    forall p, q | 0 <= p < q < |t.queue|
      ensures Earlier(t.queue[p], t.queue[q])
    {
      assert Waiting(s.queue[p], s.active, s.nextUid, s.clock);
      if q < |s.queue| {
        assert Earlier(s.queue[p], s.queue[q]);
      }
    }
    forall u | u in t.runs
      ensures RunIsSound(t.active, t.runs, t.nextUid, u)
    {
      assert RunIsSound(s.active, s.runs, s.nextUid, u);
    }
    forall id | id in t.active
      ensures ActiveHasRun(t.active, t.runs, id)
    {
      assert ActiveHasRun(s.active, s.runs, id);
    }
    forall u
      ensures OnePlace(t.queue, t.runs, t.finished, t.nextUid, u)
    {
      SubmitPlaces(s, l, job, u);
    }
    assert job.uid !in s.runs by {
      if job.uid in s.runs {
        RunWasAccepted(s, l, job.uid);
      }
    }
    SubmitStarts(s, l, job);
  }

  lemma RunWasAccepted(s: State, l: Limits, u: nat)
    requires Inv(s, l) && u in s.runs
    ensures u < s.nextUid
  {
    assert RunIsSound(s.active, s.runs, s.nextUid, u);
  }

  /** What `enqueue` needs of its callers, exactly: an id that neither waits nor runs. */
  lemma SubmitNeedsFreshId(s: State, l: Limits, job: Job)
    requires Inv(s, l) && |s.queue| < l.maxQueue && job.uid == s.nextUid && job.createdAt == s.clock
    ensures Inv(Submitted(s, job), l) <==>
            job.requestId !in s.active && forall p | 0 <= p < |s.queue| :: s.queue[p].requestId != job.requestId
  {
    var t := Submitted(s, job);
    if job.requestId !in s.active && forall p | 0 <= p < |s.queue| :: s.queue[p].requestId != job.requestId {
      SubmitKeepsInv(s, l, job);
    } else {
      assert t.queue[|s.queue|] == job;
      if job.requestId in s.active {
        assert !Waiting(t.queue[|s.queue|], t.active, t.nextUid, t.clock);
      } else {
        var p :| 0 <= p < |s.queue| && s.queue[p].requestId == job.requestId;
        assert !Earlier(t.queue[p], t.queue[|s.queue|]);
      }
    }
  }

  lemma SubmitPlaces(s: State, l: Limits, job: Job, u: nat)
    requires Inv(s, l) && job.uid == s.nextUid
    ensures OnePlace(s.queue + [job], s.runs, s.finished, s.nextUid + 1, u)
  {
    assert OnePlace(s.queue, s.runs, s.finished, s.nextUid, u);
    assert (s.queue + [job])[|s.queue|] == job;
    if Queued(s.queue, u) {
      var p :| 0 <= p < |s.queue| && s.queue[p].uid == u;
      assert (s.queue + [job])[p].uid == u;
      assert Waiting(s.queue[p], s.active, s.nextUid, s.clock);
    }
    if Running(s.runs, u) {
      assert RunIsSound(s.active, s.runs, s.nextUid, u);
    }
  }

  lemma SubmitStarts(s: State, l: Limits, job: Job)
    requires Inv(s, l) && job.uid == s.nextUid
    ensures StartsOk(s.starts, s.queue + [job], s.runs)
  {
    forall p | 0 <= p < |s.starts|
      ensures s.starts[p].uid < s.nextUid
    {
      assert IsRun(s.runs, s.starts[p]);
      assert RunIsSound(s.active, s.runs, s.nextUid, s.starts[p].uid);
    }
    forall p, q | 0 <= p < |s.starts| && 0 <= q < |s.queue + [job]|
      ensures InClassOrder(s.starts[p], (s.queue + [job])[q])
    {
      if q < |s.queue| {
        assert InClassOrder(s.starts[p], s.queue[q]);
      }
    }
  }

  lemma DropKeepsInv(s: State, l: Limits, i: nat, outcome: Outcome)
    requires Inv(s, l) && i < |s.queue|
    ensures Inv(Dropped(s, i, outcome), l)
    ensures s.queue[i].uid !in s.finished && !Running(s.runs, s.queue[i].uid)
    ensures Conserving(s, l) ==> Conserving(Dropped(s, i, outcome), l)
  {
    var t := Dropped(s, i, outcome);
    RemoveFromQueue(s.queue, s.active, s.nextUid, s.clock, i);
    assert Waiting(s.queue[i], s.active, s.nextUid, s.clock);
    assert Queued(s.queue, s.queue[i].uid);
    assert OnePlace(s.queue, s.runs, s.finished, s.nextUid, s.queue[i].uid);
    forall u
      ensures OnePlace(t.queue, t.runs, t.finished, t.nextUid, u)
    {
      assert OnePlace(s.queue, s.runs, s.finished, s.nextUid, u);
      QueuedAfterRemove(s.queue, s.active, s.nextUid, s.clock, i, u);
    }
    forall p, q | 0 <= p < |t.starts| && 0 <= q < |t.queue|
      ensures InClassOrder(t.starts[p], t.queue[q])
    {
      assert InClassOrder(s.starts[p], s.queue[if q < i then q else q + 1]);
    }
  }

  /** Job i is one the scheduler may start next: runnable and first of its class. */
  ghost predicate MayStart(s: State, l: Limits, i: nat)
    requires i < |s.queue|
  {
    && CanRun(s.active, s.per, l.maxSlots, l.maxPerMfe, s.queue[i])
    && forall p | 0 <= p < |s.queue| && SameClass(s.queue[p], s.queue[i]) :: i <= p
  }

  lemma StartKeepsRuns(s: State, l: Limits, i: nat)
    requires Inv(s, l) && i < |s.queue|
    ensures var t := Started(s, i); RunsOk(t.active, t.runs, t.nextUid)
  {
    var t, job := Started(s, i), s.queue[i];
    assert Waiting(job, s.active, s.nextUid, s.clock);
    forall id | id in t.active
      ensures ActiveHasRun(t.active, t.runs, id)
    {
      if id != job.requestId {
        assert ActiveHasRun(s.active, s.runs, id);
      }
    }
    forall u | u in t.runs
      ensures RunIsSound(t.active, t.runs, t.nextUid, u)
    {
      if u != job.uid {
        assert RunIsSound(s.active, s.runs, s.nextUid, u);
      }
    }
  }

  lemma StartKeepsQueue(s: State, l: Limits, i: nat)
    requires Inv(s, l) && i < |s.queue|
    ensures var t := Started(s, i);
            QueueOk(t.queue, t.active, t.nextUid, t.clock) && PlacesOk(t.queue, t.runs, t.finished, t.nextUid)
  {
    var t, job := Started(s, i), s.queue[i];
    RemoveFromQueue(s.queue, s.active, s.nextUid, s.clock, i);
    forall p | 0 <= p < |t.queue|
      ensures Waiting(t.queue[p], t.active, t.nextUid, t.clock) && t.queue[p].uid !in t.runs
    {
      var p' := if p < i then p else p + 1;
      assert Waiting(s.queue[p'], s.active, s.nextUid, s.clock);
      if p' < i {
        assert Earlier(s.queue[p'], job);
      } else {
        assert Earlier(job, s.queue[p']);
      }
    }
    assert Waiting(job, s.active, s.nextUid, s.clock);
    assert Queued(s.queue, job.uid);
    forall u
      ensures OnePlace(t.queue, t.runs, t.finished, t.nextUid, u)
    {
      assert OnePlace(s.queue, s.runs, s.finished, s.nextUid, u);
      QueuedAfterRemove(s.queue, s.active, s.nextUid, s.clock, i, u);
    }
  }

  lemma StartKeepsStarts(s: State, l: Limits, i: nat)
    requires Inv(s, l) && i < |s.queue| && MayStart(s, l, i)
    ensures var t := Started(s, i); StartsOk(t.starts, t.queue, t.runs)
  {
    var t, job := Started(s, i), s.queue[i];
    forall p | 0 <= p < |t.starts|
      ensures IsRun(t.runs, t.starts[p])
    {
      if p < |s.starts| {
        assert IsRun(s.runs, s.starts[p]);
      }
    }
    forall p, q | 0 <= p < q < |t.starts|
      ensures InClassOrder(t.starts[p], t.starts[q])
    {
      if q < |s.starts| {
        assert InClassOrder(s.starts[p], s.starts[q]);
      } else {
        assert InClassOrder(s.starts[p], s.queue[i]);
      }
    }
    forall p, q | 0 <= p < |t.starts| && 0 <= q < |t.queue|
      ensures InClassOrder(t.starts[p], t.queue[q])
    {
      var q' := if q < i then q else q + 1;
      if p < |s.starts| {
        assert InClassOrder(s.starts[p], s.queue[q']);
      } else if SameClass(s.queue[q'], s.queue[i]) {
        assert Earlier(s.queue[i], s.queue[q']);
      }
    }
  }

  lemma StartKeepsInv(s: State, l: Limits, i: nat)
    requires Inv(s, l) && i < |s.queue| && MayStart(s, l, i)
    ensures Inv(Started(s, i), l)
  {
    var t, job := Started(s, i), s.queue[i];
    StartKeepsRuns(s, l, i);
    StartKeepsQueue(s, l, i);
    StartKeepsStarts(s, l, i);
    assert Waiting(job, s.active, s.nextUid, s.clock);
    forall m
      ensures CounterRight(t.active, t.per, m)
    {
      assert CounterRight(s.active, s.per, m);
      CountStart(s.active, s.per, job, m);
    }
    forall m
      ensures CountOf(t.per, m) <= l.maxPerMfe
    {
      assert CountOf(s.per, m) <= l.maxPerMfe;
    }
  }

  lemma ReleaseKeepsInv(s: State, l: Limits, run: Run, outcome: Outcome)
    requires Inv(s, l) && Running(s.runs, run.job.uid) && run.job == s.runs[run.job.uid].job && run.released
    ensures Inv(Released(s, run, outcome), l)
    ensures run.job.uid !in s.finished && !Queued(s.queue, run.job.uid)
    ensures run.job.requestId in s.active
  {
    assert RunIsSound(s.active, s.runs, s.nextUid, run.job.uid);
    assert OnePlace(s.queue, s.runs, s.finished, s.nextUid, run.job.uid);
    ReleaseKeepsRuns(s, l, run, outcome);
    ReleaseKeepsQueue(s, l, run, outcome);
    ReleaseKeepsCaps(s, l, run, outcome);
  }

  lemma ReleaseKeepsQueue(s: State, l: Limits, run: Run, outcome: Outcome)
    requires Inv(s, l) && Running(s.runs, run.job.uid) && run.job == s.runs[run.job.uid].job && run.released
    ensures var t := Released(s, run, outcome);
            && QueueOk(t.queue, t.active, t.nextUid, t.clock)
            && PlacesOk(t.queue, t.runs, t.finished, t.nextUid)
            && StartsOk(t.starts, t.queue, t.runs)
  {
    var t, job := Released(s, run, outcome), run.job;
    assert RunIsSound(s.active, s.runs, s.nextUid, job.uid);
    assert OnePlace(s.queue, s.runs, s.finished, s.nextUid, job.uid);
    forall u
      ensures OnePlace(t.queue, t.runs, t.finished, t.nextUid, u)
    {
      assert OnePlace(s.queue, s.runs, s.finished, s.nextUid, u);
    }
    forall p | 0 <= p < |t.queue|
      ensures Waiting(t.queue[p], t.active, t.nextUid, t.clock) && t.queue[p].uid !in t.runs
    {
      assert Waiting(s.queue[p], s.active, s.nextUid, s.clock);
      assert s.queue[p].uid !in s.runs;
    }
    forall p | 0 <= p < |t.starts|
      ensures IsRun(t.runs, t.starts[p])
    {
      assert IsRun(s.runs, s.starts[p]);
    }
  }

  lemma ReleaseKeepsCaps(s: State, l: Limits, run: Run, outcome: Outcome)
    requires Inv(s, l) && Running(s.runs, run.job.uid) && run.job == s.runs[run.job.uid].job
    ensures var t := Released(s, run, outcome); CapsOk(t.queue, t.active, t.per, l.maxSlots, l.maxPerMfe, l.maxQueue)
  {
    var t, job := Released(s, run, outcome), run.job;
    assert RunIsSound(s.active, s.runs, s.nextUid, job.uid);
    forall m
      ensures CounterRight(t.active, t.per, m)
    {
      assert CounterRight(s.active, s.per, m);
      CountRelease(s.active, s.per, job, m);
    }
    assert forall m :: CountOf(t.per, m) <= CountOf(s.per, m);
  }

  lemma ReleaseKeepsRuns(s: State, l: Limits, run: Run, outcome: Outcome)
    requires Inv(s, l) && Running(s.runs, run.job.uid) && run.job == s.runs[run.job.uid].job && run.released
    ensures var t := Released(s, run, outcome); RunsOk(t.active, t.runs, t.nextUid)
  {
    var t, job := Released(s, run, outcome), run.job;
    assert RunIsSound(s.active, s.runs, s.nextUid, job.uid);
    forall id | id in t.active
      ensures ActiveHasRun(t.active, t.runs, id)
    {
      assert ActiveHasRun(s.active, s.runs, id);
    }
    forall u | u in t.runs
      ensures RunIsSound(t.active, t.runs, t.nextUid, u)
    {
      assert RunIsSound(s.active, s.runs, s.nextUid, u);
    }
  }

  /** Changing only what a run's closures remember (an abort, a late settle) keeps everything. */
  lemma NoteKeepsInv(s: State, l: Limits, run: Run)
    requires Inv(s, l) && run.job.uid in s.runs
    requires run.job == s.runs[run.job.uid].job && run.released == s.runs[run.job.uid].released
    requires (run.execTimedOut ==> run.released) && (run.settled ==> run.released)
    ensures Inv(Noted(s, run), l)
  {
    var t := Noted(s, run);
    forall id | id in t.active
      ensures ActiveHasRun(t.active, t.runs, id)
    {
      assert ActiveHasRun(s.active, s.runs, id);
    }
    forall u | u in t.runs
      ensures RunIsSound(t.active, t.runs, t.nextUid, u)
    {
      assert RunIsSound(s.active, s.runs, s.nextUid, u);
    }
    forall u
      ensures OnePlace(t.queue, t.runs, t.finished, t.nextUid, u)
    {
      assert OnePlace(s.queue, s.runs, s.finished, s.nextUid, u);
    }
    forall p | 0 <= p < |t.starts|
      ensures IsRun(t.runs, t.starts[p])
    {
      assert IsRun(s.runs, s.starts[p]);
    }
  }

  lemma ClockKeepsInv(s: State, l: Limits, clock: int)
    requires Inv(s, l) && s.clock <= clock
    ensures Inv(s.(clock := clock), l)
  {
    forall p | 0 <= p < |s.queue|
      ensures Waiting(s.queue[p], s.active, s.nextUid, clock)
    {
      assert Waiting(s.queue[p], s.active, s.nextUid, s.clock);
    }
  }

  /** From s to t nothing happened but starts of waiting jobs (and time passing). */
  ghost predicate OnlyStarts(s: State, t: State) {
    && t.finished == s.finished && t.nextUid == s.nextUid && s.clock <= t.clock
    && s.starts <= t.starts
    && (forall k | |s.starts| <= k < |t.starts| :: t.starts[k] in s.queue)
    && (forall j | j in t.queue :: j in s.queue)
    && (forall u | u in s.runs :: u in t.runs && t.runs[u] == s.runs[u])
    && forall id | id in s.active :: id in t.active && t.active[id] == s.active[id]
  }

  lemma OnlyStartsStep(s: State, t: State, l: Limits, i: nat)
    requires OnlyStarts(s, t) && Inv(t, l) && i < |t.queue|
    ensures OnlyStarts(s, Started(t, i))
  {
    var n := Started(t, i);
    assert Waiting(t.queue[i], t.active, t.nextUid, t.clock);
    assert t.queue[i].uid !in t.runs;
    forall j | j in n.queue
      ensures j in s.queue
    {
      var p :| 0 <= p < |n.queue| && n.queue[p] == j;
      assert t.queue[if p < i then p else p + 1] in t.queue;
    }
  }

  lemma OnlyStartsClock(s: State, t: State, clock: int)
    requires OnlyStarts(s, t) && t.clock <= clock
    ensures OnlyStarts(s, t.(clock := clock))
  {
  }

  lemma QueueDistinct(s: State, l: Limits)
    requires Inv(s, l)
    ensures DistinctUids(s.queue)
  {
    forall p, q | 0 <= p < q < |s.queue|
      ensures s.queue[p].uid != s.queue[q].uid
    {
      assert Earlier(s.queue[p], s.queue[q]);
    }
  }

  lemma SameIdSameJob(s: State, l: Limits, a: Job, b: Job)
    requires Inv(s, l) && a in s.queue && b in s.queue && a.requestId == b.requestId
    ensures a == b
  {
    forall p, q | 0 <= p < q < |s.queue|
      ensures s.queue[p].requestId != s.queue[q].requestId
    {
      TwoJobsDiffer(s, l, p, q);
    }
    var p :| 0 <= p < |s.queue| && s.queue[p] == a;
    var q :| 0 <= q < |s.queue| && s.queue[q] == b;
  }

  /** The waiting job with the id of job u is job u. */
  lemma SameIdIs(s: State, l: Limits, id: RequestId, i: nat, u: nat)
    requires Inv(s, l) && i <= |s.queue| && (forall p | 0 <= p < i :: s.queue[p].requestId != id)
    requires i < |s.queue| ==> s.queue[i].requestId == id
    requires exists k :: 0 <= k < |s.queue| && s.queue[k].uid == u && s.queue[k].requestId == id
    ensures i < |s.queue| && s.queue[i].uid == u
  {
    var k :| 0 <= k < |s.queue| && s.queue[k].uid == u && s.queue[k].requestId == id;
    SameIdSameJob(s, l, s.queue[i], s.queue[k]);
  }

  lemma TwoJobsDiffer(s: State, l: Limits, p: nat, q: nat)
    requires Inv(s, l) && p < q < |s.queue|
    ensures s.queue[p].uid != s.queue[q].uid && s.queue[p].requestId != s.queue[q].requestId
  {
    assert Earlier(s.queue[p], s.queue[q]);
  }

  lemma OneIdPerUid(s: State, l: Limits, p: nat, q: nat)
    requires Inv(s, l) && p < |s.queue| && q < |s.queue|
    ensures s.queue[p].uid == s.queue[q].uid ==> s.queue[p].requestId == s.queue[q].requestId
  {
    if p < q {
      TwoJobsDiffer(s, l, p, q);
    } else if q < p {
      TwoJobsDiffer(s, l, q, p);
    }
  }

  /** The runnable ones among the first n waiting jobs. */
  function CandidatesTo(queue: seq<Job>, active: map<RequestId, Job>, per: map<MfeId, nat>, l: Limits, n: nat): seq<Job>
    requires n <= |queue|
  {
    if n == 0 then []
    else if CanRun(active, per, l.maxSlots, l.maxPerMfe, queue[n - 1]) then
      CandidatesTo(queue, active, per, l, n - 1) + [queue[n - 1]]
    else CandidatesTo(queue, active, per, l, n - 1)
  }

  lemma {:induction false} CandidatesAre(queue: seq<Job>, active: map<RequestId, Job>, per: map<MfeId, nat>,
                                         l: Limits, n: nat)
    requires n <= |queue| && DistinctUids(queue)
    ensures var c := CandidatesTo(queue, active, per, l, n);
            && DistinctUids(c)
            && forall j :: j in c <==> j in queue[..n] && CanRun(active, per, l.maxSlots, l.maxPerMfe, j)
  {
    if n > 0 {
      CandidatesAre(queue, active, per, l, n - 1);
      assert queue[..n] == queue[..n - 1] + [queue[n - 1]];
      var c := CandidatesTo(queue, active, per, l, n - 1);
      forall p | 0 <= p < |c|
        ensures c[p].uid != queue[n - 1].uid
      {
        assert c[p] in queue[..n - 1];
      }
    }
  }

  /** j is runnable and before every other runnable waiting job. */
  ghost predicate FirstRunnable(s: State, l: Limits, j: Job, now: int, agingMs: int)
    requires 0 < agingMs
  {
    && j in s.queue && CanRun(s.active, s.per, l.maxSlots, l.maxPerMfe, j)
    && forall k | k in s.queue && CanRun(s.active, s.per, l.maxSlots, l.maxPerMfe, k) && k != j ::
        Before(j, k, now, agingMs)
  }

  /** Filtering the queue and sorting it puts the first runnable job in front. */
  lemma FirstCandidate(s: State, l: Limits, now: int, agingMs: int)
    requires Inv(s, l) && 0 < agingMs
    ensures var r := Ranked(CandidatesTo(s.queue, s.active, s.per, l, |s.queue|), now, agingMs);
            && (r == [] <==> forall j | j in s.queue :: !CanRun(s.active, s.per, l.maxSlots, l.maxPerMfe, j))
            && (r != [] ==> FirstRunnable(s, l, r[0], now, agingMs))
  {
    QueueDistinct(s, l);
    CandidatesAre(s.queue, s.active, s.per, l, |s.queue|);
    assert s.queue[..|s.queue|] == s.queue;
    var c := CandidatesTo(s.queue, s.active, s.per, l, |s.queue|);
    RankedIsBijection(c, now, agingMs);
    var r := Ranked(c, now, agingMs);
    if r != [] {
      assert r[0] in c;
      forall k | k in c && k != r[0]
        ensures Before(r[0], k, now, agingMs)
      {
        var p :| 0 <= p < |r| && r[p] == k;
      }
    } else {
      assert forall j :: j in c <==> j in r;
    }
  }

  /** The first runnable job is the earliest of its client and priority. */
  lemma FirstRunnableMayStart(s: State, l: Limits, i: nat, now: int, agingMs: int)
    requires Inv(s, l) && i < |s.queue| && 0 < agingMs && FirstRunnable(s, l, s.queue[i], now, agingMs)
    ensures MayStart(s, l, i)
  {
    forall p | 0 <= p < |s.queue| && SameClass(s.queue[p], s.queue[i])
      ensures i <= p
    {
      assert p < i ==> Earlier(s.queue[p], s.queue[i]);
      assert s.queue[p] in s.queue;
      if p < i {
        EarlierGoesFirst(s.queue[p], s.queue[i], now, agingMs);
      }
    }
  }

  /** Within one priority, the order of arrival is the order of service at every instant. */
  lemma EarlierGoesFirst(a: Job, b: Job, now: int, agingMs: int)
    requires 0 < agingMs && Earlier(a, b) && a.priority == b.priority
    ensures Before(a, b, now, agingMs) && !Before(b, a, now, agingMs)
  {
    FloorMonotone(now - b.createdAt, now - a.createdAt, agingMs);
    BeforeIsTotal(a, b, a, now, agingMs);
  }

  lemma NoneRunnable(s: State, l: Limits)
    requires Inv(s, l) && |s.active| < l.maxSlots
    requires forall j | j in s.queue :: !CanRun(s.active, s.per, l.maxSlots, l.maxPerMfe, j)
    ensures Conserving(s, l)
  {
    forall p | 0 <= p < |s.queue|
      ensures CountOf(s.per, s.queue[p].mfeId) == l.maxPerMfe
    {
      assert s.queue[p] in s.queue;
      assert CountOf(s.per, s.queue[p].mfeId) <= l.maxPerMfe;
    }
  }

  lemma NoteKeepsInvFor(s: State, l: Limits, u: nat, run: Run)
    requires Inv(s, l) && u in s.runs && run.job == s.runs[u].job && run.released == s.runs[u].released
    requires (run.execTimedOut ==> run.released) && (run.settled ==> run.released)
    ensures run.job.uid == u && Inv(Noted(s, run), l)
    ensures Conserving(s, l) ==> Conserving(Noted(s, run), l)
  {
    assert RunIsSound(s.active, s.runs, s.nextUid, u);
    NoteKeepsInv(s, l, run);
  }

  /** What every step keeps. */
  ghost predicate Good(s: State, l: Limits, asked: set<nat>, ends: map<nat, Ending>) {
    Inv(s, l) && StoryOk(s.runs, s.finished, asked, ends)
  }

  /** run is what the closures of a job remember once event e has ended it. */
  ghost predicate EndsRun(was: Run, run: Run, e: Ending) {
    && run.job == was.job && run.released && (run.execTimedOut <==> e == ExecTimer)
    && (run.execTimedOut ==> run.aborted)
  }

  lemma GiveBackOk(s: State, l: Limits, asked: set<nat>, ends: map<nat, Ending>, u: nat, run: Run, e: Ending)
    requires Good(s, l, asked, ends) && Running(s.runs, u) && EndsRun(s.runs[u], run, e)
    ensures run.job.uid == u && u !in s.finished
    ensures Good(Released(s, run, OutcomeOf(e, u in asked)), l, asked, ends[u := e])
  {
    assert RunIsSound(s.active, s.runs, s.nextUid, u);
    ReleaseKeepsInv(s, l, run, OutcomeOf(e, u in asked));
    ReleaseStory(s, l, asked, ends, run, e);
  }

  lemma DropOk(s: State, l: Limits, asked: set<nat>, ends: map<nat, Ending>, i: nat, e: Ending)
    requires Good(s, l, asked, ends) && Conserving(s, l) && i < |s.queue|
    requires e.CancelWhileQueued? || e.QueueTimer?
    ensures var t, u := Dropped(s, i, OutcomeOf(e, false)), s.queue[i].uid;
            && u !in s.finished && s.queue[i].requestId !in s.active
            && Good(t, l, asked, ends[u := e]) && Conserving(t, l)
  {
    DropKeepsInv(s, l, i, OutcomeOf(e, false));
    DropStory(s, l, asked, ends, i, e);
    assert Waiting(s.queue[i], s.active, s.nextUid, s.clock);
  }

  lemma AskOk(s: State, l: Limits, asked: set<nat>, ends: map<nat, Ending>, id: RequestId)
    requires Good(s, l, asked, ends) && Conserving(s, l) && id in s.active
    ensures var u := s.active[id].uid;
            && Running(s.runs, u) && s.runs[u].job.uid == u
            && var t := Noted(s, s.runs[u].(aborted := true));
               Good(t, l, asked + {u}, ends) && Conserving(t, l)
  {
    assert ActiveHasRun(s.active, s.runs, id);
    var u := s.active[id].uid;
    NoteKeepsInvFor(s, l, u, s.runs[u].(aborted := true));
    AskStory(s, l, asked, ends, u);
  }

  /** A run that holds its slot knows whether a cancel reached its job. */
  lemma StoppedIffAsked(s: State, l: Limits, asked: set<nat>, ends: map<nat, Ending>, u: nat)
    requires Good(s, l, asked, ends) && Running(s.runs, u)
    ensures (s.runs[u].aborted <==> u in asked) && !s.runs[u].execTimedOut && s.runs[u].job.uid == u
  {
    assert RunIsSound(s.active, s.runs, s.nextUid, u) && RunStory(s.runs, asked, ends, u);
  }

  lemma SettleOk(s: State, l: Limits, asked: set<nat>, ends: map<nat, Ending>, u: nat)
    requires Good(s, l, asked, ends) && Conserving(s, l) && u in s.runs && s.runs[u].released
    ensures s.runs[u].job.uid == u
    ensures var t := Noted(s, s.runs[u].(settled := true)); Good(t, l, asked, ends) && Conserving(t, l)
  {
    assert RunIsSound(s.active, s.runs, s.nextUid, u) && RunStory(s.runs, asked, ends, u);
    LateSettleStory(s, asked, ends, u);
    NoteKeepsInvFor(s, l, u, s.runs[u].(settled := true));
  }

  class Scheduler {
    const limits: Limits
    const agingMs: int

    var queue: seq<Job>
    var active: map<RequestId, Job>
    var perMfeActive: map<MfeId, nat>
    /** The closures of every start, by job. */
    var runs: map<nat, Run>
    var nextUid: nat
    /** The wall clock; it only moves forward. */
    var clock: int
    ghost var finished: map<nat, Outcome>
    ghost var starts: seq<Job>
    /** The jobs that a cancel reached while they ran, and the event that ended each finished job. */
    ghost var asked: set<nat>
    ghost var ends: map<nat, Ending>

    ghost function Now(): State
      reads this
    {
      State(queue, active, perMfeActive, runs, finished, starts, nextUid, clock)
    }

    /** Holds between steps. */
    ghost predicate Valid()
      reads this
    {
      0 < agingMs && Good(Now(), limits, asked, ends) && Conserving(Now(), limits)
    }

    constructor (limits: Limits, agingMs: int)
      requires 0 < agingMs
      ensures Valid() && this.limits == limits && this.agingMs == agingMs
      ensures queue == [] && active == map[] && finished == map[] && nextUid == 0 && asked == {} && ends == map[]
    {
      this.limits, this.agingMs := limits, agingMs;
      queue, active, perMfeActive, runs, nextUid := [], map[], map[], map[], 0;
      clock, finished, starts, asked, ends := 0, map[], [], {}, map[];
      new;
      forall m
        ensures CounterRight(active, perMfeActive, m)
      {
        assert ActiveOf(active, m) == {};
      }
      forall u
        ensures OnePlace(queue, runs, finished, nextUid, u)
      {
      }
    }

    /** Date.now(): any time not before the last reading. */
    method ReadClock() returns (now: int)
      modifies `clock
      ensures now == clock && old(clock) <= clock
    {
      var passed: int :| 0 <= passed;
      clock := clock + passed;
      now := clock;
    }

    /** The index of the waiting job with this id, or the length of the queue. */
    method FindQueued(requestId: RequestId) returns (i: nat)
      ensures i <= |queue| && (forall p | 0 <= p < i :: queue[p].requestId != requestId)
      ensures i < |queue| ==> queue[i].requestId == requestId
    {
      i := 0;
      while i < |queue| && queue[i].requestId != requestId
        invariant i <= |queue| && forall p | 0 <= p < i :: queue[p].requestId != requestId
      {
        i := i + 1;
      }
    }

    /** Rank of a waiting job among all waiting jobs, counted from 1; -1 if it does not wait. */
    method GetQueuePosition(requestId: RequestId) returns (position: int)
      requires Valid()
      modifies `clock
      ensures Valid() && Now() == old(Now()).(clock := clock)
      ensures (forall j | j in queue :: j.requestId != requestId) ==> position == -1
      ensures forall j | j in queue && j.requestId == requestId ::
                1 <= position <= |queue| && Ranked(queue, clock, agingMs)[position - 1] == j
    {
      var now := ReadClock();
      ClockKeepsInv(old(Now()), limits, clock);
      QueueDistinct(Now(), limits);
      RankedIsBijection(queue, now, agingMs);
      var ordered := Ranked(queue, now, agingMs);
      var k := 0;
      while k < |ordered| && ordered[k].requestId != requestId
        invariant k <= |ordered| && forall p | 0 <= p < k :: ordered[p].requestId != requestId
      {
        k := k + 1;
      }
      position := if k < |ordered| then k + 1 else -1;
      forall j | j in queue && j.requestId == requestId
        ensures k < |ordered| && ordered[k] == j
      {
        var p :| 0 <= p < |ordered| && ordered[p] == j;
        assert ordered[k] in queue;
        SameIdSameJob(Now(), limits, ordered[k], j);
      }
      assert k < |ordered| ==> ordered[k] in queue;
    }

    /** The runnable job that comes first in the scheduler's order, if any: filter, sort, take the
      * first. */
    method PickNextJob() returns (picked: seq<Job>)
      requires 0 < agingMs && Inv(Now(), limits)
      modifies `clock
      ensures Inv(Now(), limits) && Now() == old(Now()).(clock := clock) && old(clock) <= clock
      ensures |picked| <= 1
      ensures picked == [] <==> forall j | j in queue ::
          !CanRun(active, perMfeActive, limits.maxSlots, limits.maxPerMfe, j)
      ensures picked != [] ==> FirstRunnable(Now(), limits, picked[0], clock, agingMs)
      ensures picked != [] ==> PickFair(Pick(Now(), picked[0]), limits, agingMs)
    {
      var now := ReadClock();
      ClockKeepsInv(old(Now()), limits, clock);
      FirstCandidate(Now(), limits, now, agingMs);
      var ranked := Ranked(CandidatesTo(queue, active, perMfeActive, limits, |queue|), now, agingMs);
      picked := if |ranked| == 0 then [] else [ranked[0]];
      if |ranked| > 0 {
        PickIsFair(Now(), limits, ranked[0], agingMs);
      }
    }

    /** `_run`: job i, the one picked, leaves the queue and takes a slot; nobody has asked it to stop. */
    method RunJob(i: nat)
      requires 0 < agingMs && Good(Now(), limits, asked, ends)
      requires i < |queue| && FirstRunnable(Now(), limits, queue[i], clock, agingMs)
      modifies `queue, `active, `perMfeActive, `runs, `starts
      ensures Now() == Started(old(Now()), i) && Good(Now(), limits, asked, ends)
      ensures var job := old(queue)[i]; Running(runs, job.uid) && !runs[job.uid].aborted && job.uid !in asked
    {
      FirstRunnableMayStart(Now(), limits, i, clock, agingMs);
      StartKeepsInv(Now(), limits, i);
      StartStory(Now(), limits, asked, ends, i);
      var job := queue[i];
      queue := RemoveAt(queue, i);
      active := active[job.requestId := job];
      perMfeActive := Counted(perMfeActive, job.mfeId);
      runs := runs[job.uid := Run(job, false, false, false, false)];
      starts := starts + [job];
      assert RunStory(runs, asked, ends, job.uid);
    }

    /** One round of the scheduling loop: the first runnable job starts, if there is one. */
    method StartNext() returns (more: bool, ghost pick: Pick)
      requires 0 < agingMs && Good(Now(), limits, asked, ends)
      modifies `queue, `active, `perMfeActive, `runs, `starts, `clock
      ensures Good(Now(), limits, asked, ends)
      ensures !more ==> Now() == old(Now()).(clock := clock) && old(clock) <= clock
      ensures !more ==> forall j | j in queue :: !CanRun(active, perMfeActive, limits.maxSlots, limits.maxPerMfe, j)
      ensures more ==> StartedFrom(old(Now()), pick, Now(), limits, agingMs)
    {
      ghost var before := Now();
      var picked := PickNextJob();
      pick := Pick(Now(), if picked == [] then Job(0, 0, 0, Low, 0) else picked[0]);
      if |picked| == 0 {
        return false, pick;
      }
      var i := FindQueued(picked[0].requestId);
      assert i < |queue| && queue[i] in queue;
      SameIdSameJob(Now(), limits, queue[i], picked[0]);
      RunJob(i);
      more := true;
    }

    /** Starts waiting jobs until every slot is taken or none may run; the queue shrinks each time. */
    method Schedule() returns (ghost picks: seq<Pick>)
      requires 0 < agingMs && Good(Now(), limits, asked, ends)
      modifies `queue, `active, `perMfeActive, `runs, `starts, `clock
      ensures Valid() && OnlyStarts(old(Now()), Now())
      ensures PicksAre(old(Now()), picks, Now()) && PicksFair(picks, limits, agingMs)
    {
      picks := [];
      while |active| < limits.maxSlots
        invariant Good(Now(), limits, asked, ends) && OnlyStarts(old(Now()), Now())
        invariant PicksAre(old(Now()), picks, Now()) && PicksFair(picks, limits, agingMs)
        decreases |queue|
      {
        ghost var before := Now();
        var more;
        ghost var pick;
        more, pick := StartNext();
        if !more {
          OnlyStartsClock(old(Now()), before, clock);
          NoneRunnable(Now(), limits);
          return;
        }
        PicksGrow(old(Now()), picks, before, Now(), limits, agingMs, pick);
        picks := picks + [pick];
      }
    }

    /** Accepts a job unless the queue is full, then starts whatever may run. Callers use an id that is
      * neither waiting nor running. */
    method Enqueue(requestId: RequestId, mfeId: MfeId, priority: Priority) returns (r: Submission)
      requires Valid()
      requires requestId !in active && forall j | j in queue :: j.requestId != requestId
      modifies `queue, `active, `perMfeActive, `runs, `starts, `clock, `nextUid
      ensures Valid()
      ensures r.Overloaded? <==> |old(queue)| >= limits.maxQueue
      ensures r.Overloaded? ==> Now() == old(Now())
      ensures r.Accepted? ==>
                && r.uid == old(nextUid) && r.uid !in finished
                && exists createdAt :: old(clock) <= createdAt <= clock
                     && OnlyStarts(
                          Submitted(old(Now()).(clock := createdAt), Job(r.uid, requestId, mfeId, priority, createdAt)),
                          Now())
    {
      if |queue| >= limits.maxQueue {
        return Overloaded;
      }
      var createdAt := ReadClock();
      ClockKeepsInv(old(Now()), limits, clock);
      var job := Job(nextUid, requestId, mfeId, priority, createdAt);
      ghost var before := Now();
      assert forall p | 0 <= p < |queue| :: queue[p] in queue;
      SubmitKeepsInv(before, limits, job);
      nextUid := nextUid + 1;
      queue := queue + [job];
      ghost var mid := Now();
      assert mid == Submitted(before, job);
      assert OnePlace(before.queue, before.runs, before.finished, before.nextUid, job.uid);
      ghost var picks := Schedule();
      assert OnlyStarts(Submitted(old(Now()).(clock := createdAt), job), Now());
      return Accepted(job.uid);
    }

    /** Cancels a waiting job on the spot, or asks a running one to stop; anything else is unchanged. */
    method Cancel(requestId: RequestId) returns (r: CancelResult)
      requires Valid()
      modifies `queue, `runs, `finished, `asked, `ends
      ensures Valid()
      ensures r.CancelledQueued? <==> exists j :: j in old(queue) && j.requestId == requestId
      ensures r.CancelledQueued? ==>
                exists i :: 0 <= i < |old(queue)| && old(queue)[i].requestId == requestId
                         && old(queue)[i].uid !in old(finished) && Now() == Dropped(old(Now()), i, Cancelled)
                         && ends == old(ends)[old(queue)[i].uid := CancelWhileQueued] && asked == old(asked)
      ensures r.CancelledActive? <==> requestId in active
      ensures r.CancelledActive? ==>
                var run := old(runs)[active[requestId].uid];
                Now() == Noted(old(Now()), run.(aborted := true))
                && asked == old(asked) + {run.job.uid} && ends == old(ends)
      ensures r.NotCancelled? ==> Now() == old(Now()) && asked == old(asked) && ends == old(ends)
    {
      var i := FindQueued(requestId);
      if i < |queue| {
        assert queue[i] in queue;
        DropQueued(i, CancelWhileQueued);
        return CancelledQueued;
      }
      if requestId in active {
        AskOk(Now(), limits, asked, ends, requestId);
        var u := active[requestId].uid;
        asked := asked + {u};
        runs := runs[u := runs[u].(aborted := true)];
        return CancelledActive;
      }
      return NotCancelled;
    }

    /** Job i ends without having run. */
    method DropQueued(i: nat, ghost e: Ending)
      requires Valid() && i < |queue| && (e.CancelWhileQueued? || e.QueueTimer?)
      modifies `queue, `finished, `ends
      ensures Valid() && old(queue)[i].uid !in old(finished) && old(queue)[i].requestId !in active
      ensures Now() == Dropped(old(Now()), i, OutcomeOf(e, false)) && ends == old(ends)[old(queue)[i].uid := e]
    {
      DropOk(Now(), limits, asked, ends, i, e);
      finished := finished[queue[i].uid := OutcomeOf(e, false)];
      ends := ends[queue[i].uid := e];
      queue := RemoveAt(queue, i);
    }

    /** The queue timer of a job that still waits. */
    method OnQueueTimeout(u: nat)
      requires Valid() && Queued(queue, u)
      modifies `queue, `finished, `ends
      ensures Valid() && u !in old(finished) && ends == old(ends)[u := QueueTimer]
      ensures exists i ::
                0 <= i < |old(queue)| && old(queue)[i].uid == u && Now() == Dropped(old(Now()), i, TimedOutQueued)
    {
      var id := IdOf(u);
      var i := FindQueued(id);
      SameIdIs(Now(), limits, id, i, u);
      DropQueued(i, QueueTimer);
    }

    /** The request id the queue timer of job u remembers. */
    method IdOf(u: nat) returns (id: RequestId)
      requires Valid() && Queued(queue, u)
      ensures exists k :: 0 <= k < |queue| && queue[k].uid == u && queue[k].requestId == id
      ensures forall k | 0 <= k < |queue| && queue[k].uid == u :: queue[k].requestId == id
    {
      var k := 0;
      while queue[k].uid != u
        invariant k < |queue| && forall p | 0 <= p < k :: queue[p].uid != u
      {
        k := k + 1;
      }
      forall p: nat | p < |queue|
        ensures queue[p].uid == queue[k].uid ==> queue[p].requestId == queue[k].requestId
      {
        OneIdPerUid(Now(), limits, k, p);
      }
      id := queue[k].requestId;
    }

    /** Gives the slot of a run back, which from now on remembers what run says, and starts waiting jobs. */
    method ReleaseSlot(u: nat, run: Run, ghost e: Ending)
      requires Valid() && Running(runs, u) && EndsRun(runs[u], run, e)
      modifies `queue, `active, `perMfeActive, `runs, `starts, `clock, `finished, `ends
      ensures Valid() && u !in old(finished) && ends == old(ends)[u := e]
      ensures OnlyStarts(Released(old(Now()), run, OutcomeOf(e, u in asked)), Now())
    {
      GiveBack(u, run, e);
      ghost var picks := Schedule();
    }

    method GiveBack(u: nat, run: Run, ghost e: Ending)
      requires Good(Now(), limits, asked, ends) && Running(runs, u) && EndsRun(runs[u], run, e)
      modifies `active, `perMfeActive, `runs, `finished, `ends
      ensures Good(Now(), limits, asked, ends)
      ensures u !in old(finished) && ends == old(ends)[u := e]
      ensures Now() == Released(old(Now()), run, OutcomeOf(e, u in asked))
    {
      GiveBackOk(Now(), limits, asked, ends, u, run, e);
      ReturnSlot(run, OutcomeOf(e, u in asked), e);
    }

    /** The slot, the counter and the record of a run, in one go. */
    method ReturnSlot(run: Run, ghost outcome: Outcome, ghost e: Ending)
      modifies `active, `perMfeActive, `runs, `finished, `ends
      ensures Now() == Released(old(Now()), run, outcome) && ends == old(ends)[run.job.uid := e]
    {
      runs := runs[run.job.uid := run];
      active := active - {run.job.requestId};
      perMfeActive := Uncounted(perMfeActive, run.job.mfeId);
      finished := finished[run.job.uid := outcome];
      ends := ends[run.job.uid := e];
    }

    /** The execution timer of a job that holds a slot: the job is over and its slot is free, whatever
      * its work does later. */
    method OnExecTimeout(u: nat)
      requires Valid() && Running(runs, u)
      modifies `queue, `active, `perMfeActive, `runs, `starts, `clock, `finished, `ends
      ensures Valid() && u !in old(finished) && ends == old(ends)[u := ExecTimer]
      ensures var run := old(runs)[u].(released := true, execTimedOut := true, settled := false, aborted := true);
              OnlyStarts(Released(old(Now()), run, TimedOutRunning), Now())
    {
      ReleaseSlot(u, runs[u].(released := true, execTimedOut := true, settled := false, aborted := true), ExecTimer);
    }

    /** The job's work settles. A rejection counts as cancelled if the run was told to stop, which is so
      * exactly if a cancel reached it. If its slot is already free the step changes nothing but the memory of
      * that very run, even if its request id runs again under a newer job. */
    method OnSettle(u: nat, resolved: bool) returns (ghost outcome: Outcome)
      requires Valid() && u in runs && !runs[u].settled
      modifies `queue, `active, `perMfeActive, `runs, `starts, `clock, `finished, `ends
      ensures Valid()
      ensures old(runs[u].released) ==> Now() == Noted(old(Now()), old(runs)[u].(settled := true)) && ends == old(ends)
      ensures !old(runs[u].released) ==>
                && outcome == OutcomeOf(SettledBy(resolved), u in asked) && ends == old(ends)[u := SettledBy(resolved)]
                && u !in old(finished)
                && OnlyStarts(Released(old(Now()), old(runs)[u].(released := true, settled := true), outcome), Now())
    {
      if runs[u].released {
        outcome := Done;
        LateSettle(u);
      } else {
        outcome := SettleRunning(u, resolved);
      }
    }

    method SettleRunning(u: nat, resolved: bool) returns (ghost outcome: Outcome)
      requires Valid() && Running(runs, u)
      modifies `queue, `active, `perMfeActive, `runs, `starts, `clock, `finished, `ends
      ensures Valid() && outcome == OutcomeOf(SettledBy(resolved), u in asked)
      ensures ends == old(ends)[u := SettledBy(resolved)] && u !in old(finished)
      ensures OnlyStarts(Released(old(Now()), old(runs)[u].(released := true, settled := true), outcome), Now())
    {
      outcome := OutcomeOfSettling(u, resolved);
      GiveBack(u, runs[u].(released := true, settled := true), SettledBy(resolved));
      ghost var picks := Schedule();
    }

    /** What is recorded when the work of a running job settles: whether it was told to stop decides between
      * cancelled and failed. */
    method OutcomeOfSettling(u: nat, resolved: bool) returns (outcome: Outcome)
      requires Good(Now(), limits, asked, ends) && Running(runs, u)
      ensures outcome == OutcomeOf(SettledBy(resolved), u in asked)
      ensures outcome == (if resolved then Done else if u in asked then Cancelled else Failed)
      ensures !runs[u].execTimedOut
    {
      StoppedIffAsked(Now(), limits, asked, ends, u);
      outcome := if resolved then Done else if runs[u].aborted then Cancelled else Failed;
    }

    /** The work of a job that is over settles. */
    method LateSettle(u: nat)
      requires Valid() && u in runs && runs[u].released
      modifies `runs
      ensures Valid() && Now() == Noted(old(Now()), old(runs)[u].(settled := true))
    {
      SettleOk(Now(), limits, asked, ends, u);
      runs := runs[u := runs[u].(settled := true)];
    }
  }
}
