/** The order in which the shell's scheduler serves waiting jobs: priority with ageing, ties by
  * arrival.
  */
module JobOrder {
  /** Request and client ids are opaque strings in the program; only equality matters. */
  type RequestId = nat
  type MfeId = nat

  datatype Priority = High | Normal | Low

  /** A submitted job. uid is the identity of the job object: jobs are numbered in arrival order. */
  datatype Job = Job(uid: nat, requestId: RequestId, mfeId: MfeId, priority: Priority, createdAt: int)

  function BasePriority(p: Priority): int {
    match p
    case High => 300
    case Normal => 200
    case Low => 100
  }

  /** One point per whole agingMs waited (Math.floor of the quotient). */
  function EffectivePriority(job: Job, now: int, agingMs: int): int
    requires 0 < agingMs
  {
    BasePriority(job.priority) + (now - job.createdAt) / agingMs
  }

  /** The comparator of the scheduler, with the stability of the sort as the last tie-break. */
  predicate Before(a: Job, b: Job, now: int, agingMs: int)
    requires 0 < agingMs
  {
    var pa, pb := EffectivePriority(a, now, agingMs), EffectivePriority(b, now, agingMs);
    pa > pb || (pa == pb && (a.createdAt < b.createdAt || (a.createdAt == b.createdAt && a.uid < b.uid)))
  }

  lemma BeforeIsTotal(a: Job, b: Job, c: Job, now: int, agingMs: int)
    requires 0 < agingMs
    ensures !Before(a, a, now, agingMs)
    ensures a.uid != b.uid ==> Before(a, b, now, agingMs) || Before(b, a, now, agingMs)
    ensures !(Before(a, b, now, agingMs) && Before(b, a, now, agingMs))
    ensures Before(a, b, now, agingMs) && Before(b, c, now, agingMs) ==> Before(a, c, now, agingMs)
  {
  }

  // ---- ageing --------------------------------------------------------------------------

  lemma FloorShift(x: int, k: int, d: int)
    requires 0 < d
    ensures (x + k * d) / d == x / d + k
  {
    var q, r := x / d, x % d;
    assert x + k * d == (q + k) * d + r;
    FloorUnique(x + k * d, d, q + k, r);
  }

  lemma FloorUnique(x: int, d: int, q: int, r: int)
    requires 0 < d && 0 <= r < d && x == q * d + r
    ensures x / d == q
  {
    var q', r' := x / d, x % d;
    assert q' * d + r' == q * d + r;
    if q < q' {
      assert (q' - q) * d >= d by { ScaleAtLeast(q' - q, d); }
    } else if q' < q {
      assert (q - q') * d >= d by { ScaleAtLeast(q - q', d); }
    }
  }

  lemma ScaleAtLeast(n: int, d: int)
    requires 1 <= n && 0 < d
    ensures n * d >= d
  {
  }

  lemma FloorMonotone(x: int, y: int, d: int)
    requires 0 < d && x <= y
    ensures x / d <= y / d
  {
    assert x == (x / d) * d + x % d && y == (y / d) * d + y % d;
    if y / d < x / d {
      ScaleAtLeast(x / d - y / d, d);
    }
  }

  /** High is above normal, and both are above low. */
  predicate Above(p: Priority, q: Priority) {
    (p.High? && !q.High?) || (p.Normal? && q.Low?)
  }

  /** The ageing intervals a job has to wait to make up for a class or two. */
  function Gap(p: Priority, q: Priority): int
    requires Above(p, q) || p == q
  {
    if p == q then 0 else if p.High? && q.Low? then 200 else 100
  }

  /** The points of the classes, said of the classes. */
  lemma PointsOfClasses(p: Priority, q: Priority)
    ensures Above(p, q) <==> BasePriority(p) > BasePriority(q)
    ensures Above(p, q) || p == q ==> BasePriority(p) - BasePriority(q) == Gap(p, q)
    ensures Above(p, q) || p == q || Above(q, p)
  {
  }

  /** The overtaking bound: at every instant, a job is served before every job of a class k points higher
    * (or of its own) that came later by k ageing intervals or more, ... */
  lemma AgedJobGoesFirst(a: Job, b: Job, now: int, agingMs: int)
    requires 0 < agingMs && (Above(b.priority, a.priority) || a.priority == b.priority)
    requires a.createdAt < b.createdAt && a.createdAt + Gap(b.priority, a.priority) * agingMs <= b.createdAt
    ensures Before(a, b, now, agingMs)
  {
    var k := Gap(b.priority, a.priority);
    PointsOfClasses(b.priority, a.priority);
    FloorShift(now - b.createdAt, k, agingMs);
    FloorMonotone(now - b.createdAt + k * agingMs, now - a.createdAt, agingMs);
  }

  /** ... and after every such job that came at most k - 1 intervals later (or came earlier). */
  lemma FresherHigherJobGoesFirst(a: Job, b: Job, now: int, agingMs: int)
    requires 0 < agingMs && Above(b.priority, a.priority)
    requires b.createdAt <= a.createdAt + (Gap(b.priority, a.priority) - 1) * agingMs
    ensures Before(b, a, now, agingMs)
  {
    var k := Gap(b.priority, a.priority) - 1;
    PointsOfClasses(b.priority, a.priority);
    FloorShift(now - a.createdAt, -k, agingMs);
    assert (-k) * agingMs == -(k * agingMs);
    FloorMonotone(now - a.createdAt - k * agingMs, now - b.createdAt, agingMs);
  }

  /** Of two jobs of one age the one of the higher class goes first; of one class and age, the one that
    * arrived first. */
  lemma ClassDecidesAtEqualAge(a: Job, b: Job, now: int, agingMs: int)
    requires 0 < agingMs && a.createdAt == b.createdAt && a.uid != b.uid
    ensures Before(a, b, now, agingMs) <==>
            Above(a.priority, b.priority) || (a.priority == b.priority && a.uid < b.uid)
  {
    PointsOfClasses(a.priority, b.priority);
  }

  /** For every gap strictly between the two bounds both orders occur, so neither can be moved: the
    * older job is first when it has just earned the difference, the fresher one when it arrives. */
  lemma BetweenTheBoundsOrderVaries(a: Job, b: Job, agingMs: int)
    requires 0 < agingMs && Above(b.priority, a.priority)
    requires var k := Gap(b.priority, a.priority);
             a.createdAt + (k - 1) * agingMs < b.createdAt < a.createdAt + k * agingMs
    ensures var k := Gap(b.priority, a.priority);
            Before(a, b, a.createdAt + k * agingMs, agingMs)
    ensures Before(b, a, b.createdAt, agingMs)
  {
    var k := Gap(b.priority, a.priority);
    PointsOfClasses(b.priority, a.priority);
    FloorUnique(k * agingMs, agingMs, k, 0);
    FloorUnique(a.createdAt + k * agingMs - b.createdAt, agingMs, 0, a.createdAt + k * agingMs - b.createdAt);
    assert a.createdAt < b.createdAt by { ScaleOrder(0, k - 1, agingMs); }
    FloorUnique(b.createdAt - a.createdAt, agingMs, k - 1, b.createdAt - a.createdAt - (k - 1) * agingMs);
    FloorUnique(0, agingMs, 0, 0);
  }

  /** A job that goes before one of a higher class has waited long enough for it. */
  lemma LiftedHasWaited(a: Job, b: Job, now: int, agingMs: int)
    requires 0 < agingMs && Above(b.priority, a.priority) && b.createdAt <= now
    ensures Before(a, b, now, agingMs) ==> Gap(b.priority, a.priority) * agingMs <= now - a.createdAt
  {
    var k := Gap(b.priority, a.priority);
    PointsOfClasses(b.priority, a.priority);
    if now - a.createdAt < k * agingMs {
      FloorUnique(k * agingMs - 1, agingMs, k - 1, agingMs - 1);
      FloorMonotone(now - a.createdAt, k * agingMs - 1, agingMs);
      FloorMonotone(0, now - b.createdAt, agingMs);
    }
  }

  /** While no job waits longer than t, ageing lifts none over one of a higher class. */
  ghost predicate NeverLifts(t: int, agingMs: int)
    requires 0 < agingMs
  {
    forall a: Job, b: Job, now: int
      | Above(b.priority, a.priority) && b.createdAt <= now <= a.createdAt + t ::
      Before(b, a, now, agingMs)
  }

  /** Ageing has an effect between classes exactly if a job may wait 100 intervals. */
  lemma AgeingKeepsClasses(t: int, agingMs: int)
    requires 0 < agingMs
    ensures NeverLifts(t, agingMs) <==> t < 100 * agingMs
  {
    if t < 100 * agingMs {
      forall a: Job, b: Job, now: int | Above(b.priority, a.priority) && b.createdAt <= now <= a.createdAt + t
        ensures Before(b, a, now, agingMs)
      {
        PointsOfClasses(b.priority, a.priority);
        FloorUnique(100 * agingMs - 1, agingMs, 99, agingMs - 1);
        FloorMonotone(now - a.createdAt, 100 * agingMs - 1, agingMs);
        FloorMonotone(0, now - b.createdAt, agingMs);
      }
    } else {
      var low, young := Job(0, 0, 0, Low, 0), Job(1, 1, 0, Normal, 100 * agingMs);
      AgedJobGoesFirst(low, young, 100 * agingMs, agingMs);
      BeforeIsTotal(low, young, low, 100 * agingMs, agingMs);
      assert !Before(young, low, young.createdAt, agingMs);
    }
  }

  const SHIPPED_QUEUE_TIMEOUT_MS := 30_000
  const SHIPPED_AGING_MS := 15_000

  /** With the shipped settings a job whose queue timer fires on time is never lifted; the timeout would
    * have to be 1500 seconds. */
  lemma ShippedSettingsNeverLift()
    ensures NeverLifts(SHIPPED_QUEUE_TIMEOUT_MS, SHIPPED_AGING_MS)
    ensures forall t :: NeverLifts(t, SHIPPED_AGING_MS) <==> t < 1_500_000
  {
    forall t ensures NeverLifts(t, SHIPPED_AGING_MS) <==> t < 1_500_000 {
      AgeingKeepsClasses(t, SHIPPED_AGING_MS);
    }
  }

  lemma ScaleOrder(a: int, b: int, d: int)
    requires a <= b && 0 < d
    ensures a * d <= b * d
  {
  }

  // ---- the sorted queue ----------------------------------------------------------------

  ghost predicate DistinctUids(jobs: seq<Job>) {
    forall p, q | 0 <= p < q < |jobs| :: jobs[p].uid != jobs[q].uid
  }

  ghost predicate SortedJobs(jobs: seq<Job>, now: int, agingMs: int)
    requires 0 < agingMs
  {
    forall p, q | 0 <= p < q < |jobs| :: Before(jobs[p], jobs[q], now, agingMs)
  }

  /** Where job goes in a sorted list: behind everything that is before it. */
  function Slot(jobs: seq<Job>, job: Job, now: int, agingMs: int, k: nat): (s: nat)
    requires 0 < agingMs && k <= |jobs|
    ensures k <= s <= |jobs|
    ensures forall p | k <= p < s :: Before(jobs[p], job, now, agingMs)
    ensures s < |jobs| ==> !Before(jobs[s], job, now, agingMs)
    decreases |jobs| - k
  {
    if k == |jobs| || !Before(jobs[k], job, now, agingMs) then k else Slot(jobs, job, now, agingMs, k + 1)
  }

  /** The first n jobs of the queue as the scheduler sorts them. */
  function RankedTo(queue: seq<Job>, now: int, agingMs: int, n: nat): (r: seq<Job>)
    requires 0 < agingMs && n <= |queue|
    ensures |r| == n
  {
    if n == 0 then []
    else
      var rest := RankedTo(queue, now, agingMs, n - 1);
      var s := Slot(rest, queue[n - 1], now, agingMs, 0);
      rest[..s] + [queue[n - 1]] + rest[s..]
  }

  function Ranked(queue: seq<Job>, now: int, agingMs: int): seq<Job>
    requires 0 < agingMs
  {
    RankedTo(queue, now, agingMs, |queue|)
  }

  lemma InsertKeepsSorted(rest: seq<Job>, job: Job, now: int, agingMs: int)
    requires 0 < agingMs && SortedJobs(rest, now, agingMs)
    requires forall p | 0 <= p < |rest| :: rest[p].uid != job.uid
    ensures var s := Slot(rest, job, now, agingMs, 0);
            SortedJobs(rest[..s] + [job] + rest[s..], now, agingMs)
  {
    var s := Slot(rest, job, now, agingMs, 0);
    var r := rest[..s] + [job] + rest[s..];
    forall p, q | 0 <= p < q < |r|
      ensures Before(r[p], r[q], now, agingMs)
    {
      if p < s && q > s {
        assert Before(rest[p], rest[q - 1], now, agingMs);
      } else if p == s {
        BeforeIsTotal(rest[s], job, rest[q - 1], now, agingMs);
        if q - 1 > s {
          BeforeIsTotal(job, rest[s], rest[q - 1], now, agingMs);
        }
      } else if p > s {
        assert Before(rest[p - 1], rest[q - 1], now, agingMs);
      }
    }
  }

  /** Sorting only rearranges, and its result is in the scheduler's order. */
  lemma {:induction false} RankedToIsSorted(queue: seq<Job>, now: int, agingMs: int, n: nat)
    requires 0 < agingMs && n <= |queue| && DistinctUids(queue)
    ensures forall j :: j in RankedTo(queue, now, agingMs, n) <==> j in queue[..n]
    ensures SortedJobs(RankedTo(queue, now, agingMs, n), now, agingMs)
  {
    if n > 0 {
      RankedToIsSorted(queue, now, agingMs, n - 1);
      var rest := RankedTo(queue, now, agingMs, n - 1);
      forall p | 0 <= p < |rest|
        ensures rest[p].uid != queue[n - 1].uid
      {
        assert rest[p] in queue[..n - 1];
      }
      InsertKeepsSorted(rest, queue[n - 1], now, agingMs);
      var s := Slot(rest, queue[n - 1], now, agingMs, 0);
      assert rest == rest[..s] + rest[s..];
      assert queue[..n] == queue[..n - 1] + [queue[n - 1]];
    }
  }

  /** Positions are a bijection from the waiting jobs onto 1..n that agrees with the order. */
  lemma RankedIsBijection(queue: seq<Job>, now: int, agingMs: int)
    requires 0 < agingMs && DistinctUids(queue)
    ensures var r := Ranked(queue, now, agingMs);
            && |r| == |queue|
            && (forall j :: j in r <==> j in queue)
            && (forall p, q | 0 <= p < |r| && 0 <= q < |r| :: p < q <==> Before(r[p], r[q], now, agingMs))
  {
    RankedToIsSorted(queue, now, agingMs, |queue|);
    assert queue[..|queue|] == queue;
    var r := Ranked(queue, now, agingMs);
    forall p, q | 0 <= p < |r| && 0 <= q < |r|
      ensures p < q <==> Before(r[p], r[q], now, agingMs)
    {
      if p < q {
        assert Before(r[p], r[q], now, agingMs);
      } else {
        if q < p {
          assert Before(r[q], r[p], now, agingMs);
        }
        BeforeIsTotal(r[p], r[q], r[p], now, agingMs);
      }
    }
  }
}
