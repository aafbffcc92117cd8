/** The API server's request registry: submissions of one id coalesce while it runs, a success is
  * replayed for a while, and the in-flight set is mirrored to a file by one write at a time.
  */
module RequestRegistry {
  type RequestId = string

  datatype Flight = Flight(mfeId: string, stream: bool, startedAt: int, execution: nat)

  datatype Entry<T> = Entry(id: RequestId, finishedAt: int, result: T)

  /** How an execution ended. */
  datatype Outcome<T> = Resolved(result: T) | Rejected

  /** What a submission gets: an old result, the promise of the running execution, or a new one. */
  datatype Ticket<T> = Replayed(result: T) | Joined(execution: nat) | Started(execution: nat)

  datatype Status<T> = New | Inflight | Completed(result: T)

  // ---- eviction ------------------------------------------------------------------------

  ghost predicate ByFinish<T>(s: seq<Entry<T>>) {
    forall p, q | 0 <= p < q < |s| :: s[p].finishedAt <= s[q].finishedAt
  }

  /** Everything that has not expired, wherever it stands. */
  function Fresh<T>(s: seq<Entry<T>>, cutoff: int, n: nat): seq<Entry<T>>
    requires n <= |s|
    decreases |s| - n
  {
    if n == |s| then []
    else (if s[n].finishedAt >= cutoff then [s[n]] else []) + Fresh(s, cutoff, n + 1)
  }

  lemma {:induction false} FreshAll<T>(s: seq<Entry<T>>, cutoff: int, n: nat)
    requires n <= |s| && forall p | n <= p < |s| :: s[p].finishedAt >= cutoff
    ensures Fresh(s, cutoff, n) == s[n..]
    decreases |s| - n
  {
    if n < |s| {
      FreshAll(s, cutoff, n + 1);
    }
  }

  /** Because finish times are in order, everything behind the first fresh entry is fresh: stopping
    * there removes exactly the expired entries. */
  lemma {:induction false} EarlyBreakIsExact<T>(s: seq<Entry<T>>, cutoff: int, k: nat, n: nat)
    requires ByFinish(s) && n <= k <= |s|
    requires forall p | 0 <= p < k :: s[p].finishedAt < cutoff
    requires k < |s| ==> s[k].finishedAt >= cutoff
    ensures Fresh(s, cutoff, n) == s[k..]
    decreases k - n
  {
    if n < k {
      EarlyBreakIsExact(s, cutoff, k, n + 1);
    } else {
      forall p | k <= p < |s| ensures s[p].finishedAt >= cutoff {
        assert s[k].finishedAt <= s[p].finishedAt;
      }
      FreshAll(s, cutoff, k);
    }
  }

  lemma {:induction false} FreshHas<T>(s: seq<Entry<T>>, cutoff: int, n: nat, e: Entry<T>)
    requires n <= |s|
    ensures e in Fresh(s, cutoff, n) <==> e in s[n..] && e.finishedAt >= cutoff
    decreases |s| - n
  {
    if n < |s| {
      FreshHas(s, cutoff, n + 1, e);
      assert s[n..] == [s[n]] + s[n + 1..];
    }
  }

  // ---- the registry as values ----------------------------------------------------------

  datatype Success<T> = Success(finishedAt: int, result: T)

  /** executions: the promises not yet settled. successes and outcomes: what happened so far. */
  datatype State<T> = State(inflight: map<RequestId, Flight>, completed: seq<Entry<T>>, executions: map<nat, RequestId>,
                            next: nat, successes: map<RequestId, Success<T>>, outcomes: map<nat, Outcome<T>>,
                            clock: int)

  ghost predicate FlightRuns<T>(s: State<T>, id: RequestId)
    requires id in s.inflight
  {
    var e := s.inflight[id].execution;
    e in s.executions && s.executions[e] == id
  }

  ghost predicate ExecutionFlies<T>(s: State<T>, e: nat)
    requires e in s.executions
  {
    var id := s.executions[e];
    e < s.next && id in s.inflight && s.inflight[id].execution == e
  }

  /** A kept result is the latest success of its id, and the id is not running. */
  ghost predicate EntryRight<T>(s: State<T>, p: nat)
    requires p < |s.completed|
  {
    var entry := s.completed[p];
    && entry.id !in s.inflight && entry.finishedAt <= s.clock
    && entry.id in s.successes && s.successes[entry.id] == Success(entry.finishedAt, entry.result)
  }

  ghost predicate Kept<T>(s: State<T>, id: RequestId)
    requires id in s.successes
  {
    Entry(id, s.successes[id].finishedAt, s.successes[id].result) in s.completed
  }

  ghost predicate Alive(finishedAt: int, now: int, ttl: int) {
    finishedAt >= now - ttl
  }

  /** A success still within its time to live has not been dropped. */
  ghost predicate SuccessHeld<T>(s: State<T>, ttl: int, id: RequestId)
    requires id in s.successes
  {
    Alive(s.successes[id].finishedAt, s.clock, ttl) ==> Kept(s, id)
  }

  ghost predicate DistinctIds<T>(c: seq<Entry<T>>) {
    forall p, q | 0 <= p < q < |c| :: c[p].id != c[q].id
  }

  ghost predicate OutcomesRight<T>(s: State<T>) {
    && (forall e: nat :: e < s.next ==> (e in s.executions <==> e !in s.outcomes))
    && forall e | e in s.outcomes :: e < s.next
  }

  ghost predicate Inv<T>(s: State<T>, ttl: int) {
    && (forall id | id in s.inflight :: FlightRuns(s, id))
    && (forall e | e in s.executions :: ExecutionFlies(s, e))
    && ByFinish(s.completed) && DistinctIds(s.completed)
    && (forall p | 0 <= p < |s.completed| :: EntryRight(s, p))
    && (forall id | id in s.successes :: SuccessHeld(s, ttl, id))
    && OutcomesRight(s)
  }

  /** No id has two executions outstanding. */
  lemma OneExecutionPerId<T>(s: State<T>, ttl: int, e: nat, f: nat)
    requires Inv(s, ttl) && e in s.executions && f in s.executions && s.executions[e] == s.executions[f]
    ensures e == f
  {
    assert ExecutionFlies(s, e) && ExecutionFlies(s, f);
  }

  /** No id is both in flight and completed. */
  lemma NeverBoth<T>(s: State<T>, ttl: int, id: RequestId)
    requires Inv(s, ttl) && id in s.inflight
    ensures forall p | 0 <= p < |s.completed| :: s.completed[p].id != id
  {
    forall p | 0 <= p < |s.completed| ensures s.completed[p].id != id {
      assert EntryRight(s, p);
    }
  }

  // ---- steps ---------------------------------------------------------------------------

  function Later<T>(s: State<T>, now: int): State<T> {
    s.(clock := now)
  }

  lemma LaterKeepsInv<T>(s: State<T>, ttl: int, now: int)
    requires Inv(s, ttl) && s.clock <= now
    ensures Inv(Later(s, now), ttl)
  {
    var s' := Later(s, now);
    forall id | id in s'.inflight ensures FlightRuns(s', id) { assert FlightRuns(s, id); }
    forall e | e in s'.executions ensures ExecutionFlies(s', e) { assert ExecutionFlies(s, e); }
    forall p | 0 <= p < |s'.completed| ensures EntryRight(s', p) { assert EntryRight(s, p); }
    forall id | id in s'.successes ensures SuccessHeld(s', ttl, id) { assert SuccessHeld(s, ttl, id); }
  }

  function Evicted<T>(s: State<T>, ttl: int): State<T> {
    s.(completed := Fresh(s.completed, s.clock - ttl, 0))
  }

  /** Eviction drops exactly the results whose time is up. */
  lemma EvictKeepsInv<T>(s: State<T>, ttl: int, k: nat)
    requires Inv(s, ttl) && k <= |s.completed|
    requires forall p | 0 <= p < k :: s.completed[p].finishedAt < s.clock - ttl
    requires k < |s.completed| ==> s.completed[k].finishedAt >= s.clock - ttl
    ensures Evicted(s, ttl) == s.(completed := s.completed[k..]) && Inv(Evicted(s, ttl), ttl)
    ensures forall id | id in s.successes ::
              Kept(Evicted(s, ttl), id) <==> Alive(s.successes[id].finishedAt, s.clock, ttl)
  {
    EarlyBreakIsExact(s.completed, s.clock - ttl, k, 0);
    var s' := Evicted(s, ttl);
    forall id | id in s'.inflight ensures FlightRuns(s', id) { assert FlightRuns(s, id); }
    forall e | e in s'.executions ensures ExecutionFlies(s', e) { assert ExecutionFlies(s, e); }
    forall p | 0 <= p < |s'.completed| ensures EntryRight(s', p) { assert EntryRight(s, p + k); }
    forall id | id in s.successes
      ensures Kept(s', id) <==> Alive(s.successes[id].finishedAt, s.clock, ttl)
    {
      assert SuccessHeld(s, ttl, id);
      FreshHas(s.completed, s.clock - ttl, 0, Entry(id, s.successes[id].finishedAt, s.successes[id].result));
      assert s.completed[0..] == s.completed;
    }
  }

  function Began<T>(s: State<T>, id: RequestId, f: Flight): State<T> {
    s.(inflight := s.inflight[id := f], executions := s.executions[s.next := id], next := s.next + 1)
  }

  lemma BeginKeepsInv<T>(s: State<T>, ttl: int, id: RequestId, f: Flight)
    requires Inv(s, ttl) && id !in s.inflight && f.execution == s.next
    requires forall p | 0 <= p < |s.completed| :: s.completed[p].id != id
    ensures Inv(Began(s, id, f), ttl)
  {
    var s' := Began(s, id, f);
    forall x | x in s'.inflight ensures FlightRuns(s', x) {
      if x != id {
        assert FlightRuns(s, x) && ExecutionFlies(s, s.inflight[x].execution);
      }
    }
    forall e | e in s'.executions ensures ExecutionFlies(s', e) {
      if e != s.next {
        assert ExecutionFlies(s, e);
      }
    }
    forall p | 0 <= p < |s'.completed| ensures EntryRight(s', p) { assert EntryRight(s, p); }
    forall x | x in s'.successes ensures SuccessHeld(s', ttl, x) { assert SuccessHeld(s, ttl, x); }
  }

  function Position<T>(c: seq<Entry<T>>, id: RequestId, n: nat): (p: nat)
    requires n <= |c|
    ensures n <= p <= |c|
    ensures forall q | n <= q < p :: c[q].id != id
    ensures p < |c| ==> c[p].id == id
    decreases |c| - n
  {
    if n == |c| || c[n].id == id then n else Position(c, id, n + 1)
  }

  /** Setting a key of an insertion-ordered map: an existing key keeps its place. */
  function Put<T>(c: seq<Entry<T>>, entry: Entry<T>): seq<Entry<T>> {
    var p := Position(c, entry.id, 0);
    if p < |c| then c[p := entry] else c + [entry]
  }

  function Succeeded<T>(s: State<T>, e: nat, result: T): State<T>
    requires e in s.executions
  {
    var id := s.executions[e];
    s.(inflight := s.inflight - {id}, completed := Put(s.completed, Entry(id, s.clock, result)),
       executions := s.executions - {e}, successes := s.successes[id := Success(s.clock, result)],
       outcomes := s.outcomes[e := Resolved(result)])
  }

  function Failed<T>(s: State<T>, e: nat): State<T>
    requires e in s.executions
  {
    s.(inflight := s.inflight - {s.executions[e]}, executions := s.executions - {e},
        outcomes := s.outcomes[e := Rejected])
  }

  /** The result joins at the end, so finish order is kept. */
  lemma SuccessKeepsInv<T>(s: State<T>, ttl: int, e: nat, result: T)
    requires Inv(s, ttl) && e in s.executions
    ensures Inv(Succeeded(s, e, result), ttl)
    ensures Succeeded(s, e, result).completed == s.completed + [Entry(s.executions[e], s.clock, result)]
  {
    var s' := Succeeded(s, e, result);
    var id := s.executions[e];
    assert ExecutionFlies(s, e);
    NeverBoth(s, ttl, id);
    SettleKeepsFlights(s, ttl, e, s');
    forall p | 0 <= p < |s'.completed| ensures EntryRight(s', p) && s'.completed[p].finishedAt <= s.clock {
      if p < |s.completed| {
        assert EntryRight(s, p);
      }
    }
    forall x | x in s'.successes ensures SuccessHeld(s', ttl, x) {
      if x == id {
        assert s'.completed[|s.completed|] == Entry(id, s.clock, result);
      } else {
        assert SuccessHeld(s, ttl, x);
        KeptLonger(s, s', x);
      }
    }
  }

  lemma KeptLonger<T>(s: State<T>, s': State<T>, x: RequestId)
    requires s.completed <= s'.completed && x in s.successes && x in s'.successes && s.successes[x] == s'.successes[x]
    ensures Kept(s, x) ==> Kept(s', x)
  {
  }

  lemma SettleKeepsFlights<T>(s: State<T>, ttl: int, e: nat, s': State<T>)
    requires Inv(s, ttl) && e in s.executions
    requires s'.inflight == s.inflight - {s.executions[e]} && s'.executions == s.executions - {e} && s'.next == s.next
    ensures forall id | id in s'.inflight :: FlightRuns(s', id)
    ensures forall f | f in s'.executions :: ExecutionFlies(s', f)
    ensures e < s.next
  {
    assert ExecutionFlies(s, e);
    forall id | id in s'.inflight ensures FlightRuns(s', id) {
      assert FlightRuns(s, id);
    }
    forall f | f in s'.executions ensures ExecutionFlies(s', f) {
      assert ExecutionFlies(s, f);
    }
  }

  /** A failure leaves nothing to replay: the id is simply free again. */
  lemma FailureKeepsInv<T>(s: State<T>, ttl: int, e: nat)
    requires Inv(s, ttl) && e in s.executions
    ensures Inv(Failed(s, e), ttl) && s.executions[e] !in Failed(s, e).inflight
  {
    var s' := Failed(s, e);
    SettleKeepsFlights(s, ttl, e, s');
    forall p | 0 <= p < |s'.completed| ensures EntryRight(s', p) {
      assert EntryRight(s, p);
    }
    forall x | x in s'.successes ensures SuccessHeld(s', ttl, x) {
      assert SuccessHeld(s, ttl, x);
    }
  }

  // ---- the file writer -----------------------------------------------------------------

  /** At most one write is outstanding; one that nobody waits behind carries the current set; an idle
    * writer whose last write succeeded has the current set on disk. */
  ghost predicate WriterOk(inflight: map<RequestId, Flight>, writing: bool, pending: bool,
                           writes: seq<map<RequestId, Flight>>, file: map<RequestId, Flight>, lastOk: bool)
  {
    && |writes| == (if writing then 1 else 0)
    && (pending ==> writing)
    && (writing && !pending ==> writes[0] == inflight)
    && (!writing && lastOk ==> file == inflight)
  }

  class Registry<T> {
    const ttl: int
    const orphans: map<RequestId, Flight>

    var inflight: map<RequestId, Flight>
    /** In insertion order. */
    var completed: seq<Entry<T>>
    /** The promises that have not settled yet. */
    var executions: map<nat, RequestId>
    var next: nat
    var clock: int
    ghost var successes: map<RequestId, Success<T>>
    ghost var outcomes: map<nat, Outcome<T>>

    var writeInFlight: bool
    var writePending: bool
    /** The payloads of the writes the file system has not finished. */
    var writes: seq<map<RequestId, Flight>>
    var file: map<RequestId, Flight>
    ghost var lastOk: bool

    ghost function Now(): State<T>
      reads this
    {
      State(inflight, completed, executions, next, successes, outcomes, clock)
    }

    ghost predicate Writer()
      reads this
    {
      WriterOk(inflight, writeInFlight, writePending, writes, file, lastOk)
    }

    ghost predicate Valid()
      reads this
    {
      Inv(Now(), ttl) && Writer()
    }

    /** What the previous run left in the file is kept as orphans; an empty set is written over it. */
    constructor (idempotencyTtlMs: int, leftover: map<RequestId, Flight>)
      ensures Valid() && ttl == idempotencyTtlMs && orphans == leftover
      ensures inflight == map[] && completed == [] && executions == map[] && successes == map[]
      ensures writes == [map[]] && !writePending && file == leftover
    {
      ttl, orphans := idempotencyTtlMs, leftover;
      inflight, completed, executions, next, clock := map[], [], map[], 0, 0;
      successes, outcomes := map[], map[];
      writeInFlight, writePending, writes, file, lastOk := false, false, [], leftover, false;
      new;
      Persist();
    }

    method ReadClock()
      requires Inv(Now(), ttl)
      modifies `clock
      ensures Inv(Now(), ttl) && Now() == Later(old(Now()), clock) && old(clock) <= clock
    {
      var later: int := clock;
      later :| clock <= later;
      LaterKeepsInv(Now(), ttl, later);
      clock := later;
    }

    /** Starts a write of the current set, or leaves a note to the one that is running. */
    method Persist()
      requires |writes| == if writeInFlight then 1 else 0
      modifies `writeInFlight, `writePending, `writes
      ensures writeInFlight && Writer()
      ensures writePending == old(writeInFlight)
      ensures writes == if old(writeInFlight) then old(writes) else [inflight]
    {
      if writeInFlight {
        writePending := true;
        return;
      }
      writeInFlight := true;
      writePending := false;
      writes := writes + [inflight];
    }

    /** A write ends; a successful one puts its payload in the file. A note left meanwhile starts the
      * next write. */
    method WriteFinished(ok: bool)
      requires Valid() && writes != []
      modifies `writeInFlight, `writePending, `writes, `file, `lastOk
      ensures Valid()
      ensures file == (if ok then old(writes)[0] else old(file))
      ensures writeInFlight == old(writePending) && !writePending
      ensures writes == if old(writePending) then [inflight] else []
      ensures lastOk == ok
    {
      if ok {
        file := writes[0];
      }
      writes := writes[1..];
      lastOk := ok;
      writeInFlight := false;
      if writePending {
        Persist();
      }
    }

    /** With no more updates, the writer comes to rest after at most two completions; unless the last
      * of them failed, the file then holds the in-flight set. */
    method Drain() returns (completions: nat)
      requires Valid()
      modifies `writeInFlight, `writePending, `writes, `file, `lastOk
      ensures Valid() && !writeInFlight && writes == [] && completions <= 2
      ensures lastOk ==> file == inflight
    {
      completions := 0;
      while writes != []
        invariant Valid()
        invariant completions + (if writePending then 2 else if writeInFlight then 1 else 0) <= 2
        decreases if writePending then 2 else if writeInFlight then 1 else 0
      {
        var ok: bool := *;
        WriteFinished(ok);
        completions := completions + 1;
      }
    }

    /** Walks the results in insertion order and stops at the first that is still fresh. */
    method EvictCompleted()
      requires Inv(Now(), ttl)
      modifies `completed, `clock
      ensures Inv(Now(), ttl) && old(clock) <= clock
      ensures Now() == Evicted(Later(old(Now()), clock), ttl)
      ensures forall id | id in successes :: Kept(Now(), id) <==> clock <= successes[id].finishedAt + ttl
    {
      ReadClock();
      var cutoff := clock - ttl;
      ghost var s := Now();
      ghost var k := 0;
      while completed != []
        invariant k <= |s.completed| && completed == s.completed[k..] && clock == s.clock
        invariant forall p | 0 <= p < k :: s.completed[p].finishedAt < cutoff
        decreases |completed|
      {
        if completed[0].finishedAt >= cutoff {
          break;
        }
        completed := completed[1..];
        k := k + 1;
      }
      EvictKeepsInv(s, ttl, k);
    }

    method Find(id: RequestId) returns (p: nat)
      ensures p == Position(completed, id, 0)
    {
      p := 0;
      while p < |completed| && completed[p].id != id
        invariant p <= |completed| && Position(completed, id, 0) == Position(completed, id, p)
      {
        p := p + 1;
      }
    }

    /** The last success of the id is still alive. */
    ghost predicate Replay(id: RequestId)
      reads this
    {
      id in successes && Alive(successes[id].finishedAt, clock, ttl)
    }

    method Lookup(id: RequestId) returns (status: Status<T>)
      requires Valid()
      modifies `completed, `clock
      ensures Valid() && old(clock) <= clock && Now() == Evicted(Later(old(Now()), clock), ttl)
      ensures status == if id in inflight then Inflight else if Replay(id) then Completed(successes[id].result) else New
    {
      EvictCompleted();
      if id in inflight {
        return Inflight;
      }
      var p := Find(id);
      FoundIsKept(Now(), ttl, id);
      status := if p < |completed| then Completed(completed[p].result) else New;
    }

    /** A new execution: the id is in flight from here until it settles. */
    method Begin(id: RequestId, mfeId: string, stream: bool) returns (execution: nat)
      requires Writer()
      modifies `inflight, `executions, `next, `writeInFlight, `writePending, `writes
      ensures Writer() && execution == old(next)
      ensures Now() == Began(old(Now()), id, Flight(mfeId, stream, clock, execution))
    {
      execution := next;
      executions := executions[next := id];
      inflight := inflight[id := Flight(mfeId, stream, clock, next)];
      next := next + 1;
      Persist();
    }

    /** The insertion-ordered map's set. */
    method SetCompleted(entry: Entry<T>)
      modifies `completed
      ensures completed == Put(old(completed), entry)
    {
      var p := Find(entry.id);
      completed := if p < |completed| then completed[p := entry] else completed + [entry];
    }

    /** A submission replays a success that is still alive, else joins the running execution of its id,
      * else starts the only one. */
    method Run(id: RequestId, mfeId: string, stream: bool) returns (ticket: Ticket<T>)
      requires Valid()
      modifies this
      ensures Valid() && old(clock) <= clock
      ensures ticket == if id in old(successes) && clock <= old(successes)[id].finishedAt + ttl then
                          Replayed(old(successes)[id].result)
                        else if id in old(inflight) then Joined(old(inflight)[id].execution)
                        else Started(old(next))
      ensures var evicted := Evicted(Later(old(Now()), clock), ttl);
              Now() == if ticket.Started? then Began(evicted, id, Flight(mfeId, stream, clock, old(next))) else evicted
      ensures ticket.Joined? ==> ticket.execution in executions && ticket.execution !in outcomes
      ensures !ticket.Started? ==> writeInFlight == old(writeInFlight) && writePending == old(writePending)
    {
      EvictCompleted();
      var p := Find(id);
      Decides(Now(), ttl, id, Flight(mfeId, stream, clock, next));
      if p < |completed| {
        return Replayed(completed[p].result);
      }
      if id in inflight {
        return Joined(inflight[id].execution);
      }
      var execution := Begin(id, mfeId, stream);
      ticket := Started(execution);
    }

    /** Moves an id from the in-flight set to the results. */
    method Record(execution: nat, result: T)
      requires execution in executions && Writer()
      modifies `executions, `inflight, `completed, `successes, `outcomes, `writeInFlight, `writePending, `writes
      ensures Now() == Succeeded(old(Now()), execution, result)
      ensures Writer() && writeInFlight
    {
      var id := executions[execution];
      executions := executions - {execution};
      inflight := inflight - {id};
      SetCompleted(Entry(id, clock, result));
      successes, outcomes := successes[id := Success(clock, result)], outcomes[execution := Resolved(result)];
      Persist();
    }

    /** An execution ends well: its result is kept and its id leaves the in-flight set. */
    method Settle(execution: nat, result: T)
      requires Valid() && execution in executions
      modifies this
      ensures Valid() && old(clock) <= clock
      ensures Now() == Succeeded(Later(old(Now()), clock), execution, result)
      ensures writeInFlight
    {
      ReadClock();
      SuccessKeepsInv(Now(), ttl, execution, result);
      Record(execution, result);
    }

    /** Takes a failed execution off the books. */
    method Drop(execution: nat)
      requires execution in executions && Writer()
      modifies `executions, `inflight, `outcomes, `writeInFlight, `writePending, `writes
      ensures Now() == Failed(old(Now()), execution)
      ensures Writer() && writeInFlight
    {
      inflight := inflight - {executions[execution]};
      executions := executions - {execution};
      outcomes := outcomes[execution := Rejected];
      Persist();
    }

    /** An execution fails: nothing is kept, so the id can be tried again. */
    method Fail(execution: nat)
      requires Valid() && execution in executions
      modifies this
      ensures Valid() && Now() == Failed(old(Now()), execution)
      ensures old(executions)[execution] !in inflight && writeInFlight
    {
      FailureKeepsInv(Now(), ttl, execution);
      Drop(execution);
    }

    method Snapshot() returns (open: map<RequestId, Flight>, completedCount: nat, left: map<RequestId, Flight>)
      requires Valid()
      modifies `completed, `clock
      ensures Valid() && old(clock) <= clock && Now() == Evicted(Later(old(Now()), clock), ttl)
      ensures open == inflight && left == orphans && completedCount == |completed|
    {
      EvictCompleted();
      open, completedCount, left := inflight, |completed|, orphans;
    }
  }

  /** After an eviction, an id has an entry exactly when its last success is alive. */
  lemma FoundIsKept<T>(s: State<T>, ttl: int, id: RequestId)
    requires Inv(s, ttl)
    requires forall x | x in s.successes :: Kept(s, x) <==> Alive(s.successes[x].finishedAt, s.clock, ttl)
    ensures var p := Position(s.completed, id, 0);
            && (p < |s.completed| <==> id in s.successes && Alive(s.successes[id].finishedAt, s.clock, ttl))
            && (p < |s.completed| ==> s.completed[p].result == s.successes[id].result)
  {
    var p := Position(s.completed, id, 0);
    if p < |s.completed| {
      assert EntryRight(s, p);
    }
  }

  /** What an id's submission may do right after an eviction. */
  lemma Decides<T>(s: State<T>, ttl: int, id: RequestId, f: Flight)
    requires Inv(s, ttl) && f.execution == s.next
    requires forall x | x in s.successes :: Kept(s, x) <==> Alive(s.successes[x].finishedAt, s.clock, ttl)
    ensures var p := Position(s.completed, id, 0);
            && (p < |s.completed| <==> id in s.successes && Alive(s.successes[id].finishedAt, s.clock, ttl))
            && (p < |s.completed| ==> s.completed[p].result == s.successes[id].result)
            && (id in s.inflight ==>
                  s.inflight[id].execution in s.executions && s.inflight[id].execution !in s.outcomes)
            && (p == |s.completed| && id !in s.inflight ==> Inv(Began(s, id, f), ttl))
  {
    FoundIsKept(s, ttl, id);
    if id in s.inflight {
      assert FlightRuns(s, id) && ExecutionFlies(s, s.inflight[id].execution);
    } else if Position(s.completed, id, 0) == |s.completed| {
      BeginKeepsInv(s, ttl, id, f);
    }
  }
}
