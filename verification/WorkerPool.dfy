/** The worker pool as the API server holds it. Socket traffic, timers and the supervisor's messages
  * arrive as events; each event runs to completion.
  */
module WorkerPools {
  import opened PoolModel

  datatype Message =
    WorkerCrashedNotice(workerId: int, request: Named) | WorkerRestarted(workerId: int) | WorkerReady(workerId: int)
    | Unknown

  /** While a crash notice is handled: the requests in bound have not been failed yet. */
  ghost predicate Crashing(p: Pool, w: nat, q: Pool, bound: map<RequestId, Binding>)
    requires w < |p.workers|
  {
    && q.workers == p.workers[w := p.workers[w].(status := Crashed)]
    && |q.calls| == |p.calls|
    && (forall c | 0 <= c < |p.calls| ::
          q.calls[c] == if ServedBy(p, w, c) && p.calls[c].requestId !in bound
                        then p.calls[c].(done := true, outcome := Rejected(WorkerCrashed)) else p.calls[c])
    && (forall id :: id in q.inFlight <==> id in p.inFlight && (p.inFlight[id].worker != w || id in bound))
    && (forall id | id in q.inFlight :: q.inFlight[id] == p.inFlight[id])
    && (forall id | id in bound :: id in p.inFlight && p.inFlight[id] == bound[id] && bound[id].worker == w)
  }

  lemma CrashBegins(p: Pool, l: Limits, w: nat, q: Pool, bound: map<RequestId, Binding>)
    requires Inv(p, l) && w < |p.workers| && q == WithWorker(p, w, p.workers[w].(status := Crashed))
    requires forall id :: id in bound <==> id in p.inFlight && p.inFlight[id].worker == w
    requires forall id | id in bound :: bound[id] == p.inFlight[id]
    ensures Crashing(p, w, q, bound)
  {
    forall c | 0 <= c < |p.calls|
      ensures ServedBy(p, w, c) ==> p.calls[c].requestId in bound
    {
      assert CallRight(p, c);
    }
  }

  lemma CrashFails(p: Pool, l: Limits, w: nat, q: Pool, bound: map<RequestId, Binding>, id: RequestId)
    requires Inv(p, l) && w < |p.workers| && Crashing(p, w, q, bound) && id in bound
    ensures bound[id].call < |q.calls| && q.calls[bound[id].call].worker == w < |q.workers|
    ensures Crashing(p, w, FailedCall(q, bound[id].call, WorkerCrashed, l), bound - {id})
  {
    var c := bound[id].call;
    assert BindingRight(p, id);
    var r := FailedCall(q, c, WorkerCrashed, l);
    forall d | 0 <= d < |p.calls| && ServedBy(p, w, d) && p.calls[d].requestId == id
      ensures d == c
    {
      assert CallRight(p, d);
    }
    assert r.workers == q.workers;
  }

  lemma CrashEnds(p: Pool, l: Limits, w: nat, q: Pool)
    requires Inv(p, l) && w < |p.workers| && Crashing(p, w, q, map[])
    ensures CrashedWith(p, l, w, WithWorker(q, w, Scheduled(Cleared(q.workers[w]).(recoveryAttempt := 0, made := 0),
        l)))
  {
    var s := Scheduled(Cleared(q.workers[w]).(recoveryAttempt := 0, made := 0), l);
    assert q.workers[w := s] == p.workers[w := s];
  }

  lemma BusySetGrows(p: Pool, n: nat)
    requires n < |p.workers|
    ensures |BusySet(p, n + 1)| == |BusySet(p, n)| + if p.workers[n].status == Busy then 1 else 0
  {
    var more: set<nat> := if p.workers[n].status == Busy then {n} else {};
    forall w: nat
      ensures w in BusySet(p, n + 1) <==> w in BusySet(p, n) || w in more
    {
    }
    assert BusySet(p, n + 1) == BusySet(p, n) + more;
    assert n !in BusySet(p, n);
  }

  /** A walk over the workers that has refreshed the first n. */
  ghost predicate RefreshedTo(was: seq<Worker>, l: Limits, sockets: seq<bool>, now: int, n: nat, workers: seq<Worker>) {
    && n <= |was| == |workers| == |sockets|
    && forall i | 0 <= i < |was| :: workers[i] == if i < n then Refreshed(was[i], l, sockets[i], now) else was[i]
  }

  lemma RefreshKeepsInv(p: Pool, l: Limits, i: nat, socket: bool, now: int)
    requires Inv(p, l) && i < |p.workers|
    ensures Inv(WithWorker(p, i, Refreshed(p.workers[i], l, socket, now)), l)
  {
    assert WorkerOk(p.workers[i], l);
    RefreshOk(p.workers[i], l, socket, now);
    WorkerStepKeepsInv(p, l, i, Refreshed(p.workers[i], l, socket, now));
  }

  class WorkerPool {
    const limits: Limits

    var workers: seq<Worker>
    var inFlight: map<RequestId, Binding>
    /** The closures of all requests ever sent. */
    var calls: seq<Call>
    var clock: int

    ghost function Now(): Pool
      reads this
    {
      Pool(workers, inFlight, calls)
    }

    ghost predicate Valid()
      reads this
    {
      Inv(Now(), limits)
    }

    constructor (workerCount: nat, recoveryMs: int, recoveryAttempts: int, startupGraceMs: int)
      requires workerCount > 0
      ensures Valid() && limits == Limits(recoveryMs, recoveryAttempts, startupGraceMs)
      ensures |workers| == workerCount && inFlight == map[] && calls == []
      ensures forall i | 0 <= i < workerCount :: workers[i].status == Starting
    {
      limits := Limits(recoveryMs, recoveryAttempts, startupGraceMs);
      var now: int := *;
      clock := now;
      workers := seq(workerCount, _ => Worker(Starting, NoTimer, 0, now, map[], 0, 0, 0));
      inFlight, calls := map[], [];
    }

    method ReadClock() returns (now: int)
      modifies `clock
      ensures old(clock) <= now == clock
    {
      now := clock;
      now :| clock <= now;
      clock := now;
    }

    // ---- recovery ----------------------------------------------------------------------

    method ClearTimeout(id: nat)
      requires id < |workers|
      modifies `workers
      ensures workers == old(workers)[id := Cleared(old(workers)[id])]
    {
      var w := workers[id];
      if w.recoveryTimer.Held? {
        workers := workers[id := w.(pending := w.pending - {w.recoveryTimer.handle})];
      }
    }

    method ScheduleRecoveryProbe(id: nat)
      requires id < |workers|
      modifies `workers
      ensures workers == old(workers)[id := Scheduled(old(workers)[id], limits)]
    {
      var w := workers[id];
      if w.status != Crashed {
        return;
      }
      if w.recoveryAttempt >= limits.recoveryAttempts {
        return;
      }
      w := w.(recoveryAttempt := w.recoveryAttempt + 1);
      var delay := limits.recoveryMs * w.recoveryAttempt;
      w := w.(pending := w.pending[w.handles := delay], recoveryTimer := Held(w.handles), handles := w.handles + 1,
              made := w.made + 1);
      workers := workers[id := w];
    }

    /** Recovery starts over with the first round. */
    method RestartRecovery(id: nat)
      requires id < |workers|
      modifies `workers
      ensures workers == old(workers)[id := Scheduled(Cleared(old(workers)[id]).(recoveryAttempt := 0, made := 0),
          limits)]
    {
      ClearTimeout(id);
      workers := workers[id := workers[id].(recoveryAttempt := 0, made := 0)];
      ScheduleRecoveryProbe(id);
    }

    method QuarantineAfterTransportFailure(id: nat)
      requires id < |workers|
      modifies `workers
      ensures workers == old(workers)[id := Quarantined(old(workers)[id], limits)]
    {
      if workers[id].status == Crashed {
        return;
      }
      workers := workers[id := workers[id].(status := Crashed)];
      RestartRecovery(id);
    }

    /** A recovery timer fires and a probe goes out. */
    method TimerFires(id: nat, handle: nat)
      requires Valid() && id < |workers| && handle in workers[id].pending
      modifies `workers
      ensures Valid() && workers == old(workers)[id := Fired(old(workers)[id], handle)]
    {
      assert WorkerOk(workers[id], limits);
      FireOk(workers[id], limits, handle);
      WorkerStepKeepsInv(Now(), limits, id, Fired(workers[id], handle));
      var w := workers[id];
      workers := workers[id := w.(pending := w.pending - {handle}, probing := w.probing + 1)];
    }

    /** A probe comes back. Its answer counts only if the worker is still out of service. */
    method ProbeAnswers(id: nat, alive: bool)
      requires Valid() && id < |workers| && workers[id].probing > 0
      modifies `workers, `clock
      ensures Valid() && old(clock) <= clock
      ensures workers == old(workers)[id := Probed(old(workers)[id], limits, alive, clock)]
    {
      var now := ReadClock();
      ghost var was := workers;
      assert WorkerOk(workers[id], limits);
      ProbeOk(workers[id], limits, alive, now);
      WorkerStepKeepsInv(Now(), limits, id, Probed(workers[id], limits, alive, now));
      workers := workers[id := workers[id].(probing := workers[id].probing - 1)];
      if workers[id].status != Crashed {
        return;
      }
      if alive {
        workers := workers[id := workers[id].(recoveryTimer := NoTimer, recoveryAttempt := 0, made := 0,
            startedAt := now, status := Ready)];
        assert workers == was[id := Probed(was[id], limits, alive, now)];
        return;
      }
      ScheduleRecoveryProbe(id);
      assert workers == was[id := Probed(was[id], limits, alive, now)];
    }

    // ---- requests ----------------------------------------------------------------------

    /** Workers that are neither serving nor out of service are judged by their socket file. */
    method RefreshWorkerReadiness() returns (ghost sockets: seq<bool>)
      requires Valid()
      modifies `workers, `clock
      ensures Valid() && old(clock) <= clock
      ensures RefreshedTo(old(workers), limits, sockets, clock, |old(workers)|, workers)
    {
      var now := ReadClock();
      ghost var was := workers;
      var exist: seq<bool> := seq(|workers|, _ => false);
      assert |exist| == |workers|;
      exist :| |exist| == |workers|;
      sockets := exist;
      var i := 0;
      while i < |workers|
        invariant Valid() && now == clock && inFlight == old(inFlight) && calls == old(calls)
        invariant RefreshedTo(was, limits, exist, now, i, workers)
      {
        RefreshKeepsInv(Now(), limits, i, exist[i], now);
        RefreshOne(i, exist[i], now);
        i := i + 1;
      }
    }

    method RefreshOne(i: nat, socket: bool, now: int)
      requires i < |workers|
      modifies `workers
      ensures workers == old(workers)[i := Refreshed(old(workers)[i], limits, socket, now)]
    {
      var w := workers[i];
      if w.status == Busy || w.status == Crashed {
        return;
      }
      if socket {
        workers := workers[i := w.(status := Ready, startedAt := now)];
        return;
      }
      if now - w.startedAt >= limits.startupGraceMs {
        workers := workers[i := w.(status := Crashed)];
        ClearTimeout(i);
        workers := workers[i := workers[i].(recoveryTimer := NoTimer, recoveryAttempt := 0, made := 0)];
        ScheduleRecoveryProbe(i);
        return;
      }
      workers := workers[i := w.(status := Starting)];
    }

    /** The first ready worker, if any. */
    method FindReady() returns (w: nat)
      ensures w <= |workers| && (forall i | 0 <= i < w :: workers[i].status != Ready)
      ensures w < |workers| ==> workers[w].status == Ready
    {
      w := 0;
      while w < |workers| && workers[w].status != Ready
        invariant w <= |workers| && forall i | 0 <= i < w :: workers[i].status != Ready
      {
        w := w + 1;
      }
    }

    /** A request takes the first ready worker, or is refused because no worker is ready. The pool stays
      * consistent exactly if the id is not in flight already, which the registry above sees to. */
    method RunInference(requestId: RequestId)
      returns (taken: bool, call: nat, ghost refreshed: Pool, ghost sockets: seq<bool>)
      requires Valid()
      modifies this
      ensures Valid() <==> !taken || requestId !in old(inFlight)
      ensures refreshed.inFlight == old(inFlight) && refreshed.calls == old(calls)
      ensures RefreshedTo(old(workers), limits, sockets, clock, |old(workers)|, refreshed.workers)
      ensures !taken ==> Now() == refreshed && forall i | 0 <= i < |workers| :: workers[i].status != Ready
      ensures taken ==> call == |old(calls)| && |calls| == call + 1 &&
                        var w := calls[call].worker;
                        && w < |refreshed.workers| && refreshed.workers[w].status == Ready
                        && (forall i | 0 <= i < w :: refreshed.workers[i].status != Ready)
                        && Now() == Sent(refreshed, w, requestId)
    {
      sockets := RefreshWorkerReadiness();
      refreshed := Now();
      var w := FindReady();
      call := |calls|;
      taken := w < |workers|;
      if taken {
        SendNeedsFreshId(Now(), limits, w, requestId);
        workers := workers[w := workers[w].(status := Busy)];
        inFlight := inFlight[requestId := Binding(w, call)];
        calls := calls + [Call(w, requestId, false, Waiting)];
      }
    }

    method Cleanup(c: nat, outcome: Outcome)
      requires c < |calls| && calls[c].worker < |workers|
      modifies `workers, `inFlight, `calls
      ensures Now() == Finished(old(Now()), c, outcome)
    {
      var call := calls[c];
      calls := calls[c := call.(done := true, outcome := outcome)];
      inFlight := inFlight - {call.requestId};
      if workers[call.worker].status != Crashed {
        workers := workers[call.worker := workers[call.worker].(status := Ready)];
      }
    }

    /** A call fails, once; later failures and results of the same call are ignored. */
    method FailInFlight(c: nat, code: Code)
      requires c < |calls| && calls[c].worker < |workers|
      modifies `workers, `inFlight, `calls
      ensures Now() == FailedCall(old(Now()), c, code, limits)
    {
      if calls[c].done {
        return;
      }
      var w := calls[c].worker;
      Cleanup(c, Rejected(code));
      if code == ConnectTimeout || code == SocketError || code == Closed {
        QuarantineAfterTransportFailure(w);
      }
    }

    /** An error frame, a bad frame, a socket error, a close or a cancel reaches a call. */
    method CallFails(c: nat, code: Code)
      requires Valid() && c < |calls|
      modifies `workers, `inFlight, `calls
      ensures Valid() && old(calls)[c].worker < |old(workers)|
      ensures Now() == FailedCall(old(Now()), c, code, limits)
      ensures old(calls)[c].done ==> Now() == old(Now())
    {
      FailureKeepsInv(Now(), limits, c, code);
      FailInFlight(c, code);
    }

    /** A result frame reaches a call. */
    method ResultArrives(c: nat, text: string)
      requires Valid() && c < |calls|
      modifies `workers, `inFlight, `calls
      ensures Valid() && old(calls)[c].worker < |old(workers)|
      ensures Now() == Resulted(old(Now()), c, text)
      ensures old(calls)[c].done ==> Now() == old(Now())
    {
      ResultKeepsInv(Now(), limits, c, text);
      if calls[c].done {
        return;
      }
      Cleanup(c, Resolved(text));
    }

    // ---- the supervisor ----------------------------------------------------------------

    /** Fails the requests bound to a worker that is already marked crashed. */
    method FailAffected(id: nat, ghost p: Pool)
      requires Inv(p, limits) && id < |p.workers| && Now() == WithWorker(p, id, p.workers[id].(status := Crashed))
      modifies `workers, `inFlight, `calls
      ensures Crashing(p, id, Now(), map[])
    {
      var affected := map r | r in inFlight && inFlight[r].worker == id :: inFlight[r];
      CrashBegins(p, limits, id, Now(), affected);
      while affected != map[]
        invariant Crashing(p, id, Now(), affected)
        decreases |affected|
      {
        var r :| r in affected;
        CrashFails(p, limits, id, Now(), affected, r);
        FailInFlight(affected[r].call, WorkerCrashed);
        affected := affected - {r};
      }
    }

    /** Whatever the worker was serving fails, or the request named in the notice if that is in flight. */
    method MarkWorkerCrashed(id: int, request: Named)
      requires Valid()
      modifies `workers, `inFlight, `calls
      ensures if 0 <= id < |old(workers)| then NoticeTaken(old(Now()), limits, id, request, Now())
              else Now() == old(Now())
      ensures Valid() <==> (0 <= id < |old(workers)| ==> NoticeFits(old(Now()), id, request))
    {
      if !(0 <= id < |workers|) {
        return;
      }
      ghost var p := Now();
      workers := workers[id := workers[id].(status := Crashed)];
      if request.Named? && request.id in inFlight {
        assert BindingRight(p, request.id);
        FailInFlight(inFlight[request.id].call, WorkerCrashed);
      } else {
        FailAffected(id, p);
        CrashEnds(p, limits, id, Now());
      }
      RestartRecovery(id);
      NoticeKeepsInv(p, limits, id, request, Now());
    }

    /** A replacement process exists, but it is probed before it is trusted. */
    method MarkWorkerRestarted(id: nat)
      requires Valid() && id < |workers| && workers[id].status != Busy
      modifies `workers, `clock
      ensures Valid() && old(clock) <= clock
      ensures workers == old(workers)[id := Restarted(old(workers)[id], limits, clock)]
    {
      var now := ReadClock();
      ghost var was := workers;
      assert WorkerOk(workers[id], limits);
      SupervisorStepsOk(workers[id], limits, now);
      WorkerStepKeepsInv(Now(), limits, id, Restarted(workers[id], limits, now));
      ClearTimeout(id);
      workers := workers[id := workers[id].(recoveryTimer := NoTimer, recoveryAttempt := 0, made := 0,
          startedAt := now, status := Crashed)];
      ScheduleRecoveryProbe(id);
      assert workers == was[id := Restarted(was[id], limits, now)];
    }

    method MarkWorkerReady(id: nat)
      requires Valid() && id < |workers| && workers[id].status != Busy
      modifies `workers, `clock
      ensures Valid() && old(clock) <= clock
      ensures workers == old(workers)[id := MadeReady(old(workers)[id], clock)]
    {
      var now := ReadClock();
      ghost var was := workers;
      assert WorkerOk(workers[id], limits);
      SupervisorStepsOk(workers[id], limits, now);
      WorkerStepKeepsInv(Now(), limits, id, MadeReady(workers[id], now));
      ClearTimeout(id);
      workers := workers[id := workers[id].(recoveryTimer := NoTimer, recoveryAttempt := 0, made := 0,
          startedAt := now, status := Ready)];
      assert workers == was[id := MadeReady(was[id], now)];
    }

    method HandleSupervisorMessage(msg: Message)
      requires Valid()
      modifies this
      ensures old(clock) <= clock
      ensures Valid() <==> (msg.WorkerCrashedNotice? && 0 <= msg.workerId < |old(workers)| ==>
                              NoticeFits(old(Now()), msg.workerId, msg.request))
      ensures msg.WorkerCrashedNotice? && 0 <= msg.workerId < |old(workers)| ==>
                NoticeTaken(old(Now()), limits, msg.workerId, msg.request, Now())
      ensures msg.WorkerRestarted? && 0 <= msg.workerId < |old(workers)| ==>
                Now() == WithWorker(old(Now()), msg.workerId, Restarted(old(workers)[msg.workerId], limits, clock))
      ensures msg.WorkerReady? && 0 <= msg.workerId < |old(workers)| ==>
                Now() == WithWorker(old(Now()), msg.workerId, MadeReady(old(workers)[msg.workerId], clock))
      ensures msg.Unknown? || !(0 <= msg.workerId < |old(workers)|) ==> Now() == old(Now())
    {
      match msg
      case WorkerCrashedNotice(id, request) =>
        MarkWorkerCrashed(id, request);
      case WorkerRestarted(id) =>
        if 0 <= id < |workers| && workers[id].status != Busy {
          MarkWorkerRestarted(id);
        }
      case WorkerReady(id) =>
        if 0 <= id < |workers| && workers[id].status != Busy {
          MarkWorkerReady(id);
        }
      case Unknown =>
    }

    /** The health report counts the busy workers, which are as many as the requests in flight. */
    method GetHealth() returns (activeSlots: nat)
      requires Valid()
      modifies `workers, `clock
      ensures Valid() && activeSlots == |inFlight|
    {
      ghost var _ := RefreshWorkerReadiness();
      ghost var p := Now();
      activeSlots := 0;
      var i := 0;
      while i < |workers|
        invariant Now() == p && i <= |workers| && activeSlots == |BusySet(Now(), i)|
      {
        BusySetGrows(Now(), i);
        if workers[i].status == Busy {
          activeSlots := activeSlots + 1;
        }
        i := i + 1;
      }
      SlotsAreRequests(Now(), limits);
    }
  }
}
