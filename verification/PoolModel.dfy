/** The API server's worker pool as values: what one event makes of a worker, of the calls that are
  * out, and of the map of requests in flight.
  */
module PoolModel {
  type RequestId = string

  datatype Status = Starting | Ready | Busy | Crashed

  datatype Timer = NoTimer | Held(handle: nat)

  /** One worker. pending and probing stand for the event loop: the recovery timers that will still
    * fire, by handle, with their delay, and the number of probes whose answer is awaited. made counts
    * the timers started since recovery last began anew. */
  datatype Worker = Worker(status: Status, recoveryTimer: Timer, recoveryAttempt: nat, startedAt: int,
                           pending: map<nat, int>, handles: nat, probing: nat, made: nat)

  datatype Limits = Limits(recoveryMs: int, recoveryAttempts: int, startupGraceMs: int)

  datatype Code = NoReadyWorkers | ConnectTimeout | SocketError | Closed | BadJson | WorkerError | WorkerCrashed
      | StreamCancelled

  datatype Outcome = Waiting | Resolved(text: string) | Rejected(code: Code)

  /** The closure of one request sent to a worker. */
  datatype Call = Call(worker: nat, requestId: RequestId, done: bool, outcome: Outcome)

  datatype Binding = Binding(worker: nat, call: nat)

  datatype Pool = Pool(workers: seq<Worker>, inFlight: map<RequestId, Binding>, calls: seq<Call>)

  // ---- recovery of one worker ----------------------------------------------------------

  /** clearTimeout: only the timer whose handle is held goes away, and only if it has not fired. */
  function Cleared(w: Worker): Worker {
    match w.recoveryTimer
    case NoTimer => w
    case Held(h) => w.(pending := w.pending - {h})
  }

  function Scheduled(w: Worker, l: Limits): Worker {
    if w.status != Crashed || w.recoveryAttempt >= l.recoveryAttempts then w
    else
      w.(recoveryAttempt := w.recoveryAttempt + 1,
         pending := w.pending[w.handles := l.recoveryMs * (w.recoveryAttempt + 1)],
         recoveryTimer := Held(w.handles), handles := w.handles + 1, made := w.made + 1)
  }

  /** The worker is taken out of service and its recovery starts over. */
  function OutOfService(w: Worker, l: Limits): Worker {
    Scheduled(Cleared(w.(status := Crashed)).(recoveryAttempt := 0, made := 0), l)
  }

  function Quarantined(w: Worker, l: Limits): Worker {
    if w.status == Crashed then w else OutOfService(w, l)
  }

  function Dropped(w: Worker): Worker {
    Cleared(w).(recoveryTimer := NoTimer)
  }

  function Restarted(w: Worker, l: Limits, now: int): Worker {
    if w.status == Busy then w
    else Scheduled(Dropped(w).(recoveryAttempt := 0, made := 0, startedAt := now, status := Crashed), l)
  }

  function MadeReady(w: Worker, now: int): Worker {
    if w.status == Busy then w
    else Dropped(w).(recoveryAttempt := 0, made := 0, startedAt := now, status := Ready)
  }

  /** A look at the worker's socket file. */
  function Refreshed(w: Worker, l: Limits, socket: bool, now: int): Worker {
    if w.status == Busy || w.status == Crashed then w
    else if socket then w.(status := Ready, startedAt := now)
    else if now - w.startedAt >= l.startupGraceMs
    then Scheduled(Dropped(w.(status := Crashed)).(recoveryAttempt := 0, made := 0), l)
    else w.(status := Starting)
  }

  function Fired(w: Worker, handle: nat): Worker
    requires handle in w.pending
  {
    w.(pending := w.pending - {handle}, probing := w.probing + 1)
  }

  function Probed(w: Worker, l: Limits, alive: bool, now: int): Worker
    requires w.probing > 0
  {
    var answered := w.(probing := w.probing - 1);
    if w.status != Crashed then answered
    else if alive then
      answered.(recoveryTimer := NoTimer, recoveryAttempt := 0, made := 0, startedAt := now, status := Ready)
    else Scheduled(answered, l)
  }

  /** Every waiting timer belongs to one of the allowed rounds and waits that many recovery periods. */
  ghost predicate DelayOk(delay: int, l: Limits) {
    exists round: int :: 1 <= round <= l.recoveryAttempts && delay == l.recoveryMs * round
  }

  /** A crashed worker is never forgotten: a probe is coming, or out, or all rounds are spent. */
  ghost predicate WorkerOk(w: Worker, l: Limits) {
    && w.made == w.recoveryAttempt && (w.made > 0 ==> w.made <= l.recoveryAttempts)
    && (w.status == Crashed ==> w.pending != map[] || w.probing > 0 || w.recoveryAttempt >= l.recoveryAttempts)
    && (forall h | h in w.pending :: h < w.handles && DelayOk(w.pending[h], l))
    && (w.recoveryTimer.Held? ==> w.recoveryTimer.handle < w.handles)
  }

  ghost predicate Steady(w: Worker, l: Limits) {
    && w.made == w.recoveryAttempt && (w.made > 0 ==> w.made <= l.recoveryAttempts)
    && (forall h | h in w.pending :: h < w.handles && DelayOk(w.pending[h], l))
    && (w.recoveryTimer.Held? ==> w.recoveryTimer.handle < w.handles)
  }

  /** Scheduling always leaves a crashed worker with a probe ahead of it or with its rounds spent. */
  lemma ScheduleRestores(w: Worker, l: Limits)
    requires Steady(w, l)
    ensures WorkerOk(Scheduled(w, l), l) && Scheduled(w, l).status == w.status
  {
    var s := Scheduled(w, l);
    if w.status == Crashed && w.recoveryAttempt < l.recoveryAttempts {
      assert DelayOk(s.pending[w.handles], l);
      assert w.handles in s.pending;
    }
  }

  lemma OutOfServiceOk(w: Worker, l: Limits)
    requires Steady(w, l)
    ensures WorkerOk(OutOfService(w, l), l) && OutOfService(w, l).status == Crashed
  {
    ScheduleRestores(Cleared(w.(status := Crashed)).(recoveryAttempt := 0, made := 0), l);
  }

  lemma SupervisorStepsOk(w: Worker, l: Limits, now: int)
    requires WorkerOk(w, l)
    ensures WorkerOk(Restarted(w, l, now), l) && (Restarted(w, l, now).status == Busy <==> w.status == Busy)
    ensures WorkerOk(MadeReady(w, now), l) && (MadeReady(w, now).status == Busy <==> w.status == Busy)
  {
    ScheduleRestores(Dropped(w).(recoveryAttempt := 0, made := 0, startedAt := now, status := Crashed), l);
  }

  lemma RefreshOk(w: Worker, l: Limits, socket: bool, now: int)
    requires WorkerOk(w, l)
    ensures WorkerOk(Refreshed(w, l, socket, now), l)
    ensures Refreshed(w, l, socket, now).status == Busy <==> w.status == Busy
    ensures Refreshed(w, l, socket, now).status == Ready ==> socket
  {
    ScheduleRestores(Dropped(w.(status := Crashed)).(recoveryAttempt := 0, made := 0), l);
  }

  lemma FireOk(w: Worker, l: Limits, h: nat)
    requires WorkerOk(w, l) && h in w.pending
    ensures WorkerOk(Fired(w, h), l) && Fired(w, h).status == w.status
  {
  }

  lemma ProbeOk(w: Worker, l: Limits, alive: bool, now: int)
    requires WorkerOk(w, l) && w.probing > 0
    ensures WorkerOk(Probed(w, l, alive, now), l)
    ensures Probed(w, l, alive, now).status == Busy <==> w.status == Busy
  {
    ScheduleRestores(w.(probing := w.probing - 1), l);
  }

  // ---- what the events mean ------------------------------------------------------------

  /** One recovery timer more: the next round, waiting that many periods. */
  ghost predicate NextRound(w: Worker, x: Worker, l: Limits) {
    && x.handles == w.handles + 1 && x.recoveryAttempt == w.recoveryAttempt + 1
    && x.pending == w.pending[w.handles := l.recoveryMs * (w.recoveryAttempt + 1)]
    && x.recoveryTimer == Held(w.handles)
  }

  ghost predicate SameTimers(w: Worker, x: Worker) {
    x.handles == w.handles && x.recoveryAttempt == w.recoveryAttempt && x.pending == w.pending
  }

  /** A crashed worker is ready after a probe exactly if the probe found it alive, and then starts afresh; after
    * a dead answer it is still crashed and one more round is coming, or its rounds are spent. A worker that is
    * not crashed any more takes no notice. */
  lemma ProbeMeans(w: Worker, l: Limits, alive: bool, now: int)
    requires w.probing > 0
    ensures var x := Probed(w, l, alive, now);
            && x.probing == w.probing - 1
            && (w.status != Crashed ==> x == w.(probing := w.probing - 1))
            && (w.status == Crashed ==> (x.status == Ready <==> alive) && (x.status == Crashed <==> !alive))
            && (w.status == Crashed && alive ==> x.recoveryAttempt == 0 && x.startedAt == now
                                                  && x.handles == w.handles && x.pending == w.pending)
            && (w.status == Crashed && !alive ==>
                  if w.recoveryAttempt < l.recoveryAttempts then NextRound(w, x, l) else SameTimers(w, x))
  {
  }

  /** A worker goes out of service with all its rounds before it: the timer it held is off, and the first round
    * is coming if any are allowed. */
  lemma OutOfServiceMeans(w: Worker, l: Limits)
    ensures var x := OutOfService(w, l);
            && x.status == Crashed
            && (w.recoveryTimer.Held? ==> w.recoveryTimer.handle == w.handles || w.recoveryTimer.handle !in x.pending)
            && if 0 < l.recoveryAttempts
               then x.recoveryAttempt == 1 && x.handles == w.handles + 1
                    && w.handles in x.pending && x.pending[w.handles] == l.recoveryMs
               else x.recoveryAttempt == 0 && x.handles == w.handles
  {
  }

  /** A refresh looks only at idle workers that are in service: one with a socket file is ready, one without is
    * starting until its grace is over and then goes out of service. */
  lemma RefreshMeans(w: Worker, l: Limits, socket: bool, now: int)
    ensures var x := Refreshed(w, l, socket, now);
            && (w.status == Busy || w.status == Crashed ==> x == w)
            && (w.status == Ready || w.status == Starting ==>
                  && (x.status == Ready <==> socket)
                  && (x.status == Crashed <==> !socket && w.startedAt + l.startupGraceMs <= now)
                  && x.status != Busy
                  && (socket ==> x.startedAt == now)
                  && (x.status == Crashed && 0 < l.recoveryAttempts ==>
                        x.recoveryAttempt == 1 && w.handles in x.pending && x.pending[w.handles] == l.recoveryMs))
  {
  }

  /** The supervisor's word: a restarted worker is crashed until a probe finds it, with all rounds before it; a
    * ready one is ready at once. Neither touches a busy worker. */
  lemma SupervisorMeans(w: Worker, l: Limits, now: int)
    ensures w.status == Busy ==> Restarted(w, l, now) == w && MadeReady(w, now) == w
    ensures w.status != Busy ==>
              var x, y := Restarted(w, l, now), MadeReady(w, now);
              && x.status == Crashed && x.startedAt == now
              && (0 < l.recoveryAttempts ==> x.recoveryAttempt == 1 && w.handles in x.pending
                                             && x.pending[w.handles] == l.recoveryMs)
              && y.status == Ready && y.startedAt == now && y.recoveryAttempt == 0 && y.handles == w.handles
              && (w.recoveryTimer.Held? ==> w.recoveryTimer.handle !in y.pending)
  {
  }

  /** In every reachable state, whatever began recovery anew last (a crash notice, a failed request, a
    * refresh that gave the worker up, a restart, a probe that found it alive), at most the configured
    * number of timers was started since; and each event starts at most one. */
  lemma RoundsAreTimers(w: Worker, l: Limits, now: int)
    requires WorkerOk(w, l)
    ensures w.made <= if l.recoveryAttempts > 0 then l.recoveryAttempts else 0
    ensures forall h | h in w.pending :: Fired(w, h).made == w.made && Fired(w, h).handles == w.handles
    ensures w.probing > 0 ==>
              var p := Probed(w, l, false, now);
              p.made - w.made == p.handles - w.handles && w.made <= p.made <= w.made + 1
    ensures OutOfService(w, l).made == OutOfService(w, l).handles - w.handles
    ensures w.status != Busy ==> Restarted(w, l, now).made == Restarted(w, l, now).handles - w.handles
    ensures var r := Refreshed(w, l, false, now);
            r.made == if r.status == Crashed && w.status != Crashed then r.handles - w.handles else w.made
  {
  }

  /** Once every round is spent and nothing is pending, only the supervisor brings the worker back. */
  lemma SpentStaysOut(w: Worker, l: Limits, socket: bool, now: int)
    requires WorkerOk(w, l) && w.status == Crashed && w.pending == map[] && w.probing == 0
    ensures Refreshed(w, l, socket, now) == w && Quarantined(w, l) == w && Scheduled(w, l) == w
    ensures MadeReady(w, now).status == Ready
    ensures 0 < l.recoveryAttempts ==> Restarted(w, l, now).pending != map[]
  {
    if 0 < l.recoveryAttempts {
      assert w.handles in Restarted(w, l, now).pending;
    }
  }

  // ---- calls and the in-flight map -----------------------------------------------------

  predicate IsTransportFailure(code: Code) {
    code == ConnectTimeout || code == SocketError || code == Closed
  }

  ghost predicate BindingRight(p: Pool, id: RequestId)
    requires id in p.inFlight
  {
    var b := p.inFlight[id];
    && b.call < |p.calls| && b.worker < |p.workers|
    && p.calls[b.call].worker == b.worker && p.calls[b.call].requestId == id && !p.calls[b.call].done
    && p.workers[b.worker].status == Busy
  }

  ghost predicate CallRight(p: Pool, c: nat)
    requires c < |p.calls|
  {
    var call := p.calls[c];
    && call.worker < |p.workers| && (call.done <==> call.outcome != Waiting)
    && (!call.done ==> call.requestId in p.inFlight && p.inFlight[call.requestId] == Binding(call.worker, c))
  }

  ghost predicate Serves(p: Pool, w: nat) {
    exists id :: id in p.inFlight && p.inFlight[id].worker == w
  }

  ghost predicate OneEach(p: Pool) {
    forall id, id' | id in p.inFlight && id' in p.inFlight && p.inFlight[id].worker == p.inFlight[id'].worker ::
        id == id'
  }

  ghost predicate AllWorkersOk(p: Pool, l: Limits) {
    forall w | 0 <= w < |p.workers| :: WorkerOk(p.workers[w], l)
  }

  ghost predicate AllBound(p: Pool) {
    && (forall id | id in p.inFlight :: BindingRight(p, id))
    && (forall c | 0 <= c < |p.calls| :: CallRight(p, c))
    && (forall w | 0 <= w < |p.workers| && p.workers[w].status == Busy :: Serves(p, w))
    && OneEach(p)
  }

  ghost predicate Inv(p: Pool, l: Limits) {
    AllWorkersOk(p, l) && AllBound(p)
  }

  /** A worker is busy exactly when one request in flight is bound to it, and then to no other. */
  lemma BusyMeansOneRequest(p: Pool, l: Limits, w: nat)
    requires Inv(p, l) && w < |p.workers|
    ensures p.workers[w].status == Busy <==> exists id :: id in p.inFlight && p.inFlight[id].worker == w
    ensures forall id, id' | id in p.inFlight && id' in p.inFlight
                             && p.inFlight[id].worker == w && p.inFlight[id'].worker == w :: id == id'
  {
    forall id | id in p.inFlight && p.inFlight[id].worker == w
      ensures p.workers[w].status == Busy
    {
      assert BindingRight(p, id);
    }
    assert p.workers[w].status == Busy ==> Serves(p, w);
  }

  function BusySet(p: Pool, n: nat): set<nat>
    requires n <= |p.workers|
  {
    set w: nat | w < n && p.workers[w].status == Busy
  }

  function Images(m: map<RequestId, Binding>): set<nat> {
    set id | id in m :: m[id].worker
  }

  /** As many slots are taken as requests are in flight. */
  lemma SlotsAreRequests(p: Pool, l: Limits)
    requires Inv(p, l)
    ensures |BusySet(p, |p.workers|)| == |p.inFlight|
  {
    var busy := BusySet(p, |p.workers|);
    forall w | w in busy
      ensures w in Images(p.inFlight)
    {
      assert Serves(p, w);
    }
    forall id | id in p.inFlight
      ensures p.inFlight[id].worker in busy
    {
      assert BindingRight(p, id);
    }
    assert busy == Images(p.inFlight);
    ImagesCount(p.inFlight);
  }

  ghost predicate Injective(m: map<RequestId, Binding>) {
    forall id, id' | id in m && id' in m && m[id].worker == m[id'].worker :: id == id'
  }

  lemma ImagesWithout(m: map<RequestId, Binding>, x: RequestId)
    requires Injective(m) && x in m
    ensures Images(m) == Images(m - {x}) + {m[x].worker} && m[x].worker !in Images(m - {x})
  {
    var rest := m - {x};
    forall id | id in m
      ensures m[id].worker in Images(rest) + {m[x].worker}
    {
      assert id != x ==> id in rest && rest[id] == m[id];
    }
    forall id | id in rest
      ensures rest[id].worker in Images(m)
    {
      assert id in m && rest[id] == m[id];
    }
  }

  lemma {:induction false} ImagesCount(m: map<RequestId, Binding>)
    requires Injective(m)
    ensures |Images(m)| == |m|
    decreases |m|
  {
    if m == map[] {
      assert Images(m) == {};
    } else {
      var x :| x in m;
      assert m.Keys == (m - {x}).Keys + {x} && |m.Keys| == |m| && |(m - {x}).Keys| == |m - {x}|;
      ImagesCount(m - {x});
      ImagesWithout(m, x);
    }
  }

  // ---- what an event makes of the pool -------------------------------------------------

  /** Nothing but worker w changes, and its business does not. */
  function WithWorker(p: Pool, w: nat, worker: Worker): Pool
    requires w < |p.workers|
  {
    p.(workers := p.workers[w := worker])
  }

  lemma WorkerStepKeepsInv(p: Pool, l: Limits, w: nat, worker: Worker)
    requires Inv(p, l) && w < |p.workers| && WorkerOk(worker, l)
    requires worker.status == Busy <==> p.workers[w].status == Busy
    ensures Inv(WithWorker(p, w, worker), l)
  {
    var q := WithWorker(p, w, worker);
    forall id | id in q.inFlight ensures BindingRight(q, id) { assert BindingRight(p, id); }
    forall c | 0 <= c < |q.calls| ensures CallRight(q, c) { assert CallRight(p, c); }
    forall x | 0 <= x < |q.workers| && q.workers[x].status == Busy ensures Serves(q, x) { assert Serves(p, x); }
  }

  /** A request is sent to a worker. */
  function Sent(p: Pool, w: nat, id: RequestId): Pool
    requires w < |p.workers|
  {
    Pool(p.workers[w := p.workers[w].(status := Busy)], p.inFlight[id := Binding(w, |p.calls|)],
         p.calls + [Call(w, id, false, Waiting)])
  }

  lemma SendKeepsInv(p: Pool, l: Limits, w: nat, id: RequestId)
    requires Inv(p, l) && w < |p.workers| && p.workers[w].status == Ready && id !in p.inFlight
    ensures Inv(Sent(p, w, id), l)
  {
    var q := Sent(p, w, id);
    assert WorkerOk(p.workers[w], l);
    forall x | x in q.inFlight ensures BindingRight(q, x) && (x != id ==> q.inFlight[x].worker != w) {
      if x != id {
        assert BindingRight(p, x);
      }
    }
    forall c | 0 <= c < |q.calls| ensures CallRight(q, c) {
      if c < |p.calls| {
        assert CallRight(p, c);
      }
    }
    forall x | 0 <= x < |q.workers| && q.workers[x].status == Busy ensures Serves(q, x) {
      if x != w {
        assert Serves(p, x);
        var y :| y in p.inFlight && p.inFlight[y].worker == x;
        assert y in q.inFlight && q.inFlight[y].worker == x;
      } else {
        assert id in q.inFlight && q.inFlight[id].worker == x;
      }
    }
  }

  /** Sending an id that is already in flight loses track of the request that had it: distinct ids are
    * exactly what the pool needs from the registry. */
  lemma SendNeedsFreshId(p: Pool, l: Limits, w: nat, id: RequestId)
    requires Inv(p, l) && w < |p.workers| && p.workers[w].status == Ready
    ensures Inv(Sent(p, w, id), l) <==> id !in p.inFlight
  {
    if id in p.inFlight {
      assert BindingRight(p, id);
      assert !CallRight(Sent(p, w, id), p.inFlight[id].call);
    } else {
      SendKeepsInv(p, l, w, id);
    }
  }

  /** The call settles; its worker is free again unless it is out of service. */
  function Finished(p: Pool, c: nat, outcome: Outcome): Pool
    requires c < |p.calls| && p.calls[c].worker < |p.workers|
  {
    var call := p.calls[c];
    var worker := p.workers[call.worker];
    Pool(if worker.status != Crashed then p.workers[call.worker := worker.(status := Ready)] else p.workers,
         p.inFlight - {call.requestId}, p.calls[c := call.(done := true, outcome := outcome)])
  }

  function Resulted(p: Pool, c: nat, text: string): Pool
    requires c < |p.calls| && p.calls[c].worker < |p.workers|
  {
    if p.calls[c].done then p else Finished(p, c, Resolved(text))
  }

  function FailedCall(p: Pool, c: nat, code: Code, l: Limits): Pool
    requires c < |p.calls| && p.calls[c].worker < |p.workers|
  {
    if p.calls[c].done then p
    else
      var q := Finished(p, c, Rejected(code));
      var w := p.calls[c].worker;
      if IsTransportFailure(code) then WithWorker(q, w, Quarantined(q.workers[w], l)) else q
  }

  /** What becomes of a call that fails, and of its worker: it is free again, unless the failure shows that the
    * worker cannot be reached (no connection in time, a broken or a closed socket) or it was out already. */
  lemma FailureMeans(p: Pool, c: nat, code: Code, l: Limits)
    requires c < |p.calls| && p.calls[c].worker < |p.workers| && !p.calls[c].done
    ensures var q, w := FailedCall(p, c, code, l), p.calls[c].worker;
            && q.calls == p.calls[c := p.calls[c].(done := true, outcome := Rejected(code))]
            && q.inFlight == p.inFlight - {p.calls[c].requestId}
            && |q.workers| == |p.workers| && (forall x | 0 <= x < |p.workers| && x != w :: q.workers[x] == p.workers[x])
            && (q.workers[w].status == Crashed <==>
                  p.workers[w].status == Crashed || code in {ConnectTimeout, SocketError, Closed})
            && (q.workers[w].status == Crashed || q.workers[w].status == Ready)
            && (p.workers[w].status == Crashed ==> q.workers[w] == p.workers[w])
  {
  }

  /** A result frees the worker too, unless it is out of service. */
  lemma ResultMeans(p: Pool, c: nat, text: string)
    requires c < |p.calls| && p.calls[c].worker < |p.workers| && !p.calls[c].done
    ensures var q, w := Resulted(p, c, text), p.calls[c].worker;
            && q.calls == p.calls[c := p.calls[c].(done := true, outcome := Resolved(text))]
            && q.inFlight == p.inFlight - {p.calls[c].requestId}
            && var status := if p.workers[w].status == Crashed then Crashed else Ready;
               q.workers == p.workers[w := p.workers[w].(status := status)]
  {
  }

  /** Removing one open call and giving its worker any status but busy keeps everything bound. */
  lemma FinishKeepsBound(p: Pool, l: Limits, c: nat, outcome: Outcome, worker: Worker)
    requires Inv(p, l) && c < |p.calls| && !p.calls[c].done && outcome != Waiting
    requires WorkerOk(worker, l) && worker.status != Busy && p.calls[c].worker < |p.workers|
    ensures Inv(Pool(p.workers[p.calls[c].worker := worker], p.inFlight - {p.calls[c].requestId},
                     p.calls[c := p.calls[c].(done := true, outcome := outcome)]), l)
  {
    var call := p.calls[c];
    var q := Pool(p.workers[call.worker := worker], p.inFlight - {call.requestId},
                  p.calls[c := call.(done := true, outcome := outcome)]);
    assert CallRight(p, c);
    forall x | x in q.inFlight ensures BindingRight(q, x) {
      assert BindingRight(p, x) && p.inFlight[x].worker != call.worker;
    }
    forall d | 0 <= d < |q.calls| ensures CallRight(q, d) {
      assert CallRight(p, d);
    }
    forall x | 0 <= x < |q.workers| && q.workers[x].status == Busy ensures Serves(q, x) {
      assert Serves(p, x);
      var y :| y in p.inFlight && p.inFlight[y].worker == x;
      assert y in q.inFlight && q.inFlight[y].worker == x;
    }
  }

  lemma ResultKeepsInv(p: Pool, l: Limits, c: nat, text: string)
    requires Inv(p, l) && c < |p.calls|
    ensures p.calls[c].worker < |p.workers| && Inv(Resulted(p, c, text), l)
  {
    assert CallRight(p, c);
    if !p.calls[c].done {
      var w := p.calls[c].worker;
      assert BindingRight(p, p.calls[c].requestId) && WorkerOk(p.workers[w], l);
      FinishKeepsBound(p, l, c, Resolved(text), p.workers[w].(status := Ready));
    }
  }

  lemma FailureKeepsInv(p: Pool, l: Limits, c: nat, code: Code)
    requires Inv(p, l) && c < |p.calls|
    ensures p.calls[c].worker < |p.workers| && Inv(FailedCall(p, c, code, l), l)
  {
    assert CallRight(p, c);
    if !p.calls[c].done {
      var w := p.calls[c].worker;
      assert BindingRight(p, p.calls[c].requestId) && WorkerOk(p.workers[w], l);
      var freed := p.workers[w].(status := Ready);
      OutOfServiceOk(freed, l);
      var after := if IsTransportFailure(code) then Quarantined(freed, l) else freed;
      FinishKeepsBound(p, l, c, Rejected(code), after);
      assert p.workers[w := freed][w := after] == p.workers[w := after];
    }
  }

  /** The request worker w is serving, if any. */
  ghost predicate ServedBy(p: Pool, w: nat, c: nat) {
    c < |p.calls| && !p.calls[c].done && p.calls[c].worker == w
  }

  /** A crash notice: the worker is out, the request it served fails, nothing else is touched. */
  ghost predicate CrashedWith(p: Pool, l: Limits, w: nat, q: Pool)
    requires w < |p.workers|
  {
    && q.workers == p.workers[w := OutOfService(p.workers[w], l)]
    && |q.calls| == |p.calls|
    && (forall c | 0 <= c < |p.calls| ::
          q.calls[c] == if ServedBy(p, w, c) then p.calls[c].(done := true, outcome := Rejected(WorkerCrashed))
              else p.calls[c])
    && (forall id :: id in q.inFlight <==> id in p.inFlight && p.inFlight[id].worker != w)
    && forall id | id in q.inFlight :: q.inFlight[id] == p.inFlight[id]
  }

  /** The request a crash notice may name. */
  datatype Named = NoRequest | Named(id: RequestId)

  /** A crash notice that names a request in flight: the worker is out, and that request fails, whoever
    * serves it. */
  function CrashedNaming(p: Pool, l: Limits, w: nat, id: RequestId): Pool
    requires w < |p.workers| && id in p.inFlight
    requires p.inFlight[id].call < |p.calls| && p.calls[p.inFlight[id].call].worker < |p.workers|
  {
    var q := WithWorker(p, w, p.workers[w].(status := Crashed));
    var r := FailedCall(q, p.inFlight[id].call, WorkerCrashed, l);
    WithWorker(r, w, Scheduled(Cleared(r.workers[w]).(recoveryAttempt := 0, made := 0), l))
  }

  /** What a crash notice makes of the pool. */
  ghost predicate NoticeTaken(p: Pool, l: Limits, w: nat, named: Named, q: Pool)
    requires w < |p.workers|
  {
    if named.Named? && named.id in p.inFlight then
      BindingRight(p, named.id) && q == CrashedNaming(p, l, w, named.id)
    else CrashedWith(p, l, w, q)
  }

  /** The notice names no request in flight, or the worker's own, or the worker is idle. */
  ghost predicate NoticeFits(p: Pool, w: nat, named: Named)
    requires w < |p.workers|
  {
    named.Named? && named.id in p.inFlight ==> p.inFlight[named.id].worker == w || p.workers[w].status != Busy
  }

  /** A notice that names the worker's own request is as good as one that names none. */
  lemma OwnRequestNamed(p: Pool, l: Limits, w: nat, id: RequestId)
    requires Inv(p, l) && w < |p.workers| && id in p.inFlight && p.inFlight[id].worker == w
    ensures BindingRight(p, id) && CrashedWith(p, l, w, CrashedNaming(p, l, w, id))
  {
    var c := p.inFlight[id].call;
    assert BindingRight(p, id);
    var q := CrashedNaming(p, l, w, id);
    assert q.workers == p.workers[w := OutOfService(p.workers[w], l)];
    forall d | 0 <= d < |p.calls| && ServedBy(p, w, d)
      ensures d == c
    {
      assert CallRight(p, d) && BindingRight(p, p.calls[d].requestId);
    }
  }

  lemma NamedElsewhere(p: Pool, l: Limits, w: nat, id: RequestId)
    requires w < |p.workers| && id in p.inFlight && BindingRight(p, id) && p.inFlight[id].worker != w
    ensures var v, c := p.inFlight[id].worker, p.inFlight[id].call;
            CrashedNaming(p, l, w, id)
            == Pool(p.workers[w := OutOfService(p.workers[w], l)][v := p.workers[v].(status := Ready)],
                    p.inFlight - {id},
                    p.calls[c := p.calls[c].(done := true, outcome := Rejected(WorkerCrashed))])
  {
    var v, out := p.inFlight[id].worker, OutOfService(p.workers[w], l);
    assert CrashedNaming(p, l, w, id).workers == p.workers[w := out][v := p.workers[v].(status := Ready)];
  }

  /** A notice about an idle worker that names a request served elsewhere fails that request alone. */
  lemma OtherRequestNamed(p: Pool, l: Limits, w: nat, id: RequestId)
    requires Inv(p, l) && w < |p.workers| && id in p.inFlight && p.inFlight[id].worker != w
    requires p.workers[w].status != Busy
    ensures BindingRight(p, id) && Inv(CrashedNaming(p, l, w, id), l)
  {
    assert BindingRight(p, id) && WorkerOk(p.workers[w], l);
    NamedElsewhere(p, l, w, id);
    OutOfServiceOk(p.workers[w], l);
    WorkerStepKeepsInv(p, l, w, OutOfService(p.workers[w], l));
    var first, v := WithWorker(p, w, OutOfService(p.workers[w], l)), p.inFlight[id].worker;
    assert WorkerOk(first.workers[v], l);
    FinishKeepsBound(first, l, p.inFlight[id].call, Rejected(WorkerCrashed), first.workers[v].(status := Ready));
  }

  /** The pool takes a crash notice well exactly if it does not name a request that another worker
    * serves while the crashed one is busy: then the crashed worker's own request would be left behind. */
  lemma NoticeKeepsInv(p: Pool, l: Limits, w: nat, named: Named, q: Pool)
    requires Inv(p, l) && w < |p.workers| && NoticeTaken(p, l, w, named, q)
    ensures Inv(q, l) <==> NoticeFits(p, w, named)
  {
    if !(named.Named? && named.id in p.inFlight) {
      CrashKeepsInv(p, l, w, q);
    } else if p.inFlight[named.id].worker == w {
      OwnRequestNamed(p, l, w, named.id);
      CrashKeepsInv(p, l, w, q);
    } else if p.workers[w].status != Busy {
      OtherRequestNamed(p, l, w, named.id);
    } else {
      assert Serves(p, w);
      var left :| left in p.inFlight && p.inFlight[left].worker == w;
      assert left in q.inFlight && q.inFlight[left].worker == w && q.workers[w].status == Crashed;
      assert !BindingRight(q, left);
    }
  }

  lemma CrashKeepsInv(p: Pool, l: Limits, w: nat, q: Pool)
    requires Inv(p, l) && w < |p.workers| && CrashedWith(p, l, w, q)
    ensures Inv(q, l)
  {
    assert WorkerOk(p.workers[w], l);
    OutOfServiceOk(p.workers[w], l);
    forall x | x in q.inFlight ensures BindingRight(q, x) {
      assert BindingRight(p, x);
      assert !ServedBy(p, w, p.inFlight[x].call);
    }
    forall c | 0 <= c < |q.calls| ensures CallRight(q, c) {
      assert CallRight(p, c);
      if !q.calls[c].done {
        assert !ServedBy(p, w, c);
      }
    }
    forall x | 0 <= x < |q.workers| && q.workers[x].status == Busy ensures Serves(q, x) {
      assert Serves(p, x);
      var y :| y in p.inFlight && p.inFlight[y].worker == x;
      assert y in q.inFlight && q.inFlight[y].worker == x;
    }
  }
}
