/** End-to-end results about the request pipeline. */
module ServiceTheorems {
  import opened Prelude
  import opened ServiceModel
  import opened ServiceInvariants
  import T = Tasks
  import P = PoolModel
  import W = PoolWakeup
  import H = PoolHistory
  import PT = PoolTheorems
  import I = IoModel

  // ----- timeouts -----

  lemma {:induction false} DeadlinesInOrder(s: Service, i: nat, j: nat)
    requires Deadlines(s) && i < j < |s.pool.tasks|
    ensures s.pool.tasks[i].WellFormed() && s.pool.tasks[j].WellFormed()
    ensures s.pool.tasks[j].Late(s.pool.now) ==> s.pool.tasks[i].Late(s.pool.now)
  {
  }

  lemma {:induction false} QueueInArrivalOrder(workers: nat, s: Service, i: nat, j: nat)
    requires P.Reachable(workers, s.pool) && Admission(s) && i < j < |s.pool.queue|
    ensures s.pool.queue[i] < s.pool.queue[j] < |s.pool.tasks|
  {
    PT.FifoOrder(workers, s.pool);
    var k := |s.pool.picks|;
    assert s.pool.enqueued[k + i] == s.pool.queue[i];
    assert s.pool.enqueued[k + j] == s.pool.queue[j];
  }

  /** At any moment the requests in the queue that are past their deadline form a prefix of it. */
  lemma {:induction false} ExpiredFormPrefix(workers: nat, capacity: nat, s: Service, i: nat, j: nat)
    requires capacity > 0 && Reachable(workers, capacity, s)
    requires i < j < |s.pool.queue|
    ensures s.pool.queue[i] < s.pool.queue[j] < |s.pool.tasks|
    ensures s.pool.tasks[s.pool.queue[i]].WellFormed() && s.pool.tasks[s.pool.queue[j]].WellFormed()
    ensures s.pool.tasks[s.pool.queue[j]].Late(s.pool.now) ==> s.pool.tasks[s.pool.queue[i]].Late(s.pool.now)
  {
    ReachableInv(workers, capacity, s);
    QueueInArrivalOrder(workers, s, i, j);
    DeadlinesInOrder(s, s.pool.queue[i], s.pool.queue[j]);
  }

  // ----- routing -----

  lemma {:induction false} RoutesAreRegistrations(s: Service, run: seq<Action>, url: string)
    requires s.routes == map[] && s.defaultCb == Absent && s.timeoutCb == Absent && Exec(s, run).Some?
    ensures var t := Exec(s, run).value;
      && (url in t.routes <==> LastRoute(run, url).Some?)
      && (url in t.routes ==> t.routes[url] == LastRoute(run, url).value)
      && t.defaultCb == LastDefault(run) && t.timeoutCb == LastTimeout(run)
  {
    if run != [] {
      RoutesAreRegistrations(s, run[..|run| - 1], url);
    }
  }

  // ----- accounting -----

  /** How many of `fs` concern request `r`. */
  function For(fs: seq<I.Functor>, r: nat): nat {
    if fs == [] then 0 else For(fs[..|fs| - 1], r) + if fs[|fs| - 1].request == r then 1 else 0
  }

  lemma {:induction false} ForConcat(a: seq<I.Functor>, b: seq<I.Functor>, r: nat)
    ensures For(a + b, r) == For(a, r) + For(b, r)
  {
    if b == [] {
      assert a + b == a;
    } else {
      ForConcat(a, b[..|b| - 1], r);
      assert (a + b)[..|a + b| - 1] == a + b[..|b| - 1];
    }
  }

  /** Executed functors for `r` whose reply was sent (`ok`) or given up for want of a buffer. */
  function Outcomes(executed: seq<I.Functor>, outcomes: seq<bool>, r: nat, ok: bool): nat
    requires |executed| == |outcomes|
  {
    if executed == [] then 0
    else
      var n := |executed| - 1;
      Outcomes(executed[..n], outcomes[..n], r, ok) + if executed[n].request == r && outcomes[n] == ok then 1 else 0
  }

  lemma {:induction false} OutcomesSplit(executed: seq<I.Functor>, outcomes: seq<bool>, r: nat)
    requires |executed| == |outcomes|
    ensures Outcomes(executed, outcomes, r, true) + Outcomes(executed, outcomes, r, false) == For(executed, r)
    ensures (forall b :: b in outcomes ==> b) ==> Outcomes(executed, outcomes, r, false) == 0
  {
    if executed != [] {
      var n := |executed| - 1;
      OutcomesSplit(executed[..n], outcomes[..n], r);
      assert outcomes[n] in outcomes;
      assert forall b :: b in outcomes[..n] ==> b in outcomes;
    }
  }

  /** Every completion call is accounted for, in call order: executed, in the running batch, waiting,
      or about to be pushed. */
  lemma {:induction false} CallsAccounted(workers: nat, capacity: nat, s: Service, r: nat)
    requires capacity > 0 && Reachable(workers, capacity, s)
    ensures s.calls == s.io.executed + s.io.batch + s.io.functors + InFlight(s.io)
    ensures |s.outcomes| == |s.io.executed|
    ensures For(s.calls, r) == Outcomes(s.io.executed, s.outcomes, r, true)
                             + Outcomes(s.io.executed, s.outcomes, r, false)
                             + For(s.io.batch, r) + For(s.io.functors, r) + For(InFlight(s.io), r)
    ensures For(s.calls, r) > 0 ==> Handed(s, r)
  {
    ReachableInv(workers, capacity, s);
    I.ReachableInv(capacity, s.io);
    OutcomesSplit(s.io.executed, s.outcomes, r);
    ForConcat(s.io.executed, s.io.batch, r);
    ForConcat(s.io.executed + s.io.batch, s.io.functors, r);
    ForConcat(s.io.executed + s.io.batch + s.io.functors, InFlight(s.io), r);
    ForPositive(s.calls, r);
  }

  lemma {:induction false} ForPositive(fs: seq<I.Functor>, r: nat)
    ensures For(fs, r) > 0 <==> exists f :: f in fs && f.request == r
  {
    if fs != [] {
      var front, last := fs[..|fs| - 1], fs[|fs| - 1];
      assert fs == front + [last];
      ForPositive(front, r);
    }
  }

  // ----- rest -----

  /** Steps the system takes by itself, given that callbacks return. */
  predicate Internal(a: Action) {
    match a
    case Admit(_) => true
    case PoolStep(pa) => pa.Work? || pa.StopSet? || pa.StopNotifyAll? || pa.StopUnlock?
    case SubmitterStep => true
    case IoStep(_) => true
    case _ => false
  }

  ghost predicate AtRest(s: Service) {
    forall a :: Internal(a) ==> !Enabled(s, a)
  }

  /** The adder in the queue's critical section can always take its next step. */
  lemma {:induction false} AdderMoves(s: Service) returns (a: Action)
    requires s.pool.owner.ByAdder? && s.admitting
    ensures Internal(a) && Enabled(s, a)
  {
    match s.pool.owner.stage
    case ToPush =>
      a := Admit(P.AdderPush);
    case ToUnlock =>
      a := Admit(P.AdderUnlock);
    case ToNotify =>
      if w: nat :| w < |s.pool.pcs| && s.pool.pcs[w].Blocked? {
        a := Admit(P.AdderNotify(if s.pool.idle > 0 then Some(w) else None));
      } else {
        a := Admit(P.AdderNotify(None));
      }
  }

  /** So can a worker holding the mutex, and a stopper. */
  lemma {:induction false} OwnerMoves(s: Service) returns (a: Action)
    requires s.pool.owner != P.Free && Admission(s) && W.Locking(s.pool)
    ensures Internal(a) && Enabled(s, a)
  {
    match s.pool.owner
    case ByWorker(w) =>
      a := PoolStep(P.Work(w, false));
    case ByAdder(_, _) =>
      a := AdderMoves(s);
    case ByStopper(at) =>
      a := PoolStep(if at == P.ToSet then P.StopSet else if at == P.ToNotifyAll then P.StopNotifyAll else P.StopUnlock);
  }

  /** So can a request waiting for the free mutex. */
  lemma {:induction false} AdmissionMoves(s: Service) returns (a: Action)
    requires s.pool.owner == P.Free && s.admitting && Admission(s)
    ensures Internal(a) && Enabled(s, a)
  {
    a := Admit(P.AdderLock(|s.urls| - 1));
  }

  lemma {:induction false} RestUnlocksPool(workers: nat, s: Service)
    requires AtRest(s) && Admission(s) && P.Reachable(workers, s.pool)
    ensures s.pool.owner == P.Free && !s.admitting
    ensures forall w :: 0 <= w < |s.pool.pcs| ==> !P.WorkEnabled(s.pool, w)
  {
    W.ReachableInv(workers, s.pool);
    if s.pool.owner != P.Free {
      var a := OwnerMoves(s);
    } else if s.admitting {
      var a := AdmissionMoves(s);
    }
    forall w: nat | w < |s.pool.pcs|
      ensures !P.WorkEnabled(s.pool, w)
    {
      assert !Enabled(s, PoolStep(P.Work(w, false)));
    }
  }

  lemma {:induction false} RestUnlocksIo(capacity: nat, s: Service)
    requires AtRest(s) && !s.admitting && capacity > 0 && I.Reachable(capacity, s.io)
    ensures s.io.owner == I.Free && !I.IoEnabled(s.io)
  {
    I.ReachableInv(capacity, s.io);
    assert !Enabled(s, SubmitterStep);
    assert !Enabled(s, IoStep(true));
  }

  /** Nobody was there to be given request `c.task`: no route and no default (or an empty function
      registered for the route), or a timeout without a timeout callback. */
  predicate NobodyToAsk(s: Service, c: P.Start)
    requires c.task < |s.urls|
  {
    var url := s.urls[c.task];
    match c.call
    case BodyCall => if url in s.routes then s.routes[url] == Absent else s.defaultCb == Absent
    case ExpireCall => s.timeoutCb == Absent
  }

  /** A running system at rest has dispatched every request to exactly one closure, the one its deadline
      calls for. */
  lemma {:induction false} EveryRequestDispatched(workers: nat, capacity: nat, s: Service, r: nat)
    returns (c: P.Start, p: P.Pick)
    requires workers > 0 && capacity > 0 && Reachable(workers, capacity, s)
    requires AtRest(s) && s.pool.phase == P.RUN && r < |s.urls|
    ensures c in s.pool.starts && c.task == r
    ensures forall d :: d in s.pool.starts && d.task == r ==> d == c
    ensures p in s.pool.picks && p.task == r < |s.pool.tasks|
    ensures c.call == T.ExpireCall <==>
            s.expiration > 0 && s.pool.tasks[r].deadline.Some? && s.pool.tasks[r].deadline.value < p.at
  {
    ReachableInv(workers, capacity, s);
    RestUnlocksPool(workers, s);
    PT.RestMeansDrained(workers, s.pool);
    PT.FifoOrder(workers, s.pool);
    assert s.pool.enqueued == P.Ids(s.pool.picks);
    assert s.pool.enqueued[r] == r;
    p := s.pool.picks[r];
    var t0: nat, run :| P.Exec(P.Initial(workers, t0), run) == Some(s.pool);
    H.RunOnce(workers, t0, run);
    assert r in H.Picked(s.pool.picks);
    assert r in H.Started(s.pool.starts);
    c :| c in s.pool.starts && c.task == r;
    PT.TimeoutDiscipline(workers, s.pool, p, c);
  }

  /** End to end: when a running system has come to rest, the functors executed are exactly the completion
      calls, in order; request `r` has as many replies as its callback made calls, less those that
      found no buffer; and it goes unanswered exactly when nobody could be asked or nobody called. */
  lemma {:induction false} RepliesMatchCalls(workers: nat, capacity: nat, s: Service, r: nat) returns (c: P.Start)
    requires workers > 0 && capacity > 0 && Reachable(workers, capacity, s)
    requires AtRest(s) && s.pool.phase == P.RUN && r < |s.urls|
    ensures c in s.pool.starts && c.task == r
    ensures s.io.executed == s.calls && |s.outcomes| == |s.calls|
    ensures Outcomes(s.calls, s.outcomes, r, true) + Outcomes(s.calls, s.outcomes, r, false) == For(s.calls, r)
    ensures NobodyToAsk(s, c) ==> For(s.calls, r) == 0
    ensures (forall ok :: ok in s.outcomes ==> ok) ==>
            && Outcomes(s.calls, s.outcomes, r, true) == For(s.calls, r)
            && (Outcomes(s.calls, s.outcomes, r, true) == 0 <==> NobodyToAsk(s, c) || For(s.calls, r) == 0)
  {
    var p;
    c, p := EveryRequestDispatched(workers, capacity, s, r);
    ReachableInv(workers, capacity, s);
    RestUnlocksPool(workers, s);
    RestUnlocksIo(capacity, s);
    I.RestMeansExecuted(capacity, s.io);
    OutcomesSplit(s.calls, s.outcomes, r);
    CallsAccounted(workers, capacity, s, r);
    if For(s.calls, r) > 0 {
      var d :| d in s.pool.starts && d.task == r && Target(s, d).Handler?;
      assert d == c;
    }
  }
}
