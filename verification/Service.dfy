/**
 The whole request pipeline: the IO thread admits requests into the pool, workers route them to
 callbacks, callbacks complete them (at any later time, any number of times) by submitting reply
 functors, and the IO thread sends the replies.  A run interleaves the steps of both machines.
 */
module ServiceModel {
  import opened Prelude
  import T = Tasks
  import P = PoolModel
  import I = IoModel

  /** A std::function: empty, or some registered handler. */
  datatype Callback = Absent | Handler(id: nat)

  datatype Service = Service(
    started: bool,
    routes: map<string, Callback>,
    defaultCb: Callback,
    timeoutCb: Callback,
    expiration: nat,
    pool: P.Pool,
    io: I.Io,
    urls: seq<string>,            // request r asked for urls[r]; its task has the same number
    admitting: bool,              // the IO thread is inside CoreHandleRequest for the last request
    calls: seq<I.Functor>,        // every invocation of a completion function, in order
    outcomes: seq<bool>)          // per executed functor: did evbuffer_new succeed?

  datatype Action =
    | Register(url: string, cb: Callback)
    | RegisterDefault(cb: Callback)
    | RegisterTimeout(cb: Callback)
    | StartService
    | Arrive(url: string)
    | Admit(pa: P.Action)
    | PoolStep(pa: P.Action)
    | Complete(r: nat, body: string)
    | SubmitterStep
    | IoStep(ok: bool)

  function Initial(workers: nat, capacity: nat, base: int, now: nat, expiration: nat): Service {
    Service(false, map[], Absent, Absent, expiration, P.Initial(workers, now), I.Initial(capacity, base),
            [], false, [], [])
  }

  /** The callback a started task hands its request to. */
  function Target(s: Service, c: P.Start): Callback
    requires c.task < |s.urls|
  {
    match c.call
    case BodyCall => if s.urls[c.task] in s.routes then s.routes[s.urls[c.task]] else s.defaultCb
    case ExpireCall => s.timeoutCb
  }

  // ----- routing, as the registrations determine it -----

  /** The callback most recently registered for a path. */
  function LastRoute(run: seq<Action>, url: string): Option<Callback> {
    if run == [] then None
    else
      var a := run[|run| - 1];
      if a.Register? && a.url == url then Some(a.cb) else LastRoute(run[..|run| - 1], url)
  }

  function LastDefault(run: seq<Action>): Callback {
    if run == [] then Absent
    else
      var a := run[|run| - 1];
      if a.RegisterDefault? then a.cb else LastDefault(run[..|run| - 1])
  }

  function LastTimeout(run: seq<Action>): Callback {
    if run == [] then Absent
    else
      var a := run[|run| - 1];
      if a.RegisterTimeout? then a.cb else LastTimeout(run[..|run| - 1])
  }

  /** Who is asked to handle a path: the last callback registered for it, or else the last default one. */
  function Asked(run: seq<Action>, url: string): Callback {
    var route := LastRoute(run, url);
    if route.Some? then route.value else LastDefault(run)
  }

  /** Some handler has been given the completion function of request `r`. */
  ghost predicate Handed(s: Service, r: nat) {
    exists c :: c in s.pool.starts && c.task == r && r < |s.urls| && Target(s, c).Handler?
  }

  predicate AdderAction(a: P.Action) {
    a.AdderLock? || a.AdderPush? || a.AdderNotify? || a.AdderUnlock?
  }

  /** Steps of workers, of the stopper, of the clock, and wake-ups out of the blue. */
  predicate BackgroundAction(a: P.Action) {
    !AdderAction(a) && !a.Create?
  }

  ghost predicate Enabled(s: Service, a: Action) {
    match a
    case Register(_, _) => !s.started
    case RegisterDefault(_) => !s.started
    case RegisterTimeout(_) => !s.started
    case StartService => !s.started
    case Arrive(_) => s.started && s.io.pc == I.Polling && !s.admitting
    case Admit(pa) =>
      s.admitting && AdderAction(pa) && P.Enabled(s.pool, pa) && (pa.AdderLock? ==> pa.t + 1 == |s.urls|)
    case PoolStep(pa) => BackgroundAction(pa) && P.Enabled(s.pool, pa)
    case Complete(r, _) => Handed(s, r) && s.io.owner == I.Free
    case SubmitterStep => I.Enabled(s.io, I.SubmitterStep)
    case IoStep(_) => I.Enabled(s.io, I.IoStep) && (s.io.pc == I.Polling ==> !s.admitting)
  }

  ghost function Apply(s: Service, a: Action): Service
    requires Enabled(s, a)
  {
    match a
    case Register(url, cb) => s.(routes := s.routes[url := cb])
    case RegisterDefault(cb) => s.(defaultCb := cb)
    case RegisterTimeout(cb) => s.(timeoutCb := cb)
    case StartService => s.(started := true)
    case Arrive(url) =>
      s.(urls := s.urls + [url], admitting := true,
         pool := P.Apply(s.pool, P.Create(T.Timed(true, s.expiration, s.pool.now))))
    case Admit(pa) => s.(pool := P.Apply(s.pool, pa), admitting := !pa.AdderUnlock?)
    case PoolStep(pa) => s.(pool := P.Apply(s.pool, pa))
    case Complete(r, body) =>
      s.(io := I.Apply(s.io, I.Submit(I.Reply(r, body))), calls := s.calls + [I.Reply(r, body)])
    case SubmitterStep => s.(io := I.Apply(s.io, I.SubmitterStep))
    case IoStep(ok) =>
      s.(io := I.Apply(s.io, I.IoStep),
         outcomes := if s.io.pc == I.Draining && s.io.batch != [] then s.outcomes + [ok] else s.outcomes)
  }

  ghost function Exec(s: Service, run: seq<Action>): Option<Service> {
    if run == [] then Some(s)
    else
      var p := Exec(s, run[..|run| - 1]);
      if p.Some? && Enabled(p.value, run[|run| - 1]) then Some(Apply(p.value, run[|run| - 1])) else None
  }

  ghost predicate Reachable(workers: nat, capacity: nat, s: Service) {
    exists base: int, now: nat, expiration: nat, run ::
      Exec(Initial(workers, capacity, base, now, expiration), run) == Some(s)
  }
}

/** Invariants of the pipeline. */
module ServiceInvariants {
  import opened Prelude
  import opened ServiceModel
  import T = Tasks
  import P = PoolModel
  import W = PoolWakeup
  import I = IoModel

  /** Each component, seen alone, is a run of its own machine. */
  ghost predicate Parts(workers: nat, capacity: nat, s: Service) {
    P.Reachable(workers, s.pool) && I.Reachable(capacity, s.io)
  }

  lemma {:induction false} StepParts(workers: nat, capacity: nat, s: Service, a: Action)
    requires Parts(workers, capacity, s) && Enabled(s, a)
    ensures Parts(workers, capacity, Apply(s, a))
  {
    var t0: nat, prun :| P.Exec(P.Initial(workers, t0), prun) == Some(s.pool);
    var base: int, irun :| I.Exec(I.Initial(capacity, base), irun) == Some(s.io);
    match a
    case Arrive(url) =>
      P.ExecSnoc(P.Initial(workers, t0), prun, P.Create(T.Timed(true, s.expiration, s.pool.now)));
    case Admit(pa) => P.ExecSnoc(P.Initial(workers, t0), prun, pa);
    case PoolStep(pa) => P.ExecSnoc(P.Initial(workers, t0), prun, pa);
    case Complete(r, body) => I.ExecSnoc(I.Initial(capacity, base), irun, I.Submit(I.Reply(r, body)));
    case SubmitterStep => I.ExecSnoc(I.Initial(capacity, base), irun, I.SubmitterStep);
    case IoStep(_) => I.ExecSnoc(I.Initial(capacity, base), irun, I.IoStep);
    case _ =>
  }

  predicate PushDue(s: Service) {
    s.admitting && !(s.pool.owner.ByAdder? && s.pool.owner.stage != P.ToPush)
  }

  function Admitted(s: Service): int {
    |s.urls| - if PushDue(s) then 1 else 0
  }

  /** Requests enter the queue once each, in arrival order. */
  ghost predicate Admission(s: Service) {
    && |s.pool.tasks| == |s.urls|
    && (s.admitting ==> s.urls != [])
    && (s.pool.owner.ByAdder? ==> s.admitting && s.pool.owner.task + 1 == |s.urls|)
    && |s.pool.enqueued| == Admitted(s)
    && (forall i :: 0 <= i < |s.pool.enqueued| ==> s.pool.enqueued[i] == i)
  }

  /** One expiration for all and a clock that never goes back: deadlines follow arrival order. */
  ghost predicate Deadlines(s: Service) {
    && (forall i :: 0 <= i < |s.pool.tasks| ==>
          && s.pool.tasks[i].timed == (s.expiration > 0)
          && (s.expiration > 0 ==>
                s.pool.tasks[i].deadline.Some? && s.pool.tasks[i].deadline.value <= s.pool.now + s.expiration))
    && (s.expiration > 0 ==> forall i, j :: 0 <= i < j < |s.pool.tasks| ==>
          s.pool.tasks[i].deadline.value <= s.pool.tasks[j].deadline.value)
  }

  /** A completion call that has the mutex but has not pushed its functor yet. */
  function InFlight(io: I.Io): seq<I.Functor> {
    if io.owner.BySubmitter? && io.owner.at == I.ToPush then [io.owner.f] else []
  }

  ghost predicate Calls(s: Service) {
    && s.calls == s.io.submitted + InFlight(s.io)
    && (forall f :: f in s.calls ==> Handed(s, f.request))
    && |s.outcomes| == |s.io.executed|
    && (s.urls != [] ==> s.started)
  }

  ghost predicate Inv(s: Service) {
    Admission(s) && Deadlines(s) && Calls(s)
  }

  lemma {:induction false} StepAdmission(s: Service, a: Action)
    requires Admission(s) && W.Locking(s.pool) && Enabled(s, a)
    ensures Admission(Apply(s, a))
  {
  }

  /** A pool step never touches a task's timeout data. */
  lemma {:induction false} PoolKeepsDeadlines(p: P.Pool, a: P.Action)
    requires P.Enabled(p, a) && !a.Create?
    ensures |P.Apply(p, a).tasks| == |p.tasks| && P.Apply(p, a).now >= p.now
    ensures forall i :: 0 <= i < |p.tasks| ==>
      P.Apply(p, a).tasks[i].timed == p.tasks[i].timed && P.Apply(p, a).tasks[i].deadline == p.tasks[i].deadline
  {
  }

  lemma {:induction false} StepDeadlines(s: Service, a: Action)
    requires Deadlines(s) && Enabled(s, a)
    ensures Deadlines(Apply(s, a))
  {
    match a
    case Admit(pa) => PoolKeepsDeadlines(s.pool, pa);
    case PoolStep(pa) => PoolKeepsDeadlines(s.pool, pa);
    case _ =>
  }

  /** What has been handed out stays handed out. */
  lemma {:induction false} HandedStays(s: Service, a: Action, r: nat)
    requires Enabled(s, a) && Handed(s, r) && (s.urls != [] ==> s.started)
    ensures Handed(Apply(s, a), r)
  {
    var s' := Apply(s, a);
    var c :| c in s.pool.starts && c.task == r && r < |s.urls| && Target(s, c).Handler?;
    assert c in s'.pool.starts;
    assert Target(s', c) == Target(s, c);
  }

  lemma {:induction false} StepCalls(s: Service, a: Action)
    requires Calls(s) && I.Locking(s.io) && Enabled(s, a)
    ensures Calls(Apply(s, a))
  {
    var s' := Apply(s, a);
    forall f | f in s'.calls
      ensures Handed(s', f.request)
    {
      HandedStays(s, a, f.request);
    }
  }

  lemma {:induction false} RunInv(workers: nat, capacity: nat, s: Service, run: seq<Action>)
    requires capacity > 0 && Inv(s) && Parts(workers, capacity, s) && Exec(s, run).Some?
    ensures Inv(Exec(s, run).value) && Parts(workers, capacity, Exec(s, run).value)
  {
    if run != [] {
      var p, a := Exec(s, run[..|run| - 1]).value, run[|run| - 1];
      RunInv(workers, capacity, s, run[..|run| - 1]);
      StepParts(workers, capacity, p, a);
      W.ReachableInv(workers, p.pool);
      I.ReachableInv(capacity, p.io);
      StepAdmission(p, a);
      StepDeadlines(p, a);
      StepCalls(p, a);
    }
  }

  lemma {:induction false} ReachableInv(workers: nat, capacity: nat, s: Service)
    requires capacity > 0 && Reachable(workers, capacity, s)
    ensures Inv(s) && Parts(workers, capacity, s)
  {
    var base: int, now: nat, expiration: nat, run :|
      Exec(Initial(workers, capacity, base, now, expiration), run) == Some(s);
    var s0 := Initial(workers, capacity, base, now, expiration);
    assert P.Exec(P.Initial(workers, now), []) == Some(s0.pool);
    assert I.Exec(I.Initial(capacity, base), []) == Some(s0.io);
    RunInv(workers, capacity, s0, run);
  }
}
