/**
 The pipeline always comes to rest: without new requests, completion calls, clock ticks or
 spurious wake-ups, every step it takes by itself lowers a measure.
 */
module ServiceRest {
  import opened Prelude
  import opened ServiceModel
  import opened ServiceInvariants
  import opened ServiceTheorems
  import P = PoolModel
  import W = PoolWakeup
  import I = IoModel

  /** Steps a worker can take before it needs another task, counted so that taking one pays for the next round. */
  function Weight(pc: P.Pc): nat {
    match pc
    case Blocked => 0
    case Exited => 0
    case Counted => 1
    case Taking(_) => 3
    case TestQueue(_) => 4
    case LoopTop => 5
    case Uncount(_) => 5
    case Woken => 6
    case Entering => 6
    case Notified => 7
    case Returning => 8
    case InBody(_) => 9
    case InExpire(_) => 9
    case ToRun(_) => 10
    case ToExpire(_) => 10
    case Holding(_) => 11
  }

  function WorkersWeight(pcs: seq<P.Pc>): nat {
    if pcs == [] then 0 else WorkersWeight(pcs[..|pcs| - 1]) + Weight(pcs[|pcs| - 1])
  }

  function OwnerWeight(owner: P.Owner): nat {
    match owner
    case ByAdder(_, stage) => (match stage case ToPush => 30 case ToNotify => 15 case ToUnlock => 1)
    case ByStopper(_) => 0
    case _ => 0
  }

  function PoolWeight(s: Service): nat {
    WorkersWeight(s.pool.pcs) + 10 * |s.pool.queue| + OwnerWeight(s.pool.owner)
    + if s.admitting && !s.pool.owner.ByAdder? then 31 else 0
  }

  function IoPcWeight(pc: I.Pc): nat {
    match pc
    case Polling => 0
    case Woken => 5
    case Swapping => 4
    case Swapped => 3
    case Draining => 2
    case Counting => 4
  }

  function SubmitterWeight(owner: I.Owner): nat {
    match owner
    case BySubmitter(_, at) => (match at case ToPush => 30 case ToCount => 25 case ToSend => 20 case ToUnlock => 1)
    case _ => 0
  }

  function IoWeight(io: I.Io): nat {
    IoPcWeight(io.pc) + 10 * io.bytes + 4 * (|io.functors| + |io.batch|) + SubmitterWeight(io.owner)
  }

  function Measure(s: Service): nat {
    PoolWeight(s) + IoWeight(s.io)
  }

  lemma {:induction false} WeightAfterMove(pcs: seq<P.Pc>, w: nat, pc: P.Pc)
    requires w < |pcs|
    ensures WorkersWeight(pcs[w := pc]) + Weight(pcs[w]) == WorkersWeight(pcs) + Weight(pc)
  {
    var n := |pcs| - 1;
    if w == n {
      assert pcs[w := pc][..n] == pcs[..n];
    } else {
      WeightAfterMove(pcs[..n], w, pc);
      assert pcs[w := pc][..n] == pcs[..n][w := pc];
    }
  }

  lemma {:induction false} WorkLowers(p: P.Pool, w: nat, throws: bool)
    requires W.OwnerView(p) && W.Locking(p) && w < |p.pcs| && P.WorkEnabled(p, w)
    ensures var q := P.WorkStep(p, w, throws);
      && WorkersWeight(q.pcs) + 10 * |q.queue| < WorkersWeight(p.pcs) + 10 * |p.queue|
      && OwnerWeight(q.owner) == OwnerWeight(p.owner) && q.owner.ByAdder? == p.owner.ByAdder?
  {
    WeightAfterMove(p.pcs, w, P.NextPc(p, w, throws));
  }

  lemma {:induction false} PoolStepLowers(s: Service, a: Action)
    requires W.OwnerView(s.pool) && W.Locking(s.pool) && Admission(s) && s.pool.phase == P.RUN
    requires s.pool.owner.ByStopper? ==> s.pool.owner.at == P.ToSet
    requires Enabled(s, a) && Internal(a) && (a.Admit? || (a.PoolStep? && a.pa.Work?))
    ensures PoolWeight(Apply(s, a)) < PoolWeight(s)
  {
    match a
    case Admit(pa) =>
      if pa.AdderNotify? && pa.wake.Some? {
        WeightAfterMove(s.pool.pcs, pa.wake.value, P.Notified);
      }
    case PoolStep(pa) =>
      WorkLowers(s.pool, pa.w, pa.throws);
  }

  lemma {:induction false} SubmitterLowers(io: I.Io)
    requires io.owner.BySubmitter?
    ensures IoWeight(I.SubmitterNext(io)) < IoWeight(io)
  {
  }

  lemma {:induction false} IoStepLowers(io: I.Io)
    requires I.IoEnabled(io) && I.Locking(io) && I.InOrder(io)
    ensures IoWeight(I.IoNext(io)) < IoWeight(io)
  {
  }

  /** No stop request is under way. */
  predicate NotStopping(s: Service) {
    s.pool.phase == P.RUN && !s.pool.owner.ByStopper?
  }

  lemma {:induction false} InternalLowers(workers: nat, capacity: nat, s: Service, a: Action)
    requires capacity > 0 && Inv(s) && Parts(workers, capacity, s) && NotStopping(s)
    requires Enabled(s, a) && Internal(a)
    ensures Measure(Apply(s, a)) < Measure(s) && NotStopping(Apply(s, a))
  {
    W.ReachableInv(workers, s.pool);
    I.ReachableInv(capacity, s.io);
    match a
    case SubmitterStep => SubmitterLowers(s.io);
    case IoStep(_) => IoStepLowers(s.io);
    case _ =>
      PoolStepLowers(s, a);
  }

  /** Left to itself from any reachable running state, the pipeline takes at most `Measure` steps. */
  lemma {:induction false} ComesToRest(workers: nat, capacity: nat, s: Service, run: seq<Action>)
    requires capacity > 0 && Inv(s) && Parts(workers, capacity, s) && NotStopping(s)
    requires Exec(s, run).Some? && forall i :: 0 <= i < |run| ==> Internal(run[i])
    ensures |run| + Measure(Exec(s, run).value) <= Measure(s)
    ensures NotStopping(Exec(s, run).value)
  {
    if run != [] {
      var front := run[..|run| - 1];
      assert forall i :: 0 <= i < |front| ==> front[i] == run[i];
      ComesToRest(workers, capacity, s, front);
      RunInv(workers, capacity, s, front);
      InternalLowers(workers, capacity, Exec(s, front).value, run[|run| - 1]);
    }
  }

  lemma {:induction false} ExecSnoc(s: Service, run: seq<Action>, a: Action)
    requires Exec(s, run).Some? && Enabled(Exec(s, run).value, a)
    ensures Exec(s, run + [a]) == Some(Apply(Exec(s, run).value, a))
  {
    assert (run + [a])[..|run + [a]| - 1] == run;
  }

  lemma {:induction false} ReachableStep(workers: nat, capacity: nat, s: Service, a: Action)
    requires Reachable(workers, capacity, s) && Enabled(s, a)
    ensures Reachable(workers, capacity, Apply(s, a))
  {
    var base: int, now: nat, expiration: nat, run :|
      Exec(Initial(workers, capacity, base, now, expiration), run) == Some(s);
    ExecSnoc(Initial(workers, capacity, base, now, expiration), run, a);
  }

  lemma {:induction false} SettleFrom(workers: nat, capacity: nat, s: Service, run: seq<Action>, p: Service)
    returns (run': seq<Action>, q: Service)
    requires capacity > 0 && Reachable(workers, capacity, p) && NotStopping(p)
    requires Exec(s, run) == Some(p) && forall i :: 0 <= i < |run| ==> Internal(run[i])
    ensures Exec(s, run') == Some(q) && forall i :: 0 <= i < |run'| ==> Internal(run'[i])
    ensures Reachable(workers, capacity, q) && AtRest(q) && NotStopping(q)
    ensures q.urls == p.urls && q.calls == p.calls
    decreases Measure(p)
  {
    if AtRest(p) {
      run', q := run, p;
    } else {
      var a :| Internal(a) && Enabled(p, a);
      ReachableInv(workers, capacity, p);
      InternalLowers(workers, capacity, p, a);
      ReachableStep(workers, capacity, p, a);
      ExecSnoc(s, run, a);
      run', q := SettleFrom(workers, capacity, s, run + [a], Apply(p, a));
    }
  }

  /** One of the closures made for request `r` has been entered. */
  ghost predicate Dispatched(s: Service, r: nat) {
    exists c :: c in s.pool.starts && c.task == r
  }

  /** From every reachable running state the pipeline can finish by itself, and then every completion
      call made so far has been executed, in call order, and every request has been dispatched. */
  lemma {:induction false} EverythingGetsAnswered(workers: nat, capacity: nat, s: Service)
    returns (run: seq<Action>, q: Service)
    requires workers > 0 && capacity > 0 && Reachable(workers, capacity, s) && NotStopping(s)
    ensures Exec(s, run) == Some(q) && forall i :: 0 <= i < |run| ==> Internal(run[i])
    ensures q.io.executed == s.calls && q.urls == s.urls
    ensures forall r: nat :: r < |s.urls| ==> Dispatched(q, r)
  {
    run, q := SettleFrom(workers, capacity, s, [], s);
    forall r: nat | r < |s.urls|
      ensures Dispatched(q, r)
    {
      var c := RepliesMatchCalls(workers, capacity, q, r);
    }
    ReachableInv(workers, capacity, q);
    RestUnlocksPool(workers, q);
    RestUnlocksIo(capacity, q);
    I.RestMeansExecuted(capacity, q.io);
  }
}
