/**
 Locking discipline, exactness of the idle counter, and the absence of lost wake-ups,
 as an inductive invariant of the pool's step machine.
 */
module PoolWakeup {
  import opened Prelude
  import opened PoolModel

  function Carried(pc: Pc): Option<TaskId> {
    match pc
    case Holding(t) => Some(t)
    case ToRun(t) => Some(t)
    case InBody(t) => Some(t)
    case ToExpire(t) => Some(t)
    case InExpire(t) => Some(t)
    case _ => None
  }

  /** Every identifier in use denotes a well-formed task. */
  ghost predicate IdsKnown(s: Pool) {
    && (forall i :: 0 <= i < |s.queue| ==> s.queue[i] < |s.tasks|)
    && (s.owner.ByAdder? ==> s.owner.task < |s.tasks|)
    && (forall w :: 0 <= w < |s.pcs| && Carried(s.pcs[w]).Some? ==> Carried(s.pcs[w]).value < |s.tasks|)
    && (forall t :: 0 <= t < |s.tasks| ==> s.tasks[t].WellFormed())
  }

  /** Mutual exclusion: a worker is at a place that needs the mutex exactly when it owns it. */
  ghost predicate Locking(s: Pool) {
    && (forall w :: 0 <= w < |s.pcs| ==> (Holds(s.pcs[w]) <==> s.owner == ByWorker(w)))
    && (s.owner.ByWorker? ==> s.owner.w < |s.pcs|)
  }

  /** What the owner's program counter says about the shared fields. */
  ghost predicate OwnerView(s: Pool) {
    forall w :: 0 <= w < |s.pcs| ==>
      match s.pcs[w]
      case TestQueue(sv) => sv == (s.phase == RUN)
      case Uncount(sv) => sv == (s.phase == RUN)
      case Taking(sv) => sv == (s.phase == RUN) && (sv ==> s.queue != [])
      case Counted => s.phase == RUN && s.queue == []
      case Holding(_) => s.phase == RUN
      case Exited => s.phase == STOP
      case _ => true
  }

  function Sleeping(s: Pool): nat { CountBlocked(s.pcs) }
  function Waking(s: Pool): nat { CountNotified(s.pcs) }

  function CountBlocked(pcs: seq<Pc>): nat {
    if pcs == [] then 0 else CountBlocked(pcs[..|pcs| - 1]) + if IsBlocked(pcs[|pcs| - 1]) then 1 else 0
  }

  function CountNotified(pcs: seq<Pc>): nat {
    if pcs == [] then 0 else CountNotified(pcs[..|pcs| - 1]) + if IsNotified(pcs[|pcs| - 1]) then 1 else 0
  }

  /** A worker that owns the mutex inside its wait loop still counts as idle. */
  predicate OwnerIdle(s: Pool) {
    && s.owner.ByWorker? && s.owner.w < |s.pcs|
    && (s.pcs[s.owner.w].Counted? || s.pcs[s.owner.w].Woken? || s.pcs[s.owner.w].Uncount?)
  }

  ghost predicate IdleExact(s: Pool) {
    s.idle == Sleeping(s) + Waking(s) + if OwnerIdle(s) then 1 else 0
  }

  /** One queued task may be spoken for by the owner of the mutex. */
  predicate OwnerTakesOne(s: Pool) {
    || (s.owner.ByAdder? && s.owner.stage == ToNotify)
    || (s.owner.ByWorker? && s.owner.w < |s.pcs| && !s.pcs[s.owner.w].Holding? && !s.pcs[s.owner.w].Counted?)
  }

  ghost predicate WorkConserving(s: Pool) {
    s.phase == RUN && Sleeping(s) > 0 ==>
      |s.queue| <= Waking(s) + if OwnerTakesOne(s) then 1 else 0
  }

  /** Once the stopper has notified everybody, nobody is blocked any more. */
  ghost predicate StopHeard(s: Pool) {
    s.phase == STOP && s.owner != ByStopper(ToNotifyAll) ==>
      forall w :: 0 <= w < |s.pcs| ==> !s.pcs[w].Blocked?
  }

  ghost predicate Inv(s: Pool) {
    && IdsKnown(s) && Locking(s) && OwnerView(s) && IdleExact(s) && WorkConserving(s) && StopHeard(s)
    && (s.owner.ByStopper? && s.owner.at != ToSet ==> s.phase == STOP)
  }

  // ----- counting -----

  lemma {:induction false} CountsAfterMove(pcs: seq<Pc>, w: nat, pc: Pc)
    requires w < |pcs|
    ensures CountBlocked(pcs[w := pc]) + (if IsBlocked(pcs[w]) then 1 else 0)
         == CountBlocked(pcs) + (if IsBlocked(pc) then 1 else 0)
    ensures CountNotified(pcs[w := pc]) + (if IsNotified(pcs[w]) then 1 else 0)
         == CountNotified(pcs) + (if IsNotified(pc) then 1 else 0)
  {
    var n := |pcs| - 1;
    if w == n {
      assert pcs[w := pc][..n] == pcs[..n];
    } else {
      CountsAfterMove(pcs[..n], w, pc);
      assert pcs[w := pc][..n] == pcs[..n][w := pc];
    }
  }

  lemma {:induction false} CountBlockedPositive(pcs: seq<Pc>)
    ensures CountBlocked(pcs) > 0 <==> exists w :: 0 <= w < |pcs| && pcs[w].Blocked?
  {
    if pcs != [] {
      var n := |pcs| - 1;
      CountBlockedPositive(pcs[..n]);
      if w :| 0 <= w < n && pcs[w].Blocked? {
        assert pcs[..n][w].Blocked?;
      }
    }
  }

  lemma {:induction false} CountNotifiedPositive(pcs: seq<Pc>)
    ensures CountNotified(pcs) > 0 <==> exists w :: 0 <= w < |pcs| && pcs[w].Notified?
  {
    if pcs != [] {
      var n := |pcs| - 1;
      CountNotifiedPositive(pcs[..n]);
      if w :| 0 <= w < n && pcs[w].Notified? {
        assert pcs[..n][w].Notified?;
      }
    }
  }

  lemma {:induction false} CountsAfterWakeAll(pcs: seq<Pc>)
    ensures CountBlocked(WakeAll(pcs)) == 0
    ensures CountNotified(WakeAll(pcs)) == CountBlocked(pcs) + CountNotified(pcs)
  {
    if pcs != [] {
      var n := |pcs| - 1;
      CountsAfterWakeAll(pcs[..n]);
      assert WakeAll(pcs)[..n] == WakeAll(pcs[..n]);
    }
  }

  // ----- the invariant is inductive -----

  lemma {:induction false} InitInv(n: nat, now: nat)
    ensures Inv(Initial(n, now))
  {
    var pcs := Initial(n, now).pcs;
    CountBlockedPositive(pcs);
    CountNotifiedPositive(pcs);
  }

  lemma {:induction false} StepKnown(s: Pool, a: Action)
    requires IdsKnown(s) && Enabled(s, a)
    ensures IdsKnown(Apply(s, a))
  {
    var s' := Apply(s, a);
    match a
    case Work(w, _) =>
      assert forall v :: 0 <= v < |s.pcs| && v != w ==> s'.pcs[v] == s.pcs[v];
    case _ =>
  }

  lemma {:induction false} StepLocking(s: Pool, a: Action)
    requires Locking(s) && IdsKnown(s) && Enabled(s, a)
    ensures Locking(Apply(s, a))
  {
    var s' := Apply(s, a);
    match a
    case Work(w, _) =>
      assert forall v :: 0 <= v < |s.pcs| && v != w ==> s'.pcs[v] == s.pcs[v];
    case _ =>
  }

  lemma {:induction false} StepOwnerView(s: Pool, a: Action)
    requires OwnerView(s) && Locking(s) && IdsKnown(s) && Enabled(s, a)
    ensures OwnerView(Apply(s, a))
  {
    var s' := Apply(s, a);
    match a
    case Work(w, _) =>
      assert forall v :: 0 <= v < |s.pcs| && v != w ==> s'.pcs[v] == s.pcs[v];
    case _ =>
  }

  /** Places at which the counter includes a worker. */
  predicate CountedAt(pc: Pc) {
    pc.Blocked? || pc.Notified? || pc.Counted? || pc.Woken? || pc.Uncount?
  }

  lemma {:induction false} WorkMovesIdle(s: Pool, w: nat, throws: bool)
    requires w < |s.pcs|
    ensures var s' := WorkStep(s, w, throws);
      && s'.pcs == s.pcs[w := s'.pcs[w]]
      && s'.idle - s.idle == (if CountedAt(s'.pcs[w]) then 1 else 0) - (if CountedAt(s.pcs[w]) then 1 else 0)
  {
    assert s.pcs[w := s.pcs[w]] == s.pcs;
  }

  lemma {:induction false} WorkIdle(s: Pool, w: nat, throws: bool)
    requires w < |s.pcs| && WorkEnabled(s, w)
    requires IdleExact(s) && Locking(s) && Locking(WorkStep(s, w, throws))
    ensures IdleExact(WorkStep(s, w, throws))
  {
    var s' := WorkStep(s, w, throws);
    var pc, pc' := s.pcs[w], s'.pcs[w];
    WorkMovesIdle(s, w, throws);
    CountsAfterMove(s.pcs, w, pc');
    if Holds(pc) || Holds(pc') {
      assert OwnerIdle(s) == (Holds(pc) && CountedAt(pc));
      assert OwnerIdle(s') == (Holds(pc') && CountedAt(pc'));
    } else {
      assert s'.owner == s.owner;
      assert OwnerIdle(s') == OwnerIdle(s);
    }
  }

  lemma {:induction false} StepIdle(s: Pool, a: Action)
    requires IdleExact(s) && Locking(s) && Enabled(s, a) && Locking(Apply(s, a))
    ensures IdleExact(Apply(s, a))
  {
    match a
    case Work(w, throws) =>
      WorkIdle(s, w, throws);
    case Spurious(w) =>
      CountsAfterMove(s.pcs, w, Notified);
    case AdderNotify(wake) =>
      if wake.Some? {
        CountsAfterMove(s.pcs, wake.value, Notified);
      }
    case StopNotifyAll =>
      CountsAfterWakeAll(s.pcs);
    case _ =>
  }

  lemma {:induction false} WorkMovesQueue(s: Pool, w: nat, throws: bool)
    requires w < |s.pcs|
    ensures var s' := WorkStep(s, w, throws);
      && s'.phase == s.phase
      && (s'.queue == s.queue || (s.pcs[w] == Taking(true) && s'.pcs[w].Holding? && s'.queue == s.queue[1..]))
  {
  }

  lemma {:induction false} WorkConserves(s: Pool, w: nat, throws: bool)
    requires w < |s.pcs| && WorkEnabled(s, w)
    requires WorkConserving(s) && Locking(s) && OwnerView(s)
    requires OwnerView(WorkStep(s, w, throws)) && Locking(WorkStep(s, w, throws))
    ensures WorkConserving(WorkStep(s, w, throws))
  {
    var s' := WorkStep(s, w, throws);
    var pc, pc' := s.pcs[w], s'.pcs[w];
    WorkMovesIdle(s, w, throws);
    WorkMovesQueue(s, w, throws);
    CountsAfterMove(s.pcs, w, pc');
    if Holds(pc) || Holds(pc') {
      assert OwnerTakesOne(s) == (Holds(pc) && !pc.Holding? && !pc.Counted?);
      assert OwnerTakesOne(s') == (Holds(pc') && !pc'.Holding? && !pc'.Counted?);
    } else {
      assert s'.owner == s.owner;
      assert OwnerTakesOne(s') == OwnerTakesOne(s);
    }
  }

  lemma {:induction false} StepConserves(s: Pool, a: Action)
    requires WorkConserving(s) && OwnerView(s) && Locking(s) && IdleExact(s) && Enabled(s, a)
    requires OwnerView(Apply(s, a)) && Locking(Apply(s, a))
    ensures WorkConserving(Apply(s, a))
  {
    match a
    case Work(w, throws) =>
      WorkConserves(s, w, throws);
    case Spurious(w) =>
      CountsAfterMove(s.pcs, w, Notified);
    case AdderNotify(wake) =>
      CountBlockedPositive(s.pcs);
      if wake.Some? {
        CountsAfterMove(s.pcs, wake.value, Notified);
      }
    case StopNotifyAll =>
      CountsAfterWakeAll(s.pcs);
    case _ =>
  }

  lemma {:induction false} StepStopHeard(s: Pool, a: Action)
    requires StopHeard(s) && OwnerView(s) && Locking(s) && Enabled(s, a)
    ensures StopHeard(Apply(s, a))
  {
    var s' := Apply(s, a);
    match a
    case Work(w, _) =>
      assert forall v :: 0 <= v < |s.pcs| && v != w ==> s'.pcs[v] == s.pcs[v];
    case _ =>
  }

  lemma {:induction false} StepInv(s: Pool, a: Action)
    requires Inv(s) && Enabled(s, a)
    ensures Inv(Apply(s, a))
  {
    StepKnown(s, a);
    StepLocking(s, a);
    StepOwnerView(s, a);
    StepIdle(s, a);
    StepConserves(s, a);
    StepStopHeard(s, a);
  }

  lemma {:induction false} RunInv(s: Pool, run: seq<Action>)
    requires Inv(s) && Exec(s, run).Some?
    ensures Inv(Exec(s, run).value)
  {
    if run != [] {
      RunInv(s, run[..|run| - 1]);
      StepInv(Exec(s, run[..|run| - 1]).value, run[|run| - 1]);
    }
  }

  lemma {:induction false} ReachableInv(n: nat, s: Pool)
    requires Reachable(n, s)
    ensures Inv(s)
  {
    var t0: nat, run :| Exec(Initial(n, t0), run) == Some(s);
    InitInv(n, t0);
    RunInv(Initial(n, t0), run);
  }
}
