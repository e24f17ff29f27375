/** What the wake-up invariant means for every run, and orderly shutdown. */
module PoolTheorems {
  import opened Prelude
  import opened Tasks
  import opened PoolModel
  import opened PoolWakeup
  import opened PoolHistory

  /** In any reachable running state with the mutex free, a worker sleeps only while every
      queued task has a notified worker on its way. */
  lemma {:induction false} NoLostWakeup(n: nat, s: Pool, sleeper: nat)
    requires Reachable(n, s) && s.phase == RUN && s.owner == Free
    requires sleeper < |s.pcs| && s.pcs[sleeper].Blocked?
    ensures |s.queue| <= Waking(s)
  {
    ReachableInv(n, s);
    CountBlockedPositive(s.pcs);
  }

  /** With the mutex free the idle counter is the number of workers inside the wait, so an adder
      that reads zero has nobody to notify. */
  lemma {:induction false} IdleCounterExact(n: nat, s: Pool)
    requires Reachable(n, s)
    ensures s.owner == Free ==> s.idle == Sleeping(s) + Waking(s)
    ensures s.owner.ByAdder? ==> (s.idle > 0 <==> exists w :: 0 <= w < |s.pcs| && (s.pcs[w].Blocked? || s.pcs[w].Notified?))
  {
    ReachableInv(n, s);
    CountBlockedPositive(s.pcs);
    CountNotifiedPositive(s.pcs);
  }

  lemma {:induction false} WorkersConstant(s: Pool, run: seq<Action>)
    requires Exec(s, run).Some?
    ensures |Exec(s, run).value.pcs| == |s.pcs|
  {
    if run != [] {
      WorkersConstant(s, run[..|run| - 1]);
    }
  }

  /** At most one worker is at a place that needs the mutex, and the pool keeps its size. */
  lemma {:induction false} MutualExclusion(n: nat, s: Pool, v: nat, w: nat)
    requires Reachable(n, s) && v < |s.pcs| && w < |s.pcs|
    requires Holds(s.pcs[v]) && Holds(s.pcs[w])
    ensures v == w && |s.pcs| == n
  {
    ReachableInv(n, s);
    var t0: nat, run :| Exec(Initial(n, t0), run) == Some(s);
    WorkersConstant(Initial(n, t0), run);
  }

  /** A running pool comes to rest only with an empty queue. */
  lemma {:induction false} RestMeansDrained(n: nat, s: Pool)
    requires Reachable(n, s) && n > 0 && s.phase == RUN && s.owner == Free
    requires forall w :: 0 <= w < |s.pcs| ==> !WorkEnabled(s, w)
    ensures s.queue == []
    ensures forall w :: 0 <= w < |s.pcs| ==> s.pcs[w].Blocked?
  {
    ReachableInv(n, s);
    var t0: nat, run :| Exec(Initial(n, t0), run) == Some(s);
    WorkersConstant(Initial(n, t0), run);
    forall w | 0 <= w < |s.pcs|
      ensures s.pcs[w].Blocked?
    {
      assert !WorkEnabled(s, w);
    }
    CountBlockedPositive(s.pcs);
    CountNotifiedPositive(s.pcs);
    assert s.pcs[0].Blocked?;
  }

  // ----- order, exactly once, timeouts -----

  lemma {:induction false} FifoOrder(n: nat, s: Pool)
    requires Reachable(n, s)
    ensures s.enqueued == Ids(s.picks) + s.queue
  {
    var t0: nat, run :| Exec(Initial(n, t0), run) == Some(s);
    RunOnce(n, t0, run);
  }

  /** The tasks added by a run, in the order in which their adders got the mutex. */
  function Added(run: seq<Action>): seq<TaskId> {
    if run == [] then []
    else Added(run[..|run| - 1]) + if run[|run| - 1].AdderLock? then [run[|run| - 1].t] else []
  }

  /** The task whose adder has the mutex and is about to push. */
  function ToBePushed(owner: Owner): seq<TaskId> {
    if owner.ByAdder? && owner.stage == ToPush then [owner.task] else []
  }

  lemma {:induction false} StepAdded(s: Pool, a: Action)
    requires Enabled(s, a) && Locking(s)
    ensures Apply(s, a).enqueued + ToBePushed(Apply(s, a).owner) ==
            s.enqueued + ToBePushed(s.owner) + if a.AdderLock? then [a.t] else []
  {
  }

  /** Over whole runs: the tasks added are those dequeued, in order, then the queue, then the one being pushed. */
  lemma {:induction false} AddedInOrder(n: nat, t0: nat, run: seq<Action>)
    requires Exec(Initial(n, t0), run).Some?
    ensures var s := Exec(Initial(n, t0), run).value; Added(run) == Ids(s.picks) + s.queue + ToBePushed(s.owner)
  {
    if run != [] {
      var front := run[..|run| - 1];
      var s := Exec(Initial(n, t0), front).value;
      AddedInOrder(n, t0, front);
      assert Reachable(n, s) && Reachable(n, Exec(Initial(n, t0), run).value);
      ReachableInv(n, s);
      FifoOrder(n, s);
      FifoOrder(n, Exec(Initial(n, t0), run).value);
      StepAdded(s, run[|run| - 1]);
    }
  }

  /** How often a closure of task `t` has been entered. */
  function Entries(starts: seq<Start>, t: TaskId): nat {
    if starts == [] then 0
    else Entries(starts[..|starts| - 1], t) + if starts[|starts| - 1].task == t then 1 else 0
  }

  lemma {:induction false} EntriesOnce(starts: seq<Start>, t: TaskId)
    requires NoRestart(starts)
    ensures Entries(starts, t) == if t in Started(starts) then 1 else 0
  {
    if starts != [] {
      var front, c := starts[..|starts| - 1], starts[|starts| - 1];
      assert starts == front + [c];
      StartedGrows(front, c);
      EntriesOnce(front, t);
      assert c.task !in Started(front);
    }
  }

  /** When no task is added twice, a dequeued task has one owner at most, its closures are entered
      once in all (even when the body throws), and only after some worker has dequeued it. */
  lemma {:induction false} ExactlyOnce(n: nat, s: Pool, t: TaskId)
    requires Reachable(n, s) && Distinct(s.enqueued)
    ensures t !in Picked(s.picks) ==> Entries(s.starts, t) == 0
    ensures t in Picked(s.picks) && (forall w :: 0 <= w < |s.pcs| && Carried(s.pcs[w]) == Some(t) ==> !BeforeStart(s.pcs[w]))
            ==> Entries(s.starts, t) == 1
    ensures Entries(s.starts, t) <= 1
    ensures forall v, w :: 0 <= v < |s.pcs| && 0 <= w < |s.pcs| && Carried(s.pcs[v]) == Some(t) == Carried(s.pcs[w]) ==> v == w
  {
    var t0: nat, run :| Exec(Initial(n, t0), run) == Some(s);
    RunOnce(n, t0, run);
    EntriesOnce(s.starts, t);
  }

  /** The closure entered is the expiry closure exactly when the task is subject to a timeout and its
      deadline lay strictly before the moment it was dequeued. */
  lemma {:induction false} TimeoutDiscipline(n: nat, s: Pool, p: Pick, c: Start)
    requires Reachable(n, s) && Distinct(s.enqueued)
    requires p in s.picks && c in s.starts && p.task == c.task
    ensures p.task < |s.tasks|
    ensures c.call == ExpireCall <==>
            s.tasks[p.task].timed && s.tasks[p.task].deadline.Some? && s.tasks[p.task].deadline.value < p.at
  {
    var t0: nat, run :| Exec(Initial(n, t0), run) == Some(s);
    RunOnce(n, t0, run);
  }

  /** An adder finds nobody idle. */
  lemma {:induction false} AddWhileNobodyIdle(s: Pool, run: seq<Action>, p: Pool, t: TaskId) returns (run': seq<Action>)
    requires Exec(s, run) == Some(p) && p.owner == Free && p.idle == 0 && t < |p.tasks|
    ensures Exec(s, run') == Some(p.(queue := p.queue + [t], enqueued := p.enqueued + [t]))
  {
    run' := run;
    ExecSnoc(s, run', AdderLock(t));
    run' := run' + [AdderLock(t)];
    ExecSnoc(s, run', AdderPush);
    run' := run' + [AdderPush];
    ExecSnoc(s, run', AdderNotify(None));
    run' := run' + [AdderNotify(None)];
    ExecSnoc(s, run', AdderUnlock);
    run' := run' + [AdderUnlock];
  }

  lemma {:induction false} WorkOnce(s: Pool, run: seq<Action>, p: Pool, w: nat) returns (run': seq<Action>, q: Pool)
    requires Exec(s, run) == Some(p) && w < |p.pcs| && WorkEnabled(p, w)
    ensures q == WorkStep(p, w, false) && Exec(s, run') == Some(q)
  {
    ExecSnoc(s, run, Work(w, false));
    run', q := run + [Work(w, false)], WorkStep(p, w, false);
  }

  /** A worker coming in takes the front task. */
  lemma {:induction false} WorkerTakes(s: Pool, run: seq<Action>, p: Pool, w: nat) returns (run': seq<Action>, q: Pool)
    requires Exec(s, run) == Some(p) && p.owner == Free && p.phase == RUN
    requires w < |p.pcs| && (p.pcs[w] == Entering || p.pcs[w] == Returning) && p.queue != [] && p.queue[0] < |p.tasks|
    requires p.tasks[p.queue[0]].WellFormed()
    ensures Exec(s, run') == Some(q)
    ensures q == p.(pcs := p.pcs[w := Holding(p.queue[0])], owner := ByWorker(w), queue := p.queue[1..],
                    tasks := p.tasks[p.queue[0] := p.tasks[p.queue[0]].Judge(p.now)],
                    picks := p.picks + [Pick(p.queue[0], p.now)])
  {
    run', q := WorkOnce(s, run, p, w);
    assert q == p.(pcs := p.pcs[w := LoopTop], owner := ByWorker(w));
    run', q := WorkOnce(s, run', q, w);
    assert q == p.(pcs := p.pcs[w := TestQueue(true)], owner := ByWorker(w));
    run', q := WorkOnce(s, run', q, w);
    assert q == p.(pcs := p.pcs[w := Taking(true)], owner := ByWorker(w));
    run', q := WorkOnce(s, run', q, w);
  }

  /** If it is an untimed one, it enters its body. */
  lemma {:induction false} WorkerEntersBody(s: Pool, run: seq<Action>, p: Pool, w: nat)
    returns (run': seq<Action>, q: Pool)
    requires Exec(s, run) == Some(p) && p.owner == Free && p.phase == RUN
    requires w < |p.pcs| && (p.pcs[w] == Entering || p.pcs[w] == Returning) && p.queue != [] && p.queue[0] < |p.tasks|
    requires p.tasks[p.queue[0]] == Untimed() || p.tasks[p.queue[0]] == Untimed().(state := Executing)
    ensures Exec(s, run') == Some(q) && q.owner == Free && q.phase == RUN
    ensures q.pcs == p.pcs[w := InBody(p.queue[0])] && q.queue == p.queue[1..]
    ensures q.tasks == p.tasks[p.queue[0] := Untimed().(state := Executing)]
    ensures q.starts == p.starts + [Start(p.queue[0], BodyCall)] && q.enqueued == p.enqueued
  {
    var t := p.queue[0];
    run', q := WorkerTakes(s, run, p, w);
    assert q.tasks == p.tasks[t := Untimed().(state := Executing)];
    run', q := WorkOnce(s, run', q, w);
    assert q.pcs == p.pcs[w := ToRun(t)];
    run', q := WorkOnce(s, run', q, w);
    assert q.pcs == p.pcs[w := InBody(t)];
  }

  // ----- shutdown -----

  /** A stop has been published and nobody sleeps. */
  ghost predicate Stopping(s: Pool) {
    Inv(s) && s.phase == STOP && forall w :: 0 <= w < |s.pcs| ==> !s.pcs[w].Blocked?
  }

  /** That is the case as soon as the stopper has called notify-all. */
  lemma {:induction false} StopReachesEveryone(n: nat, s: Pool)
    requires Reachable(n, s) && s.phase == STOP && s.owner != ByStopper(ToNotifyAll)
    ensures Stopping(s)
  {
    ReachableInv(n, s);
  }

  /** How many of its own steps a worker may still take once the pool is stopping. */
  function Rank(pc: Pc): nat {
    match pc
    case Exited => 0
    case Taking(_) => 1
    case TestQueue(_) => 2
    case LoopTop => 3
    case Uncount(_) => 3
    case Woken => 4
    case Entering => 4
    case Returning => 4
    case Notified => 5
    case InBody(_) => 5
    case InExpire(_) => 5
    case ToRun(_) => 6
    case ToExpire(_) => 6
    case Holding(_) => 7
    case Counted => 7
    case Blocked => 7
  }

  function StepsLeft(pcs: seq<Pc>): nat {
    if pcs == [] then 0 else StepsLeft(pcs[..|pcs| - 1]) + Rank(pcs[|pcs| - 1])
  }

  lemma {:induction false} StepsLeftAfterMove(pcs: seq<Pc>, w: nat, pc: Pc)
    requires w < |pcs|
    ensures StepsLeft(pcs[w := pc]) + Rank(pcs[w]) == StepsLeft(pcs) + Rank(pc)
  {
    var n := |pcs| - 1;
    if w == n {
      assert pcs[w := pc][..n] == pcs[..n];
    } else {
      StepsLeftAfterMove(pcs[..n], w, pc);
      assert pcs[w := pc][..n] == pcs[..n][w := pc];
    }
  }

  lemma {:induction false} NothingLeft(pcs: seq<Pc>)
    ensures StepsLeft(pcs) == 0 <==> forall w :: 0 <= w < |pcs| ==> pcs[w].Exited?
  {
    if pcs != [] {
      var n := |pcs| - 1;
      NothingLeft(pcs[..n]);
      assert (forall w :: 0 <= w < n ==> pcs[..n][w].Exited?) <==> (forall w :: 0 <= w < n ==> pcs[w].Exited?);
    }
  }

  lemma {:induction false} StoppingWork(s: Pool, w: nat, throws: bool)
    requires OwnerView(s) && IdsKnown(s) && s.phase == STOP && w < |s.pcs| && WorkEnabled(s, w)
    ensures var s' := WorkStep(s, w, throws);
      && s'.picks == s.picks && s'.phase == STOP
      && !s'.pcs[w].Blocked? && Rank(s'.pcs[w]) < Rank(s.pcs[w])
  {
  }

  /** A stopping pool stays stopping, dequeues nothing, and each worker step lowers the measure. */
  lemma {:induction false} StoppingStep(s: Pool, a: Action)
    requires Stopping(s) && Enabled(s, a)
    ensures Stopping(Apply(s, a)) && Apply(s, a).picks == s.picks
    ensures a.Work? ==> StepsLeft(Apply(s, a).pcs) < StepsLeft(s.pcs)
    ensures !a.Work? ==> Apply(s, a).pcs == s.pcs
  {
    StepInv(s, a);
    match a
    case Work(w, throws) =>
      StoppingWork(s, w, throws);
      WorkMovesIdle(s, w, throws);
      StepsLeftAfterMove(s.pcs, w, WorkStep(s, w, throws).pcs[w]);
    case StopNotifyAll =>
      assert WakeAll(s.pcs) == s.pcs;
    case _ =>
  }

  function WorkSteps(run: seq<Action>): nat {
    if run == [] then 0 else WorkSteps(run[..|run| - 1]) + if run[|run| - 1].Work? then 1 else 0
  }

  /** Shutdown over whole runs: nothing is dequeued after the stop, no worker sleeps again, and the
      number of worker steps is bounded however adders and other stoppers interleave. */
  lemma {:induction false} ShutdownBounded(s: Pool, run: seq<Action>)
    requires Stopping(s) && Exec(s, run).Some?
    ensures Stopping(Exec(s, run).value)
    ensures Exec(s, run).value.picks == s.picks
    ensures WorkSteps(run) + StepsLeft(Exec(s, run).value.pcs) <= StepsLeft(s.pcs)
  {
    if run != [] {
      ShutdownBounded(s, run[..|run| - 1]);
      StoppingStep(Exec(s, run[..|run| - 1]).value, run[|run| - 1]);
    }
  }

  /** A stopping pool at rest has no worker left. */
  lemma {:induction false} ShutdownCompletes(s: Pool)
    requires Stopping(s) && !s.owner.ByAdder? && !s.owner.ByStopper?
    requires forall w :: 0 <= w < |s.pcs| ==> !WorkEnabled(s, w)
    ensures forall w :: 0 <= w < |s.pcs| ==> s.pcs[w].Exited?
  {
    assert s.owner.ByWorker? ==> WorkEnabled(s, s.owner.w);
    forall w | 0 <= w < |s.pcs|
      ensures s.pcs[w].Exited?
    {
      assert !WorkEnabled(s, w);
    }
  }
}
