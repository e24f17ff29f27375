/**
 The pool's code in its own shape: AddTask, Stop, and what a worker does between getting the
 mutex and giving it up.  Every method is a run of the step machine.
 */
module PoolCode {
  import opened Prelude
  import opened Tasks
  import opened PoolModel
  import opened PoolWakeup

  /** Only steps of worker `w`, none of them inside a task. */
  predicate StepsOf(run: seq<Action>, w: nat) {
    forall i :: 0 <= i < |run| ==> run[i] == Work(w, false)
  }

  /** Worker `w` is now at `pc` and nobody else moved. */
  ghost predicate OnlyMoved(before: seq<Pc>, after: seq<Pc>, w: nat, pc: Pc) {
    && |after| == |before| && w < |after| && after[w] == pc
    && forall v :: 0 <= v < |after| && v != w ==> after[v] == before[v]
  }

  class ThreadPool {
    var owner: Owner
    var phase: PoolState
    var queue: seq<TaskId>
    var idle: int
    var pcs: seq<Pc>
    var tasks: seq<Task>
    var now: nat
    ghost var enqueued: seq<TaskId>
    ghost var picks: seq<Pick>
    ghost var starts: seq<Start>

    ghost function S(): Pool
      reads this
    {
      Pool(owner, phase, queue, idle, pcs, tasks, now, enqueued, picks, starts)
    }

    /** Construction followed by Init. */
    constructor(n: nat, clock: nat)
      ensures S() == Initial(n, clock)
    {
      owner, phase, queue, idle, now := Free, RUN, [], 0, clock;
      pcs := seq(n, i => Entering);
      tasks, enqueued, picks, starts := [], [], [], [];
    }

    /** notify_one: some blocked thread, if there is one. */
    method Notify() returns (wake: Option<nat>)
      modifies this`pcs
      ensures wake.None? ==> pcs == old(pcs) && forall w :: 0 <= w < |pcs| ==> !pcs[w].Blocked?
      ensures wake.Some? ==> wake.value < |old(pcs)| && old(pcs)[wake.value].Blocked?
                             && pcs == old(pcs)[wake.value := Notified]
    {
      wake := None;
      for w := 0 to |pcs|
        invariant forall v :: 0 <= v < w ==> !pcs[v].Blocked?
        invariant pcs == old(pcs)
      {
        if pcs[w].Blocked? {
          pcs := pcs[w := Notified];
          return Some(w);
        }
      }
    }

    /** One statement, recorded as one step of the machine. */
    ghost method Record(s0: Pool, p: Pool, run: seq<Action>, a: Action) returns (run': seq<Action>)
      requires Exec(s0, run) == Some(p) && Enabled(p, a) && S() == Apply(p, a)
      ensures Exec(s0, run') == Some(S()) && run' == run + [a]
    {
      ExecSnoc(s0, run, a);
      run' := run + [a];
    }

    /** The body of AddTask up to the test of the idle counter. */
    method Push(t: TaskId) returns (ghost run: seq<Action>)
      requires owner == Free && t < |tasks|
      modifies this`owner, this`queue, this`enqueued
      ensures Exec(old(S()), run) == Some(S())
      ensures owner == ByAdder(t, ToNotify) && queue == old(queue) + [t] && enqueued == old(enqueued) + [t]
    {
      ghost var s0 := S();
      owner := ByAdder(t, ToPush);
      run := Record(s0, s0, [], AdderLock(t));
      ghost var p := S();
      queue := queue + [t];
      enqueued := enqueued + [t];
      owner := ByAdder(t, ToNotify);
      run := Record(s0, p, run, AdderPush);
    }

    /** The test of the idle counter and what it guards. */
    method WakeOne(ghost s0: Pool, ghost run: seq<Action>) returns (ghost run': seq<Action>)
      requires Exec(s0, run) == Some(S()) && owner.ByAdder? && owner.stage == ToNotify
      modifies this`owner, this`pcs
      ensures Exec(s0, run') == Some(S()) && owner == ByAdder(old(owner).task, ToUnlock)
      ensures pcs == old(pcs) ||
              exists w :: 0 <= w < |old(pcs)| && old(pcs)[w].Blocked? && pcs == old(pcs)[w := Notified]
    {
      ghost var p := S();
      var wake := None;
      if idle > 0 {
        wake := Notify();
      }
      owner := ByAdder(owner.task, ToUnlock);
      run' := Record(s0, p, run, AdderNotify(wake));
    }

    method AddTask(t: TaskId) returns (ghost run: seq<Action>)
      requires owner == Free && t < |tasks|
      modifies this
      ensures Exec(old(S()), run) == Some(S())
      ensures owner == Free && queue == old(queue) + [t] && enqueued == old(enqueued) + [t]
      ensures idle == old(idle) && tasks == old(tasks)
      ensures pcs == old(pcs) ||
              exists w :: 0 <= w < |old(pcs)| && old(pcs)[w].Blocked? && pcs == old(pcs)[w := Notified]
    {
      ghost var s0 := S();
      run := Push(t);
      run := WakeOne(s0, run);
      ghost var p := S();
      owner := Free;
      run := Record(s0, p, run, AdderUnlock);
    }

    /** Stop's first two lines: lock, and set the state. */
    method Announce() returns (ghost run: seq<Action>)
      requires owner == Free
      modifies this`owner, this`phase
      ensures Exec(old(S()), run) == Some(S())
      ensures owner == ByStopper(ToNotifyAll) && phase == STOP
    {
      ghost var s0 := S();
      owner := ByStopper(ToSet);
      run := Record(s0, s0, [], StopLock);
      ghost var p := S();
      phase := STOP;
      owner := ByStopper(ToNotifyAll);
      run := Record(s0, p, run, StopSet);
    }

    /** Stop up to and including notify-all; the guard is released when the scope is left. */
    method Stop() returns (ghost run: seq<Action>)
      requires owner == Free
      modifies this
      ensures Exec(old(S()), run) == Some(S())
      ensures owner == Free && phase == STOP && pcs == WakeAll(old(pcs)) && queue == old(queue)
    {
      ghost var s0 := S();
      run := Announce();
      ghost var p := S();
      pcs := WakeAll(pcs);
      owner := ByStopper(ToRelease);
      run := Record(s0, p, run, StopNotifyAll);
      p := S();
      owner := Free;
      run := Record(s0, p, run, StopUnlock);
    }

    /** The run so far, all of it worker `w` holding the mutex, leads from `s0` to here. */
    ghost predicate Led(s0: Pool, run: seq<Action>, w: nat)
      reads this
    {
      Exec(s0, run) == Some(S()) && StepsOf(run, w)
    }

    /** One statement of worker `w`, recorded as one step of the machine. */
    ghost method Note(s0: Pool, p: Pool, run: seq<Action>, w: nat) returns (run': seq<Action>)
      requires Exec(s0, run) == Some(p) && StepsOf(run, w)
      requires Enabled(p, Work(w, false)) && S() == WorkStep(p, w, false)
      ensures Led(s0, run', w)
    {
      ExecSnoc(s0, run, Work(w, false));
      run' := run + [Work(w, false)];
    }

    predicate IsSurvival()
      reads this
    {
      phase == RUN
    }

    /** Top of the outer loop. */
    method TestState(w: nat, ghost s0: Pool, ghost run: seq<Action>) returns (survival: bool, ghost run': seq<Action>)
      requires Led(s0, run, w)
      requires w < |pcs| && pcs[w] == LoopTop
      modifies this`pcs
      ensures Led(s0, run', w)
      ensures survival == IsSurvival() && OnlyMoved(old(pcs), pcs, w, TestQueue(survival))
    {
      ghost var p := S();
      survival := IsSurvival();
      pcs := pcs[w := TestQueue(survival)];
      run' := Note(s0, p, run, w);
    }

    /** The inner loop is not entered. */
    method PassQueueTest(w: nat, survival: bool, ghost s0: Pool, ghost run: seq<Action>) returns (ghost run': seq<Action>)
      requires Led(s0, run, w)
      requires w < |pcs| && pcs[w] == TestQueue(survival) && !(survival && queue == [])
      modifies this`pcs
      ensures Led(s0, run', w)
      ensures OnlyMoved(old(pcs), pcs, w, Taking(survival))
    {
      ghost var p := S();
      pcs := pcs[w := Taking(survival)];
      run' := Note(s0, p, run, w);
    }

    /** The outer loop ends; the guard releases the mutex. */
    method Leave(w: nat, ghost s0: Pool, ghost run: seq<Action>) returns (ghost run': seq<Action>)
      requires Led(s0, run, w)
      requires w < |pcs| && pcs[w] == Taking(false)
      modifies this`owner, this`pcs
      ensures Led(s0, run', w)
      ensures owner == Free && OnlyMoved(old(pcs), pcs, w, Exited)
    {
      ghost var p := S();
      owner := Free;
      pcs := pcs[w := Exited];
      assert !Takes(p, w) && NextPc(p, w, false) == Exited;
      assert NextTasks(p, w, false) == p.tasks;
      run' := Note(s0, p, run, w);
    }

    /** Back from the wait: look at the state again. */
    method Recheck(w: nat, ghost s0: Pool, ghost run: seq<Action>) returns (survival: bool, ghost run': seq<Action>)
      requires Led(s0, run, w)
      requires w < |pcs| && pcs[w] == Woken
      modifies this`pcs
      ensures Led(s0, run', w)
      ensures survival == IsSurvival() && OnlyMoved(old(pcs), pcs, w, Uncount(survival))
    {
      ghost var p := S();
      survival := IsSurvival();
      pcs := pcs[w := Uncount(survival)];
      run' := Note(s0, p, run, w);
    }

    /** Then stop counting as idle. */
    method StopIdling(w: nat, survival: bool, ghost s0: Pool, ghost run: seq<Action>) returns (ghost run': seq<Action>)
      requires Led(s0, run, w)
      requires w < |pcs| && pcs[w] == Uncount(survival)
      modifies this`pcs, this`idle
      ensures Led(s0, run', w)
      ensures OnlyMoved(old(pcs), pcs, w, TestQueue(survival)) && idle == old(idle) - 1
    {
      ghost var p := S();
      idle := idle - 1;
      pcs := pcs[w := TestQueue(survival)];
      run' := Note(s0, p, run, w);
    }

    /** Count as idle. */
    method CountIdle(w: nat, ghost s0: Pool, ghost run: seq<Action>) returns (ghost run': seq<Action>)
      requires Led(s0, run, w)
      requires w < |pcs| && pcs[w] == TestQueue(true) && queue == []
      modifies this`pcs, this`idle
      ensures Led(s0, run', w)
      ensures OnlyMoved(old(pcs), pcs, w, Counted) && idle == old(idle) + 1
    {
      ghost var p := S();
      idle := idle + 1;
      pcs := pcs[w := Counted];
      run' := Note(s0, p, run, w);
    }

    /** Then block and release the mutex. */
    method Block(w: nat, ghost s0: Pool, ghost run: seq<Action>) returns (ghost run': seq<Action>)
      requires Led(s0, run, w)
      requires w < |pcs| && pcs[w] == Counted
      modifies this`owner, this`pcs
      ensures Led(s0, run', w)
      ensures owner == Free && OnlyMoved(old(pcs), pcs, w, PoolModel.Blocked)
    {
      ghost var p := S();
      owner := Free;
      pcs := pcs[w := PoolModel.Blocked];
      run' := Note(s0, p, run, w);
    }

    /** Take the front task and judge it against the clock. */
    method TakeFront(w: nat, ghost s0: Pool, ghost run: seq<Action>) returns (t: TaskId, ghost run': seq<Action>)
      requires Inv(s0) && Led(s0, run, w)
      requires w < |pcs| && pcs[w] == Taking(true)
      modifies this`pcs, this`queue, this`tasks, this`picks
      ensures Led(s0, run', w)
      ensures old(queue) != [] && t == old(queue)[0] && queue == old(queue)[1..]
      ensures picks == old(picks) + [Pick(t, now)]
      ensures OnlyMoved(old(pcs), pcs, w, Holding(t)) && t < |tasks|
    {
      RunInv(s0, run);
      ghost var p := S();
      t := queue[0];
      queue := queue[1..];
      tasks := tasks[t := tasks[t].Judge(now)];
      picks := picks + [Pick(t, now)];
      pcs := pcs[w := Holding(t)];
      run' := Note(s0, p, run, w);
    }

    /** Release the mutex to work on the task; a task in neither state is dropped and the loop goes on. */
    method Dispatch(w: nat, t: TaskId, ghost s0: Pool, ghost run: seq<Action>)
      returns (released: bool, ghost run': seq<Action>)
      requires Led(s0, run, w)
      requires w < |pcs| && pcs[w] == Holding(t) && t < |tasks|
      modifies this`owner, this`pcs
      ensures Led(s0, run', w)
      ensures released == (tasks[t].state == Executing || (tasks[t].state == TimedOut && tasks[t].timed))
      ensures released ==> owner == Free && OnlyMoved(old(pcs), pcs, w, if tasks[t].state == Executing then ToRun(t) else ToExpire(t))
      ensures !released ==> owner == old(owner) && OnlyMoved(old(pcs), pcs, w, LoopTop)
    {
      ghost var p := S();
      if tasks[t].state == Executing {
        owner := Free;
        pcs := pcs[w := ToRun(t)];
        released := true;
      } else if tasks[t].state == TimedOut && tasks[t].timed {
        owner := Free;
        pcs := pcs[w := ToExpire(t)];
        released := true;
      } else {
        pcs := pcs[w := LoopTop];
        released := false;
      }
      run' := Note(s0, p, run, w);
    }

    /** What precedes the next look at the queue: returning from the wait, or starting the outer loop over. */
    method ReachQueueTest(w: nat, ghost s0: Pool, ghost run: seq<Action>)
      returns (survival: bool, ghost run': seq<Action>)
      requires Led(s0, run, w)
      requires w < |pcs| && (pcs[w] == LoopTop || pcs[w] == Woken)
      modifies this`pcs, this`idle
      ensures Led(s0, run', w)
      ensures survival == IsSurvival() && OnlyMoved(old(pcs), pcs, w, TestQueue(survival))
    {
      if pcs[w] == Woken {
        survival, run' := Recheck(w, s0, run);
        run' := StopIdling(w, survival, s0, run');
      } else {
        survival, run' := TestState(w, s0, run);
      }
    }

    /** One turn of the outer loop from its queue test on; `done` when the mutex has been given up. */
    method Turn(w: nat, survival: bool, ghost s0: Pool, ghost run: seq<Action>)
      returns (done: bool, ghost run': seq<Action>)
      requires Inv(s0) && Led(s0, run, w) && survival == IsSurvival()
      requires w < |pcs| && pcs[w] == TestQueue(survival)
      modifies this
      ensures Led(s0, run', w) && phase == old(phase)
      ensures w < |pcs| && OnlyMoved(old(pcs), pcs, w, pcs[w])
      ensures !done ==> pcs[w] == LoopTop && |queue| < |old(queue)|
      ensures done ==> owner == Free && GivesUp(pcs[w])
      ensures done && pcs[w].Blocked? ==> queue == [] && survival
      ensures pcs[w].Exited? <==> !survival
    {
      if survival && |queue| == 0 {
        run' := CountIdle(w, s0, run);
        run' := Block(w, s0, run');
        return true, run';
      }
      run' := PassQueueTest(w, survival, s0, run);
      if !survival {
        run' := Leave(w, s0, run');
        return true, run';
      }
      var t;
      t, run' := TakeFront(w, s0, run');
      done, run' := Dispatch(w, t, s0, run');
    }

    /** From having the mutex, fresh or back from a wait, until it is given up. */
    method HoldMutex(w: nat) returns (ghost run: seq<Action>)
      requires Inv(S()) && w < |pcs|
      requires pcs[w] == LoopTop || pcs[w] == Woken
      modifies this
      ensures Led(old(S()), run, w)
      ensures owner == Free && phase == old(phase)
      ensures w < |pcs| && OnlyMoved(old(pcs), pcs, w, pcs[w]) && GivesUp(pcs[w])
      ensures pcs[w].Blocked? ==> queue == [] && phase == RUN
      ensures pcs[w].Exited? <==> phase == STOP
    {
      ghost var s0 := S();
      run := [];
      var done := false;
      while !done
        invariant Led(s0, run, w) && phase == old(phase)
        invariant w < |pcs| && OnlyMoved(old(pcs), pcs, w, pcs[w])
        invariant !done ==> pcs[w] == LoopTop || pcs[w] == Woken
        invariant done ==> owner == Free && GivesUp(pcs[w])
        invariant done && pcs[w].Blocked? ==> queue == [] && phase == RUN
        invariant done ==> (pcs[w].Exited? <==> phase == STOP)
        decreases !done, |queue|
      {
        var survival;
        survival, run := ReachQueueTest(w, s0, run);
        done, run := Turn(w, survival, s0, run);
      }
    }

    /** The step into a closure of task `t`. */
    method Enter(w: nat, t: TaskId, call: Call) returns (ghost run: seq<Action>)
      requires w < |pcs| && t < |tasks|
      requires call == BodyCall ==> pcs[w] == ToRun(t) && tasks[t].state == Executing
      requires call == ExpireCall ==> pcs[w] == ToExpire(t) && tasks[t].state == TimedOut
      modifies this`pcs, this`starts
      ensures Exec(old(S()), run) == Some(S()) && run == [Work(w, false)]
      ensures pcs == old(pcs)[w := if call == BodyCall then InBody(t) else InExpire(t)]
      ensures starts == old(starts) + [Start(t, call)]
    {
      ghost var s0 := S();
      pcs := pcs[w := if call == BodyCall then InBody(t) else InExpire(t)];
      starts := starts + [Start(t, call)];
      run := Record(s0, s0, [], Work(w, false));
    }

    /** The step out of a task, with the task record as its Run or ExpireRun has left it. */
    method Finish(w: nat, t: TaskId, after: Task, threw: bool, ghost s0: Pool, ghost run: seq<Action>)
      returns (ghost run': seq<Action>)
      requires Exec(s0, run) == Some(S()) && w < |pcs| && t < |tasks|
      requires pcs[w] == InBody(t) ==> after == if threw then tasks[t] else tasks[t].(state := Complete)
      requires pcs[w] == InExpire(t) ==> after == tasks[t].(state := Complete)
      requires pcs[w] == ToRun(t) ==> tasks[t].state != Executing && after == tasks[t]
      requires pcs[w] == ToExpire(t) ==> tasks[t].state != TimedOut && after == tasks[t]
      requires pcs[w] in {InBody(t), InExpire(t), ToRun(t), ToExpire(t)}
      modifies this`pcs, this`tasks
      ensures Exec(s0, run') == Some(S()) && run' == run + [Work(w, threw)]
      ensures pcs == old(pcs)[w := Returning] && tasks == old(tasks)[t := after]
    {
      ghost var p := S();
      tasks := tasks[t := after];
      pcs := pcs[w := Returning];
      assert NextPc(p, w, threw) == Returning && NextTasks(p, w, threw) == tasks;
      run' := Record(s0, p, run, Work(w, threw));
    }

    /** Outside the mutex: run the task's body, and swallow whatever it throws. */
    method RunTask(w: nat, t: TaskId, task: TaskObject, bodyThrows: bool) returns (ghost run: seq<Action>)
      requires w < |pcs| && pcs[w] == ToRun(t) && t < |tasks| && task.Valid() && task.Record() == tasks[t]
      modifies this`pcs, this`tasks, this`starts, task
      ensures Exec(old(S()), run) == Some(S()) && forall i :: 0 <= i < |run| ==> run[i].Work? && run[i].w == w
      ensures pcs == old(pcs)[w := Returning] && tasks == old(tasks)[t := task.Record()] && task.Valid()
      ensures starts == old(starts) + if old(task.state) == Executing then [Start(t, BodyCall)] else []
      ensures task.calls == old(task.calls) + if old(task.state) == Executing then [BodyCall] else []
      ensures task.state == if old(task.state) == Executing && !bodyThrows then Complete else old(task.state)
    {
      ghost var s0 := S();
      run := [];
      if task.state == Executing {
        run := Enter(w, t, BodyCall);
      }
      var threw := task.Run(bodyThrows);
      run := Finish(w, t, task.Record(), threw, s0, run);
    }

    /** Outside the mutex: run the expiry closure. */
    method ExpireTask(w: nat, t: TaskId, task: TaskObject) returns (ghost run: seq<Action>)
      requires w < |pcs| && pcs[w] == ToExpire(t) && t < |tasks| && task.Valid() && task.Record() == tasks[t]
      modifies this`pcs, this`tasks, this`starts, task
      ensures Exec(old(S()), run) == Some(S()) && forall i :: 0 <= i < |run| ==> run[i].Work? && run[i].w == w
      ensures pcs == old(pcs)[w := Returning] && tasks == old(tasks)[t := task.Record()] && task.Valid()
      ensures starts == old(starts) + if old(task.state) == TimedOut then [Start(t, ExpireCall)] else []
      ensures task.calls == old(task.calls) + if old(task.state) == TimedOut then [ExpireCall] else []
      ensures task.state == if old(task.state) == TimedOut then Complete else old(task.state)
    {
      ghost var s0 := S();
      run := [];
      if task.state == TimedOut {
        run := Enter(w, t, ExpireCall);
      }
      task.ExpireRun();
      run := Finish(w, t, task.Record(), false, s0, run);
    }

    /** The lock after the task: the worker owns the mutex again, at the top of its loop. */
    method Relock(w: nat) returns (ghost run: seq<Action>)
      requires w < |pcs| && pcs[w] == Returning && owner == Free
      modifies this`pcs, this`owner
      ensures Exec(old(S()), run) == Some(S())
      ensures owner == ByWorker(w) && pcs == old(pcs)[w := LoopTop]
    {
      ghost var s0 := S();
      owner := ByWorker(w);
      pcs := pcs[w := LoopTop];
      run := Record(s0, s0, [], Work(w, false));
    }
  }
}
