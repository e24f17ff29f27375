/**
 The thread pool as a step machine.  One step is one source statement (or test) of a worker,
 an adder or the stopper; every interleaving of those steps is a run.  The condition-variable
 wait releases the mutex and blocks in a single step, and may end without a notification.
 */
module PoolModel {
  import opened Prelude
  import opened Tasks

  type TaskId = nat

  datatype PoolState = RUN | STOP

  /** Where a worker is.  `sv` is its local flag `survival`. */
  datatype Pc =
    | Entering                  // wants the mutex for the first time
    | LoopTop                   // holds it; about to evaluate IsSurvival
    | TestQueue(sv: bool)       // holds it; at the inner loop test
    | Counted                   // holds it; counted as idle, about to wait
    | Blocked                   // inside the wait, not notified
    | Notified                  // notified (or woken spuriously), wants the mutex back
    | Woken                     // holds it again; about to re-evaluate IsSurvival
    | Uncount(sv: bool)         // holds it; about to decrement the idle counter
    | Taking(sv: bool)          // holds it; past the inner loop
    | Holding(task: TaskId)     // holds it and a dequeued, judged task
    | ToRun(task: TaskId)       // mutex released; about to call Task::Run
    | InBody(task: TaskId)      // inside the task body
    | ToExpire(task: TaskId)    // mutex released; about to call Task::ExpireRun
    | InExpire(task: TaskId)    // inside the expiry closure
    | Returning                 // wants the mutex back after a task
    | Exited

  datatype AdderStage = ToPush | ToNotify | ToUnlock
  datatype StopStage = ToSet | ToNotifyAll | ToRelease

  datatype Owner =
    | Free
    | ByWorker(w: nat)
    | ByAdder(task: TaskId, stage: AdderStage)
    | ByStopper(at: StopStage)

  /** A dequeue: which task, and the clock reading it was judged by. */
  datatype Pick = Pick(task: TaskId, at: nat)

  /** Entry into one of a task's closures. */
  datatype Start = Start(task: TaskId, call: Call)

  /** `enqueued`, `picks` and `starts` only record history; no step tests them. */
  datatype Pool = Pool(
    owner: Owner,
    phase: PoolState,
    queue: seq<TaskId>,
    idle: int,
    pcs: seq<Pc>,
    tasks: seq<Task>,
    now: nat,
    enqueued: seq<TaskId>,
    picks: seq<Pick>,
    starts: seq<Start>)

  datatype Action =
    | Create(task: Task)
    | Tick(d: nat)
    | AdderLock(t: TaskId) | AdderPush | AdderNotify(wake: Option<nat>) | AdderUnlock
    | StopLock | StopSet | StopNotifyAll | StopUnlock
    | Spurious(w: nat)
    | Work(w: nat, throws: bool)

  predicate IsBlocked(pc: Pc) { pc.Blocked? }
  predicate IsNotified(pc: Pc) { pc.Notified? }

  /** The places where a worker owns the mutex. */
  predicate Holds(pc: Pc) {
    pc.LoopTop? || pc.TestQueue? || pc.Counted? || pc.Woken? || pc.Uncount? || pc.Taking? || pc.Holding?
  }

  /** The places where a worker wants the mutex. */
  predicate Wants(pc: Pc) {
    pc.Entering? || pc.Notified? || pc.Returning?
  }

  predicate NewTask(t: Task) {
    t.state == Waiting && t.WellFormed()
  }

  /** The state right after Init has started `n` workers. */
  function Initial(n: nat, now: nat): Pool {
    Pool(Free, RUN, [], 0, seq(n, i => Entering), [], now, [], [], [])
  }

  predicate WorkEnabled(s: Pool, w: nat)
    requires w < |s.pcs|
  {
    var pc := s.pcs[w];
    if Wants(pc) then s.owner == Free
    else !pc.Blocked? && !pc.Exited?
  }

  predicate Enabled(s: Pool, a: Action) {
    match a
    case Create(t) => NewTask(t)
    case Tick(_) => true
    case AdderLock(t) => s.owner == Free && t < |s.tasks|
    case AdderPush => s.owner.ByAdder? && s.owner.stage == ToPush
    case AdderNotify(wake) =>
      && s.owner.ByAdder? && s.owner.stage == ToNotify
      && (match wake
          case Some(w) => s.idle > 0 && w < |s.pcs| && s.pcs[w].Blocked?
          case None => s.idle > 0 ==> forall w :: 0 <= w < |s.pcs| ==> !s.pcs[w].Blocked?)
    case AdderUnlock => s.owner.ByAdder? && s.owner.stage == ToUnlock
    case StopLock => s.owner == Free
    case StopSet => s.owner == ByStopper(ToSet)
    case StopNotifyAll => s.owner == ByStopper(ToNotifyAll)
    case StopUnlock => s.owner == ByStopper(ToRelease)
    case Spurious(w) => w < |s.pcs| && s.pcs[w].Blocked?
    case Work(w, _) => w < |s.pcs| && WorkEnabled(s, w)
  }

  function Wake(pc: Pc): Pc {
    if pc.Blocked? then Notified else pc
  }

  function WakeAll(pcs: seq<Pc>): seq<Pc> {
    seq(|pcs|, i requires 0 <= i < |pcs| => Wake(pcs[i]))
  }

  /** Control flow: where worker `w` goes next. */
  function NextPc(s: Pool, w: nat, throws: bool): Pc
    requires w < |s.pcs|
  {
    var pc := s.pcs[w];
    match pc
    case Entering => LoopTop
    case Returning => LoopTop
    case Notified => Woken
    case LoopTop => TestQueue(s.phase == RUN)
    case TestQueue(sv) => if sv && s.queue == [] then Counted else Taking(sv)
    case Counted => Blocked
    case Woken => Uncount(s.phase == RUN)
    case Uncount(sv) => TestQueue(sv)
    case Taking(sv) => if !sv then Exited else if s.queue == [] then LoopTop else Holding(s.queue[0])
    case Holding(t) =>
      if t < |s.tasks| && s.tasks[t].state == Executing then ToRun(t)
      else if t < |s.tasks| && s.tasks[t].state == TimedOut && s.tasks[t].timed then ToExpire(t)
      else LoopTop
    case ToRun(t) => if t < |s.tasks| && s.tasks[t].state == Executing then InBody(t) else Returning
    case InBody(t) => Returning
    case ToExpire(t) => if t < |s.tasks| && s.tasks[t].state == TimedOut then InExpire(t) else Returning
    case InExpire(t) => Returning
    case Blocked => Blocked
    case Exited => Exited
  }

  /** The step dequeues the front task. */
  predicate Takes(s: Pool, w: nat)
    requires w < |s.pcs|
  {
    s.pcs[w] == Taking(true) && s.queue != []
  }

  /** Leaving these places gives up the mutex: by waiting, by unlocking, or by ending the loop. */
  predicate GivesUp(pc: Pc) {
    pc.Blocked? || pc.ToRun? || pc.ToExpire? || pc.Exited?
  }

  function NextOwner(owner: Owner, w: nat, pc: Pc, pc': Pc): Owner {
    if Wants(pc) then ByWorker(w) else if GivesUp(pc') then Free else owner
  }

  function NextIdle(idle: int, pc: Pc, pc': Pc): int {
    if pc'.Counted? then idle + 1 else if pc.Uncount? then idle - 1 else idle
  }

  function NextTasks(s: Pool, w: nat, throws: bool): seq<Task>
    requires w < |s.pcs|
  {
    match s.pcs[w]
    case Taking(_) =>
      if Takes(s, w) && s.queue[0] < |s.tasks| && s.tasks[s.queue[0]].WellFormed()
      then s.tasks[s.queue[0] := s.tasks[s.queue[0]].Judge(s.now)] else s.tasks
    case InBody(t) =>
      if !throws && t < |s.tasks| then s.tasks[t := s.tasks[t].(state := Complete)] else s.tasks
    case InExpire(t) =>
      if t < |s.tasks| then s.tasks[t := s.tasks[t].(state := Complete)] else s.tasks
    case _ => s.tasks
  }

  function NextStarts(starts: seq<Start>, pc': Pc): seq<Start> {
    match pc'
    case InBody(t) => starts + [Start(t, BodyCall)]
    case InExpire(t) => starts + [Start(t, ExpireCall)]
    case _ => starts
  }

  /** One step of worker `w`; which one depends only on where it is. */
  function WorkStep(s: Pool, w: nat, throws: bool): Pool
    requires w < |s.pcs|
  {
    var pc, pc' := s.pcs[w], NextPc(s, w, throws);
    s.(pcs := s.pcs[w := pc'],
       owner := NextOwner(s.owner, w, pc, pc'),
       idle := NextIdle(s.idle, pc, pc'),
       queue := if Takes(s, w) then s.queue[1..] else s.queue,
       tasks := NextTasks(s, w, throws),
       picks := if Takes(s, w) then s.picks + [Pick(s.queue[0], s.now)] else s.picks,
       starts := NextStarts(s.starts, pc'))
  }

  function Apply(s: Pool, a: Action): Pool
    requires Enabled(s, a)
  {
    match a
    case Create(t) => s.(tasks := s.tasks + [t])
    case Tick(d) => s.(now := s.now + d)
    case AdderLock(t) => s.(owner := ByAdder(t, ToPush))
    case AdderPush =>
      s.(owner := ByAdder(s.owner.task, ToNotify),
         queue := s.queue + [s.owner.task], enqueued := s.enqueued + [s.owner.task])
    case AdderNotify(wake) =>
      var s1 := s.(owner := ByAdder(s.owner.task, ToUnlock));
      if wake.Some? then s1.(pcs := s.pcs[wake.value := Notified]) else s1
    case AdderUnlock => s.(owner := Free)
    case StopLock => s.(owner := ByStopper(ToSet))
    case StopSet => s.(owner := ByStopper(ToNotifyAll), phase := STOP)
    case StopNotifyAll => s.(owner := ByStopper(ToRelease), pcs := WakeAll(s.pcs))
    case StopUnlock => s.(owner := Free)
    case Spurious(w) => s.(pcs := s.pcs[w := Notified])
    case Work(w, throws) => WorkStep(s, w, throws)
  }

  /** The state after a whole run, or None when some action of it is not enabled. */
  function Exec(s: Pool, run: seq<Action>): Option<Pool> {
    if run == [] then Some(s)
    else
      var p := Exec(s, run[..|run| - 1]);
      if p.Some? && Enabled(p.value, run[|run| - 1]) then Some(Apply(p.value, run[|run| - 1])) else None
  }

  lemma {:induction false} ExecSnoc(s: Pool, run: seq<Action>, a: Action)
    requires Exec(s, run).Some? && Enabled(Exec(s, run).value, a)
    ensures Exec(s, run + [a]) == Some(Apply(Exec(s, run).value, a))
  {
    assert (run + [a])[..|run + [a]| - 1] == run;
  }

  /** `s` can be reached from the start-up state of a pool with `n` workers. */
  ghost predicate Reachable(n: nat, s: Pool) {
    exists t0: nat, run :: Exec(Initial(n, t0), run) == Some(s)
  }

  function Ids(picks: seq<Pick>): (ids: seq<TaskId>)
    ensures |ids| == |picks|
    ensures forall i :: 0 <= i < |ids| ==> ids[i] == picks[i].task
  {
    seq(|picks|, i requires 0 <= i < |picks| => picks[i].task)
  }
}
