/**
 The IO thread: functors submitted by any thread, announced by one byte on a nonblocking
 socket pair, and run in batches by the event handler.  As for the pool, one step is one
 source statement, and a run is any interleaving.
 */
module IoModel {
  import opened Prelude

  /** What the service submits: send `body` as the reply to `request`. */
  datatype Functor = Reply(request: nat, body: string)

  /** The most bytes one handler call reads. */
  const READ_SIZE := 24

  datatype SubmitStage = ToPush | ToCount | ToSend | ToUnlock

  datatype Owner = Free | BySubmitter(f: Functor, at: SubmitStage) | ByIo

  datatype Pc =
    | Polling     // in the event loop
    | Woken       // has read from the pipe, wants the mutex
    | Swapping    // holds it, about to swap
    | Swapped     // holds it, about to leave the scope
    | Draining    // running the batch
    | Counting    // a functor has returned, its decrement is due

  /** `submitted` and `executed` record history; `base` is the counter's arbitrary initial value. */
  datatype Io = Io(
    owner: Owner,
    pc: Pc,
    functors: seq<Functor>,
    batch: seq<Functor>,
    bytes: nat,
    capacity: nat,
    pending: int,
    base: int,
    submitted: seq<Functor>,
    executed: seq<Functor>)

  datatype Action = Submit(f: Functor) | SubmitterStep | IoStep

  function Initial(capacity: nat, base: int): Io {
    Io(Free, Polling, [], [], 0, capacity, base, base, [], [])
  }

  predicate IoEnabled(s: Io) {
    match s.pc
    case Polling => s.bytes > 0
    case Woken => s.owner == Free
    case _ => true
  }

  predicate Enabled(s: Io, a: Action) {
    match a
    case Submit(_) => s.owner == Free
    case SubmitterStep => s.owner.BySubmitter?
    case IoStep => IoEnabled(s)
  }

  function Min(a: nat, b: nat): nat { if a < b then a else b }

  function SubmitterNext(s: Io): Io
    requires s.owner.BySubmitter?
  {
    var f := s.owner.f;
    match s.owner.at
    case ToPush => s.(owner := BySubmitter(f, ToCount), functors := s.functors + [f], submitted := s.submitted + [f])
    case ToCount => s.(owner := BySubmitter(f, ToSend), pending := s.pending + 1)
    // a full buffer makes the nonblocking send fail, and the failure is ignored
    case ToSend => s.(owner := BySubmitter(f, ToUnlock), bytes := Min(s.bytes + 1, s.capacity))
    case ToUnlock => s.(owner := Free)
  }

  function IoNext(s: Io): Io {
    match s.pc
    case Polling => s.(pc := Woken, bytes := s.bytes - Min(READ_SIZE, s.bytes))
    case Woken => s.(pc := Swapping, owner := ByIo)
    case Swapping => s.(pc := Swapped, functors := s.batch, batch := s.functors)
    case Swapped => s.(pc := Draining, owner := Free)
    case Draining =>
      if s.batch == [] then s.(pc := Polling)
      else s.(pc := Counting, executed := s.executed + [s.batch[0]], batch := s.batch[1..])
    case Counting => s.(pc := Draining, pending := s.pending - 1)
  }

  function Apply(s: Io, a: Action): Io
    requires Enabled(s, a)
  {
    match a
    case Submit(f) => s.(owner := BySubmitter(f, ToPush))
    case SubmitterStep => SubmitterNext(s)
    case IoStep => IoNext(s)
  }

  function Exec(s: Io, run: seq<Action>): Option<Io> {
    if run == [] then Some(s)
    else
      var p := Exec(s, run[..|run| - 1]);
      if p.Some? && Enabled(p.value, run[|run| - 1]) then Some(Apply(p.value, run[|run| - 1])) else None
  }

  ghost predicate Reachable(capacity: nat, s: Io) {
    exists base: int, run :: Exec(Initial(capacity, base), run) == Some(s)
  }

  lemma {:induction false} ExecSnoc(s: Io, run: seq<Action>, a: Action)
    requires Exec(s, run).Some? && Enabled(Exec(s, run).value, a)
    ensures Exec(s, run + [a]) == Some(Apply(Exec(s, run).value, a))
  {
    assert (run + [a])[..|run + [a]| - 1] == run;
  }

  // ----- the invariant -----

  ghost predicate Locking(s: Io) {
    s.owner == ByIo <==> s.pc.Swapping? || s.pc.Swapped?
  }

  /** A functor that is waiting has been announced, is about to be, or is about to be fetched. */
  ghost predicate Announced(s: Io) {
    s.functors != [] ==>
      || s.bytes > 0
      || s.pc.Woken? || s.pc.Swapping?
      || (s.owner.BySubmitter? && (s.owner.at == ToCount || s.owner.at == ToSend))
  }

  ghost predicate InOrder(s: Io) {
    && s.submitted == s.executed + s.batch + s.functors
    && (s.batch != [] ==> s.pc.Swapped? || s.pc.Draining? || s.pc.Counting?)
  }

  ghost predicate Counted(s: Io) {
    s.pending == s.base + |s.functors| + |s.batch|
                 + (if s.pc.Counting? then 1 else 0)
                 - (if s.owner.BySubmitter? && s.owner.at == ToCount then 1 else 0)
  }

  ghost predicate Inv(s: Io) {
    Locking(s) && Announced(s) && InOrder(s) && Counted(s) && s.bytes <= s.capacity && s.capacity > 0
  }

  lemma {:induction false} StepInv(s: Io, a: Action)
    requires Inv(s) && Enabled(s, a)
    ensures Inv(Apply(s, a))
  {
    if a == IoStep && s.pc.Draining? && s.batch != [] {
      assert s.batch == [s.batch[0]] + s.batch[1..];
    }
  }

  lemma {:induction false} RunInv(s: Io, run: seq<Action>)
    requires Inv(s) && Exec(s, run).Some?
    ensures Inv(Exec(s, run).value)
  {
    if run != [] {
      RunInv(s, run[..|run| - 1]);
      StepInv(Exec(s, run[..|run| - 1]).value, run[|run| - 1]);
    }
  }

  lemma {:induction false} ReachableInv(capacity: nat, s: Io)
    requires capacity > 0 && Reachable(capacity, s)
    ensures Inv(s)
  {
    var base: int, run :| Exec(Initial(capacity, base), run) == Some(s);
    RunInv(Initial(capacity, base), run);
  }

  // ----- what it means -----

  /** With the mutex free, a waiting functor always has a byte in the pipe, or the IO thread has
      already read one and has yet to swap, however many sends failed and bytes were merged. */
  lemma {:induction false} NoStrandedFunctor(capacity: nat, s: Io)
    requires capacity > 0 && Reachable(capacity, s) && s.owner == Free && s.functors != []
    ensures s.bytes > 0 || s.pc.Woken?
    ensures IoEnabled(s)
  {
    ReachableInv(capacity, s);
  }

  /** Execution order is submission order; nothing is lost or run twice; the counter is exact. */
  lemma {:induction false} OrderAndCount(capacity: nat, s: Io)
    requires capacity > 0 && Reachable(capacity, s)
    ensures s.submitted == s.executed + s.batch + s.functors
    ensures s.owner == Free && !s.pc.Counting? ==> s.pending - s.base == |s.submitted| - |s.executed|
  {
    ReachableInv(capacity, s);
  }

  /** The functors submitted by a run, in the order in which their submitters got the lock. */
  function Submitted(run: seq<Action>): seq<Functor> {
    if run == [] then []
    else Submitted(run[..|run| - 1]) + if run[|run| - 1].Submit? then [run[|run| - 1].f] else []
  }

  function ToBePushed(owner: Owner): seq<Functor> {
    if owner.BySubmitter? && owner.at == ToPush then [owner.f] else []
  }

  lemma {:induction false} StepSubmitted(s: Io, a: Action)
    requires Enabled(s, a) && Locking(s)
    ensures Apply(s, a).submitted + ToBePushed(Apply(s, a).owner) ==
            s.submitted + ToBePushed(s.owner) + if a.Submit? then [a.f] else []
  {
  }

  /** Over whole runs: the functors submitted are those executed, in order, then the batch, those pending and the one
      being pushed. */
  lemma {:induction false} SubmittedInOrder(capacity: nat, base: int, run: seq<Action>)
    requires capacity > 0 && Exec(Initial(capacity, base), run).Some?
    ensures var s := Exec(Initial(capacity, base), run).value;
      Submitted(run) == s.executed + s.batch + s.functors + ToBePushed(s.owner)
  {
    if run != [] {
      var front := run[..|run| - 1];
      var s := Exec(Initial(capacity, base), front).value;
      SubmittedInOrder(capacity, base, front);
      assert Reachable(capacity, s) && Reachable(capacity, Exec(Initial(capacity, base), run).value);
      ReachableInv(capacity, s);
      OrderAndCount(capacity, s);
      OrderAndCount(capacity, Exec(Initial(capacity, base), run).value);
      StepSubmitted(s, run[|run| - 1]);
    }
  }

  /** The IO thread comes to rest only when everything submitted has been executed. */
  lemma {:induction false} RestMeansExecuted(capacity: nat, s: Io)
    requires capacity > 0 && Reachable(capacity, s) && s.owner == Free && !IoEnabled(s)
    ensures s.executed == s.submitted && s.pending == s.base
  {
    ReachableInv(capacity, s);
  }

  // ----- draining -----

  /** One whole firing of the handler, seen from the event loop. */
  function Fire(s: Io): Io {
    s.(bytes := s.bytes - Min(READ_SIZE, s.bytes), executed := s.executed + s.functors, functors := [],
       pending := s.pending - |s.functors|)
  }

  function FireTimes(s: Io, k: nat): Io {
    if k == 0 then s else Fire(FireTimes(s, k - 1))
  }

  predicate IoOnly(run: seq<Action>) {
    forall i :: 0 <= i < |run| ==> run[i] == IoStep
  }

  lemma {:induction false} OneStep(s: Io, run: seq<Action>, p: Io) returns (run': seq<Action>)
    requires Exec(s, run) == Some(p) && IoOnly(run) && IoEnabled(p)
    ensures Exec(s, run') == Some(IoNext(p)) && IoOnly(run')
  {
    ExecSnoc(s, run, IoStep);
    run' := run + [IoStep];
  }

  lemma {:induction false} DrainBatch(s: Io, run: seq<Action>, p: Io) returns (run': seq<Action>)
    requires Exec(s, run) == Some(p) && IoOnly(run) && p.pc == Draining
    ensures IoOnly(run')
    ensures Exec(s, run') == Some(p.(pc := Polling, executed := p.executed + p.batch, batch := [],
                                     pending := p.pending - |p.batch|))
    decreases |p.batch|
  {
    run' := OneStep(s, run, p);
    if p.batch == [] {
      assert p.executed + p.batch == p.executed;
    } else {
      var q := IoNext(p);
      run' := OneStep(s, run', q);
      assert p.batch == [p.batch[0]] + p.batch[1..];
      assert p.executed + p.batch == p.executed + [p.batch[0]] + p.batch[1..];
      run' := DrainBatch(s, run', IoNext(q));
    }
  }

  /** The critical section: the pending functors become the batch. */
  lemma {:induction false} SwapBatch(s: Io, run: seq<Action>, p: Io) returns (run': seq<Action>)
    requires Exec(s, run) == Some(p) && IoOnly(run)
    requires p.pc == Woken && p.owner == Free && p.batch == []
    ensures Exec(s, run') == Some(p.(pc := Draining, functors := [], batch := p.functors)) && IoOnly(run')
  {
    run' := OneStep(s, run, p);
    var q := p.(pc := Swapping, owner := ByIo);
    run' := OneStep(s, run', q);
    run' := OneStep(s, run', q.(pc := Swapped, functors := [], batch := p.functors));
  }

  /** A firing is a run of the IO thread alone. */
  lemma {:induction false} FireIsRun(s: Io, run: seq<Action>, p: Io) returns (run': seq<Action>)
    requires Exec(s, run) == Some(p) && IoOnly(run)
    requires p.pc == Polling && p.owner == Free && p.bytes > 0 && p.batch == []
    ensures Exec(s, run') == Some(Fire(p)) && IoOnly(run')
  {
    run' := OneStep(s, run, p);
    var q := p.(pc := Woken, bytes := p.bytes - Min(READ_SIZE, p.bytes));
    run' := SwapBatch(s, run', q);
    run' := DrainBatch(s, run', q.(pc := Draining, functors := [], batch := p.functors));
  }

  function Firings(bytes: nat): nat {
    (bytes + READ_SIZE - 1) / READ_SIZE
  }

  lemma {:induction false} FireTimesState(s: Io, k: nat)
    requires Inv(s) && s.pc == Polling && s.owner == Free && k <= Firings(s.bytes)
    ensures FireTimes(s, k).bytes == if READ_SIZE * k <= s.bytes then s.bytes - READ_SIZE * k else 0
    ensures FireTimes(s, k).pc == Polling && FireTimes(s, k).owner == Free && FireTimes(s, k).batch == []
    ensures FireTimes(s, k).functors == if k == 0 then s.functors else []
    ensures FireTimes(s, k).executed == if k == 0 then s.executed else s.submitted
    ensures FireTimes(s, k).pending == if k == 0 then s.pending else s.base
  {
    if k > 0 {
      FireTimesState(s, k - 1);
      assert s.executed + s.functors == s.submitted;
      assert s.submitted + [] == s.submitted;
    }
  }

  lemma {:induction false} FireTimesRun(s: Io, k: nat) returns (run: seq<Action>)
    requires Inv(s) && s.pc == Polling && s.owner == Free && k <= Firings(s.bytes)
    ensures IoOnly(run) && Exec(s, run) == Some(FireTimes(s, k))
  {
    run := [];
    if k > 0 {
      run := FireTimesRun(s, k - 1);
      FireTimesState(s, k - 1);
      run := FireIsRun(s, run, FireTimes(s, k - 1));
    }
  }

  /** Once submits stop, ceil(bytes / 24) firings, and no fewer, empty the pipe and execute everything. */
  lemma {:induction false} DrainsInCeiling(capacity: nat, s: Io)
    requires capacity > 0 && Reachable(capacity, s) && s.pc == Polling && s.owner == Free
    ensures var d := FireTimes(s, (s.bytes + 23) / 24);
      && d.bytes == 0 && d.functors == [] && d.batch == [] && d.executed == s.submitted && d.pending == s.base
      && exists run :: IoOnly(run) && Exec(s, run) == Some(d)
    ensures forall k: nat :: k < (s.bytes + 23) / 24 ==> FireTimes(s, k).bytes > 0
  {
    assert Firings(s.bytes) == (s.bytes + 23) / 24;
    ReachableInv(capacity, s);
    FireTimesState(s, Firings(s.bytes));
    var run := FireTimesRun(s, Firings(s.bytes));
    forall k: nat | k < Firings(s.bytes)
      ensures FireTimes(s, k).bytes > 0
    {
      FireTimesState(s, k);
    }
  }
}
