/** The IO thread's methods in their own shape; each call, run without interference, is a run of the machine. */
module IoCode {
  import opened Prelude
  import opened IoModel

  lemma {:induction false} OneFurther(fs: seq<Functor>, i: nat, before: seq<Functor>)
    requires i < |fs|
    ensures fs[i..] != [] && fs[i..][0] == fs[i] && fs[i..][1..] == fs[i + 1..]
    ensures before + fs[..i] + [fs[i]] == before + fs[..i + 1]
  {
  }

  class IoThread {
    var owner: Owner
    var pc: Pc
    var taskFunctors: seq<Functor>
    var bytes: nat
    const capacity: nat
    var pendingFunctorCount: int
    var running: seq<Functor>
    ghost const base: int
    ghost var submitted: seq<Functor>
    ghost var executed: seq<Functor>

    ghost function S(): Io
      reads this
    {
      Io(owner, pc, taskFunctors, running, bytes, capacity, pendingFunctorCount, base, submitted, executed)
    }

    constructor(room: nat, junk: int)
      ensures S() == Initial(room, junk)
    {
      owner, pc, taskFunctors, bytes, capacity, running := Free, Polling, [], 0, room, [];
      pendingFunctorCount, base := junk, junk;
      submitted, executed := [], [];
    }

    /** A one-byte nonblocking send; failure on a full buffer is ignored. */
    method EventNotify()
      requires bytes <= capacity
      modifies this`bytes
      ensures bytes == Min(old(bytes) + 1, capacity)
    {
      if bytes < capacity {
        bytes := bytes + 1;
      }
    }

    /** One statement, recorded as one step of the machine. */
    ghost method Record(s0: Io, p: Io, run: seq<Action>, a: Action) returns (run': seq<Action>)
      requires Exec(s0, run) == Some(p) && Enabled(p, a) && S() == Apply(p, a)
      ensures Exec(s0, run') == Some(S())
    {
      ExecSnoc(s0, run, a);
      run' := run + [a];
    }

    /** The first two lines of Submit. */
    method Push(f: Functor) returns (ghost run: seq<Action>)
      requires owner == Free
      modifies this`owner, this`taskFunctors, this`submitted
      ensures Exec(old(S()), run) == Some(S())
      ensures owner == BySubmitter(f, ToCount)
      ensures taskFunctors == old(taskFunctors) + [f] && submitted == old(submitted) + [f]
    {
      ghost var s0 := S();
      owner := BySubmitter(f, ToPush);
      run := Record(s0, s0, [], IoModel.Submit(f));
      ghost var p := S();
      taskFunctors := taskFunctors + [f];
      submitted := submitted + [f];
      owner := BySubmitter(f, ToCount);
      run := Record(s0, p, run, SubmitterStep);
    }

    /** Its last two lines, and the unlock. */
    method CountAndNotify(f: Functor, ghost s0: Io, ghost run: seq<Action>) returns (ghost run': seq<Action>)
      requires Exec(s0, run) == Some(S()) && owner == BySubmitter(f, ToCount) && bytes <= capacity
      modifies this`owner, this`pendingFunctorCount, this`bytes
      ensures Exec(s0, run') == Some(S())
      ensures owner == Free && pendingFunctorCount == old(pendingFunctorCount) + 1
      ensures bytes == Min(old(bytes) + 1, capacity)
    {
      ghost var p := S();
      pendingFunctorCount := pendingFunctorCount + 1;
      owner := BySubmitter(f, ToSend);
      run' := Record(s0, p, run, SubmitterStep);
      p := S();
      EventNotify();
      owner := BySubmitter(f, ToUnlock);
      run' := Record(s0, p, run', SubmitterStep);
      p := S();
      owner := Free;
      run' := Record(s0, p, run', SubmitterStep);
    }

    method Submit(f: Functor) returns (ghost run: seq<Action>)
      requires Inv(S()) && owner == Free
      modifies this
      ensures Exec(old(S()), run) == Some(S()) && Inv(S())
      ensures owner == Free && pc == old(pc) && running == old(running) && executed == old(executed)
      ensures taskFunctors == old(taskFunctors) + [f] && pendingFunctorCount == old(pendingFunctorCount) + 1
      ensures bytes == Min(old(bytes) + 1, capacity)
    {
      ghost var s0 := S();
      run := Push(f);
      run := CountAndNotify(f, s0, run);
      RunInv(s0, run);
    }

    /** The critical section of ExecuteTask: swap the pending functors with an empty vector. */
    method TakeAll(ghost s0: Io, ghost run: seq<Action>) returns (functors: seq<Functor>, ghost run': seq<Action>)
      requires Exec(s0, run) == Some(S()) && IoOnly(run)
      requires owner == Free && pc == Woken && running == []
      modifies this
      ensures Exec(s0, run') == Some(S()) && IoOnly(run')
      ensures S() == old(S()).(pc := Draining, functors := [], batch := functors) && functors == old(taskFunctors)
    {
      run' := SwapBatch(s0, run, S());
      owner, pc := ByIo, Swapping;
      functors := [];
      taskFunctors, functors := functors, taskFunctors;
      running := functors;
      pc := Swapped;
      owner, pc := Free, Draining;
    }

    /** The loop body of ExecuteTask: run one functor, then count it off. */
    method RunOne(f: Functor, ghost s0: Io, ghost run: seq<Action>) returns (ghost run': seq<Action>)
      requires Exec(s0, run) == Some(S()) && IoOnly(run)
      requires pc == Draining && running != [] && f == running[0]
      modifies this
      ensures Exec(s0, run') == Some(S()) && IoOnly(run')
      ensures S() == old(S()).(batch := old(running)[1..], executed := old(executed) + [f],
                               pending := old(pendingFunctorCount) - 1)
    {
      run' := OneStep(s0, run, S());
      executed := executed + [f];
      running := running[1..];
      pc := Counting;
      run' := OneStep(s0, run', S());
      pendingFunctorCount := pendingFunctorCount - 1;
      pc := Draining;
    }

    /** Swap the pending functors out under the mutex, then run them with it released. */
    method ExecuteTask(ghost s0: Io, ghost run: seq<Action>) returns (ghost run': seq<Action>)
      requires Exec(s0, run) == Some(S()) && IoOnly(run)
      requires owner == Free && pc == Woken && running == []
      modifies this
      ensures Exec(s0, run') == Some(S()) && IoOnly(run')
      ensures S() == old(S()).(pc := Polling, functors := [], executed := old(executed) + old(taskFunctors),
                               pending := old(pendingFunctorCount) - |old(taskFunctors)|)
    {
      var functors;
      functors, run' := TakeAll(s0, run);
      ghost var p := S();
      for i := 0 to |functors|
        invariant Exec(s0, run') == Some(S()) && IoOnly(run')
        invariant S() == p.(batch := functors[i..], executed := p.executed + functors[..i], pending := p.pending - i)
      {
        OneFurther(functors, i, p.executed);
        run' := RunOne(functors[i], s0, run');
      }
      assert functors[..|functors|] == functors && functors[|functors|..] == [];
      run' := OneStep(s0, run', S());
      pc := Polling;
    }

    /** Called by the event loop when the pipe is readable. */
    method EventHandler() returns (ghost run: seq<Action>)
      requires Inv(S()) && owner == Free && pc == Polling
      modifies this
      ensures Exec(old(S()), run) == Some(S()) && IoOnly(run)
      ensures old(bytes) > 0 ==> S() == Fire(old(S()))
      ensures old(bytes) == 0 ==> S() == old(S())
    {
      ghost var s0 := S();
      run := [];
      var n := Min(READ_SIZE, bytes);
      if n > 0 {
        bytes := bytes - n;
        pc := Woken;
        run := OneStep(s0, run, s0);
        run := ExecuteTask(s0, run);
      }
    }
  }
}
