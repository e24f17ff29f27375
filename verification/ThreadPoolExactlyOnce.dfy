/** When exactly a pool runs every task at most once, whatever the bodies do. */
module PoolExactlyOnce {
  import opened Prelude
  import opened Tasks
  import opened PoolModel
  import opened PoolTheorems

  // ----- a run in which every queued entry is run -----

  /** One more than every task number in `e`. */
  function Above(e: seq<TaskId>): (k: nat)
    ensures forall t :: t in e ==> t < k
  {
    if e == [] then 0
    else
      var front, last := e[..|e| - 1], e[|e| - 1];
      assert e == front + [last];
      var k := Above(front);
      if last < k then k else last + 1
  }

  predicate AllUntimed(tasks: seq<Task>) {
    forall t :: 0 <= t < |tasks| ==> tasks[t] == Untimed()
  }

  lemma {:induction false} CreateTasks(n: nat, k: nat) returns (run: seq<Action>, p: Pool)
    ensures Exec(Initial(n, 0), run) == Some(p)
    ensures p == Initial(n, 0).(tasks := p.tasks) && |p.tasks| == k && AllUntimed(p.tasks)
    decreases k
  {
    run, p := [], Initial(n, 0);
    if k > 0 {
      run, p := CreateTasks(n, k - 1);
      ExecSnoc(Initial(n, 0), run, Create(Untimed()));
      run := run + [Create(Untimed())];
      p := p.(tasks := p.tasks + [Untimed()]);
    }
  }

  /** Everything is added before any worker has come in. */
  lemma {:induction false} AddAll(n: nat, k: nat, e: seq<TaskId>) returns (run: seq<Action>, p: Pool)
    requires forall t :: t in e ==> t < k
    ensures Exec(Initial(n, 0), run) == Some(p)
    ensures p == Initial(n, 0).(tasks := p.tasks, queue := e, enqueued := e) && |p.tasks| == k && AllUntimed(p.tasks)
    decreases |e|
  {
    if e == [] {
      run, p := CreateTasks(n, k);
    } else {
      var front, last := e[..|e| - 1], e[|e| - 1];
      assert e == front + [last] && last in e && forall t :: t in front ==> t in e;
      run, p := AddAll(n, k, front);
      run := AddWhileNobodyIdle(Initial(n, 0), run, p, last);
      p := p.(queue := e, enqueued := e);
    }
  }

  function BodyStarts(e: seq<TaskId>): seq<Start> {
    if e == [] then [] else BodyStarts(e[..|e| - 1]) + [Start(e[|e| - 1], BodyCall)]
  }

  /** Worker 0 has run the first `i` entries of `e`, each with a body that threw. */
  ghost predicate Taken(s: Pool, e: seq<TaskId>, i: nat) {
    && i <= |e| && s.owner == Free && s.phase == RUN
    && |s.pcs| > 0 && (s.pcs[0] == Entering || s.pcs[0] == Returning)
    && s.queue == e[i..] && s.enqueued == e && s.starts == BodyStarts(e[..i])
    && forall t :: t in e ==>
         t < |s.tasks| && (s.tasks[t] == Untimed() || s.tasks[t] == Untimed().(state := Executing))
  }

  /** The body throws, and the task stays as it is. */
  lemma {:induction false} BodyThrows(s: Pool, run: seq<Action>, p: Pool, t: TaskId) returns (run': seq<Action>, q: Pool)
    requires Exec(s, run) == Some(p) && |p.pcs| > 0 && p.pcs[0] == InBody(t)
    ensures Exec(s, run') == Some(q) && q == p.(pcs := p.pcs[0 := Returning])
  {
    ExecSnoc(s, run, Work(0, true));
    run', q := run + [Work(0, true)], WorkStep(p, 0, true);
  }

  lemma {:induction false} TakeNext(s: Pool, run: seq<Action>, p: Pool, e: seq<TaskId>, i: nat)
    returns (run': seq<Action>, q: Pool)
    requires Exec(s, run) == Some(p) && Taken(p, e, i) && i < |e|
    ensures Exec(s, run') == Some(q) && Taken(q, e, i + 1)
  {
    var t := e[i];
    assert t in e && p.queue[0] == t && e[i..][1..] == e[i + 1..];
    var r;
    run', r := WorkerEntersBody(s, run, p, 0);
    run', q := BodyThrows(s, run', r, t);
    assert e[..i + 1][..i] == e[..i];
    assert q.starts == BodyStarts(e[..i + 1]);
  }

  lemma {:induction false} TakeAll(s: Pool, run: seq<Action>, p: Pool, e: seq<TaskId>, i: nat)
    returns (run': seq<Action>, q: Pool)
    requires Exec(s, run) == Some(p) && Taken(p, e, i)
    ensures Exec(s, run') == Some(q) && Taken(q, e, |e|)
    decreases |e| - i
  {
    run', q := run, p;
    if i < |e| {
      run', q := TakeNext(s, run, p, e, i);
      run', q := TakeAll(s, run', q, e, i + 1);
    }
  }

  /** With any worker at all, some run enters a body once for every entry of the history. */
  lemma {:induction false} EveryEntryCanRun(n: nat, e: seq<TaskId>) returns (q: Pool)
    requires n > 0
    ensures Reachable(n, q) && q.enqueued == e && q.starts == BodyStarts(e)
  {
    var run, p := AddAll(n, Above(e), e);
    assert Taken(p, e, 0) by {
      assert e[0..] == e && e[..0] == [];
    }
    run, q := TakeAll(Initial(n, 0), run, p, e, 0);
    assert e[..|e|] == e;
  }

  // ----- counting -----

  lemma {:induction false} EntriesAre(e: seq<TaskId>, t: TaskId)
    ensures Entries(BodyStarts(e), t) == multiset(e)[t]
  {
    if e != [] {
      var front, last := e[..|e| - 1], e[|e| - 1];
      assert e == front + [last];
      EntriesAre(front, t);
    }
  }

  lemma {:induction false} RepeatCounts(e: seq<TaskId>, i: nat, j: nat)
    requires i < j < |e| && e[i] == e[j]
    ensures multiset(e)[e[i]] >= 2
  {
    assert e == e[..j] + e[j..];
    assert e[i] in e[..j] && e[j] in e[j..] by {
      assert e[..j][i] == e[i] && e[j..][0] == e[j];
    }
    assert multiset(e[..j])[e[i]] >= 1 && multiset(e[j..])[e[i]] >= 1;
  }

  /** The exact condition.  Among the histories of added tasks, those after which no task can have been run twice,
      whatever the interleaving and whichever bodies throw, are those without a repetition.  (A pool without
      workers runs nothing.) */
  lemma {:induction false} ExactlyOnceExact(n: nat, e: seq<TaskId>)
    requires n > 0
    ensures (forall s, t :: Reachable(n, s) && s.enqueued == e ==> Entries(s.starts, t) <= 1) <==> Distinct(e)
  {
    if Distinct(e) {
      forall s, t | Reachable(n, s) && s.enqueued == e
        ensures Entries(s.starts, t) <= 1
      {
        ExactlyOnce(n, s, t);
      }
    } else {
      var i, j :| 0 <= i < j < |e| && e[i] == e[j];
      var q := EveryEntryCanRun(n, e);
      RepeatCounts(e, i, j);
      EntriesAre(e, e[i]);
      assert Entries(q.starts, e[i]) > 1;
    }
  }

  /** In particular one task added twice can be run twice, */
  lemma {:induction false} AddedTwiceRunsTwice(n: nat, t: TaskId)
    requires n > 0
    ensures exists s :: Reachable(n, s) && s.enqueued == [t, t] && Entries(s.starts, t) == 2
  {
    var q := EveryEntryCanRun(n, [t, t]);
    EntriesAre([t, t], t);
    assert Reachable(n, q) && q.enqueued == [t, t] && Entries(q.starts, t) == 2;
  }

  /** and with two workers even twice at a time. */
  lemma {:induction false} AddedTwiceRunsTogether()
    ensures exists s :: Reachable(2, s) && s.enqueued == [0, 0] && s.pcs == [InBody(0), InBody(0)]
  {
    var run, p := AddAll(2, 1, [0, 0]);
    var q, r;
    run, q := WorkerEntersBody(Initial(2, 0), run, p, 0);
    assert q.queue == [0];
    run, r := WorkerEntersBody(Initial(2, 0), run, q, 1);
    assert r.pcs == [InBody(0), InBody(0)];
    assert Reachable(2, r);
  }
}
