/** FIFO order, exactly-once execution and the timeout discipline, over every run of the pool. */
module PoolHistory {
  import opened Prelude
  import opened Tasks
  import opened PoolModel
  import opened PoolWakeup

  /** Nothing enqueued is lost, invented or overtaken. */
  ghost predicate Fifo(s: Pool) {
    s.enqueued == Ids(s.picks) + s.queue
  }

  /** The tasks that have been dequeued. */
  function Picked(picks: seq<Pick>): set<TaskId> {
    set p | p in picks :: p.task
  }

  /** The tasks one of whose closures has been entered. */
  function Started(starts: seq<Start>): set<TaskId> {
    set c | c in starts :: c.task
  }

  predicate BeforeStart(pc: Pc) {
    pc.Holding? || pc.ToRun? || pc.ToExpire?
  }

  /** One owner per dequeued task. */
  ghost predicate OneOwner(pcs: seq<Pc>, picked: set<TaskId>) {
    && (forall w :: 0 <= w < |pcs| && Carried(pcs[w]).Some? ==> Carried(pcs[w]).value in picked)
    && (forall v, w :: 0 <= v < w < |pcs| && Carried(pcs[v]).Some? ==> Carried(pcs[v]) != Carried(pcs[w]))
  }

  /** A carried task has been started exactly when its worker is inside a closure, and a dequeued
      task that nobody carries has been started. */
  ghost predicate StartedByOwner(pcs: seq<Pc>, picked: set<TaskId>, started: set<TaskId>) {
    && started <= picked
    && (forall w :: 0 <= w < |pcs| && Carried(pcs[w]).Some? ==>
          (BeforeStart(pcs[w]) <==> Carried(pcs[w]).value !in started))
    && (forall t :: t in picked && t !in started ==> exists w :: 0 <= w < |pcs| && Carried(pcs[w]) == Some(t))
  }

  ghost predicate NoRestart(starts: seq<Start>) {
    forall i, j :: 0 <= i < j < |starts| ==> starts[i].task != starts[j].task
  }

  /** The judgement made at dequeue time stands until the task is entered ... */
  ghost predicate JudgementStands(tasks: seq<Task>, picks: seq<Pick>, started: set<TaskId>) {
    && (forall t :: 0 <= t < |tasks| ==> tasks[t].WellFormed())
    && (forall p :: p in picks ==> p.task < |tasks|)
    && (forall t :: 0 <= t < |tasks| && t !in Picked(picks) ==> tasks[t].state == Waiting)
    && (forall p :: p in picks && p.task !in started ==>
          tasks[p.task].state == if tasks[p.task].Late(p.at) then TimedOut else Executing)
  }

  ghost predicate RouteFollows(tasks: seq<Task>, pcs: seq<Pc>) {
    && (forall w :: 0 <= w < |pcs| && pcs[w].ToRun? ==>
          pcs[w].task < |tasks| && tasks[pcs[w].task].state == Executing)
    && (forall w :: 0 <= w < |pcs| && pcs[w].ToExpire? ==>
          pcs[w].task < |tasks| && tasks[pcs[w].task].state == TimedOut)
  }

  /** ... and decides which closure that is. */
  ghost predicate RightClosure(tasks: seq<Task>, picks: seq<Pick>, starts: seq<Start>) {
    && (forall t :: 0 <= t < |tasks| ==> tasks[t].WellFormed())
    && (forall p :: p in picks ==> p.task < |tasks|)
    && forall p, c :: p in picks && c in starts && p.task == c.task ==>
         c.call == if tasks[p.task].Late(p.at) then ExpireCall else BodyCall
  }

  ghost predicate Once(s: Pool) {
    && OneOwner(s.pcs, Picked(s.picks))
    && StartedByOwner(s.pcs, Picked(s.picks), Started(s.starts))
    && NoRestart(s.starts)
    && JudgementStands(s.tasks, s.picks, Started(s.starts))
    && RouteFollows(s.tasks, s.pcs)
    && RightClosure(s.tasks, s.picks, s.starts)
  }

  lemma {:induction false} StepFifo(s: Pool, a: Action)
    requires Fifo(s) && Enabled(s, a)
    ensures Fifo(Apply(s, a))
  {
    var s' := Apply(s, a);
    if s'.picks != s.picks {
      assert s'.picks == s.picks + [s'.picks[|s.picks|]];
      assert Ids(s'.picks) == Ids(s.picks) + [s.queue[0]];
    }
  }

  /** With no task added twice, the task at the head of the queue has never been dequeued. */
  lemma {:induction false} HeadNotPicked(s: Pool)
    requires Fifo(s) && Distinct(s.enqueued) && s.queue != []
    ensures s.queue[0] !in Picked(s.picks)
  {
    forall p | p in s.picks
      ensures p.task != s.queue[0]
    {
      var k :| 0 <= k < |s.picks| && s.picks[k] == p;
      assert s.enqueued[k] == p.task;
      assert s.enqueued[|s.picks|] == s.queue[0];
    }
  }

  lemma {:induction false} PickedGrows(picks: seq<Pick>, p: Pick)
    ensures Picked(picks + [p]) == Picked(picks) + {p.task}
  {
    assert forall q :: q in picks + [p] <==> q in picks || q == p;
  }

  lemma {:induction false} StartedGrows(starts: seq<Start>, c: Start)
    ensures Started(starts + [c]) == Started(starts) + {c.task}
  {
    assert forall q :: q in starts + [c] <==> q in starts || q == c;
  }

  /** A move of one worker that keeps what it carries and on which side of the start it is. */
  lemma {:induction false} QuietMove(pcs: seq<Pc>, pcs': seq<Pc>, picked: set<TaskId>, started: set<TaskId>)
    requires OneOwner(pcs, picked) && StartedByOwner(pcs, picked, started)
    requires |pcs'| == |pcs|
    requires forall w :: 0 <= w < |pcs| ==>
      Carried(pcs'[w]) == Carried(pcs[w]) && BeforeStart(pcs'[w]) == BeforeStart(pcs[w])
    ensures OneOwner(pcs', picked) && StartedByOwner(pcs', picked, started)
  {
    forall t | t in picked && t !in started
      ensures exists w :: 0 <= w < |pcs'| && Carried(pcs'[w]) == Some(t)
    {
      var w :| 0 <= w < |pcs| && Carried(pcs[w]) == Some(t);
      assert Carried(pcs'[w]) == Some(t);
    }
  }

  lemma {:induction false} TakeMove(pcs: seq<Pc>, w: nat, t: TaskId, picked: set<TaskId>, started: set<TaskId>)
    requires OneOwner(pcs, picked) && StartedByOwner(pcs, picked, started)
    requires w < |pcs| && Carried(pcs[w]).None? && t !in picked
    ensures OneOwner(pcs[w := Holding(t)], picked + {t})
    ensures StartedByOwner(pcs[w := Holding(t)], picked + {t}, started)
  {
    var pcs' := pcs[w := Holding(t)];
    forall u | u in picked + {t} && u !in started
      ensures exists v :: 0 <= v < |pcs'| && Carried(pcs'[v]) == Some(u)
    {
      if u == t {
        assert Carried(pcs'[w]) == Some(t);
      } else {
        var v :| 0 <= v < |pcs| && Carried(pcs[v]) == Some(u);
        assert Carried(pcs'[v]) == Some(u);
      }
    }
  }

  lemma {:induction false} StartMove(pcs: seq<Pc>, w: nat, pc: Pc, t: TaskId, picked: set<TaskId>, started: set<TaskId>)
    requires OneOwner(pcs, picked) && StartedByOwner(pcs, picked, started)
    requires w < |pcs| && Carried(pcs[w]) == Carried(pc) == Some(t)
    requires BeforeStart(pcs[w]) && !BeforeStart(pc)
    ensures t !in started
    ensures OneOwner(pcs[w := pc], picked) && StartedByOwner(pcs[w := pc], picked, started + {t})
  {
    var pcs' := pcs[w := pc];
    forall u | u in picked && u !in started + {t}
      ensures exists v :: 0 <= v < |pcs'| && Carried(pcs'[v]) == Some(u)
    {
      var v :| 0 <= v < |pcs| && Carried(pcs[v]) == Some(u);
      assert Carried(pcs'[v]) == Some(u);
    }
  }

  lemma {:induction false} FinishMove(pcs: seq<Pc>, w: nat, t: TaskId, picked: set<TaskId>, started: set<TaskId>)
    requires OneOwner(pcs, picked) && StartedByOwner(pcs, picked, started)
    requires w < |pcs| && Carried(pcs[w]) == Some(t) && !BeforeStart(pcs[w])
    ensures t in started
    ensures OneOwner(pcs[w := Returning], picked) && StartedByOwner(pcs[w := Returning], picked, started)
  {
    var pcs' := pcs[w := Returning];
    forall u | u in picked && u !in started
      ensures exists v :: 0 <= v < |pcs'| && Carried(pcs'[v]) == Some(u)
    {
      var v :| 0 <= v < |pcs| && Carried(pcs[v]) == Some(u);
      assert Carried(pcs'[v]) == Some(u);
    }
  }

  lemma {:induction false} TakeJudged(tasks: seq<Task>, picks: seq<Pick>, starts: seq<Start>, t: TaskId, now: nat)
    requires JudgementStands(tasks, picks, Started(starts)) && RightClosure(tasks, picks, starts)
    requires t < |tasks| && t !in Picked(picks) && t !in Started(starts)
    ensures JudgementStands(tasks[t := tasks[t].Judge(now)], picks + [Pick(t, now)], Started(starts))
    ensures RightClosure(tasks[t := tasks[t].Judge(now)], picks + [Pick(t, now)], starts)
  {
    var tasks', picks' := tasks[t := tasks[t].Judge(now)], picks + [Pick(t, now)];
    PickedGrows(picks, Pick(t, now));
    assert forall u :: 0 <= u < |tasks| ==> tasks'[u].timed == tasks[u].timed && tasks'[u].deadline == tasks[u].deadline;
    assert forall p :: p in picks' ==> p == Pick(t, now) || (p in picks && p.task in Picked(picks));
    assert forall c :: c in starts ==> c.task in Started(starts);
  }

  lemma {:induction false} TakeRoute(s: Pool, w: nat)
    requires RouteFollows(s.tasks, s.pcs) && w < |s.pcs| && s.queue != []
    requires OneOwner(s.pcs, Picked(s.picks)) && s.queue[0] !in Picked(s.picks)
    requires s.queue[0] < |s.tasks| && s.tasks[s.queue[0]].WellFormed()
    ensures RouteFollows(s.tasks[s.queue[0] := s.tasks[s.queue[0]].Judge(s.now)], s.pcs[w := Holding(s.queue[0])])
  {
    assert forall v :: 0 <= v < |s.pcs| && Carried(s.pcs[v]).Some? ==> Carried(s.pcs[v]).value != s.queue[0];
  }

  lemma {:induction false} TakeOnce(s: Pool, w: nat, throws: bool)
    requires Once(s) && Fifo(s) && Distinct(s.enqueued) && IdsKnown(s)
    requires w < |s.pcs| && s.pcs[w] == Taking(true) && s.queue != []
    ensures Once(WorkStep(s, w, throws))
  {
    var t := s.queue[0];
    HeadNotPicked(s);
    PickedGrows(s.picks, Pick(t, s.now));
    TakeMove(s.pcs, w, t, Picked(s.picks), Started(s.starts));
    TakeJudged(s.tasks, s.picks, s.starts, t, s.now);
    TakeRoute(s, w);
  }

  lemma {:induction false} StartJudged(tasks: seq<Task>, picks: seq<Pick>, starts: seq<Start>, c: Start, p: Pick)
    requires JudgementStands(tasks, picks, Started(starts)) && RightClosure(tasks, picks, starts) && NoRestart(starts)
    requires p in picks && p.task == c.task && c.task !in Started(starts)
    requires c.task < |tasks| && tasks[c.task].state == if c.call == BodyCall then Executing else TimedOut
    ensures Started(starts + [c]) == Started(starts) + {c.task}
    ensures JudgementStands(tasks, picks, Started(starts + [c]))
    ensures RightClosure(tasks, picks, starts + [c]) && NoRestart(starts + [c])
  {
    StartedGrows(starts, c);
    assert forall k :: 0 <= k < |starts| ==> starts[k].task in Started(starts);
    forall q, d | q in picks && d in starts + [c] && q.task == d.task
      ensures d.call == if tasks[q.task].Late(q.at) then ExpireCall else BodyCall
    {
      if d !in starts {
        assert q.task !in Started(starts);
      }
    }
  }

  lemma {:induction false} FinishRoute(tasks: seq<Task>, pcs: seq<Pc>, w: nat, t: TaskId, picked: set<TaskId>)
    requires RouteFollows(tasks, pcs) && OneOwner(pcs, picked)
    requires w < |pcs| && Carried(pcs[w]) == Some(t) && t < |tasks|
    ensures RouteFollows(tasks, pcs[w := Returning])
    ensures RouteFollows(tasks[t := tasks[t].(state := Complete)], pcs[w := Returning])
  {
    assert forall v :: 0 <= v < |pcs| && v != w && Carried(pcs[v]).Some? ==> Carried(pcs[v]).value != t;
  }

  /** Entering a closure. */
  lemma {:induction false} StartOnce(s: Pool, w: nat, throws: bool)
    requires Once(s) && w < |s.pcs| && (s.pcs[w].ToRun? || s.pcs[w].ToExpire?)
    ensures Once(WorkStep(s, w, throws))
  {
    var s' := WorkStep(s, w, throws);
    var t := s.pcs[w].task;
    var c := Start(t, if s.pcs[w].ToRun? then BodyCall else ExpireCall);
    assert s'.starts == s.starts + [c] && s'.picks == s.picks && s'.tasks == s.tasks;
    var p :| p in s.picks && p.task == t;
    StartMove(s.pcs, w, s'.pcs[w], t, Picked(s.picks), Started(s.starts));
    StartJudged(s.tasks, s.picks, s.starts, c, p);
  }

  lemma {:induction false} FinishJudged(tasks: seq<Task>, picks: seq<Pick>, starts: seq<Start>, t: TaskId)
    requires JudgementStands(tasks, picks, Started(starts)) && RightClosure(tasks, picks, starts)
    requires t < |tasks| && t in Picked(picks) && t in Started(starts)
    ensures JudgementStands(tasks[t := tasks[t].(state := Complete)], picks, Started(starts))
    ensures RightClosure(tasks[t := tasks[t].(state := Complete)], picks, starts)
  {
    var tasks' := tasks[t := tasks[t].(state := Complete)];
    assert forall u :: 0 <= u < |tasks| ==> tasks'[u].timed == tasks[u].timed && tasks'[u].deadline == tasks[u].deadline;
  }

  /** Leaving a closure, normally or by an exception. */
  lemma {:induction false} FinishOnce(s: Pool, w: nat, throws: bool)
    requires Once(s) && IdsKnown(s) && w < |s.pcs| && (s.pcs[w].InBody? || s.pcs[w].InExpire?)
    ensures Once(WorkStep(s, w, throws))
  {
    var t := s.pcs[w].task;
    var s' := WorkStep(s, w, throws);
    assert s'.starts == s.starts && s'.picks == s.picks && s'.pcs == s.pcs[w := Returning];
    FinishMove(s.pcs, w, t, Picked(s.picks), Started(s.starts));
    FinishRoute(s.tasks, s.pcs, w, t, Picked(s.picks));
    FinishJudged(s.tasks, s.picks, s.starts, t);
  }

  /** The remaining worker steps neither pick, start nor finish anything. */
  lemma {:induction false} QuietWorkOnce(s: Pool, w: nat, throws: bool)
    requires Once(s) && IdsKnown(s) && w < |s.pcs|
    requires !s.pcs[w].ToRun? && !s.pcs[w].ToExpire? && !s.pcs[w].InBody? && !s.pcs[w].InExpire?
    requires !(s.pcs[w] == Taking(true) && s.queue != [])
    ensures Once(WorkStep(s, w, throws))
  {
    var s' := WorkStep(s, w, throws);
    if s.pcs[w].Holding? {
      var t := s.pcs[w].task;
      var p :| p in s.picks && p.task == t;
      assert s.tasks[t].state == if s.tasks[t].Late(p.at) then TimedOut else Executing;
    }
    assert s'.picks == s.picks && s'.starts == s.starts && s'.tasks == s.tasks;
    assert forall v :: 0 <= v < |s.pcs| && v != w ==> s'.pcs[v] == s.pcs[v];
    QuietMove(s.pcs, s'.pcs, Picked(s.picks), Started(s.starts));
  }

  lemma {:induction false} QuietOnce(s: Pool, a: Action)
    requires Once(s) && Enabled(s, a) && !a.Work?
    ensures Once(Apply(s, a))
  {
    var s' := Apply(s, a);
    assert s'.picks == s.picks && s'.starts == s.starts && s.tasks <= s'.tasks;
    assert |s'.pcs| == |s.pcs| && forall w :: 0 <= w < |s.pcs| ==> s'.pcs[w] == s.pcs[w] || s'.pcs[w] == Notified;
    QuietMove(s.pcs, s'.pcs, Picked(s.picks), Started(s.starts));
  }

  lemma {:induction false} StepOnce(s: Pool, a: Action)
    requires Once(s) && IdsKnown(s) && Fifo(s) && Enabled(s, a)
    requires Distinct(s.enqueued)
    ensures Once(Apply(s, a))
  {
    if a.Work? {
      var pc := s.pcs[a.w];
      if pc == Taking(true) && s.queue != [] {
        TakeOnce(s, a.w, a.throws);
      } else if pc.ToRun? || pc.ToExpire? {
        StartOnce(s, a.w, a.throws);
      } else if pc.InBody? || pc.InExpire? {
        FinishOnce(s, a.w, a.throws);
      } else {
        QuietWorkOnce(s, a.w, a.throws);
      }
    } else {
      QuietOnce(s, a);
    }
  }

  lemma {:induction false} EnqueuedGrows(s: Pool, a: Action)
    requires Enabled(s, a) && Distinct(Apply(s, a).enqueued)
    ensures Distinct(s.enqueued)
  {
    var e, e' := s.enqueued, Apply(s, a).enqueued;
    assert e <= e';
    assert forall i :: 0 <= i < |e| ==> e[i] == e'[i];
  }

  lemma {:induction false} RunOnce(n: nat, t0: nat, run: seq<Action>)
    requires Exec(Initial(n, t0), run).Some?
    ensures Fifo(Exec(Initial(n, t0), run).value)
    ensures Distinct(Exec(Initial(n, t0), run).value.enqueued) ==> Once(Exec(Initial(n, t0), run).value)
  {
    if run != [] {
      var s := Exec(Initial(n, t0), run[..|run| - 1]).value;
      var a := run[|run| - 1];
      RunOnce(n, t0, run[..|run| - 1]);
      InitInv(n, t0);
      RunInv(Initial(n, t0), run[..|run| - 1]);
      StepFifo(s, a);
      if Distinct(Apply(s, a).enqueued) {
        EnqueuedGrows(s, a);
        StepOnce(s, a);
      }
    }
  }
}
