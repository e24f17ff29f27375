/**
 What a run of the service says of its state, read off the run's own actions: who asked for what and when, who
 was called back with what, and when each task was dequeued.
 */
module ServiceHistory {
  import opened Prelude
  import opened ServiceModel
  import opened ServiceInvariants
  import T = Tasks
  import P = PoolModel
  import PT = PoolTheorems
  import I = IoModel
  import ST = ServiceTheorems

  // ----- the actions of a run -----

  /** The paths asked for, in order of arrival. */
  function Arrivals(run: seq<Action>): seq<string> {
    if run == [] then []
    else
      var a := run[|run| - 1];
      Arrivals(run[..|run| - 1]) + if a.Arrive? then [a.url] else []
  }

  /** The replies asked for, in order of the calls. */
  function Completions(run: seq<Action>): seq<I.Functor> {
    if run == [] then []
    else
      var a := run[|run| - 1];
      Completions(run[..|run| - 1]) + if a.Complete? then [I.Reply(a.r, a.body)] else []
  }

  /** The time that passes in a run. */
  function Elapsed(run: seq<Action>): nat {
    if run == [] then 0
    else
      var a := run[|run| - 1];
      Elapsed(run[..|run| - 1]) + if a.PoolStep? && a.pa.Tick? then a.pa.d else 0
  }

  /** When each request arrived. */
  function ArrivalTimes(run: seq<Action>, start: nat): (times: seq<nat>)
    ensures |times| == |Arrivals(run)|
  {
    if run == [] then []
    else
      var front := run[..|run| - 1];
      ArrivalTimes(front, start) + if run[|run| - 1].Arrive? then [start + Elapsed(front)] else []
  }

  /** For each functor executed in a run from `s`, whether there was a buffer for its reply. */
  ghost function Buffers(s: Service, run: seq<Action>): seq<bool> {
    if run == [] then []
    else
      var front, a := run[..|run| - 1], run[|run| - 1];
      var before, after := Exec(s, front), Exec(s, run);
      Buffers(s, front) +
      if a.IoStep? && before.Some? && after.Some? && |after.value.io.executed| > |before.value.io.executed|
      then [a.ok] else []
  }

  // ----- what the state is, in terms of them -----

  /** What one step adds to the records. */
  lemma {:induction false} StepRecords(s: Service, a: Action)
    requires Enabled(s, a)
    ensures var t := Apply(s, a);
      && t.urls == s.urls + (if a.Arrive? then [a.url] else [])
      && t.calls == s.calls + (if a.Complete? then [I.Reply(a.r, a.body)] else [])
      && t.outcomes == s.outcomes + (if a.IoStep? && |t.io.executed| > |s.io.executed| then [a.ok] else [])
      && t.pool.now == s.pool.now + (if a.PoolStep? && a.pa.Tick? then a.pa.d else 0)
      && t.expiration == s.expiration
  {
  }

  lemma {:induction false} UrlsAreArrivals(s: Service, run: seq<Action>)
    requires s.urls == [] && Exec(s, run).Some?
    ensures Exec(s, run).value.urls == Arrivals(run)
  {
    if run != [] {
      UrlsAreArrivals(s, run[..|run| - 1]);
      StepRecords(Exec(s, run[..|run| - 1]).value, run[|run| - 1]);
    }
  }

  lemma {:induction false} CallsAreCompletions(s: Service, run: seq<Action>)
    requires s.calls == [] && Exec(s, run).Some?
    ensures Exec(s, run).value.calls == Completions(run)
  {
    if run != [] {
      CallsAreCompletions(s, run[..|run| - 1]);
      StepRecords(Exec(s, run[..|run| - 1]).value, run[|run| - 1]);
    }
  }

  lemma {:induction false} OutcomesAreBuffers(s: Service, run: seq<Action>)
    requires s.outcomes == [] && Exec(s, run).Some?
    ensures Exec(s, run).value.outcomes == Buffers(s, run)
  {
    if run != [] {
      OutcomesAreBuffers(s, run[..|run| - 1]);
      StepRecords(Exec(s, run[..|run| - 1]).value, run[|run| - 1]);
    }
  }

  lemma {:induction false} ClockIs(s: Service, run: seq<Action>)
    requires Exec(s, run).Some?
    ensures Exec(s, run).value.pool.now == s.pool.now + Elapsed(run)
    ensures Exec(s, run).value.expiration == s.expiration
  {
    if run != [] {
      ClockIs(s, run[..|run| - 1]);
      StepRecords(Exec(s, run[..|run| - 1]).value, run[|run| - 1]);
    }
  }

  /** The task of request `r` is due the expiration after its arrival, if there is an expiration. */
  ghost predicate DueAfterArrival(p: P.Pool, expiration: nat, times: seq<nat>) {
    && |p.tasks| == |times|
    && forall r :: 0 <= r < |p.tasks| ==>
         && p.tasks[r].timed == (expiration > 0)
         && p.tasks[r].deadline == if expiration > 0 then Some(times[r] + expiration) else None
  }

  lemma {:induction false} StepDue(s: Service, a: Action, times: seq<nat>)
    requires Enabled(s, a) && DueAfterArrival(s.pool, s.expiration, times)
    ensures DueAfterArrival(Apply(s, a).pool, s.expiration, times + if a.Arrive? then [s.pool.now] else [])
  {
    match a
    case Admit(pa) => PoolKeepsDeadlines(s.pool, pa);
    case PoolStep(pa) => PoolKeepsDeadlines(s.pool, pa);
    case _ =>
  }

  lemma {:induction false} DeadlinesFromArrivals(s: Service, run: seq<Action>)
    requires s.pool.tasks == [] && Exec(s, run).Some?
    ensures DueAfterArrival(Exec(s, run).value.pool, s.expiration, ArrivalTimes(run, s.pool.now))
  {
    if run != [] {
      var front, a := run[..|run| - 1], run[|run| - 1];
      DeadlinesFromArrivals(s, front);
      ClockIs(s, front);
      StepDue(Exec(s, front).value, a, ArrivalTimes(front, s.pool.now));
      assert ArrivalTimes(run, s.pool.now) ==
        ArrivalTimes(front, s.pool.now) + if a.Arrive? then [Exec(s, front).value.pool.now] else [];
    }
  }

  lemma {:induction false} PicksGrow(s: Service, a: Action)
    requires Enabled(s, a)
    ensures var t := Apply(s, a);
      || t.pool.picks == s.pool.picks
      || (&& s.pool.queue != [] && t.pool.queue == s.pool.queue[1..]
          && t.pool.picks == s.pool.picks + [P.Pick(s.pool.queue[0], s.pool.now)])
  {
  }

  /** Every recorded dequeue happened: at some step of the run the front task left the queue, at the recorded time. */
  lemma {:induction false} PickMoment(s: Service, run: seq<Action>, k: nat) returns (j: nat)
    requires s.pool.picks == [] && Exec(s, run).Some? && k < |Exec(s, run).value.pool.picks|
    ensures j < |run| && Exec(s, run[..j]).Some? && Exec(s, run[..j + 1]).Some?
    ensures var before, after := Exec(s, run[..j]).value.pool, Exec(s, run[..j + 1]).value.pool;
      && |before.picks| == k && before.queue != [] && after.queue == before.queue[1..]
      && Exec(s, run).value.pool.picks[k] == P.Pick(before.queue[0], s.pool.now + Elapsed(run[..j]))
  {
    var n := |run| - 1;
    var front := run[..n];
    PicksGrow(Exec(s, front).value, run[n]);
    if k < |Exec(s, front).value.pool.picks| {
      j := PickMoment(s, front, k);
      assert front[..j] == run[..j] && front[..j + 1] == run[..j + 1];
    } else {
      j := n;
      ClockIs(s, front);
      assert run[..n + 1] == run;
    }
  }

  // ----- what a client may rely on -----

  /** Over whole runs: the r-th request to arrive is handed, by its body, to the callback registered last for the path
      it asked for, or else to the last default one; by its expiry, to the last timeout callback. */
  lemma {:induction false} RoutedByRegistration(workers: nat, capacity: nat, base: int, now: nat,
                                                expiration: nat, run: seq<Action>, c: P.Start)
    requires Exec(Initial(workers, capacity, base, now, expiration), run).Some?
    requires c in Exec(Initial(workers, capacity, base, now, expiration), run).value.pool.starts
    requires c.task < |Arrivals(run)|
    ensures var s := Exec(Initial(workers, capacity, base, now, expiration), run).value;
      && s.urls == Arrivals(run)
      && Target(s, c) == if c.call == T.BodyCall then Asked(run, Arrivals(run)[c.task]) else LastTimeout(run)
  {
    var s0 := Initial(workers, capacity, base, now, expiration);
    UrlsAreArrivals(s0, run);
    ST.RoutesAreRegistrations(s0, run, Arrivals(run)[c.task]);
  }

  /** Over whole runs: the expiry closure of a request is the one entered exactly when there is an expiration and the
      time since the request's arrival exceeded it when its task was dequeued. */
  lemma {:induction false} ExpiredByTheClock(workers: nat, capacity: nat, base: int, now: nat,
                                             expiration: nat, run: seq<Action>, p: P.Pick, c: P.Start)
    requires capacity > 0 && Exec(Initial(workers, capacity, base, now, expiration), run).Some?
    requires var s := Exec(Initial(workers, capacity, base, now, expiration), run).value;
      p in s.pool.picks && c in s.pool.starts && p.task == c.task
    ensures c.task < |Arrivals(run)|
    ensures c.call == T.ExpireCall <==> expiration > 0 && p.at > ArrivalTimes(run, now)[c.task] + expiration
  {
    var s0 := Initial(workers, capacity, base, now, expiration);
    var s := Exec(s0, run).value;
    assert Reachable(workers, capacity, s);
    ReachableInv(workers, capacity, s);
    DeadlinesFromArrivals(s0, run);
    PT.TimeoutDiscipline(workers, s.pool, p, c);
  }

  /** Over whole runs that come to rest: what the IO thread has executed is exactly the replies asked for, each to its
      request and with its body, in the order of the calls, and a reply goes out iff there was a buffer for it. */
  lemma {:induction false} RepliesAreCompletions(workers: nat, capacity: nat, base: int, now: nat, expiration: nat,
                                                 run: seq<Action>)
    requires workers > 0 && capacity > 0 && Exec(Initial(workers, capacity, base, now, expiration), run).Some?
    requires ST.AtRest(Exec(Initial(workers, capacity, base, now, expiration), run).value)
    ensures var s0 := Initial(workers, capacity, base, now, expiration);
      var s := Exec(s0, run).value;
      s.io.executed == Completions(run) && s.outcomes == Buffers(s0, run) && |s.outcomes| == |s.io.executed|
  {
    var s0 := Initial(workers, capacity, base, now, expiration);
    var s := Exec(s0, run).value;
    assert Reachable(workers, capacity, s);
    ReachableInv(workers, capacity, s);
    CallsAreCompletions(s0, run);
    OutcomesAreBuffers(s0, run);
    ST.RestUnlocksPool(workers, s);
    ST.RestUnlocksIo(capacity, s);
    I.RestMeansExecuted(capacity, s.io);
  }
}
