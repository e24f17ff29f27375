/** Service's own methods: registration, admission of a request, routing, completion. */
module ServiceCode {
  import opened Prelude
  import opened ServiceModel
  import T = Tasks
  import P = PoolModel
  import PC = PoolCode
  import I = IoModel
  import IC = IoCode

  class ServiceObject {
    const expiration: nat
    const threadPool: PC.ThreadPool
    const ioThread: IC.IoThread
    var callbacksMap: map<string, Callback>
    var defaultCb: Callback
    var timeoutCb: Callback
    var urls: seq<string>                // the path captured by the closures of each task
    ghost var registrations: seq<Action>

    /** The three fields hold what the registrations so far determine. */
    ghost predicate Registered()
      reads this
    {
      && (forall url :: url in callbacksMap <==> LastRoute(registrations, url).Some?)
      && (forall url :: url in callbacksMap ==> callbacksMap[url] == LastRoute(registrations, url).value)
      && defaultCb == LastDefault(registrations) && timeoutCb == LastTimeout(registrations)
    }

    constructor(threads: nat, expire: nat, clock: nat, room: nat, junk: int)
      ensures fresh(threadPool) && fresh(ioThread) && expiration == expire
      ensures threadPool.S() == P.Initial(threads, clock) && ioThread.S() == I.Initial(room, junk)
      ensures Registered() && registrations == [] && urls == []
    {
      expiration := expire;
      threadPool := new PC.ThreadPool(threads, clock);
      ioThread := new IC.IoThread(room, junk);
      callbacksMap, defaultCb, timeoutCb, urls, registrations := map[], Absent, Absent, [], [];
    }

    method RegisterHandler(uri: string, callback: Callback)
      requires Registered()
      modifies this`callbacksMap, this`registrations
      ensures Registered() && registrations == old(registrations) + [Action.Register(uri, callback)]
      ensures callbacksMap == old(callbacksMap)[uri := callback]
    {
      callbacksMap := callbacksMap[uri := callback];
      registrations := registrations + [Action.Register(uri, callback)];
    }

    method RegisterDefaultHandler(callback: Callback)
      requires Registered()
      modifies this`defaultCb, this`registrations
      ensures Registered() && registrations == old(registrations) + [Action.RegisterDefault(callback)]
    {
      defaultCb := callback;
      registrations := registrations + [Action.RegisterDefault(callback)];
    }

    method RegisterTimeoutHandler(callback: Callback)
      requires Registered()
      modifies this`timeoutCb, this`registrations
      ensures Registered() && registrations == old(registrations) + [Action.RegisterTimeout(callback)]
    {
      timeoutCb := callback;
      registrations := registrations + [Action.RegisterTimeout(callback)];
    }

    /** Build the task for a request, whose closures capture its path, and queue it. */
    method CoreHandleRequest(url: string) returns (t: P.TaskId, ghost run: seq<P.Action>)
      requires threadPool.owner == P.Free && |urls| == |threadPool.tasks|
      modifies threadPool, this`urls
      ensures urls == old(urls) + [url] && t < |urls| == |threadPool.tasks| && urls[t] == url
      ensures t == |old(threadPool.tasks)|
      ensures threadPool.tasks == old(threadPool.tasks) + [T.Timed(true, expiration, old(threadPool.now))]
      ensures threadPool.queue == old(threadPool.queue) + [t] && threadPool.owner == P.Free
      ensures P.Exec(old(threadPool.S()), run) == Some(threadPool.S())
    {
      ghost var s0 := threadPool.S();
      var task := T.Timed(true, expiration, threadPool.now);
      t := |threadPool.tasks|;
      urls := urls + [url];
      threadPool.tasks := threadPool.tasks + [task];
      ghost var s1 := threadPool.S();
      P.ExecSnoc(s0, [], P.Create(task));
      ghost var run1 := threadPool.AddTask(t);
      ExecConcat(s0, [] + [P.Create(task)], run1);
      run := [] + [P.Create(task)] + run1;
    }

    /** The body closure of task `t`: whom it gives the request to.  Calling an empty function throws. */
    method TaskFun(t: P.TaskId) returns (asked: Callback, threw: bool)
      requires Registered() && t < |urls|
      ensures asked == Asked(registrations, urls[t])
      ensures threw <==> LastRoute(registrations, urls[t]) == Some(Absent)
    {
      var url := urls[t];
      asked, threw := Absent, false;
      if url in callbacksMap {
        asked := callbacksMap[url];
        threw := asked == Absent;
      } else {
        if defaultCb.Handler? {
          asked := defaultCb;
        }
      }
    }

    /** The expiry closure asks the timeout callback, if there is one. */
    method ExpireFun() returns (asked: Callback)
      requires Registered()
      ensures asked == LastTimeout(registrations)
    {
      asked := Absent;
      if timeoutCb.Handler? {
        asked := timeoutCb;
      }
    }

    /** Hand the reply to the IO thread. */
    method Complete(request: nat, resBody: string) returns (ghost run: seq<I.Action>)
      requires I.Inv(ioThread.S()) && ioThread.owner == I.Free
      modifies ioThread
      ensures I.Exec(old(ioThread.S()), run) == Some(ioThread.S())
      ensures ioThread.taskFunctors == old(ioThread.taskFunctors) + [I.Reply(request, resBody)]
      ensures ioThread.executed == old(ioThread.executed) && ioThread.bytes > 0
    {
      run := ioThread.Submit(I.Reply(request, resBody));
    }
  }

  lemma {:induction false} ExecConcat(s: P.Pool, a: seq<P.Action>, b: seq<P.Action>)
    requires P.Exec(s, a).Some?
    ensures P.Exec(s, a + b) == P.Exec(P.Exec(s, a).value, b)
  {
    if b == [] {
      assert a + b == a;
    } else {
      ExecConcat(s, a, b[..|b| - 1]);
      assert (a + b)[..|a + b| - 1] == a + b[..|b| - 1];
    }
  }
}
