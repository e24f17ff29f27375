/** Tasks: a body, an optional expiry closure and a deadline. */
module Tasks {
  import opened Prelude

  datatype TaskState = Waiting | Executing | TimedOut | Complete

  /** The record part of a task; closures are represented by what they do when called. */
  datatype Task = Task(state: TaskState, timed: bool, deadline: Option<nat>) {

    /** The constructors never set the timeout flag without also setting a deadline. */
    predicate WellFormed() {
      timed ==> deadline.Some?
    }

    predicate Late(now: nat)
      requires WellFormed()
    {
      timed && deadline.value < now
    }

    /** The state a worker leaves in a task it has just dequeued at time `now`. */
    function Judge(now: nat): Task
      requires WellFormed()
    {
      if state != Waiting then this
      else this.(state := if Late(now) then TimedOut else Executing)
    }
  }

  /** A task built with an expiry closure (possibly an empty one) at time `now`; 0 means no deadline. */
  function Timed(hasExpireFun: bool, expiration: nat, now: nat): Task {
    Task(Waiting, hasExpireFun && expiration > 0, if expiration != 0 then Some(now + expiration) else None)
  }

  /** A task built from a body alone. */
  function Untimed(): Task {
    Task(Waiting, false, None)
  }

  /** Which closures have been entered, in order. */
  datatype Call = BodyCall | ExpireCall

  class TaskObject {
    var state: TaskState
    var timed: bool
    var deadline: Option<nat>
    ghost var calls: seq<Call>

    function Record(): Task
      reads this
    {
      Task(state, timed, deadline)
    }

    ghost predicate Valid()
      reads this
    {
      Record().WellFormed()
    }

    constructor WithExpiry(hasExpireFun: bool, expiration: nat, now: nat)
      ensures Valid() && Record() == Timed(hasExpireFun, expiration, now) && calls == []
      ensures state == Waiting && (timed <==> hasExpireFun && expiration > 0)
      ensures deadline == if expiration == 0 then None else Some(now + expiration)
    {
      state := Waiting;
      timed := if hasExpireFun && expiration > 0 then true else false;
      deadline := None;
      calls := [];
      new;
      if expiration != 0 {
        deadline := Some(now + expiration);
      }
    }

    constructor Plain()
      ensures Valid() && Record() == Untimed() && calls == []
      ensures state == Waiting && !timed && deadline == None
    {
      state := Waiting;
      timed := false;
      deadline := None;
      calls := [];
    }

    /** The body may throw, in which case the state is left as it was. */
    method Run(bodyThrows: bool) returns (threw: bool)
      requires Valid()
      modifies this
      ensures Valid() && timed == old(timed) && deadline == old(deadline)
      ensures calls == old(calls) + if old(state) == Executing then [BodyCall] else []
      ensures threw == (old(state) == Executing && bodyThrows)
      ensures state == if old(state) == Executing && !bodyThrows then Complete else old(state)
    {
      if state == Executing {
        calls := calls + [BodyCall];
        if bodyThrows {
          return true;
        }
        state := Complete;
      }
      return false;
    }

    method ExpireRun()
      requires Valid()
      modifies this
      ensures Valid() && timed == old(timed) && deadline == old(deadline)
      ensures calls == old(calls) + if old(state) == TimedOut then [ExpireCall] else []
      ensures state == if old(state) == TimedOut then Complete else old(state)
    {
      if state == TimedOut {
        calls := calls + [ExpireCall];
        state := Complete;
      }
    }
  }
}
