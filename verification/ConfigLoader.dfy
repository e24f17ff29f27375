/**
 Configuration hot swap: one updater replaces a shared pointer and frees the old object after a grace
 period, while readers test the pointer and then follow it, without a lock.  Time is in milliseconds.
 */
module ConfigModel {
  import opened Prelude

  const SUCCESS := 200
  const WAITING := 3000
  const SPAN := 10000

  type Address = nat

  datatype Updater =
    | Starting
    | Asking                                      // top of the loop, request under way
    | Prepared(obj: Address)                      // the new object is filled, not yet swapped in
    | Grace(former: Option<Address>, until: nat)     // swapped; asleep before the delete
    | RoundOver
    | Sleeping(until: nat)
    | Stopped

  datatype Outcome = Text(data: string) | Freed | NullPointer

  /** `seen` records what the object a reader follows held when the pointer was loaded. */
  datatype Reader =
    | Idle
    | NotNull                                             // the null test has passed
    | Following(obj: Address, at: nat, seen: string)      // the pointer has been loaded again, at time `at`
    | Done(at: nat, end: nat, seen: string, outcome: Outcome)

  /** `live` is the heap of Config objects, `fetched` the bodies of the successful responses so far. */
  datatype State = State(
    live: map<Address, string>,
    config: Option<Address>,
    next: Address,
    updater: Updater,
    running: bool,
    readers: seq<Reader>,
    now: nat,
    fetched: seq<string>)

  datatype Action =
    | Tick(d: nat)
    | Response(code: int, body: string)
    | UpdaterStep
    | StopUpdating
    | TestNull(r: nat)
    | LoadPointer(r: nat)
    | CopyData(r: nat)

  function Initial(readers: nat, now: nat): State {
    State(map[], None, 0, Starting, false, seq(readers, i => Idle), now, [])
  }

  predicate Enabled(s: State, a: Action) {
    match a
    case Tick(_) => true
    case StopUpdating => true
    case Response(_, _) => s.updater.Asking?
    case UpdaterStep =>
      && !s.updater.Asking? && !s.updater.Stopped?
      && (s.updater.Grace? ==> s.now >= s.updater.until)
      && (s.updater.Sleeping? ==> s.now >= s.updater.until)
    case TestNull(r) => r < |s.readers| && (s.readers[r].Idle? || s.readers[r].Done?)
    case LoadPointer(r) => r < |s.readers| && s.readers[r].NotNull?
    case CopyData(r) => r < |s.readers| && s.readers[r].Following?
  }

  /** A response that carries a configuration. */
  predicate Accepted(code: int, body: string) {
    code == SUCCESS && body != ""
  }

  function Content(live: map<Address, string>, p: Option<Address>): Option<string> {
    if p.Some? && p.value in live then Some(live[p.value]) else None
  }

  function OnResponse(s: State, code: int, body: string): State {
    if !Accepted(code, body) then s.(updater := RoundOver)
    else if s.config.None? || Content(s.live, s.config) != Some(body) then
      s.(live := s.live[s.next := body], next := s.next + 1, updater := Prepared(s.next), fetched := s.fetched + [body])
    else s.(updater := RoundOver, fetched := s.fetched + [body])
  }

  function UpdaterNext(s: State): State {
    match s.updater
    case Starting => s.(running := true, updater := Asking)
    case Asking => s
    case Prepared(p) => s.(config := Some(p), updater := Grace(s.config, s.now + WAITING))
    case Grace(former, _) => s.(live := if former.Some? then s.live - {former.value} else s.live, updater := RoundOver)
    case RoundOver => s.(updater := Sleeping(s.now + SPAN))
    case Sleeping(_) => s.(updater := if s.running then Asking else Stopped)
    case Stopped => s
  }

  function TestNullNext(s: State): Reader {
    if s.config.None? then Done(s.now, s.now, "", Text("")) else NotNull
  }

  function LoadNext(s: State): Reader {
    match s.config
    case None => Done(s.now, s.now, "", NullPointer)
    case Some(p) => Following(p, s.now, if p in s.live then s.live[p] else "")
  }

  /** The end of the copy; since objects never change and freed ones never come back, the last access decides. */
  function CopyNext(s: State, l: Reader): Reader
    requires l.Following?
  {
    Done(l.at, s.now, l.seen, if l.obj in s.live then Text(s.live[l.obj]) else Freed)
  }

  function Apply(s: State, a: Action): State
    requires Enabled(s, a)
  {
    match a
    case Tick(d) => s.(now := s.now + d)
    case StopUpdating => s.(running := false)
    case Response(code, body) => OnResponse(s, code, body)
    case UpdaterStep => UpdaterNext(s)
    case TestNull(r) => s.(readers := s.readers[r := TestNullNext(s)])
    case LoadPointer(r) => s.(readers := s.readers[r := LoadNext(s)])
    case CopyData(r) => s.(readers := s.readers[r := CopyNext(s, s.readers[r])])
  }

  function Exec(s: State, run: seq<Action>): Option<State> {
    if run == [] then Some(s)
    else
      var p := Exec(s, run[..|run| - 1]);
      if p.Some? && Enabled(p.value, run[|run| - 1]) then Some(Apply(p.value, run[|run| - 1])) else None
  }

  ghost predicate Reachable(s: State) {
    exists readers: nat, now: nat, run :: Exec(Initial(readers, now), run) == Some(s)
  }

  // ----- the invariant -----

  function Pointees(p: Option<Address>): set<Address> {
    if p.Some? then {p.value} else {}
  }

  /** The object the updater holds besides the published one. */
  function Held(u: Updater): set<Address> {
    match u
    case Prepared(p) => {p}
    case Grace(former, _) => Pointees(former)
    case _ => {}
  }

  /** Nothing leaks, nothing dangles: exactly the published object and the one the updater holds are live. */
  ghost predicate Owned(s: State) {
    && s.live.Keys == Pointees(s.config) + Held(s.updater)
    && (s.config.Some? ==> s.config.value !in Held(s.updater))
    && forall p :: p in s.live ==> p < s.next
  }

  /** The newest accepted body is in the object that is, or is about to be, published. */
  ghost predicate Current(s: State) {
    var p := if s.updater.Prepared? then Some(s.updater.obj) else s.config;
    Content(s.live, p) == if s.fetched == [] then None else Some(s.fetched[|s.fetched| - 1])
  }

  ghost predicate Genuine(s: State) {
    && (forall p :: p in s.live ==> s.live[p] in s.fetched)
    && forall i :: 0 <= i < |s.fetched| ==> s.fetched[i] != ""
  }

  /** Until `deadline`, the object `p` is live and unchanged. */
  ghost predicate SafeUntil(s: State, p: Address, seen: string, deadline: nat) {
    s.now < deadline ==>
      && p in s.live && s.live[p] == seen
      && (s.config == Some(p) || (s.updater.Grace? && s.updater.former == Some(p) && s.updater.until >= deadline))
  }

  ghost predicate ReaderOk(s: State, r: Reader) {
    match r
    case Idle => true
    case NotNull => s.config.Some?
    case Following(p, at, seen) => at <= s.now && seen in s.fetched && SafeUntil(s, p, seen, at + WAITING)
    case Done(at, end, seen, outcome) =>
      && at <= end
      && outcome != NullPointer
      && (seen == "" || seen in s.fetched)
      && (end < at + WAITING ==> outcome == Text(seen))
  }

  ghost predicate Inv(s: State) {
    && Owned(s) && Current(s) && Genuine(s)
    && forall r :: 0 <= r < |s.readers| ==> ReaderOk(s, s.readers[r])
  }

  lemma {:induction false} StepOwned(s: State, a: Action)
    requires Owned(s) && Enabled(s, a)
    ensures Owned(Apply(s, a))
  {
  }

  lemma {:induction false} StepCurrent(s: State, a: Action)
    requires Owned(s) && Current(s) && Enabled(s, a)
    ensures Current(Apply(s, a))
  {
  }

  lemma {:induction false} StepGenuine(s: State, a: Action)
    requires Owned(s) && Genuine(s) && Enabled(s, a)
    ensures Genuine(Apply(s, a))
  {
  }

  predicate ByReader(a: Action) {
    a.TestNull? || a.LoadPointer? || a.CopyData?
  }

  /** Whatever the updater does, an object once loaded stays until its deadline. */
  lemma {:induction false} SafeKept(s: State, a: Action, p: Address, seen: string, deadline: nat)
    requires Owned(s) && Enabled(s, a) && !ByReader(a)
    requires SafeUntil(s, p, seen, deadline) && deadline <= s.now + WAITING
    ensures SafeUntil(Apply(s, a), p, seen, deadline)
  {
  }

  lemma {:induction false} ReaderKept(s: State, a: Action, r: Reader)
    requires Owned(s) && Enabled(s, a) && !ByReader(a) && ReaderOk(s, r)
    ensures ReaderOk(Apply(s, a), r)
  {
    if r.Following? {
      SafeKept(s, a, r.obj, r.seen, r.at + WAITING);
    }
  }

  lemma {:induction false} ReaderStep(s: State, a: Action, i: nat)
    requires Owned(s) && Genuine(s) && Enabled(s, a) && ByReader(a) && i < |s.readers| && ReaderOk(s, s.readers[i])
    ensures ReaderOk(Apply(s, a), Apply(s, a).readers[i])
  {
  }

  lemma {:induction false} StepInv(s: State, a: Action)
    requires Inv(s) && Enabled(s, a)
    ensures Inv(Apply(s, a))
  {
    StepOwned(s, a);
    StepCurrent(s, a);
    StepGenuine(s, a);
    forall i: nat | i < |Apply(s, a).readers|
      ensures ReaderOk(Apply(s, a), Apply(s, a).readers[i])
    {
      if ByReader(a) {
        ReaderStep(s, a, i);
      } else {
        ReaderKept(s, a, s.readers[i]);
      }
    }
  }

  lemma {:induction false} RunInv(s: State, run: seq<Action>)
    requires Inv(s) && Exec(s, run).Some?
    ensures Inv(Exec(s, run).value)
  {
    if run != [] {
      RunInv(s, run[..|run| - 1]);
      StepInv(Exec(s, run[..|run| - 1]).value, run[|run| - 1]);
    }
  }

  lemma {:induction false} ReachableInv(s: State)
    requires Reachable(s)
    ensures Inv(s)
  {
    var readers: nat, now: nat, run :| Exec(Initial(readers, now), run) == Some(s);
    RunInv(Initial(readers, now), run);
  }

  // ----- what it means -----

  /** The pointer is null or live, at most two objects exist, and between rounds only the published one does;
      outside the instant before a swap it holds the newest accepted body, and it is null only before the
      first one. */
  lemma {:induction false} PointerSound(s: State)
    requires Reachable(s)
    ensures s.config.Some? ==> s.config.value in s.live && s.live[s.config.value] in s.fetched
    ensures |s.live| <= 2
    ensures !s.updater.Prepared? && !s.updater.Grace? ==> s.live.Keys == Pointees(s.config)
    ensures !s.updater.Prepared? ==>
      Content(s.live, s.config) == if s.fetched == [] then None else Some(s.fetched[|s.fetched| - 1])
    ensures !s.updater.Prepared? ==> (s.config.None? <==> s.fetched == [])
  {
    ReachableInv(s);
    assert |s.live| == |s.live.Keys|;
    var c, h := Pointees(s.config), Held(s.updater);
    assert |c| <= 1 && |h| <= 1;
    assert |c + h| <= |c| + |h|;
  }

  /** Once set, the pointer is never null again. */
  lemma {:induction false} NeverNullAgain(s: State, run: seq<Action>)
    requires s.config.Some? && Exec(s, run).Some?
    ensures Exec(s, run).value.config.Some?
  {
    if run != [] {
      NeverNullAgain(s, run[..|run| - 1]);
    }
  }

  /** No reader ever follows null; one that finishes within the grace period of its second load has touched
      only live memory and returns what the pointer then led to: a whole successfully fetched body, or the
      empty string if there was none yet. */
  lemma {:induction false} ReadersSafe(s: State, r: nat)
    requires Reachable(s) && r < |s.readers| && s.readers[r].Done?
    ensures s.readers[r].outcome != NullPointer
    ensures s.readers[r].end < s.readers[r].at + 3000 ==> s.readers[r].outcome == Text(s.readers[r].seen)
    ensures s.readers[r].seen == "" || s.readers[r].seen in s.fetched
  {
    ReachableInv(s);
    assert ReaderOk(s, s.readers[r]);
  }

  lemma {:induction false} ReachableStep(s: State, a: Action)
    requires Reachable(s) && Enabled(s, a)
    ensures Reachable(Apply(s, a))
  {
    var readers: nat, now: nat, run :| Exec(Initial(readers, now), run) == Some(s);
    assert (run + [a])[..|run|] == run;
    assert Exec(Initial(readers, now), run + [a]) == Some(Apply(s, a));
  }

  predicate TookTime(r: Reader, d: nat) {
    r.Done? && r.end == r.at + d
  }

  /** The reader touched only live memory and returns what the pointer led to when it was loaded. */
  predicate ReadSafely(r: Reader) {
    r.Done? && r.outcome == Text(r.seen)
  }

  /** A reader that took time `d` and touched freed memory. */
  ghost predicate TouchedFreed(s: State, d: nat) {
    |s.readers| > 0 && TookTime(s.readers[0], d) && s.readers[0].outcome.Freed?
  }

  /** The first configuration "a" is published and the round is over. */
  lemma {:induction false} FirstPublished() returns (s: State)
    ensures Reachable(s) && s.live == map[0 := "a"] && s.config == Some(0) && s.next == 1 && s.updater == RoundOver
    ensures s.running && s.readers == [Idle]
  {
    s := Initial(1, 0);
    assert Exec(s, []) == Some(s);
    ReachableStep(s, UpdaterStep);
    s := Apply(s, UpdaterStep);
    ReachableStep(s, Response(SUCCESS, "a"));
    s := Apply(s, Response(SUCCESS, "a"));
    ReachableStep(s, UpdaterStep);
    s := Apply(s, UpdaterStep);
    ReachableStep(s, Tick(WAITING));
    s := Apply(s, Tick(WAITING));
    ReachableStep(s, UpdaterStep);
    s := Apply(s, UpdaterStep);
  }

  /** A reader loads it in the round that has fetched "b". */
  lemma {:induction false} FollowingTheFirst() returns (s: State)
    ensures Reachable(s) && s.live == map[0 := "a", 1 := "b"] && s.config == Some(0) && s.updater == Prepared(1)
    ensures s.readers == [Following(0, s.now, "a")]
  {
    s := FirstPublished();
    ReachableStep(s, UpdaterStep);
    s := Apply(s, UpdaterStep);
    ReachableStep(s, Tick(SPAN));
    s := Apply(s, Tick(SPAN));
    ReachableStep(s, UpdaterStep);
    s := Apply(s, UpdaterStep);
    ReachableStep(s, Response(SUCCESS, "b"));
    s := Apply(s, Response(SUCCESS, "b"));
    ReachableStep(s, TestNull(0));
    s := Apply(s, TestNull(0));
    ReachableStep(s, LoadPointer(0));
    s := Apply(s, LoadPointer(0));
  }

  /** However much longer than the grace period a reader takes, it may touch freed memory. */
  lemma {:induction false} SlowReaderTouchesFreed(d: nat)
    requires d >= 3000
    ensures exists s :: Reachable(s) && TouchedFreed(s, d)
  {
    var s := FollowingTheFirst();
    ReachableStep(s, UpdaterStep);
    s := Apply(s, UpdaterStep);
    ReachableStep(s, Tick(d));
    s := Apply(s, Tick(d));
    ReachableStep(s, UpdaterStep);
    s := Apply(s, UpdaterStep);
    ReachableStep(s, CopyData(0));
    s := Apply(s, CopyData(0));
    assert TouchedFreed(s, d);
  }

  /** The grace period, three seconds, is the exact bound: every reader that takes time `d` from its second load reads safely, in
      every reachable state, if and only if `d` is less than it. */
  lemma {:induction false} GraceIsExact(d: nat)
    ensures (forall s, i: nat :: Reachable(s) && i < |s.readers| && TookTime(s.readers[i], d) ==> ReadSafely(s.readers[i]))
            <==> d < 3000
  {
    if d < 3000 {
      forall s, i: nat | Reachable(s) && i < |s.readers| && TookTime(s.readers[i], d)
        ensures ReadSafely(s.readers[i])
      {
        ReadersSafe(s, i);
      }
    } else {
      SlowReaderTouchesFreed(d);
      var s :| Reachable(s) && TouchedFreed(s, d);
      assert !ReadSafely(s.readers[0]);
    }
  }
}
