/**
 What readers of the configuration are told, read off the run's own actions: which responses came in, when a
 reader loaded the pointer, and what it returns.
 */
module ConfigHistory {
  import opened Prelude
  import opened ConfigModel

  // ----- the actions of a run -----

  /** The bodies of the responses with code 200 and a body, in order. */
  function Fetched(run: seq<Action>): seq<string> {
    if run == [] then []
    else
      var a := run[|run| - 1];
      Fetched(run[..|run| - 1]) + if a.Response? && a.code == 200 && a.body != "" then [a.body] else []
  }

  function Elapsed(run: seq<Action>): nat {
    if run == [] then 0
    else Elapsed(run[..|run| - 1]) + if run[|run| - 1].Tick? then run[|run| - 1].d else 0
  }

  lemma {:induction false} ClockIs(s: State, run: seq<Action>)
    requires Exec(s, run).Some?
    ensures Exec(s, run).value.now == s.now + Elapsed(run)
  {
    if run != [] {
      ClockIs(s, run[..|run| - 1]);
    }
  }

  // ----- what is published -----

  lemma {:induction false} FetchedIs(s: State, run: seq<Action>)
    requires s.fetched == [] && Exec(s, run).Some?
    ensures Exec(s, run).value.fetched == Fetched(run)
  {
    if run != [] {
      FetchedIs(s, run[..|run| - 1]);
    }
  }

  function Last(bodies: seq<string>): string {
    if bodies == [] then "" else bodies[|bodies| - 1]
  }

  /** What a reader is given for the pointer. */
  function Shown(s: State): string {
    var c := Content(s.live, s.config);
    if c.Some? then c.value else ""
  }

  /** The bodies that have come as far as being published: all but the one about to be swapped in. */
  function Visible(bodies: seq<string>, u: Updater): seq<string> {
    if u.Prepared? && bodies != [] then bodies[..|bodies| - 1] else bodies
  }

  lemma {:induction false} StepShown(s: State, a: Action)
    requires Owned(s) && Current(s) && Enabled(s, a)
    requires Shown(s) == Last(Visible(s.fetched, s.updater))
    ensures Shown(Apply(s, a)) == Last(Visible(Apply(s, a).fetched, Apply(s, a).updater))
  {
  }

  /** Over whole runs: the pointer leads to the body of the last response with code 200 and a body, or of the one
      before while the newest is about to be swapped in; to nothing if there was none. */
  lemma {:induction false} ShownIsNewest(readers: nat, now: nat, run: seq<Action>)
    requires Exec(Initial(readers, now), run).Some?
    ensures var s := Exec(Initial(readers, now), run).value; Shown(s) == Last(Visible(Fetched(run), s.updater))
  {
    FetchedIs(Initial(readers, now), run);
    if run != [] {
      var front := run[..|run| - 1];
      ShownIsNewest(readers, now, front);
      FetchedIs(Initial(readers, now), front);
      RunInv(Initial(readers, now), front);
      StepShown(Exec(Initial(readers, now), front).value, run[|run| - 1]);
    }
  }

  // ----- when a reader did what -----

  predicate Of(r: nat, a: Action) {
    a == TestNull(r) || a == LoadPointer(r) || a == CopyData(r)
  }

  /** Before step `j` the clock showed `at` and the pointer led to `seen`. */
  ghost predicate SawAt(s: State, run: seq<Action>, j: nat, at: nat, seen: string) {
    j < |run| && Exec(s, run[..j]).Some? && at == s.now + Elapsed(run[..j]) && seen == Shown(Exec(s, run[..j]).value)
  }

  predicate QuietAfter(run: seq<Action>, r: nat, j: nat) {
    forall i :: j < i < |run| ==> !Of(r, run[i])
  }

  /** The record of reader `r` is of what it did at its steps `j` and `e`, its last. */
  ghost predicate Moment(s: State, run: seq<Action>, r: nat, x: Reader, j: nat, e: nat) {
    match x
    case Idle => true
    case NotNull => true
    case Following(_, at, seen) => SawAt(s, run, j, at, seen) && run[j] == LoadPointer(r) && QuietAfter(run, r, j)
    case Done(at, end, seen, _) =>
      && SawAt(s, run, j, at, seen) && j <= e < |run| && QuietAfter(run, r, e)
      && end == s.now + Elapsed(run[..e])
      && if j == e then run[j] == TestNull(r)
         else run[j] == LoadPointer(r) && run[e] == CopyData(r) && forall i :: j < i < e ==> !Of(r, run[i])
  }

  lemma {:induction false} MomentStays(s: State, run: seq<Action>, a: Action, r: nat, x: Reader, j: nat, e: nat)
    requires Moment(s, run, r, x, j, e) && !Of(r, a)
    ensures Moment(s, run + [a], r, x, j, e)
  {
    assert j < |run| ==> (run + [a])[..j] == run[..j];
    assert e < |run| ==> (run + [a])[..e] == run[..e];
  }

  lemma {:induction false} OthersStay(s: State, a: Action, r: nat)
    requires Enabled(s, a) && r < |s.readers| && !Of(r, a)
    ensures |Apply(s, a).readers| == |s.readers| && Apply(s, a).readers[r] == s.readers[r]
  {
  }

  /** What a reader records at a step of its own. */
  lemma {:induction false} OwnStep(s: State, a: Action, r: nat)
    requires Owned(s) && Enabled(s, a) && r < |s.readers| && Of(r, a) && ReaderOk(s, s.readers[r])
    ensures |Apply(s, a).readers| == |s.readers|
    ensures var x, y := s.readers[r], Apply(s, a).readers[r];
      match a
      case TestNull(_) => y == NotNull || (y == Done(s.now, s.now, "", Text("")) && Shown(s) == "")
      case LoadPointer(_) => y.Following? && y.at == s.now && y.seen == Shown(s)
      case CopyData(_) => x.Following? && y.Done? && y.at == x.at && y.end == s.now && y.seen == x.seen
      case _ => true
  {
  }

  /** The step a reader has just taken, as its record has it. */
  lemma {:induction false} MomentNow(s: State, front: seq<Action>, a: Action, r: nat, x: Reader, y: Reader, j: nat, e: nat)
      returns (i: nat)
    requires Exec(s, front).Some? && Moment(s, front, r, x, j, e) && Of(r, a)
    requires var p := Exec(s, front).value;
      match a
      case TestNull(_) => y == NotNull || (y == Done(p.now, p.now, "", Text("")) && Shown(p) == "")
      case LoadPointer(_) => y.Following? && y.at == p.now && y.seen == Shown(p)
      case CopyData(_) => x.Following? && y.Done? && y.at == x.at && y.end == p.now && y.seen == x.seen
      case _ => true
    ensures Moment(s, front + [a], r, y, i, |front|)
  {
    var run := front + [a];
    ClockIs(s, front);
    assert run[..|front|] == front;
    if a.CopyData? {
      i := j;
      assert run[..j] == front[..j];
    } else {
      i := |front|;
    }
  }

  lemma {:induction false} ReaderMoment(s: State, run: seq<Action>, r: nat) returns (j: nat, e: nat)
    requires Inv(s) && Exec(s, run).Some? && r < |s.readers| && s.readers[r].Idle?
    ensures |Exec(s, run).value.readers| == |s.readers|
    ensures Moment(s, run, r, Exec(s, run).value.readers[r], j, e)
  {
    j, e := 0, 0;
    if run != [] {
      var n := |run| - 1;
      var front, a := run[..n], run[n];
      assert run == front + [a];
      j, e := ReaderMoment(s, front, r);
      var p := Exec(s, front).value;
      if Of(r, a) {
        RunInv(s, front);
        OwnStep(p, a, r);
        j := MomentNow(s, front, a, r, p.readers[r], Apply(p, a).readers[r], j, e);
        e := n;
      } else {
        OthersStay(p, a, r);
        MomentStays(s, front, a, r, p.readers[r], j, e);
      }
    }
  }

  // ----- what a reader is told -----

  /** Over whole runs: a reader that takes less than three seconds from the load of the pointer (or finds it null)
      returns the body of the last response with code 200 and a body before that load, or of the one before while
      that last one is about to be swapped in; the empty string if there was none. */
  lemma {:induction false} ReaderTold(readers: nat, now: nat, run: seq<Action>, r: nat) returns (j: nat, e: nat)
    requires r < readers && Exec(Initial(readers, now), run).Some?
    requires r < |Exec(Initial(readers, now), run).value.readers| && Exec(Initial(readers, now), run).value.readers[r].Done?
    ensures var x := Exec(Initial(readers, now), run).value.readers[r];
      && Moment(Initial(readers, now), run, r, x, j, e)
      && (Elapsed(run[..e]) < Elapsed(run[..j]) + 3000 ==>
            x.outcome == Text(Last(Visible(Fetched(run[..j]), Exec(Initial(readers, now), run[..j]).value.updater))))
  {
    var s0 := Initial(readers, now);
    j, e := ReaderMoment(s0, run, r);
    ShownIsNewest(readers, now, run[..j]);
    var s := Exec(s0, run).value;
    assert Reachable(s);
    ReadersSafe(s, r);
  }

  // ----- how often it asks -----

  /** The next request, if there will be one, is sent at `due` or later. */
  predicate NotBefore(s: State, due: nat) {
    match s.updater
    case Asking => s.now >= due
    case Sleeping(until) => until >= due
    case RoundOver => s.now + 10000 >= due
    case Prepared(_) => s.now + 10000 >= due
    case Grace(_, _) => s.now + 10000 >= due
    case _ => s.updater.Stopped?
  }

  lemma {:induction false} StepNotBefore(s: State, a: Action, due: nat)
    requires Enabled(s, a) && NotBefore(s, due)
    ensures !a.Response? ==> NotBefore(Apply(s, a), due)
    ensures a.Response? ==> s.now >= due && NotBefore(Apply(s, a), s.now + 10000)
  {
  }

  /** Two responses are at least ten seconds apart. */
  lemma {:induction false} RoundsSpaced(s: State, run: seq<Action>, i: nat, k: nat)
    requires Exec(s, run).Some? && i < k < |run| && run[i].Response? && run[k].Response?
    ensures Elapsed(run[..k]) >= Elapsed(run[..i]) + 10000
  {
    PrefixRuns(s, run, k);
    SinceResponse(s, run[..k], i);
    ClockIs(s, run[..k]);
    assert run[..k][..i] == run[..i];
    PrefixRuns(s, run, k + 1);
    assert run[..k + 1][..k] == run[..k];
    StepNotBefore(Exec(s, run[..k]).value, run[k], s.now + Elapsed(run[..i]) + 10000);
  }

  lemma {:induction false} PrefixRuns(s: State, run: seq<Action>, k: nat)
    requires Exec(s, run).Some? && k <= |run|
    ensures Exec(s, run[..k]).Some?
  {
    if k < |run| {
      PrefixRuns(s, run[..|run| - 1], k);
      assert run[..|run| - 1][..k] == run[..k];
    } else {
      assert run[..k] == run;
    }
  }

  lemma {:induction false} SinceResponse(s: State, run: seq<Action>, i: nat)
    requires Exec(s, run).Some? && i < |run| && run[i].Response?
    ensures NotBefore(Exec(s, run).value, s.now + Elapsed(run[..i]) + 10000)
  {
    var n := |run| - 1;
    var front := run[..n];
    ClockIs(s, front);
    var p := Exec(s, front).value;
    if i == n {
      assert NotBefore(p, p.now);
      StepNotBefore(p, run[n], p.now);
    } else {
      SinceResponse(s, front, i);
      assert front[..i] == run[..i];
      StepNotBefore(p, run[n], s.now + Elapsed(run[..i]) + 10000);
      if run[n].Response? {
        NotBeforeWeaker(Apply(p, run[n]), p.now + 10000, s.now + Elapsed(run[..i]) + 10000);
      }
    }
  }

  lemma {:induction false} NotBeforeWeaker(s: State, due: nat, earlier: nat)
    requires NotBefore(s, due) && earlier <= due
    ensures NotBefore(s, earlier)
  {
  }
}
