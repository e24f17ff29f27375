/**
 What readers of the registry are told, read off the run's own actions: which replies came in, which of them a
 reader is answered from, and when it loaded the flag and finished.
 */
module RegistryHistory {
  import opened Prelude
  import opened Registry
  import opened RegistryPublish

  // ----- the actions of a run -----

  /** The applications of the replies that could be read throughout, in order of arrival. */
  function Readable(run: seq<Action>): seq<seq<AppDoc>> {
    if run == [] then []
    else
      var a := run[|run| - 1];
      Readable(run[..|run| - 1]) + if a.ReplyArrives? && Parses(a.reply) then [a.reply.apps.value] else []
  }

  function Elapsed(run: seq<Action>): nat {
    if run == [] then 0
    else Elapsed(run[..|run| - 1]) + if run[|run| - 1].Tick? then run[|run| - 1].d else 0
  }

  lemma {:induction false} ClockIs(s: State, run: seq<Action>)
    requires Exec(s, run).Some?
    ensures Exec(s, run).value.now == s.now + Elapsed(run)
  {
    if run != [] {
      ClockIs(s, run[..|run| - 1]);
    }
  }

  // ----- what has been published -----

  /** The reply being parsed, if it will be published. */
  function Pending(u: Updater): seq<seq<AppDoc>> {
    match u
    case Cleared(reply) => if Parses(reply) then [reply.apps.value] else []
    case Building(apps, _) => if AllReadable(apps) then [apps] else []
    case _ => []
  }

  lemma {:induction false} StepSources(s: State, a: Action)
    requires Published(s) && InProgress(s) && Enabled(s, a)
    ensures var t := Apply(s, a);
      t.sources + Pending(t.updater) ==
        s.sources + Pending(s.updater) + if a.ReplyArrives? && Parses(a.reply) then [a.reply.apps.value] else []
  {
    if a.UpdaterStep? && s.updater.Building? && s.updater.k >= |s.updater.apps| {
      assert s.updater.apps[..s.updater.k] == s.updater.apps;
    }
  }

  /** Published are, after the empty registry of the start, exactly the readable replies, in order; the last of them
      may still be on its way. */
  lemma {:induction false} SourcesAreReplies(readers: nat, now: nat, run: seq<Action>)
    requires Exec(Initial(readers, now), run).Some?
    ensures var s := Exec(Initial(readers, now), run).value; s.sources + Pending(s.updater) == [[]] + Readable(run)
  {
    if run != [] {
      var s0, front, a := Initial(readers, now), run[..|run| - 1], run[|run| - 1];
      SourcesAreReplies(readers, now, front);
      var s := Exec(s0, front).value;
      RunInv(s0, front);
      StepSources(s, a);
      assert [[]] + Readable(run) ==
        [[]] + Readable(front) + if a.ReplyArrives? && Parses(a.reply) then [a.reply.apps.value] else [];
    }
  }

  /** What a step appends to the published history stays there. */
  lemma {:induction false} SourcesStay(s: State, run: seq<Action>, j: nat)
    requires j <= |run| && Exec(s, run).Some?
    ensures Exec(s, run[..j]).Some? && Exec(s, run[..j]).value.sources <= Exec(s, run).value.sources
  {
    if j < |run| {
      var front := run[..|run| - 1];
      SourcesStay(s, front, j);
      assert front[..j] == run[..j];
    } else {
      assert run[..j] == run;
    }
  }

  // ----- when a reader did what -----

  /** The last load of reader `r` was step `j` of the run, for `name`, and saw the flag and the clock as given. */
  ghost predicate LoadedAt(s: State, run: seq<Action>, r: nat, j: nat, name: string, flag: nat, at: nat) {
    && j < |run| && run[j] == Load(r, name)
    && (forall i, n :: j < i < |run| ==> run[i] != Load(r, n))
    && Exec(s, run[..j]).Some? && Exec(s, run[..j]).value.flag == flag && at == s.now + Elapsed(run[..j])
  }

  /** Step `e` is the last of reader `r`, at time `end`. */
  ghost predicate EndedAt(s: State, run: seq<Action>, r: nat, e: nat, end: nat) {
    && e < |run| && (run[e] == Find(r) || run[e] == Copy(r)) && end == s.now + Elapsed(run[..e])
    && forall i :: e < i < |run| ==> !Of(r, run[i])
  }

  predicate Of(r: nat, a: Action) {
    (a.Load? && a.r == r) || a == Find(r) || a == Copy(r)
  }

  lemma {:induction false} LoadedStays(s: State, run: seq<Action>, a: Action, r: nat, j: nat, name: string, flag: nat, at: nat)
    requires LoadedAt(s, run, r, j, name, flag, at) && !(a.Load? && a.r == r)
    ensures LoadedAt(s, run + [a], r, j, name, flag, at)
  {
    assert (run + [a])[..j] == run[..j];
  }

  lemma {:induction false} EndedStays(s: State, run: seq<Action>, a: Action, r: nat, e: nat, end: nat)
    requires EndedAt(s, run, r, e, end) && !Of(r, a)
    ensures EndedAt(s, run + [a], r, e, end)
  {
    assert (run + [a])[..e] == run[..e];
  }

  /** A reader stays as it is but for its own steps. */
  lemma {:induction false} OthersStay(s: State, a: Action, r: nat)
    requires |s.maps| == MAXNUM && Enabled(s, a) && r < |s.readers| && !Of(r, a)
    ensures |Apply(s, a).readers| == |s.readers| && Apply(s, a).readers[r] == s.readers[r]
  {
  }

  /** What the record of a reader says of its last load and its end is what happened in the run. */
  lemma {:induction false} ReaderMoment(s: State, run: seq<Action>, r: nat) returns (j: nat, e: nat)
    requires Exec(s, run).Some? && r < |s.readers| && s.readers[r].Idle?
    ensures |Exec(s, run).value.readers| == |s.readers|
    ensures var x := Exec(s, run).value.readers[r];
      && (!x.Idle? ==> LoadedAt(s, run, r, j, x.name, x.flag, x.at))
      && (x.Done? ==> j < e && EndedAt(s, run, r, e, x.end))
  {
    j, e := 0, 0;
    if run != [] {
      var n := |run| - 1;
      var front, a := run[..n], run[n];
      assert run == front + [a];
      j, e := ReaderMoment(s, front, r);
      var before := Exec(s, front).value;
      var x := before.readers[r];
      ClockIs(s, front);
      if !Of(r, a) {
        OthersStay(before, a, r);
        if !x.Idle? {
          LoadedStays(s, front, a, r, j, x.name, x.flag, x.at);
        }
        if x.Done? {
          EndedStays(s, front, a, r, e, x.end);
        }
      } else if a.Load? {
        j := n;
      } else {
        LoadedStays(s, front, a, r, j, x.name, x.flag, x.at);
        e := n;
      }
    }
  }

  // ----- what a reader is told -----

  /** The state of the published history against the replies that have come. */
  ghost predicate UpToDate(p: State, replies: seq<seq<AppDoc>>) {
    && |p.sources| == p.flag + 1
    && p.flag <= |replies| <= p.flag + 1
    && p.sources[p.flag] == (if p.flag == 0 then [] else replies[p.flag - 1])
    && (|replies| == p.flag + 1 ==> p.updater.Cleared? || p.updater.Building?)
  }

  lemma {:induction false} SourcesUpToDate(p: State, replies: seq<seq<AppDoc>>)
    requires |p.sources| == p.flag + 1 && p.sources + Pending(p.updater) == [[]] + replies
    ensures UpToDate(p, replies)
  {
    var all := [[]] + replies;
    assert |all| == p.flag + 1 + |Pending(p.updater)|;
    assert p.sources[p.flag] == (p.sources + Pending(p.updater))[p.flag] == all[p.flag];
  }

  /** Under the flag is the start or a readable reply that has arrived; at most the newest is still being parsed. */
  lemma {:induction false} PublishedBefore(readers: nat, now: nat, run: seq<Action>)
    requires Exec(Initial(readers, now), run).Some?
    ensures UpToDate(Exec(Initial(readers, now), run).value, Readable(run))
  {
    RunInv(Initial(readers, now), run);
    SourcesAreReplies(readers, now, run);
    SourcesUpToDate(Exec(Initial(readers, now), run).value, Readable(run));
  }

  lemma {:induction false} TimelyAnswer(readers: nat, now: nat, run: seq<Action>, r: nat, j: nat)
    requires j <= |run| && Exec(Initial(readers, now), run).Some? && r < |Exec(Initial(readers, now), run).value.readers|
    ensures Exec(Initial(readers, now), run[..j]).Some?
    ensures var x, p := Exec(Initial(readers, now), run).value.readers[r], Exec(Initial(readers, now), run[..j]).value;
      x.Done? && x.end < x.at + 2000 && x.flag < |p.sources| ==>
        !x.outcome.Dangling? && Shows(AnswerOf(x.outcome), p.sources[x.flag], x.name)
  {
    SourcesStay(Initial(readers, now), run, j);
    var s := Exec(Initial(readers, now), run).value;
    assert Reachable(s);
    if s.readers[r].Done? && s.readers[r].end < s.readers[r].at + 2000 {
      SnapshotSafety(s, r);
    }
  }

  /** The reader has loaded flag `f` at step `j`, when the f-th readable reply was the newest or, with the newest still
      being parsed, the one before; if it was done within two seconds, at step `e`, it is told what the f-th says
      of the name. */
  ghost predicate Answered(s: State, run: seq<Action>, r: nat, x: Reader, j: nat, e: nat, f: nat) {
    && x.Done? && LoadedAt(s, run, r, j, x.name, f, x.at) && j < e && EndedAt(s, run, r, e, x.end)
    && f <= |Readable(run[..j])| <= f + 1
    && (|Readable(run[..j])| == f + 1 ==>
          var u := Exec(s, run[..j]).value.updater; u.Cleared? || u.Building?)
    && (Elapsed(run[..e]) < Elapsed(run[..j]) + 2000 ==>
          && !x.outcome.Dangling?
          && Shows(AnswerOf(x.outcome), if f == 0 then [] else Readable(run[..j])[f - 1], x.name))
  }

  lemma {:induction false} AnsweredSo(s: State, run: seq<Action>, r: nat, x: Reader, j: nat, e: nat, p: State)
    requires x.Done? && LoadedAt(s, run, r, j, x.name, x.flag, x.at) && j < e && EndedAt(s, run, r, e, x.end)
    requires Exec(s, run[..j]) == Some(p) && UpToDate(p, Readable(run[..j]))
    requires x.end < x.at + 2000 && x.flag < |p.sources| ==>
      !x.outcome.Dangling? && Shows(AnswerOf(x.outcome), p.sources[x.flag], x.name)
    ensures Answered(s, run, r, x, j, e, x.flag)
  {
  }

  /** Over whole runs: a reader that takes less than two seconds is told what the newest readable reply that had
      arrived when it loaded the flag says of the name, or, while that one is being parsed, the reply before; with no
      such reply, that there is no instance. */
  lemma {:induction false} ReaderAnswered(readers: nat, now: nat, run: seq<Action>, r: nat) returns (j: nat, e: nat, f: nat)
    requires r < readers && Exec(Initial(readers, now), run).Some?
    requires r < |Exec(Initial(readers, now), run).value.readers| && Exec(Initial(readers, now), run).value.readers[r].Done?
    ensures Answered(Initial(readers, now), run, r, Exec(Initial(readers, now), run).value.readers[r], j, e, f)
  {
    j, e := ReaderMoment(Initial(readers, now), run, r);
    TimelyAnswer(readers, now, run, r, j);
    PublishedBefore(readers, now, run[..j]);
    var x := Exec(Initial(readers, now), run).value.readers[r];
    AnsweredSo(Initial(readers, now), run, r, x, j, e, Exec(Initial(readers, now), run[..j]).value);
    f := x.flag;
  }
}
