/**
 Publication of the registry: one updater builds the inactive map and bumps the flag, any number of
 readers load the flag and then look into the map it selects.  Time is in milliseconds.
 */
module RegistryPublish {
  import opened Prelude
  import opened Registry

  /** The pause between two update rounds. */
  const SPAN := 2000

  datatype Updater =
    | Asking                                   // heartbeat and request under way
    | Cleared(reply: Reply)                    // the inactive map has been cleared
    | Building(apps: seq<AppDoc>, k: nat)      // k applications done
    | RoundOver                                // succeeded or failed, about to sleep
    | Sleeping(until: nat)

  datatype Outcome = Missing | Dangling | Copied(list: seq<ServerStatus>)

  datatype Reader =
    | Idle
    | Loaded(name: string, flag: nat, at: nat)                   // has read the flag at time `at`
    | Found(name: string, flag: nat, at: nat, found: nat)        // has found the entry at time `found`
    | Done(name: string, flag: nat, at: nat, end: nat, outcome: Outcome)

  /** `published[f]` is what was made visible under flag value f, from the applications `sources[f]`. */
  datatype State = State(
    maps: seq<ServerMap>,
    flag: nat,
    updater: Updater,
    readers: seq<Reader>,
    now: nat,
    published: seq<ServerMap>,
    sources: seq<seq<AppDoc>>)

  datatype Action =
    | Tick(d: nat)
    | RequestFails
    | ReplyArrives(reply: Reply)
    | UpdaterStep
    | Load(r: nat, name: string)
    | Find(r: nat)
    | Copy(r: nat)

  function Initial(readers: nat, now: nat): State {
    State([map[], map[]], 0, Asking, seq(readers, i => Idle), now, [map[]], [[]])
  }

  predicate Enabled(s: State, a: Action) {
    match a
    case Tick(_) => true
    case RequestFails => s.updater.Asking?
    case ReplyArrives(_) => s.updater.Asking?
    case UpdaterStep =>
      !s.updater.Asking? && (s.updater.Sleeping? ==> s.now >= s.updater.until)
    case Load(r, _) => r < |s.readers| && (s.readers[r].Idle? || s.readers[r].Done?)
    case Find(r) => r < |s.readers| && s.readers[r].Loaded?
    case Copy(r) => r < |s.readers| && s.readers[r].Found?
  }

  function UpdaterNext(s: State): State
    requires |s.maps| == MAXNUM
  {
    var num := (s.flag + 1) % MAXNUM;
    match s.updater
    case Asking => s
    case Cleared(reply) =>
      if reply.Document? && reply.apps.Got? then s.(updater := Building(reply.apps.value, 0))
      else s.(updater := RoundOver)
    case Building(apps, k) =>
      if k >= |apps| then
        s.(updater := RoundOver, flag := s.flag + 1, published := s.published + [s.maps[num]],
           sources := s.sources + [apps])
      else if !AppReadable(apps[k]) then s.(updater := RoundOver)
      else
        var ups := UpInstances(apps[k].instances.value);
        s.(updater := Building(apps, k + 1),
           maps := if ups == [] then s.maps else s.maps[num := Insert(s.maps[num], apps[k].name.value, ups)])
    case RoundOver => s.(updater := Sleeping(s.now + SPAN))
    case Sleeping(_) => s.(updater := Asking)
  }

  function Apply(s: State, a: Action): State
    requires Enabled(s, a) && |s.maps| == MAXNUM
  {
    match a
    case Tick(d) => s.(now := s.now + d)
    case RequestFails => s.(updater := RoundOver)
    case ReplyArrives(reply) =>
      s.(updater := Cleared(reply), maps := s.maps[(s.flag + 1) % MAXNUM := map[]])
    case UpdaterStep => UpdaterNext(s)
    case Load(r, name) => s.(readers := s.readers[r := Loaded(name, s.flag, s.now)])
    case Find(r) =>
      var l := s.readers[r];
      s.(readers := s.readers[r :=
        if l.name in s.maps[l.flag % MAXNUM] then Found(l.name, l.flag, l.at, s.now)
        else Done(l.name, l.flag, l.at, s.now, Missing)])
    case Copy(r) =>
      var l := s.readers[r];
      var m := s.maps[l.flag % MAXNUM];
      s.(readers := s.readers[r :=
        Done(l.name, l.flag, l.at, s.now, if l.name in m then Copied(m[l.name]) else Dangling)])
  }

  function Exec(s: State, run: seq<Action>): Option<State> {
    if run == [] then Some(s)
    else
      var p := Exec(s, run[..|run| - 1]);
      if p.Some? && |p.value.maps| == MAXNUM && Enabled(p.value, run[|run| - 1])
      then Some(Apply(p.value, run[|run| - 1])) else None
  }

  ghost predicate Reachable(s: State) {
    exists readers: nat, now: nat, run :: Exec(Initial(readers, now), run) == Some(s)
  }

  // ----- the invariant -----

  /** The active map is the last one published; each was built from one whole readable reply. */
  ghost predicate Published(s: State) {
    && |s.maps| == MAXNUM && |s.published| == |s.sources| == s.flag + 1
    && s.maps[s.flag % MAXNUM] == s.published[s.flag]
    && forall f :: 0 <= f <= s.flag ==> AllReadable(s.sources[f]) && s.published[f] == Built(s.sources[f])
  }

  ghost predicate InProgress(s: State) {
    |s.maps| == MAXNUM &&
    match s.updater
    case Cleared(_) => s.maps[(s.flag + 1) % MAXNUM] == map[]
    case Building(apps, k) =>
      k <= |apps| && AllReadable(apps[..k]) && s.maps[(s.flag + 1) % MAXNUM] == Built(apps[..k])
    case _ => true
  }

  /** Until `deadline`, the map published under `f` is still in its buffer. */
  ghost predicate IntactUntil(s: State, f: nat, deadline: nat) {
    && |s.maps| == MAXNUM && |s.published| == s.flag + 1 && f <= s.flag
    && (s.now < deadline ==>
          || f == s.flag
          || (&& f + 1 == s.flag && s.maps[f % MAXNUM] == s.published[f]
              && (s.updater.RoundOver? || (s.updater.Sleeping? && s.updater.until >= deadline))))
  }

  /** What a reader that has finished in time must have got. */
  function Expected(m: ServerMap, name: string): Outcome {
    if name in m then Copied(m[name]) else Missing
  }

  ghost predicate ReaderOk(s: State, r: Reader) {
    |s.maps| == MAXNUM && |s.published| == s.flag + 1 &&
    match r
    case Idle => true
    case Loaded(name, f, at) => at <= s.now && IntactUntil(s, f, at + SPAN)
    case Found(name, f, at, found) =>
      && at <= s.now && IntactUntil(s, f, at + SPAN) && found <= s.now
      && (found < at + SPAN ==> name in s.published[f])
    case Done(name, f, at, end, outcome) =>
      && f <= s.flag && at <= end
      && (end < at + SPAN ==> outcome == Expected(s.published[f], name))
  }

  ghost predicate Inv(s: State) {
    Published(s) && InProgress(s) && forall r :: 0 <= r < |s.readers| ==> ReaderOk(s, s.readers[r])
  }

  lemma {:induction false} OneMoreApp(apps: seq<AppDoc>, k: nat)
    requires k < |apps| && AllReadable(apps[..k]) && AppReadable(apps[k])
    ensures AllReadable(apps[..k + 1])
    ensures Built(apps[..k + 1]) ==
      var ups := UpInstances(apps[k].instances.value);
      if ups == [] then Built(apps[..k]) else Insert(Built(apps[..k]), apps[k].name.value, ups)
  {
    assert apps[..k + 1][..k] == apps[..k];
  }

  /** Only the active map matters to what is published. */
  lemma {:induction false} PublishedKept(s: State, t: State)
    requires Published(s) && t.flag == s.flag && t.published == s.published && t.sources == s.sources
    requires |t.maps| == MAXNUM && t.maps[s.flag % MAXNUM] == s.maps[s.flag % MAXNUM]
    ensures Published(t)
  {
  }

  lemma {:induction false} BuildingKeepsProgress(s: State, ups: seq<ServerStatus>)
    requires Published(s) && InProgress(s) && s.updater.Building? && s.updater.k < |s.updater.apps|
    requires AppReadable(s.updater.apps[s.updater.k])
    requires ups == UpInstances(s.updater.apps[s.updater.k].instances.value)
    ensures InProgress(UpdaterNext(s))
  {
    OneMoreApp(s.updater.apps, s.updater.k);
  }

  lemma {:induction false} BuildingKeepsPublished(s: State)
    requires Published(s) && InProgress(s) && s.updater.Building? && s.updater.k < |s.updater.apps|
    ensures Published(UpdaterNext(s)) && InProgress(UpdaterNext(s))
  {
    PublishedKept(s, UpdaterNext(s));
    if AppReadable(s.updater.apps[s.updater.k]) {
      BuildingKeepsProgress(s, UpInstances(s.updater.apps[s.updater.k].instances.value));
    }
  }

  lemma {:induction false} BumpKeepsPublished(s: State)
    requires Published(s) && InProgress(s) && s.updater.Building? && s.updater.k >= |s.updater.apps|
    ensures Published(UpdaterNext(s)) && InProgress(UpdaterNext(s))
  {
    assert s.updater.apps[..s.updater.k] == s.updater.apps;
  }

  lemma {:induction false} UpdaterKeepsPublished(s: State)
    requires Published(s) && InProgress(s) && Enabled(s, UpdaterStep)
    ensures Published(UpdaterNext(s)) && InProgress(UpdaterNext(s))
  {
    if s.updater.Building? {
      if s.updater.k < |s.updater.apps| {
        BuildingKeepsPublished(s);
      } else {
        BumpKeepsPublished(s);
      }
    }
  }

  predicate ByReader(a: Action) {
    a.Load? || a.Find? || a.Copy?
  }

  /** Steps of the updater, the clock and the network keep a published map intact for as long as before. */
  lemma {:induction false} IntactKept(s: State, a: Action, f: nat, deadline: nat)
    requires Published(s) && InProgress(s) && Enabled(s, a) && !ByReader(a)
    requires IntactUntil(s, f, deadline)
    requires deadline <= s.now + SPAN
    ensures IntactUntil(Apply(s, a), f, deadline)
  {
  }

  lemma {:induction false} ReaderKept(s: State, a: Action, r: Reader)
    requires Published(s) && InProgress(s) && ReaderOk(s, r) && Enabled(s, a) && !ByReader(a)
    ensures ReaderOk(Apply(s, a), r)
  {
    if r.Loaded? || r.Found? {
      IntactKept(s, a, r.flag, r.at + SPAN);
    }
  }

  /** A reader's step settles only that reader, and correctly. */
  lemma {:induction false} ReaderStep(s: State, a: Action, i: nat)
    requires Published(s) && ByReader(a) && Enabled(s, a) && i < |s.readers|
    requires ReaderOk(s, s.readers[i])
    ensures ReaderOk(Apply(s, a), Apply(s, a).readers[i])
  {
  }

  lemma {:induction false} StepInv(s: State, a: Action)
    requires Inv(s) && Enabled(s, a)
    ensures Inv(Apply(s, a))
  {
    if a.UpdaterStep? {
      UpdaterKeepsPublished(s);
    }
    forall i: nat | i < |Apply(s, a).readers|
      ensures ReaderOk(Apply(s, a), Apply(s, a).readers[i])
    {
      if ByReader(a) {
        ReaderStep(s, a, i);
      } else {
        ReaderKept(s, a, s.readers[i]);
      }
    }
  }

  lemma {:induction false} RunInv(s: State, run: seq<Action>)
    requires Inv(s) && Exec(s, run).Some?
    ensures Inv(Exec(s, run).value)
  {
    if run != [] {
      RunInv(s, run[..|run| - 1]);
      StepInv(Exec(s, run[..|run| - 1]).value, run[|run| - 1]);
    }
  }

  lemma {:induction false} ReachableInv(s: State)
    requires Reachable(s)
    ensures Inv(s)
  {
    var readers: nat, now: nat, run :| Exec(Initial(readers, now), run) == Some(s);
    RunInv(Initial(readers, now), run);
  }

  // ----- what it means -----

  /** The outcome as an answer; a dangling iterator is none. */
  function AnswerOf(outcome: Outcome): Option<seq<ServerStatus>> {
    if outcome.Copied? then Some(outcome.list) else None
  }

  /** A reader that finishes within the update gap has seen exactly the registry published under the flag it
      loaded, whole: what one readable reply (or the empty start-up registry) says of the name. */
  lemma {:induction false} SnapshotSafety(s: State, r: nat)
    requires Reachable(s) && r < |s.readers| && s.readers[r].Done?
    requires s.readers[r].end < s.readers[r].at + 2000
    ensures s.readers[r].flag < |s.sources| && AllReadable(s.sources[s.readers[r].flag])
    ensures s.readers[r].outcome == Expected(Built(s.sources[s.readers[r].flag]), s.readers[r].name)
    ensures !s.readers[r].outcome.Dangling?
    ensures Shows(AnswerOf(s.readers[r].outcome), s.sources[s.readers[r].flag], s.readers[r].name)
  {
    ReachableInv(s);
    assert ReaderOk(s, s.readers[r]);
    BuiltShows(s.sources[s.readers[r].flag], s.readers[r].name);
  }

  /** A failed round changes neither the flag nor what is published. */
  lemma {:induction false} FailureInvisible(s: State, a: Action)
    requires Reachable(s) && Enabled(s, a) && Apply(s, a).flag == s.flag
    ensures Apply(s, a).published == s.published
    ensures Apply(s, a).maps[s.flag % MAXNUM] == s.maps[s.flag % MAXNUM]
  {
    ReachableInv(s);
  }

  lemma {:induction false} ReachableStep(s: State, a: Action)
    requires Reachable(s) && |s.maps| == MAXNUM && Enabled(s, a)
    ensures Reachable(Apply(s, a))
  {
    var readers: nat, now: nat, run :| Exec(Initial(readers, now), run) == Some(s);
    ExecSnoc(Initial(readers, now), run, a);
  }

  // ----- one parsing attempt, undisturbed, is what ParserData does -----

  lemma {:induction false} ExecSnoc(s: State, run: seq<Action>, a: Action)
    requires Exec(s, run).Some? && |Exec(s, run).value.maps| == MAXNUM && Enabled(Exec(s, run).value, a)
    ensures Exec(s, run + [a]) == Some(Apply(Exec(s, run).value, a))
  {
    assert (run + [a])[..|run|] == run;
  }

  /** The state in which k applications have been entered into the inactive map. */
  function Midway(s: State, apps: seq<AppDoc>, k: nat): State
    requires |s.maps| == MAXNUM && k <= |apps| && AllReadable(apps[..k])
  {
    s.(updater := Building(apps, k), maps := s.maps[(s.flag + 1) % MAXNUM := Built(apps[..k])])
  }

  lemma {:induction false} MidwayStep(s: State, apps: seq<AppDoc>, k: nat)
    requires |s.maps| == MAXNUM && k < |apps| && AllReadable(apps[..k]) && AppReadable(apps[k])
    ensures AllReadable(apps[..k + 1]) && UpdaterNext(Midway(s, apps, k)) == Midway(s, apps, k + 1)
  {
    OneMoreApp(apps, k);
    var num := (s.flag + 1) % MAXNUM;
    assert s.maps[num := Built(apps[..k])][num := Built(apps[..k + 1])] == s.maps[num := Built(apps[..k + 1])];
  }

  lemma {:induction false} ReachesMidway(s: State, apps: seq<AppDoc>, k: nat) returns (run: seq<Action>)
    requires |s.maps| == MAXNUM && s.updater.Asking? && k <= |apps| && AllReadable(apps[..k])
    ensures Exec(s, run) == Some(Midway(s, apps, k))
    decreases k
  {
    var reply := Document(Got(apps));
    if k == 0 {
      run := [];
      ExecSnoc(s, run, ReplyArrives(reply));
      run := run + [ReplyArrives(reply)];
      ExecSnoc(s, run, UpdaterStep);
      run := run + [UpdaterStep];
      assert Built(apps[..0]) == map[];
    } else {
      PrefixReadable(apps, k);
      run := ReachesMidway(s, apps, k - 1);
      MidwayStep(s, apps, k - 1);
      ExecSnoc(s, run, UpdaterStep);
      run := run + [UpdaterStep];
    }
  }

  /** From the arrival of a reply the updater alone gets to where ParserData leaves the maps and the flag. */
  lemma {:induction false} ParsingIsRun(s: State, reply: Reply) returns (run: seq<Action>, t: State)
    requires |s.maps| == MAXNUM && s.updater.Asking?
    ensures Exec(s, run) == Some(t) && t.updater == RoundOver
    ensures t.flag == s.flag + if Parses(reply) then 1 else 0
    ensures t.maps == s.maps[(s.flag + 1) % MAXNUM := LeftBehind(reply)]
  {
    if reply.Document? && reply.apps.Got? {
      var apps := reply.apps.value;
      var n := ReadablePrefix(apps);
      run := ReachesMidway(s, apps, n);
      ExecSnoc(s, run, UpdaterStep);
      run, t := run + [UpdaterStep], UpdaterNext(Midway(s, apps, n));
      if n == |apps| {
        assert apps[..n] == apps;
      }
    } else {
      ExecSnoc(s, [], ReplyArrives(reply));
      run := [] + [ReplyArrives(reply)];
      ExecSnoc(s, run, UpdaterStep);
      run, t := run + [UpdaterStep], UpdaterNext(Apply(s, ReplyArrives(reply)));
    }
  }

  // ----- the bound is exact -----

  predicate TookTime(r: Reader, d: nat) {
    r.Done? && r.end == r.at + d
  }

  /** The reader got what the registry published under the flag it loaded says of the name. */
  ghost predicate SawSnapshot(s: State, r: Reader) {
    && r.Done? && r.flag < |s.sources| && AllReadable(s.sources[r.flag])
    && !r.outcome.Dangling? && Shows(AnswerOf(r.outcome), s.sources[r.flag], r.name)
  }

  /** A reader that took time `d` and lost the entry it had found. */
  ghost predicate LostItsEntry(s: State, d: nat) {
    |s.readers| > 0 && TookTime(s.readers[0], d) && s.readers[0].outcome.Dangling?
  }

  function OneApp(): AppDoc {
    AppDoc(Got("a"), Got([InstanceDoc(Got("h"), Got("1"), Got(UP))]))
  }

  /** A registry with one live instance of the service "a", published under flag 1. */
  lemma {:induction false} OnePublished() returns (s: State)
    ensures Reachable(s) && |s.maps| == MAXNUM && s.flag == 1 && s.updater == RoundOver && s.now == 0
    ensures s.readers == [Idle] && "a" in s.maps[1]
  {
    s := Initial(1, 0);
    assert Exec(s, []) == Some(s);
    var ups := [ServerStatus("h", "1", UP)];
    assert UpInstances(OneApp().instances.value) == ups by {
      assert OneApp().instances.value[..0] == [];
    }
    var a := ReplyArrives(Document(Got([OneApp()])));
    ReachableStep(s, a);
    s := Apply(s, a);
    ReachableStep(s, UpdaterStep);
    s := Apply(s, UpdaterStep);
    ReachableStep(s, UpdaterStep);
    s := Apply(s, UpdaterStep);
    assert s.maps[1] == map["a" := ups];
    ReachableStep(s, UpdaterStep);
    s := Apply(s, UpdaterStep);
  }

  /** It is found by a reader just before the next round. */
  lemma {:induction false} FoundUnderFlagOne() returns (s: State)
    ensures Reachable(s) && |s.maps| == MAXNUM && s.flag == 1 && s.updater == Asking && s.now == SPAN
    ensures s.readers == [Found("a", 1, SPAN, SPAN)]
  {
    s := OnePublished();
    ReachableStep(s, UpdaterStep);
    s := Apply(s, UpdaterStep);
    ReachableStep(s, Tick(SPAN));
    s := Apply(s, Tick(SPAN));
    ReachableStep(s, UpdaterStep);
    s := Apply(s, UpdaterStep);
    ReachableStep(s, Load(0, "a"));
    s := Apply(s, Load(0, "a"));
    ReachableStep(s, Find(0));
    s := Apply(s, Find(0));
  }

  /** However much longer than the gap a reader takes, it may find its entry gone. */
  lemma {:induction false} SlowReaderLoses(d: nat)
    requires d >= 2000
    ensures exists s :: Reachable(s) && LostItsEntry(s, d)
  {
    var s := FoundUnderFlagOne();
    var a := ReplyArrives(Document(Got([])));
    ReachableStep(s, a);
    s := Apply(s, a);
    ReachableStep(s, UpdaterStep);
    s := Apply(s, UpdaterStep);
    ReachableStep(s, UpdaterStep);
    s := Apply(s, UpdaterStep);
    assert s.flag == 2 && s.updater == RoundOver;
    ReachableStep(s, UpdaterStep);
    s := Apply(s, UpdaterStep);
    ReachableStep(s, Tick(d));
    s := Apply(s, Tick(d));
    ReachableStep(s, UpdaterStep);
    s := Apply(s, UpdaterStep);
    ReachableStep(s, ReplyArrives(Unparsable));
    s := Apply(s, ReplyArrives(Unparsable));
    ReachableStep(s, Copy(0));
    s := Apply(s, Copy(0));
    assert LostItsEntry(s, d);
  }

  /** The update gap, two seconds, is the exact bound: every reader that takes time `d` sees a whole snapshot, in every reachable
      state, if and only if `d` is less than it. */
  lemma {:induction false} GapIsExact(d: nat)
    ensures (forall s, i: nat :: Reachable(s) && i < |s.readers| && TookTime(s.readers[i], d) ==> SawSnapshot(s, s.readers[i]))
            <==> d < 2000
  {
    if d < 2000 {
      forall s, i: nat | Reachable(s) && i < |s.readers| && TookTime(s.readers[i], d)
        ensures SawSnapshot(s, s.readers[i])
      {
        SnapshotSafety(s, i);
      }
    } else {
      SlowReaderLoses(d);
      var s :| Reachable(s) && LostItsEntry(s, d);
      assert !SawSnapshot(s, s.readers[0]);
    }
  }
}
