/** The updating thread of the configuration loader, and its readers' function. */
module ConfigCode {
  import opened Prelude
  import opened ConfigModel

  /** What one request of the updating loop brings, how long the sleeps after it last, and whether Stop is called meanwhile. */
  datatype Answer = Answer(code: int, body: string, grace: nat, pause: nat, stop: bool)

  /** The model's steps for one round: the response, and the swap, sleep and delete it may lead to. */
  function Round(s: State, a: Answer): (t: State)
    requires s.updater.Asking? && a.grace >= WAITING
  {
    var s1 := Apply(s, Response(a.code, a.body));
    if s1.updater.RoundOver? then s1
    else
      var s2 := Apply(s1, UpdaterStep);
      var s3 := Apply(s2, Tick(a.grace));
      Apply(s3, UpdaterStep)
  }

  /** The body a loader holds after the given answers: that of the last one with code 200 and a body. */
  function Newest(answers: seq<Answer>, before: Option<string>): Option<string> {
    if answers == [] then before
    else
      var a := answers[|answers| - 1];
      if a.code == 200 && a.body != "" then Some(a.body) else Newest(answers[..|answers| - 1], before)
  }

  lemma {:induction false} NewestSnoc(answers: seq<Answer>, k: nat, before: Option<string>)
    requires k < |answers|
    ensures Newest(answers[..k + 1], before) ==
      if answers[k].code == 200 && answers[k].body != "" then Some(answers[k].body) else Newest(answers[..k], before)
  {
    assert answers[..k + 1][..k] == answers[..k];
  }

  class ConfigLoader {
    var live: map<Address, string>       // the heap of Config objects
    var config: Option<Address>          // config_
    var next: Address
    var flagOfUpdatingIsOn: bool
    var clock: nat
    ghost var fetched: seq<string>

    ghost function View(u: Updater): State
      reads this
    {
      State(live, config, next, u, flagOfUpdatingIsOn, [], clock, fetched)
    }

    /** No request is under way. */
    ghost predicate Valid()
      reads this
    {
      Owned(View(RoundOver))
    }

    ghost function Data(): Option<string>
      reads this
    {
      Content(live, config)
    }

    constructor ()
      ensures Valid() && View(Starting) == Initial(0, clock)
    {
      live, config, next, flagOfUpdatingIsOn, fetched := map[], None, 0, false, [];
    }

    method GetConfig(version: string) returns (text: string)
      requires Valid()
      ensures text == if Data().Some? then Data().value else ""
    {
      if config.None? {
        return "";
      }
      return live[config.value];
    }

    /** One fetch, and if it brought something new: swap it in, wait, free the old object. */
    method DoUpdating(a: Answer) returns (ok: bool)
      requires Valid() && a.grace >= WAITING
      modifies this
      ensures Valid() && View(RoundOver) == Round(old(View(Asking)), a)
      ensures ok <==> a.code == 200 && a.body != ""
      ensures Data() == if ok then Some(a.body) else old(Data())
      ensures config == old(config) <==> !ok || old(Data()) == Some(a.body)
      ensures !ok ==> live == old(live)
      ensures flagOfUpdatingIsOn == old(flagOfUpdatingIsOn)
    {
      if a.code != SUCCESS || |a.body| == 0 {
        return false;
      }
      fetched := fetched + [a.body];
      if config.None? || a.body != live[config.value] {
        var configNew := Some(next);
        live, next := live[next := a.body], next + 1;
        configNew, config := config, configNew;
        clock := clock + a.grace;
        if configNew.Some? {
          live := live - {configNew.value};
        }
      }
      return true;
    }

    method StopUpdating()
      modifies this`flagOfUpdatingIsOn
      ensures !flagOfUpdatingIsOn
    {
      flagOfUpdatingIsOn := false;
    }

    /** The body of the updating loop. */
    method OneRound(a: Answer)
      requires Valid() && a.grace >= WAITING && a.pause >= SPAN
      modifies this
      ensures Valid()
      ensures Data() == if a.code == 200 && a.body != "" then Some(a.body) else old(Data())
      ensures flagOfUpdatingIsOn == (old(flagOfUpdatingIsOn) && !a.stop)
    {
      var ok := DoUpdating(a);
      if a.stop {
        StopUpdating();
      }
      clock := clock + a.pause;
    }

    /** Fetch round after round until the flag goes down; the rounds made are up to and including the first in
        which it did, and the newest accepted body is the one held. */
    method StartUpdating(answers: seq<Answer>) returns (rounds: nat)
      requires Valid()
      requires forall k :: 0 <= k < |answers| ==> answers[k].grace >= WAITING && answers[k].pause >= SPAN
      requires exists k :: 0 <= k < |answers| && answers[k].stop
      modifies this
      ensures Valid()
      ensures 0 < rounds <= |answers| && answers[rounds - 1].stop && forall k :: 0 <= k < rounds - 1 ==> !answers[k].stop
      ensures Data() == Newest(answers[..rounds], old(Data()))
    {
      flagOfUpdatingIsOn := true;
      rounds := 0;
      while flagOfUpdatingIsOn
        invariant Valid() && rounds <= |answers|
        invariant flagOfUpdatingIsOn ==> forall k :: 0 <= k < rounds ==> !answers[k].stop
        invariant !flagOfUpdatingIsOn ==>
          rounds > 0 && answers[rounds - 1].stop && forall k :: 0 <= k < rounds - 1 ==> !answers[k].stop
        invariant Data() == Newest(answers[..rounds], old(Data()))
        decreases |answers| - rounds, flagOfUpdatingIsOn
      {
        OneRound(answers[rounds]);
        NewestSnoc(answers, rounds, old(Data()));
        rounds := rounds + 1;
      }
    }
  }
}
