/** The service registry: reading a registry reply into a map of live instances, and picking one. */
module Registry {
  import opened Prelude

  /** A JSON access may throw. */
  datatype Access<T> = Got(value: T) | Throws

  datatype InstanceDoc = InstanceDoc(host: Access<string>, port: Access<string>, status: Access<string>)

  datatype AppDoc = AppDoc(name: Access<string>, instances: Access<seq<InstanceDoc>>)

  /** A reply body: not JSON at all, or a document whose application list may be inaccessible. */
  datatype Reply = Unparsable | Document(apps: Access<seq<AppDoc>>)

  datatype ServerStatus = ServerStatus(host: string, port: string, status: string)

  type ServerMap = map<string, seq<ServerStatus>>

  const UP := "UP"
  const MAXNUM := 2
  const INT_MAX := 0x7FFF_FFFF

  predicate InstanceReadable(i: InstanceDoc) {
    i.host.Got? && i.port.Got? && i.status.Got?
  }

  predicate AppReadable(a: AppDoc) {
    a.name.Got? && a.instances.Got? && forall k :: 0 <= k < |a.instances.value| ==> InstanceReadable(a.instances.value[k])
  }

  predicate AllReadable(apps: seq<AppDoc>) {
    forall k :: 0 <= k < |apps| ==> AppReadable(apps[k])
  }

  function ReadInstance(i: InstanceDoc): ServerStatus
    requires InstanceReadable(i)
  {
    ServerStatus(i.host.value, i.port.value, i.status.value)
  }

  /** The instances that are up, in document order. */
  function UpInstances(docs: seq<InstanceDoc>): (ups: seq<ServerStatus>)
    requires forall k :: 0 <= k < |docs| ==> InstanceReadable(docs[k])
    ensures forall k :: 0 <= k < |ups| ==> ups[k].status == UP
  {
    if docs == [] then []
    else
      var n := |docs| - 1;
      assert InstanceReadable(docs[n]);
      UpInstances(docs[..n]) + if docs[n].status.value == UP then [ReadInstance(docs[n])] else []
  }

  /** The first application called `name` that has any instance up. */
  function FirstUp(apps: seq<AppDoc>, name: string): Option<seq<ServerStatus>>
    requires AllReadable(apps)
  {
    if apps == [] then None
    else if apps[0].name.value == name && UpInstances(apps[0].instances.value) != []
    then Some(UpInstances(apps[0].instances.value))
    else FirstUp(apps[1..], name)
  }

  /** std::map::insert: an existing key keeps its value. */
  function Insert(m: ServerMap, name: string, list: seq<ServerStatus>): ServerMap {
    if name in m then m else m[name := list]
  }

  /** What the parsing loop has built after the given applications. */
  function Built(apps: seq<AppDoc>): ServerMap
    requires AllReadable(apps)
  {
    if apps == [] then map[]
    else
      var n := |apps| - 1;
      var ups := UpInstances(apps[n].instances.value);
      if ups == [] then Built(apps[..n]) else Insert(Built(apps[..n]), apps[n].name.value, ups)
  }

  lemma {:induction false} FirstUpSnoc(apps: seq<AppDoc>, a: AppDoc, name: string)
    requires AllReadable(apps) && AppReadable(a)
    ensures AllReadable(apps + [a])
    ensures FirstUp(apps + [a], name) ==
      if FirstUp(apps, name).Some? then FirstUp(apps, name)
      else if a.name.value == name && UpInstances(a.instances.value) != [] then Some(UpInstances(a.instances.value))
      else None
  {
    if apps == [] {
      assert apps + [a] == [a];
      assert [a][1..] == [];
    } else {
      assert (apps + [a])[1..] == apps[1..] + [a];
      FirstUpSnoc(apps[1..], a, name);
    }
  }

  /** The published map sends each name to the live instances, in order, of the first application of that
      name that has any, and nothing else is in it; so every list in it is nonempty and up. */
  lemma {:induction false} BuiltIsFirstUp(apps: seq<AppDoc>, name: string)
    requires AllReadable(apps)
    ensures name in Built(apps) <==> FirstUp(apps, name).Some?
    ensures name in Built(apps) ==> Built(apps)[name] == FirstUp(apps, name).value
    ensures name in Built(apps) ==> Built(apps)[name] != [] && forall i :: 0 <= i < |Built(apps)[name]| ==> Built(apps)[name][i].status == UP
  {
    if apps != [] {
      var n := |apps| - 1;
      assert apps == apps[..n] + [apps[n]];
      BuiltIsFirstUp(apps[..n], name);
      FirstUpSnoc(apps[..n], apps[n], name);
    }
  }

  /** Every list in the map is nonempty and up. */
  ghost predicate AllUp(m: ServerMap) {
    forall name :: name in m ==> m[name] != [] && forall i :: 0 <= i < |m[name]| ==> m[name][i].status == UP
  }

  lemma {:induction false} BuiltAllUp(apps: seq<AppDoc>)
    requires AllReadable(apps)
    ensures AllUp(Built(apps))
  {
    forall name | name in Built(apps)
      ensures Built(apps)[name] != [] && forall i :: 0 <= i < |Built(apps)[name]| ==> Built(apps)[name][i].status == UP
    {
      BuiltIsFirstUp(apps, name);
    }
  }

  // ----- the same, said without the functions that build it -----

  /** The instances at the indices `idx`, in order, are all those of `docs` whose status reads "UP", and the list holds
      the host, port and status read there. */
  predicate ListsAt(idx: seq<nat>, list: seq<ServerStatus>, docs: seq<InstanceDoc>) {
    && |idx| == |list|
    && (forall k :: 0 <= k < |idx| ==> idx[k] < |docs|)
    && (forall j, k :: 0 <= j < k < |idx| ==> idx[j] < idx[k])
    && (forall j :: 0 <= j < |docs| ==> (docs[j].status == Got("UP") <==> j in idx))
    && forall k :: 0 <= k < |idx| ==>
         && docs[idx[k]].host == Got(list[k].host)
         && docs[idx[k]].port == Got(list[k].port)
         && docs[idx[k]].status == Got(list[k].status)
  }

  ghost predicate ListsUp(list: seq<ServerStatus>, docs: seq<InstanceDoc>) {
    exists idx :: ListsAt(idx, list, docs)
  }

  predicate NoneUp(docs: seq<InstanceDoc>) {
    forall j :: 0 <= j < |docs| ==> docs[j].status != Got("UP")
  }

  /** No application of this name has an instance that is up. */
  predicate NobodyUp(apps: seq<AppDoc>, name: string) {
    forall b :: 0 <= b < |apps| && apps[b].name == Got(name) && apps[b].instances.Got? ==> NoneUp(apps[b].instances.value)
  }

  /** The list is that of application `a`, the first of its name with an instance that is up. */
  ghost predicate ShownBy(list: seq<ServerStatus>, apps: seq<AppDoc>, name: string, a: nat) {
    && a < |apps| && apps[a].name == Got(name) && apps[a].instances.Got?
    && list != [] && ListsUp(list, apps[a].instances.value) && NobodyUp(apps[..a], name)
  }

  /** What a registry should answer for a name, given the applications of a reply. */
  ghost predicate Shows(answer: Option<seq<ServerStatus>>, apps: seq<AppDoc>, name: string) {
    match answer
    case None => NobodyUp(apps, name)
    case Some(list) => exists a: nat :: ShownBy(list, apps, name, a)
  }

  function Lookup(m: ServerMap, name: string): Option<seq<ServerStatus>> {
    if name in m then Some(m[name]) else None
  }

  lemma {:induction false} UpIndices(docs: seq<InstanceDoc>) returns (idx: seq<nat>)
    requires forall k :: 0 <= k < |docs| ==> InstanceReadable(docs[k])
    ensures ListsAt(idx, UpInstances(docs), docs)
  {
    if docs == [] {
      idx := [];
    } else {
      var n := |docs| - 1;
      var before := UpIndices(docs[..n]);
      assert InstanceReadable(docs[n]);
      idx := before + if docs[n].status.value == UP then [n] else [];
      forall j | 0 <= j < |docs|
        ensures docs[j].status == Got("UP") <==> j in idx
      {
        if j < n {
          assert docs[..n][j] == docs[j];
        }
      }
      assert forall k :: 0 <= k < |before| ==> docs[..n][before[k]] == docs[before[k]];
    }
  }

  lemma {:induction false} UpListed(docs: seq<InstanceDoc>)
    requires forall k :: 0 <= k < |docs| ==> InstanceReadable(docs[k])
    ensures ListsUp(UpInstances(docs), docs)
    ensures UpInstances(docs) == [] ==> NoneUp(docs)
  {
    var idx := UpIndices(docs);
  }

  lemma {:induction false} NobodyUpCons(app: AppDoc, rest: seq<AppDoc>, name: string)
    requires NobodyUp(rest, name)
    requires app.name == Got(name) && app.instances.Got? ==> NoneUp(app.instances.value)
    ensures NobodyUp([app] + rest, name)
  {
    var all := [app] + rest;
    forall b | 0 <= b < |all| && all[b].name == Got(name) && all[b].instances.Got?
      ensures NoneUp(all[b].instances.value)
    {
      if b > 0 {
        assert all[b] == rest[b - 1];
      }
    }
  }

  lemma {:induction false} ShownByCons(list: seq<ServerStatus>, app: AppDoc, rest: seq<AppDoc>, name: string, a: nat)
    requires ShownBy(list, rest, name, a)
    requires app.name == Got(name) && app.instances.Got? ==> NoneUp(app.instances.value)
    ensures ShownBy(list, [app] + rest, name, a + 1)
  {
    NobodyUpCons(app, rest[..a], name);
    assert ([app] + rest)[..a + 1] == [app] + rest[..a];
  }

  lemma {:induction false} ShowsCons(answer: Option<seq<ServerStatus>>, app: AppDoc, rest: seq<AppDoc>, name: string)
    requires Shows(answer, rest, name)
    requires app.name == Got(name) && app.instances.Got? ==> NoneUp(app.instances.value)
    ensures Shows(answer, [app] + rest, name)
  {
    if answer.Some? {
      var a: nat :| ShownBy(answer.value, rest, name, a);
      ShownByCons(answer.value, app, rest, name, a);
    } else {
      NobodyUpCons(app, rest, name);
    }
  }

  lemma {:induction false} FirstUpShows(apps: seq<AppDoc>, name: string)
    requires AllReadable(apps)
    ensures Shows(FirstUp(apps, name), apps, name)
    decreases |apps|
  {
    if apps != [] {
      var docs := apps[0].instances.value;
      UpListed(docs);
      if apps[0].name.value == name && UpInstances(docs) != [] {
        assert ShownBy(UpInstances(docs), apps, name, 0);
      } else {
        FirstUpShows(apps[1..], name);
        ShowsCons(FirstUp(apps[1..], name), apps[0], apps[1..], name);
        assert apps == [apps[0]] + apps[1..];
      }
    }
  }

  /** The map built answers for every name as it should. */
  lemma {:induction false} BuiltShows(apps: seq<AppDoc>, name: string)
    requires AllReadable(apps)
    ensures Shows(Lookup(Built(apps), name), apps, name)
  {
    BuiltIsFirstUp(apps, name);
    FirstUpShows(apps, name);
  }

  /** The map answers every name as the applications do. */
  ghost predicate Answers(m: ServerMap, apps: seq<AppDoc>) {
    forall name :: Shows(Lookup(m, name), apps, name)
  }

  lemma {:induction false} BuiltAnswers(apps: seq<AppDoc>)
    requires AllReadable(apps)
    ensures AllUp(Built(apps)) && Answers(Built(apps), apps)
  {
    BuiltAllUp(apps);
    forall name
      ensures Shows(Lookup(Built(apps), name), apps, name)
    {
      BuiltShows(apps, name);
    }
  }

  /** How many applications can be read before the first one that cannot. */
  function ReadablePrefix(apps: seq<AppDoc>): (n: nat)
    ensures n <= |apps| && AllReadable(apps[..n])
    ensures n < |apps| ==> !AppReadable(apps[n])
  {
    if apps == [] || !AppReadable(apps[0]) then 0
    else
      var n := 1 + ReadablePrefix(apps[1..]);
      assert forall k :: 0 <= k < n ==> AppReadable(apps[..n][k]) by {
        assert forall k :: 1 <= k < n ==> apps[..n][k] == apps[1..][..n - 1][k - 1];
      }
      n
  }

  lemma {:induction false} PrefixReadable(apps: seq<AppDoc>, n: nat)
    requires n <= |apps| && AllReadable(apps[..n])
    ensures forall k :: 0 <= k < n ==> AppReadable(apps[k])
  {
    assert forall k :: 0 <= k < n ==> apps[..n][k] == apps[k];
  }

  lemma {:induction false} PrefixIs(apps: seq<AppDoc>, n: nat)
    requires n <= |apps| && AllReadable(apps[..n])
    requires n < |apps| ==> !AppReadable(apps[n])
    ensures ReadablePrefix(apps) == n
  {
    PrefixReadable(apps, n);
    PrefixReadable(apps, ReadablePrefix(apps));
  }

  /** What a parsing attempt leaves in the map it builds. */
  function LeftBehind(r: Reply): ServerMap {
    if r.Document? && r.apps.Got? then Built(r.apps.value[..ReadablePrefix(r.apps.value)]) else map[]
  }

  /** A reply that will be published. */
  predicate Parses(r: Reply) {
    r.Document? && r.apps.Got? && AllReadable(r.apps.value)
  }

  class Impl {
    var serverVec: seq<ServerMap>
    var flagNum: int

    ghost predicate Valid()
      reads this
    {
      |serverVec| == MAXNUM && 0 <= flagNum < INT_MAX && AllUp(serverVec[flagNum % MAXNUM])
    }

    /** The map readers use. */
    ghost function Active(): ServerMap
      requires Valid()
      reads this
    {
      serverVec[flagNum % MAXNUM]
    }

    constructor ()
      ensures Valid() && flagNum == 0 && Active() == map[]
    {
      flagNum := 0;
      serverVec := [];
      new;
      for i := 0 to MAXNUM
        invariant serverVec == seq(i, j => map[])
        invariant flagNum == 0
      {
        serverVec := serverVec + [map[]];
      }
    }

    /** Rebuild the inactive map from a reply and publish it.  An inaccessible part of the document
        abandons the attempt, with the published map untouched. */
    method ParserData(data: Reply) returns (ok: bool)
      requires Valid()
      modifies this
      ensures |serverVec| == MAXNUM && (flagNum < INT_MAX ==> Valid())
      ensures ok <==> Parses(data)
      ensures ok ==> flagNum == old(flagNum) + 1 && serverVec[flagNum % MAXNUM] == Built(data.apps.value)
      ensures ok ==> Answers(serverVec[flagNum % MAXNUM], data.apps.value)
      ensures !ok ==> flagNum == old(flagNum)
      ensures serverVec[old(flagNum) % MAXNUM] == old(Active())
      ensures serverVec[(old(flagNum) + 1) % MAXNUM] == LeftBehind(data)
    {
      var num := (flagNum + 1) % MAXNUM;
      serverVec := serverVec[num := map[]];
      if data.Unparsable? {
        return false;
      }
      if data.apps.Throws? {
        return false;
      }
      var apps := data.apps.value;
      for idx := 0 to |apps|
        invariant |serverVec| == MAXNUM && flagNum == old(flagNum)
        invariant serverVec[old(flagNum) % MAXNUM] == old(Active())
        invariant AllReadable(apps[..idx]) && serverVec[num] == Built(apps[..idx])
      {
        assert apps[..idx + 1][..idx] == apps[..idx];
        if apps[idx].name.Throws? {
          PrefixIs(apps, idx);
          return false;
        }
        var serviceName := apps[idx].name.value;
        if apps[idx].instances.Throws? {
          PrefixIs(apps, idx);
          return false;
        }
        var instances := apps[idx].instances.value;
        var serverList: seq<ServerStatus> := [];
        for idy := 0 to |instances|
          invariant forall k :: 0 <= k < idy ==> InstanceReadable(instances[k])
          invariant serverList == UpInstances(instances[..idy])
        {
          assert instances[..idy + 1][..idy] == instances[..idy];
          if instances[idy].host.Throws? || instances[idy].port.Throws? || instances[idy].status.Throws? {
            PrefixIs(apps, idx);
            return false;
          }
          var ss := ServerStatus(instances[idy].host.value, instances[idy].port.value, instances[idy].status.value);
          if ss.status == UP {
            serverList := serverList + [ss];
          }
        }
        assert instances[..|instances|] == instances;
        assert AppReadable(apps[idx]);
        if |serverList| > 0 {
          if serviceName !in serverVec[num] {
            serverVec := serverVec[num := serverVec[num][serviceName := serverList]];
          }
        }
      }
      assert apps[..|apps|] == apps;
      PrefixIs(apps, |apps|);
      BuiltAnswers(apps);
      flagNum := flagNum + 1;
      return true;
    }

    /** Pick an instance of a service by a random draw; a single reader with nobody updating. */
    method AcqInstance(name: string, draw: nat) returns (instance: Option<ServerStatus>)
      requires Valid()
      ensures instance.Some? <==> name in Active() && Active()[name] != []
      ensures instance.Some? ==> instance.value == Active()[name][draw % |Active()[name]|] && instance.value.status == "UP"
    {
      var num := flagNum % MAXNUM;
      if name !in serverVec[num] {
        return None;
      }
      var hostList := serverVec[num][name];
      if |hostList| < 1 {
        return None;
      }
      return Some(hostList[draw % |hostList|]);
    }
  }
}
