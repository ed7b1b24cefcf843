/**
 * The cached targets manager (pkg/targetgroupbinding/targets_manager.go) above the ELBv2
 * targets API. A listing trusts what is cached as healthy and asks about the rest; registrations
 * and deregistrations go out in chunks, and each chunk that succeeds is recorded in the cached
 * list as unknown, so that the next listing asks about it.
 */
module TargetsManagers {
  import opened Text
  import opened Targets

  datatype TargetError = TargetGroupNotFound | OtherFailure

  datatype Listing = Listed(infos: seq<TargetInfo>) | NotListed(error: TargetError)

  const CHUNK_SIZE: nat := 200

  // ---------------------------------------------------------------- the ELBv2 targets API

  /**
   * Calls are atomic: a failed call has no effect. Time passes while a call is under way. The
   * field `faults` counts the failures that a missing group does not explain.
   */
  class TargetApi {
    var groups: map<string, Group>
    var faults: nat

    ghost predicate Valid() reads this { forall a <- groups :: ValidGroup(groups[a]) }

    /** The registered targets of every other group are as before. */
    twostate predicate OthersKept(arn: string) reads this {
      groups.Keys == old(groups).Keys && forall a <- groups :: a != arn ==> groups[a] == old(groups)[a]
    }

    method PassTime(arn: string)
      requires Valid()
      modifies this`groups
      ensures Valid() && OthersKept(arn)
      ensures arn in groups ==> Elapsed(old(groups)[arn], groups[arn])
    {
      if * {
        if arn in groups {
          var g := groups[arn];
          groups := groups[arn := map t | t in g && g[t].state != Draining :: g[t]];
        }
      }
    }

    method RegisterTargets(arn: string, targets: seq<Target>) returns (err: Option<TargetError>)
      requires Valid()
      modifies this
      ensures Valid() && OthersKept(arn)
      ensures arn in groups && err.None? ==>
        && Live(groups[arn]) == Live(old(groups)[arn]) + Elements(targets)
        && groups[arn].Keys <= old(groups)[arn].Keys + Elements(targets)
      ensures arn in groups && err.Some? ==> Elapsed(old(groups)[arn], groups[arn])
      ensures arn !in groups ==> err.Some?
      ensures err.Some? && err.value.TargetGroupNotFound? ==> arn !in groups
      ensures faults >= old(faults) && (err.Some? && err.value.OtherFailure? ==> faults > old(faults))
    {
      PassTime(arn);
      if arn !in groups { return Some(TargetGroupNotFound); }
      if * { faults := faults + 1; return Some(OtherFailure); }
      groups := groups[arn := AfterRegister(groups[arn], Elements(targets))];
      return None;
    }

    method DeregisterTargets(arn: string, targets: seq<Target>) returns (err: Option<TargetError>)
      requires Valid()
      modifies this
      ensures Valid() && OthersKept(arn)
      ensures arn in groups && err.None? ==>
        && Live(groups[arn]) == Live(old(groups)[arn]) - Elements(targets)
        && groups[arn].Keys <= old(groups)[arn].Keys
      ensures arn in groups && err.Some? ==> Elapsed(old(groups)[arn], groups[arn])
      ensures arn !in groups ==> err.Some?
      ensures err.Some? && err.value.TargetGroupNotFound? ==> arn !in groups
      ensures faults >= old(faults) && (err.Some? && err.value.OtherFailure? ==> faults > old(faults))
    {
      PassTime(arn);
      if arn !in groups { return Some(TargetGroupNotFound); }
      if * { faults := faults + 1; return Some(OtherFailure); }
      var g, ts := groups[arn], Elements(targets);
      var drained := map t | t in g ::
        if t in ts then Health(Draining, OtherReason("Target.DeregistrationInProgress"), "") else g[t];
      groups := groups[arn := drained];
      return None;
    }

    /** An empty request asks about everything. */
    method DescribeTargetHealth(arn: string, targets: seq<Target>) returns (r: Listing)
      requires Valid()
      modifies this
      ensures Valid() && OthersKept(arn)
      ensures arn in groups ==> Elapsed(old(groups)[arn], groups[arn])
      ensures r.NotListed? && r.error.TargetGroupNotFound? ==> arn !in groups
      ensures faults >= old(faults) && (r.NotListed? && r.error.OtherFailure? ==> faults > old(faults))
      ensures r.Listed? ==>
        arn in groups && Describes(groups[arn], if targets == [] then None else Some(Elements(targets)), r.infos)
    {
      PassTime(arn);
      if arn !in groups { return NotListed(TargetGroupNotFound); }
      if * { faults := faults + 1; return NotListed(OtherFailure); }
      var g := groups[arn];
      var wanted := if targets == [] then g.Keys else Elements(targets);
      var todo, infos := wanted, [];
      while todo != {}
        invariant todo <= wanted && TargetsOf(infos) == wanted - todo && UniqueTargets(infos)
        invariant forall x <- infos :: x.health == Some(if x.target in g then g[x.target] else UNKNOWN_TARGET)
        modifies {}
        decreases todo
      {
        var t := Pick(todo);
        var info := TargetInfo(t, Some(if t in g then g[t] else UNKNOWN_TARGET));
        AppendUnique(infos, info);
        infos := infos + [info];
        todo := todo - {t};
      }
      return Listed(infos);
    }
  }

  lemma TargetsOfSnoc(infos: seq<TargetInfo>, x: TargetInfo)
    ensures TargetsOf(infos + [x]) == TargetsOf(infos) + {x.target}
  {
    assert x in infos + [x];
    forall t | t in TargetsOf(infos) ensures t in TargetsOf(infos + [x]) {
      var y :| y in infos && y.target == t;
      assert y in infos + [x];
    }
  }

  // ---------------------------------------------------------------- chunks

  function Concat(chunks: seq<seq<Target>>): seq<Target> {
    if chunks == [] then [] else Concat(chunks[..|chunks| - 1]) + chunks[|chunks| - 1]
  }

  /** Consecutive chunks: nothing lost, repeated or reordered; all are full but the last. */
  method ChunkTargetDescriptions(targets: seq<Target>, chunkSize: nat) returns (chunks: seq<seq<Target>>)
    requires chunkSize > 0
    ensures Concat(chunks) == targets
    ensures forall k :: 0 <= k < |chunks| ==> 0 < |chunks[k]| <= chunkSize
    ensures forall k :: 0 <= k < |chunks| - 1 ==> |chunks[k]| == chunkSize
  {
    chunks := [];
    var i := 0;
    while i < |targets|
      invariant 0 <= i
      invariant Concat(chunks) == targets[..if i < |targets| then i else |targets|]
      invariant forall k :: 0 <= k < |chunks| ==> 0 < |chunks[k]| <= chunkSize
      invariant forall k :: 0 <= k < |chunks| - 1 ==> |chunks[k]| == chunkSize
      invariant i < |targets| && chunks != [] ==> |chunks[|chunks| - 1]| == chunkSize
    {
      var end := i + chunkSize;
      if end > |targets| { end := |targets|; }
      assert (chunks + [targets[i..end]])[..|chunks|] == chunks;
      chunks := chunks + [targets[i..end]];
      i := i + chunkSize;
    }
  }

  // ---------------------------------------------------------------- recording

  predicate Indexed(byID: map<string, Target>, ts: set<Target>) {
    && (forall id <- byID :: UniqueID(byID[id]) == id && byID[id] in ts)
    && (forall t <- ts :: UniqueID(t) in byID)
  }

  lemma IndexedMember(byID: map<string, Target>, ts: set<Target>, t: Target)
    requires Indexed(byID, ts)
    ensures UniqueID(t) in byID <==> t in ts
    ensures t in ts ==> byID[UniqueID(t)] == t
  {
    if UniqueID(t) in byID { UniqueIDInjective(t, byID[UniqueID(t)]); }
  }

  lemma Unindex(byID: map<string, Target>, ts: set<Target>, t: Target)
    requires Indexed(byID, ts)
    ensures UniqueID(t) in byID <==> t in ts
    ensures Indexed(byID - {UniqueID(t)}, ts - {t})
  {
    IndexedMember(byID, ts, t);
    forall u | u in ts ensures UniqueID(u) == UniqueID(t) <==> u == t { UniqueIDInjective(u, t); }
    forall id | id in byID ensures byID[id] == t <==> id == UniqueID(t) { UniqueIDInjective(byID[id], t); }
  }

  method IndexByUniqueID(targets: seq<Target>) returns (byID: map<string, Target>)
    ensures Indexed(byID, Elements(targets))
  {
    byID := map[];
    for i := 0 to |targets|
      invariant Indexed(byID, Elements(targets[..i]))
    {
      assert Elements(targets[..i + 1]) == Elements(targets[..i]) + {targets[i]};
      byID := byID[UniqueID(targets[i]) := targets[i]];
    }
    assert targets[..|targets|] == targets;
  }

  lemma NoTargets(cache: seq<TargetInfo>)
    ensures TargetsOf(cache[..0]) == {}
  {
  }

  lemma EarlierTargets(cache: seq<TargetInfo>, i: nat)
    requires UniqueTargets(cache) && i < |cache|
    ensures cache[i].target !in TargetsOf(cache[..i])
  {
  }

  /** Marks the cached targets that were changed, and leaves those the cache does not have. */
  method MarkCached(cache: seq<TargetInfo>, byID: map<string, Target>, ts: set<Target>)
      returns (marked: seq<TargetInfo>, rest: map<string, Target>)
    requires Indexed(byID, ts) && UniqueTargets(cache)
    ensures marked == MarkUnknown(cache, ts)
    ensures Indexed(rest, ts - TargetsOf(cache))
  {
    hide UniqueID, Indexed, TargetsOf;
    marked, rest := cache, byID;
    assert ts - TargetsOf(cache[..0]) == ts by { NoTargets(cache); }
    for i := 0 to |cache|
      invariant |marked| == |cache| && marked[i..] == cache[i..]
      invariant forall k :: 0 <= k < i ==> marked[k] == Marked(cache[k], ts)
      invariant Indexed(rest, ts - TargetsOf(cache[..i]))
    {
      var id := UniqueID(marked[i].target);
      assert marked[i] == marked[i..][0] == cache[i];
      EarlierTargets(cache, i);
      assert cache[..i + 1] == cache[..i] + [cache[i]];
      TargetsOfSnoc(cache[..i], cache[i]);
      Unindex(rest, ts - TargetsOf(cache[..i]), cache[i].target);
      assert ts - TargetsOf(cache[..i + 1]) == ts - TargetsOf(cache[..i]) - {cache[i].target};
      if id in rest {
        marked := marked[i := marked[i].(health := None)];
        rest := rest - {id};
      } else {
        assert rest - {id} == rest;
      }
    }
    assert cache[..|cache|] == cache;
  }

  lemma AppendUnique(infos: seq<TargetInfo>, x: TargetInfo)
    requires UniqueTargets(infos) && x.target !in TargetsOf(infos)
    ensures UniqueTargets(infos + [x]) && TargetsOf(infos + [x]) == TargetsOf(infos) + {x.target}
  {
    TargetsOfSnoc(infos, x);
    assert forall k :: 0 <= k < |infos| ==> infos[k] in infos && infos[k].target in TargetsOf(infos);
  }

  method AppendNew(cache: seq<TargetInfo>, byID: map<string, Target>, ghost ts: set<Target>)
      returns (r: seq<TargetInfo>)
    requires Indexed(byID, ts) && UniqueTargets(cache) && ts !! TargetsOf(cache)
    ensures |cache| <= |r| && r[..|cache|] == cache && UniqueTargets(r)
    ensures TargetsOf(r) == TargetsOf(cache) + ts
    ensures forall i :: |cache| <= i < |r| ==> r[i].health == None
  {
    hide UniqueID, TargetsOf;
    r := cache;
    var rest := byID.Keys;
    ghost var left := ts;
    while rest != {}
      invariant rest <= byID.Keys && left <= ts && forall t <- ts :: t in left <==> UniqueID(t) in rest
      invariant UniqueTargets(r) && TargetsOf(r) == TargetsOf(cache) + (ts - left)
      invariant |cache| <= |r| && r[..|cache|] == cache
      invariant forall i :: |cache| <= i < |r| ==> r[i].health == None
      decreases rest
    {
      var id := Pick(rest);
      var info := TargetInfo(byID[id], None);
      forall t | t in ts ensures UniqueID(t) == id <==> t == info.target { UniqueIDInjective(t, info.target); }
      AppendUnique(r, info);
      r, left, rest := r + [info], left - {info.target}, rest - {id};
    }
    assert left == {};
  }

  // ---------------------------------------------------------------- the manager

  /**
   * The group's targets exactly, each once, with the health that the service has unless it was
   * cached as healthy, and with live ones told from draining ones.
   */
  ghost predicate Lists(infos: seq<TargetInfo>, g: Group, cached: seq<TargetInfo>) {
    && UniqueTargets(infos) && TargetsOf(infos) == g.Keys && Reported(infos, g, cached)
    && forall x <- infos :: x.IsDraining() <==> x.target !in Live(g)
  }

  lemma StillAgrees(cached: seq<TargetInfo>, before: Group, after: Group)
    requires Agrees(cached, before, {}, {}) && Elapsed(before, after)
    ensures Agrees(cached, after, {}, {})
  {
  }

  lemma RefreshLists(cached: seq<TargetInfo>, g: Group, answer: seq<TargetInfo>)
    requires Agrees(cached, g, {}, {}) && ValidGroup(g) && Describes(g, Some(Stale(cached)), answer)
    ensures Lists(Refreshed(cached, answer), g, cached) && Agrees(Refreshed(cached, answer), g, {}, {})
    ensures UniqueTargets(Refreshed(cached, answer))
  {
    RefreshAgrees(cached, g, {}, {}, answer);
    assert g.Keys - {} == g.Keys == g.Keys + {};
  }

  lemma AnswerLists(g: Group, infos: seq<TargetInfo>)
    requires ValidGroup(g) && Describes(g, None, infos)
    ensures Lists(infos, g, []) && Agrees(infos, g, {}, {}) && UniqueTargets(infos)
  {
    forall x | x in infos ensures x.target in g { assert x.target in TargetsOf(infos); }
  }

  class CachedTargetsManager {
    const api: TargetApi
    var targetsCache: map<string, seq<TargetInfo>>

    ghost predicate Valid() reads this, api {
      && api.Valid()
      && forall a <- targetsCache :: UniqueTargets(targetsCache[a])
    }

    /** No change is in flight and every cached list agrees with the service. */
    ghost predicate Coherent() reads this, api {
      forall a <- targetsCache :: a in api.groups ==> Agrees(targetsCache[a], api.groups[a], {}, {})
    }

    constructor (api: TargetApi)
      requires api.Valid()
      ensures this.api == api && Valid() && Coherent()
    {
      this.api := api;
      targetsCache := map[];
    }

    method RefreshUnhealthyTargets(arn: string, cached: seq<TargetInfo>) returns (r: Listing)
      requires api.Valid() && UniqueTargets(cached)
      modifies api
      ensures api.Valid() && api.OthersKept(arn)
      ensures arn in api.groups ==> Elapsed(old(api.groups)[arn], api.groups[arn])
      ensures r.NotListed? && r.error.TargetGroupNotFound? ==> arn !in api.groups
      ensures api.faults >= old(api.faults) && (r.NotListed? && r.error.OtherFailure? ==> api.faults > old(api.faults))
      ensures r.Listed? && arn in api.groups ==>
        exists answer :: Describes(api.groups[arn], Some(Stale(cached)), answer) && r.infos == Refreshed(cached, answer)
      ensures r.Listed? && arn !in api.groups ==> UniqueTargets(r.infos)
    {
      var healthy, unhealthy := SplitByHealth(cached);
      KeepHealthyUnique(cached);
      if |unhealthy| == 0 {
        if arn in api.groups {
          assert Describes(api.groups[arn], Some(Stale(cached)), []) && Refreshed(cached, []) == healthy + [];
        }
        return Listed(healthy);
      }
      var answer := api.DescribeTargetHealth(arn, unhealthy);
      if answer.NotListed? { return answer; }
      var refreshed := AppendRegistered(healthy, answer.infos);
      return Listed(refreshed);
    }

    static method SplitByHealth(cached: seq<TargetInfo>) returns (healthy: seq<TargetInfo>, unhealthy: seq<Target>)
      ensures healthy == KeepHealthy(cached) && Elements(unhealthy) == Stale(cached)
    {
      healthy, unhealthy := [], [];
      for i := 0 to |cached|
        invariant healthy == KeepHealthy(cached[..i]) && Elements(unhealthy) == Stale(cached[..i])
      {
        assert cached[..i + 1][..i] == cached[..i];
        StaleSnoc(cached[..i], cached[i]);
        assert cached[..i] + [cached[i]] == cached[..i + 1];
        if cached[i].IsHealthy() {
          healthy := healthy + [cached[i]];
        } else {
          unhealthy := unhealthy + [cached[i].target];
        }
      }
      assert cached[..|cached|] == cached;
    }

    static method AppendRegistered(healthy: seq<TargetInfo>, infos: seq<TargetInfo>) returns (r: seq<TargetInfo>)
      ensures r == healthy + DropUnregistered(infos)
    {
      r := healthy;
      for i := 0 to |infos|
        invariant r == healthy + DropUnregistered(infos[..i])
      {
        assert infos[..i + 1][..i] == infos[..i];
        if infos[i].IsNotRegistered() { continue; }
        r := r + [infos[i]];
      }
      assert infos[..|infos|] == infos;
    }

    /**
     * Lists the group's targets exactly, and tells the live ones from the draining ones. Each
     * health is the service's current one unless the target was cached as healthy.
     */
    method ListTargets(arn: string) returns (r: Listing)
      requires Valid() && Coherent()
      modifies this, api
      ensures Valid() && Coherent() && api.OthersKept(arn)
      ensures arn in api.groups ==> Elapsed(old(api.groups)[arn], api.groups[arn])
      ensures r.Listed? ==> UniqueTargets(r.infos)
      ensures r.NotListed? && r.error.TargetGroupNotFound? ==> arn !in api.groups
      ensures api.faults >= old(api.faults) && (r.NotListed? && r.error.OtherFailure? ==> api.faults > old(api.faults))
      ensures r.Listed? && arn in api.groups ==>
        Lists(r.infos, api.groups[arn], if arn in old(targetsCache) then old(targetsCache)[arn] else [])
    {
      hide Elapsed, Refreshed, Describes, Lists, Agrees, ValidGroup;
      if arn in targetsCache {
        var cached := targetsCache[arn];
        r := RefreshUnhealthyTargets(arn, cached);
        if arn in api.groups { StillAgrees(cached, old(api.groups)[arn], api.groups[arn]); }
        if r.NotListed? { return; }
        if arn in api.groups {
          ghost var answer :| Describes(api.groups[arn], Some(Stale(cached)), answer)
            && r.infos == Refreshed(cached, answer);
          RefreshLists(cached, api.groups[arn], answer);
        }
      } else {
        r := api.DescribeTargetHealth(arn, []);
        if r.NotListed? { return; }
        if arn in api.groups { AnswerLists(api.groups[arn], r.infos); }
      }
      targetsCache := targetsCache[arn := r.infos];
    }

    method RecordSuccessfulRegister(arn: string, targets: seq<Target>)
      requires Valid()
      modifies this
      ensures targetsCache.Keys == old(targetsCache).Keys
      ensures forall a <- targetsCache :: a != arn ==> targetsCache[a] == old(targetsCache)[a]
      ensures arn in targetsCache ==> RecordedRegister(old(targetsCache)[arn], Elements(targets), targetsCache[arn])
      ensures Valid()
    {
      if arn !in targetsCache { return; }
      var cached, ts := targetsCache[arn], Elements(targets);
      var byID := IndexByUniqueID(targets);
      var marked, rest := MarkCached(cached, byID, ts);
      MarkUnknownFacts(cached, ts);
      var recorded := AppendNew(marked, rest, ts - TargetsOf(cached));
      targetsCache := targetsCache[arn := recorded];
    }

    method RecordSuccessfulDeregister(arn: string, targets: seq<Target>)
      requires Valid()
      modifies this
      ensures targetsCache == if arn in old(targetsCache)
        then old(targetsCache)[arn := MarkUnknown(old(targetsCache)[arn], Elements(targets))] else old(targetsCache)
      ensures Valid()
    {
      if arn !in targetsCache { return; }
      var cached, ts := targetsCache[arn], Elements(targets);
      var byID := IndexByUniqueID(targets);
      var marked, rest := MarkCached(cached, byID, ts);
      MarkUnknownFacts(cached, ts);
      targetsCache := targetsCache[arn := marked];
    }

    /** On success all targets are live; on failure a prefix of them (whole chunks) is. */
    method RegisterTargets(arn: string, targets: seq<Target>)
        returns (err: Option<TargetError>, ghost sent: seq<Target>)
      requires Valid() && Coherent()
      modifies this, api
      ensures Valid() && Coherent() && api.OthersKept(arn)
      ensures sent <= targets && (err.None? ==> sent == targets)
      ensures err.Some? && err.value.TargetGroupNotFound? ==> arn !in api.groups
      ensures api.faults >= old(api.faults) && (err.Some? && err.value.OtherFailure? ==> api.faults > old(api.faults))
      ensures arn in api.groups ==>
        && Live(api.groups[arn]) == Live(old(api.groups)[arn]) + Elements(sent)
        && api.groups[arn].Keys <= old(api.groups)[arn].Keys + Elements(sent)
    {
      err, sent := None, [];
      var chunks := ChunkTargetDescriptions(targets, CHUNK_SIZE);
      for i := 0 to |chunks|
        invariant Valid() && Coherent() && api.OthersKept(arn)
        invariant err.None? && sent == Concat(chunks[..i]) && api.faults >= old(api.faults)
        invariant arn in api.groups ==>
          && Live(api.groups[arn]) == Live(old(api.groups)[arn]) + Elements(sent)
          && api.groups[arn].Keys <= old(api.groups)[arn].Keys + Elements(sent)
      {
        ConcatPrefix(chunks, i);
        err := RegisterChunk(arn, chunks[i]);
        if err.Some? { return; }
        assert chunks[..i + 1][..i] == chunks[..i];
        assert Elements(sent + chunks[i]) == Elements(sent) + Elements(chunks[i]);
        sent := sent + chunks[i];
      }
      assert chunks[..|chunks|] == chunks;
    }

    method RegisterChunk(arn: string, chunk: seq<Target>) returns (err: Option<TargetError>)
      requires Valid() && Coherent()
      modifies this, api
      ensures Valid() && Coherent() && api.OthersKept(arn)
      ensures err.Some? && err.value.TargetGroupNotFound? ==> arn !in api.groups
      ensures api.faults >= old(api.faults) && (err.Some? && err.value.OtherFailure? ==> api.faults > old(api.faults))
      ensures arn in api.groups ==>
        && Live(api.groups[arn]) == Live(old(api.groups)[arn]) + (if err.None? then Elements(chunk) else {})
        && api.groups[arn].Keys <= old(api.groups)[arn].Keys + (if err.None? then Elements(chunk) else {})
    {
      err := api.RegisterTargets(arn, chunk);
      if err.Some? {
        return;
      }
      RecordSuccessfulRegister(arn, chunk);
      if arn in targetsCache {
        ghost var cached := old(targetsCache)[arn];
        assert Agrees(cached, old(api.groups)[arn], {}, {});
        assert Agrees(cached, api.groups[arn], {} + Elements(chunk), {});
        RegisterAgrees(cached, api.groups[arn], {}, {}, Elements(chunk), targetsCache[arn]);
      }
    }

    /** On success none of the targets is live; on failure a prefix of them is gone. */
    method DeregisterTargets(arn: string, targets: seq<Target>)
        returns (err: Option<TargetError>, ghost sent: seq<Target>)
      requires Valid() && Coherent()
      modifies this, api
      ensures Valid() && Coherent() && api.OthersKept(arn)
      ensures sent <= targets && (err.None? ==> sent == targets)
      ensures err.Some? && err.value.TargetGroupNotFound? ==> arn !in api.groups
      ensures api.faults >= old(api.faults) && (err.Some? && err.value.OtherFailure? ==> api.faults > old(api.faults))
      ensures arn in api.groups ==>
        && Live(api.groups[arn]) == Live(old(api.groups)[arn]) - Elements(sent)
        && api.groups[arn].Keys <= old(api.groups)[arn].Keys
    {
      err, sent := None, [];
      var chunks := ChunkTargetDescriptions(targets, CHUNK_SIZE);
      for i := 0 to |chunks|
        invariant Valid() && Coherent() && api.OthersKept(arn)
        invariant err.None? && sent == Concat(chunks[..i]) && api.faults >= old(api.faults)
        invariant arn in api.groups ==>
          && Live(api.groups[arn]) == Live(old(api.groups)[arn]) - Elements(sent)
          && api.groups[arn].Keys <= old(api.groups)[arn].Keys
      {
        ConcatPrefix(chunks, i);
        err := DeregisterChunk(arn, chunks[i]);
        if err.Some? { return; }
        assert chunks[..i + 1][..i] == chunks[..i];
        assert Elements(sent + chunks[i]) == Elements(sent) + Elements(chunks[i]);
        sent := sent + chunks[i];
      }
      assert chunks[..|chunks|] == chunks;
    }

    method DeregisterChunk(arn: string, chunk: seq<Target>) returns (err: Option<TargetError>)
      requires Valid() && Coherent()
      modifies this, api
      ensures Valid() && Coherent() && api.OthersKept(arn)
      ensures err.Some? && err.value.TargetGroupNotFound? ==> arn !in api.groups
      ensures api.faults >= old(api.faults) && (err.Some? && err.value.OtherFailure? ==> api.faults > old(api.faults))
      ensures arn in api.groups ==>
        && Live(api.groups[arn]) == Live(old(api.groups)[arn]) - (if err.None? then Elements(chunk) else {})
        && api.groups[arn].Keys <= old(api.groups)[arn].Keys
    {
      err := api.DeregisterTargets(arn, chunk);
      if err.Some? {
        return;
      }
      RecordSuccessfulDeregister(arn, chunk);
      if arn in targetsCache {
        ghost var cached := old(targetsCache)[arn];
        assert Agrees(cached, old(api.groups)[arn], {}, {});
        assert Agrees(cached, api.groups[arn], {}, {} + Elements(chunk));
        DeregisterAgrees(cached, api.groups[arn], {}, {}, Elements(chunk));
      }
    }
  }

  lemma {:induction false} ConcatPrefix(chunks: seq<seq<Target>>, i: nat)
    requires i <= |chunks|
    ensures Concat(chunks[..i]) <= Concat(chunks)
    decreases |chunks| - i
  {
    if i < |chunks| {
      assert chunks[..i + 1][..i] == chunks[..i];
      ConcatPrefix(chunks, i + 1);
    } else {
      assert chunks[..i] == chunks;
    }
  }

  lemma StaleSnoc(infos: seq<TargetInfo>, x: TargetInfo)
    ensures Stale(infos + [x]) == if x.IsHealthy() then Stale(infos) else Stale(infos) + {x.target}
  {
    assert x in infos + [x];
    forall t | t in Stale(infos) ensures t in Stale(infos + [x]) {
      var y :| y in infos && !y.IsHealthy() && y.target == t;
      assert y in infos + [x];
    }
  }
}
