/**
 * Targets of a target group: identity, health, and what the ELBv2 API does to them
 * (pkg/targetgroupbinding/targets_manager_types.go).
 */
module Targets {
  import opened Text

  datatype Target = Target(id: string, port: int)

  datatype HealthState = Initial | Healthy | Unhealthy | Unused | Draining | Unavailable
  datatype Reason = NotRegistered | OtherReason(text: string)
  datatype Health = Health(state: HealthState, reason: Reason, description: string)

  const REGISTERING := Health(Initial, OtherReason("Elb.RegistrationInProgress"), "Target registration is in progress")
  const UNKNOWN_TARGET := Health(Unused, NotRegistered, "Target is not registered to the target group")

  /** A target as the controller sees it; an absent health is unknown. */
  datatype TargetInfo = TargetInfo(target: Target, health: Option<Health>) {
    predicate IsHealthy() { health.Some? && health.value.state == Healthy }
    predicate IsNotRegistered() { health.Some? && Unregistered(health.value) }
    predicate IsDraining() { health.Some? && health.value.state == Draining }
    predicate IsInitial() { health.Some? && health.value.state == Initial }
  }

  predicate Unregistered(h: Health) { h.state == Unused && h.reason == NotRegistered }

  /** "id:port". */
  function UniqueID(t: Target): string { t.id + ":" + IntToString(t.port) }

  /** The encoding is injective although IPv6 ids contain colons: the last one separates. */
  lemma UniqueIDInjective(t: Target, u: Target)
    ensures UniqueID(t) == UniqueID(u) <==> t == u
  {
    if UniqueID(t) == UniqueID(u) {
      LastSeparator(t.id, IntToString(t.port), u.id, IntToString(u.port), ':');
      IntToStringInjective(t.port, u.port);
    }
  }

  // ---------------------------------------------------------------- the service's view

  /** What is registered in a target group; a draining target is still known. */
  type Group = map<Target, Health>

  ghost predicate ValidGroup(g: Group) { forall t <- g :: !Unregistered(g[t]) }

  /** Registered and not on its way out. */
  function Live(g: Group): set<Target> { set t | t in g && g[t].state != Draining }

  /** Registering makes targets live; those that already are keep their health. */
  function AfterRegister(g: Group, ts: set<Target>): (r: Group)
    ensures r.Keys == g.Keys + ts && Live(r) == Live(g) + ts
  {
    map t | t in g.Keys + ts ::
      if t in g && (t !in ts || g[t].state != Draining) then g[t] else REGISTERING
  }

  /** Deregistering drains targets, or removes them at once. */
  ghost predicate AfterDeregister(g: Group, ts: set<Target>, g': Group) {
    && g'.Keys <= g.Keys
    && forall t <- g :: if t in ts then t in g' ==> g'[t].state == Draining else t in g' && g'[t] == g[t]
  }

  /** With time, health changes and drained targets disappear. */
  ghost predicate Elapsed(g: Group, g': Group) {
    && g'.Keys <= g.Keys && ValidGroup(g')
    && forall t <- g :: if g[t].state == Draining then t in g' ==>
      g'[t].state == Draining else t in g' && g'[t].state != Draining
  }

  /** One description per requested target; without a request, one per known target. */
  ghost predicate Describes(g: Group, requested: Option<set<Target>>, infos: seq<TargetInfo>) {
    && UniqueTargets(infos)
    && TargetsOf(infos) == (if requested.Some? then requested.value else g.Keys)
    && forall x <- infos :: x.health == Some(if x.target in g then g[x.target] else UNKNOWN_TARGET)
  }

  ghost predicate UniqueTargets(infos: seq<TargetInfo>) {
    forall i, j :: 0 <= i < j < |infos| ==> infos[i].target != infos[j].target
  }

  function TargetsOf(infos: seq<TargetInfo>): set<Target> { set x | x in infos :: x.target }

  // ---------------------------------------------------------------- the cache against the service

  /**
   * How a cached list relates to the group while changes are in flight: `registering` and
   * `deregistering` are targets whose change the service has seen but the cache has not.
   */
  ghost predicate Agrees(cache: seq<TargetInfo>, g: Group, registering: set<Target>, deregistering: set<Target>) {
    && UniqueTargets(cache)
    && (forall x <- cache :: x.IsHealthy() ==> x.target in Live(g) || x.target in deregistering)
    && g.Keys <= TargetsOf(cache) + registering
  }

  function KeepHealthy(cache: seq<TargetInfo>): (r: seq<TargetInfo>)
    ensures forall x :: x in r <==> x in cache && x.IsHealthy()
  {
    if cache == [] then []
    else
      var n := |cache| - 1;
      assert cache == cache[..n] + [cache[n]];
      if cache[n].IsHealthy() then KeepHealthy(cache[..n]) + [cache[n]] else KeepHealthy(cache[..n])
  }

  function DropUnregistered(infos: seq<TargetInfo>): (r: seq<TargetInfo>)
    ensures forall x :: x in r <==> x in infos && !x.IsNotRegistered()
  {
    if infos == [] then []
    else
      var n := |infos| - 1;
      assert infos == infos[..n] + [infos[n]];
      if infos[n].IsNotRegistered() then DropUnregistered(infos[..n]) else DropUnregistered(infos[..n]) + [infos[n]]
  }

  /** The targets that a refresh asks the service about. */
  function Stale(cache: seq<TargetInfo>): set<Target> {
    set x | x in cache && !x.IsHealthy() :: x.target
  }

  function Refreshed(cache: seq<TargetInfo>, answer: seq<TargetInfo>): seq<TargetInfo> {
    KeepHealthy(cache) + DropUnregistered(answer)
  }

  lemma {:induction false} KeepHealthyUnique(cache: seq<TargetInfo>)
    requires UniqueTargets(cache)
    ensures UniqueTargets(KeepHealthy(cache))
  {
    if cache != [] {
      var n := |cache| - 1;
      KeepHealthyUnique(cache[..n]);
      forall x | x in KeepHealthy(cache[..n]) ensures x.target != cache[n].target {
        var k :| 0 <= k < n && cache[..n][k] == x;
        assert cache[k].target != cache[n].target;
      }
    }
  }

  lemma {:induction false} DropUnregisteredUnique(infos: seq<TargetInfo>)
    requires UniqueTargets(infos)
    ensures UniqueTargets(DropUnregistered(infos))
  {
    if infos != [] {
      var n := |infos| - 1;
      DropUnregisteredUnique(infos[..n]);
      forall x | x in DropUnregistered(infos[..n]) ensures x.target != infos[n].target {
        var k :| 0 <= k < n && infos[..n][k] == x;
        assert infos[k].target != infos[n].target;
      }
    }
  }

  /** Every listed health is the service's own, or that of a target cached as healthy. */
  ghost predicate Reported(infos: seq<TargetInfo>, g: Group, cached: seq<TargetInfo>) {
    forall x <- infos :: (x.target in g && x.health == Some(g[x.target])) || (x in cached && x.IsHealthy())
  }

  /**
   * Asking only about targets that are not known to be healthy is enough: the refreshed
   * list agrees again, and up to changes in flight it lists exactly the group's targets,
   * telling draining ones from live ones.
   */
  lemma RefreshAgrees(cache: seq<TargetInfo>, g: Group, registering: set<Target>, deregistering: set<Target>,
      answer: seq<TargetInfo>)
    requires Agrees(cache, g, registering, deregistering) && ValidGroup(g)
    requires Describes(g, Some(Stale(cache)), answer)
    ensures var r := Refreshed(cache, answer);
      && Agrees(r, g, registering, deregistering)
      && g.Keys - registering <= TargetsOf(r) <= g.Keys + deregistering
      && Reported(r, g, cache)
      && (forall x <- r :: x.target in g && x.target !in deregistering ==> (x.IsDraining() <==> x.target !in Live(g)))
  {
    var r := Refreshed(cache, answer);
    KeepHealthyUnique(cache);
    DropUnregisteredUnique(answer);
    var kept, told := KeepHealthy(cache), DropUnregistered(answer);
    forall x, y | x in kept && y in told ensures x.target != y.target {
      assert y in answer && y.target in TargetsOf(answer) && y.target in Stale(cache);
      var z :| z in cache && !z.IsHealthy() && z.target == y.target;
    }
    assert UniqueTargets(r) by {
      forall i, j | 0 <= i < j < |r| ensures r[i].target != r[j].target {
        if i < |kept| && j >= |kept| { assert r[i] in kept && r[j] in told; }
      }
    }
    forall x | x in r ensures x in kept || (x in answer && x.target in g && x.health == Some(g[x.target])) {
      if x in told { assert x in answer && !x.IsNotRegistered(); }
    }
    forall t | t in g && t !in registering ensures t in TargetsOf(r) {
      var x :| x in cache && x.target == t;
      if x.IsHealthy() {
        assert x in kept && x in r;
      } else {
        assert t in Stale(cache);
        var y :| y in answer && y.target == t;
        assert y in told && y in r;
      }
    }
    forall x | x in r ensures x.target in g.Keys + deregistering { }
  }

  // ---------------------------------------------------------------- recording changes

  function Marked(x: TargetInfo, ts: set<Target>): TargetInfo { if x.target in ts then x.(health := None) else x }

  /** Targets in `ts` become unknown; the rest of the list is untouched. */
  function MarkUnknown(cache: seq<TargetInfo>, ts: set<Target>): (r: seq<TargetInfo>)
  {
    seq(|cache|, i requires 0 <= i < |cache| => Marked(cache[i], ts))
  }

  /** After a successful registration: known targets are marked, new ones appended in any order. */
  ghost predicate RecordedRegister(cache: seq<TargetInfo>, ts: set<Target>, cache': seq<TargetInfo>) {
    && |cache| <= |cache'| && cache'[..|cache|] == MarkUnknown(cache, ts)
    && UniqueTargets(cache')
    && TargetsOf(cache') == TargetsOf(cache) + ts
    && forall i :: |cache| <= i < |cache'| ==> cache'[i].health == None
  }

  lemma MarkUnknownFacts(cache: seq<TargetInfo>, ts: set<Target>)
    ensures TargetsOf(MarkUnknown(cache, ts)) == TargetsOf(cache)
    ensures UniqueTargets(cache) ==> UniqueTargets(MarkUnknown(cache, ts))
    ensures forall x <- MarkUnknown(cache, ts) :: x.IsHealthy() ==> x in cache && x.target !in ts
  {
    var r := MarkUnknown(cache, ts);
    forall t | t in TargetsOf(cache) ensures t in TargetsOf(r) {
      var x :| x in cache && x.target == t;
      var i :| 0 <= i < |cache| && cache[i] == x;
      assert r[i] in r;
    }
    forall t | t in TargetsOf(r) ensures t in TargetsOf(cache) {
      var x :| x in r && x.target == t;
      var i :| 0 <= i < |r| && r[i] == x;
      assert cache[i] in cache;
    }
  }

  lemma RegisterAgrees(cache: seq<TargetInfo>, g: Group, registering: set<Target>, deregistering: set<Target>,
      ts: set<Target>, cache': seq<TargetInfo>)
    requires Agrees(cache, g, registering + ts, deregistering) && RecordedRegister(cache, ts, cache')
    ensures Agrees(cache', g, registering, deregistering)
  {
    MarkUnknownFacts(cache, ts);
    forall x | x in cache' && x.IsHealthy() ensures x.target in Live(g) || x.target in deregistering {
      var i :| 0 <= i < |cache'| && cache'[i] == x;
      assert i < |cache| && cache'[..|cache|][i] == x;
      assert x in MarkUnknown(cache, ts);
    }
  }

  lemma DeregisterAgrees(cache: seq<TargetInfo>, g: Group, registering: set<Target>, deregistering: set<Target>,
      ts: set<Target>)
    requires Agrees(cache, g, registering, deregistering + ts)
    ensures Agrees(MarkUnknown(cache, ts), g, registering, deregistering)
  {
    MarkUnknownFacts(cache, ts);
  }
}
