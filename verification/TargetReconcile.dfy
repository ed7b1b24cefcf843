/**
 * Reconciling an IP-type TargetGroupBinding (pkg/targetgroupbinding/resource_manager.go).
 */
module TargetReconcile {
  import opened Text
  import opened Targets
  import opened TargetsManagers
  import opened EndpointResolver

  datatype EndpointAndTarget = EndpointAndTarget(endpoint: PodEndpoint, target: TargetInfo)

  datatype Outcome = Done | RequeueAfter | Requeue | Failed

  function TargetOf(e: PodEndpoint): Target { Target(e.ip, e.port) }

  function Wanted(endpoints: seq<PodEndpoint>): set<Target> { set e | e in endpoints :: Target(e.ip, e.port) }

  /** The last endpoint listed for its address and port speaks for it. */
  ghost predicate Speaks(endpoints: seq<PodEndpoint>, e: PodEndpoint) {
    exists k :: 0 <= k < |endpoints| && endpoints[k] == e && forall j :: k < j < |endpoints| ==>
      TargetOf(endpoints[j]) != TargetOf(e)
  }

  /** The last entry for a target. */
  ghost predicate Current(infos: seq<TargetInfo>, x: TargetInfo) {
    exists k :: 0 <= k < |infos| && infos[k] == x && forall j :: k < j < |infos| ==> infos[j].target != x.target
  }

  // ---------------------------------------------------------------- partition and matching

  method PartitionTargetsByDrainingStatus(infos: seq<TargetInfo>)
      returns (notDraining: seq<TargetInfo>, draining: seq<TargetInfo>)
    ensures forall x :: x in notDraining <==> x in infos && !x.IsDraining()
    ensures forall x :: x in draining <==> x in infos && x.IsDraining()
    ensures multiset(notDraining) + multiset(draining) == multiset(infos)
    ensures UniqueTargets(infos) ==> UniqueTargets(notDraining)
  {
    notDraining, draining := [], [];
    for i := 0 to |infos|
      invariant forall x :: x in notDraining <==> x in infos[..i] && !x.IsDraining()
      invariant forall x :: x in draining <==> x in infos[..i] && x.IsDraining()
      invariant multiset(notDraining) + multiset(draining) == multiset(infos[..i])
      invariant UniqueTargets(infos) ==> UniqueTargets(notDraining)
    {
      assert infos[..i + 1] == infos[..i] + [infos[i]];
      if infos[i].IsDraining() {
        draining := draining + [infos[i]];
      } else {
        if UniqueTargets(infos) { FreshTarget(infos, i, notDraining); }
        notDraining := notDraining + [infos[i]];
      }
    }
    assert infos[..|infos|] == infos;
  }

  lemma FreshTarget(infos: seq<TargetInfo>, i: nat, kept: seq<TargetInfo>)
    requires UniqueTargets(infos) && i < |infos| && forall x <- kept :: x in infos[..i]
    requires UniqueTargets(kept)
    ensures UniqueTargets(kept + [infos[i]])
  {
    forall k | 0 <= k < |kept| ensures kept[k].target != infos[i].target {
      assert kept[k] in infos[..i];
      var j :| 0 <= j < i && infos[j] == kept[k];
    }
  }

  ghost predicate EndpointIndex(byUID: map<string, PodEndpoint>, endpoints: seq<PodEndpoint>) {
    && (forall uid <- byUID :: UniqueID(TargetOf(byUID[uid])) == uid && Speaks(endpoints, byUID[uid]))
    && (forall e <- endpoints :: UniqueID(TargetOf(e)) in byUID)
  }

  ghost predicate TargetIndex(byUID: map<string, TargetInfo>, infos: seq<TargetInfo>) {
    && (forall uid <- byUID :: UniqueID(byUID[uid].target) == uid && Current(infos, byUID[uid]))
    && (forall x <- infos :: UniqueID(x.target) in byUID)
  }

  lemma SpeaksSnoc(endpoints: seq<PodEndpoint>, e: PodEndpoint)
    ensures Speaks(endpoints + [e], e)
    ensures forall f :: Speaks(endpoints, f) && TargetOf(f) != TargetOf(e) ==> Speaks(endpoints + [e], f)
  {
    var s := endpoints + [e];
    assert s[|endpoints|] == e;
    forall f | Speaks(endpoints, f) && TargetOf(f) != TargetOf(e) ensures Speaks(s, f) {
      var k :| 0 <= k < |endpoints| && endpoints[k] == f && forall j :: k < j < |endpoints| ==>
        TargetOf(endpoints[j]) != TargetOf(f);
      assert s[k] == f;
    }
  }

  lemma CurrentSnoc(infos: seq<TargetInfo>, x: TargetInfo)
    ensures Current(infos + [x], x)
    ensures forall y :: Current(infos, y) && y.target != x.target ==> Current(infos + [x], y)
  {
    var s := infos + [x];
    assert s[|infos|] == x;
    forall y | Current(infos, y) && y.target != x.target ensures Current(s, y) {
      var k :| 0 <= k < |infos| && infos[k] == y && forall j :: k < j < |infos| ==> infos[j].target != y.target;
      assert s[k] == y;
    }
  }

  method IndexEndpoints(endpoints: seq<PodEndpoint>) returns (byUID: map<string, PodEndpoint>)
    ensures EndpointIndex(byUID, endpoints)
  {
    byUID := map[];
    for i := 0 to |endpoints|
      invariant EndpointIndex(byUID, endpoints[..i])
    {
      var e := endpoints[i];
      assert endpoints[..i + 1] == endpoints[..i] + [e];
      SpeaksSnoc(endpoints[..i], e);
      forall uid | uid in byUID ensures uid == UniqueID(TargetOf(e)) <==> TargetOf(byUID[uid]) == TargetOf(e) {
        UniqueIDInjective(TargetOf(byUID[uid]), TargetOf(e));
      }
      byUID := byUID[UniqueID(TargetOf(e)) := e];
    }
    assert endpoints[..|endpoints|] == endpoints;
  }

  method IndexTargets(infos: seq<TargetInfo>) returns (byUID: map<string, TargetInfo>)
    ensures TargetIndex(byUID, infos)
  {
    byUID := map[];
    for i := 0 to |infos|
      invariant TargetIndex(byUID, infos[..i])
    {
      var x := infos[i];
      assert infos[..i + 1] == infos[..i] + [x];
      CurrentSnoc(infos[..i], x);
      forall uid | uid in byUID ensures uid == UniqueID(x.target) <==> byUID[uid].target == x.target {
        UniqueIDInjective(byUID[uid].target, x.target);
      }
      byUID := byUID[UniqueID(x.target) := x];
    }
    assert infos[..|infos|] == infos;
  }

  lemma SpeakerOfIndex(byUID: map<string, PodEndpoint>, endpoints: seq<PodEndpoint>, e: PodEndpoint)
    requires EndpointIndex(byUID, endpoints)
    ensures Speaks(endpoints, e) <==> UniqueID(TargetOf(e)) in byUID && byUID[UniqueID(TargetOf(e))] == e
    ensures UniqueID(TargetOf(e)) in byUID <==> TargetOf(e) in Wanted(endpoints)
  {
    var uid := UniqueID(TargetOf(e));
    if uid in byUID {
      UniqueIDInjective(TargetOf(byUID[uid]), TargetOf(e));
      assert byUID[uid] in endpoints;
      if Speaks(endpoints, e) {
        var k :| 0 <= k < |endpoints| && endpoints[k] == e && forall j :: k < j < |endpoints| ==>
          TargetOf(endpoints[j]) != TargetOf(e);
        var m :| 0 <= m < |endpoints| && endpoints[m] == byUID[uid] && forall j :: m < j < |endpoints| ==>
          TargetOf(endpoints[j]) != TargetOf(byUID[uid]);
        assert k == m;
      }
    }
    if TargetOf(e) in Wanted(endpoints) {
      var f :| f in endpoints && TargetOf(f) == TargetOf(e);
      assert UniqueID(TargetOf(f)) in byUID;
    }
  }

  lemma CurrentOfIndex(byUID: map<string, TargetInfo>, infos: seq<TargetInfo>, x: TargetInfo)
    requires TargetIndex(byUID, infos)
    ensures Current(infos, x) <==> UniqueID(x.target) in byUID && byUID[UniqueID(x.target)] == x
    ensures UniqueID(x.target) in byUID <==> x.target in TargetsOf(infos)
  {
    var uid := UniqueID(x.target);
    if uid in byUID {
      UniqueIDInjective(byUID[uid].target, x.target);
      assert byUID[uid] in infos;
      if Current(infos, x) {
        var k :| 0 <= k < |infos| && infos[k] == x && forall j :: k < j < |infos| ==> infos[j].target != x.target;
        var m :| 0 <= m < |infos| && infos[m] == byUID[uid] && forall j :: m < j < |infos| ==>
          infos[j].target != byUID[uid].target;
        assert k == m;
      }
    }
    if x.target in TargetsOf(infos) {
      var y :| y in infos && y.target == x.target;
      assert UniqueID(y.target) in byUID;
    }
  }

  /** The values at some keys, in order. */
  method Select<V>(byUID: map<string, V>, uids: seq<string>) returns (values: seq<V>)
    requires forall uid <- uids :: uid in byUID
    ensures |values| == |uids| && forall i :: 0 <= i < |uids| ==> values[i] == byUID[uids[i]]
  {
    values := [];
    for i := 0 to |uids|
      invariant |values| == i && forall k :: 0 <= k < i ==> values[k] == byUID[uids[k]]
    {
      values := values + [byUID[uids[i]]];
    }
  }

  /**
   * Endpoints and targets are paired by address and port; what has no partner is returned
   * as unmatched. No pair, endpoint or target appears twice.
   */
  method MatchPodEndpointWithTargets(endpoints: seq<PodEndpoint>, infos: seq<TargetInfo>)
    returns (matched: seq<EndpointAndTarget>, newEndpoints: seq<PodEndpoint>, oldTargets: seq<TargetInfo>)
    ensures forall p :: p in matched <==>
      Speaks(endpoints, p.endpoint) && Current(infos, p.target) && TargetOf(p.endpoint) == p.target.target
    ensures forall e :: e in newEndpoints <==> Speaks(endpoints, e) && TargetOf(e) !in TargetsOf(infos)
    ensures forall x :: x in oldTargets <==> Current(infos, x) && x.target !in Wanted(endpoints)
    ensures NoDuplicates(matched) && NoDuplicates(newEndpoints) && NoDuplicates(oldTargets)
  {
    var endpointsByUID := IndexEndpoints(endpoints);
    var targetsByUID := IndexTargets(infos);
    matched := Pairs(endpointsByUID, endpoints, targetsByUID, infos);
    newEndpoints := NewEndpoints(endpointsByUID, endpoints, targetsByUID, infos);
    oldTargets := OldTargets(endpointsByUID, endpoints, targetsByUID, infos);
  }

  method Pairs(endpointsByUID: map<string, PodEndpoint>, ghost endpoints: seq<PodEndpoint>,
      targetsByUID: map<string, TargetInfo>, ghost infos: seq<TargetInfo>)
    returns (matched: seq<EndpointAndTarget>)
    requires EndpointIndex(endpointsByUID, endpoints) && TargetIndex(targetsByUID, infos)
    ensures forall p :: p in matched <==>
      Speaks(endpoints, p.endpoint) && Current(infos, p.target) && TargetOf(p.endpoint) == p.target.target
    ensures NoDuplicates(matched)
  {
    var uids := SortedList(endpointsByUID.Keys * targetsByUID.Keys);
    assert forall k :: 0 <= k < |uids| ==> uids[k] in Elements(uids);
    matched := SelectPairs(endpointsByUID, targetsByUID, uids);
    PairsCorrect(endpointsByUID, endpoints, targetsByUID, infos, uids, matched);
  }

  method SelectPairs(endpointsByUID: map<string, PodEndpoint>, targetsByUID: map<string, TargetInfo>,
      uids: seq<string>) returns (pairs: seq<EndpointAndTarget>)
    requires forall k :: 0 <= k < |uids| ==> uids[k] in endpointsByUID && uids[k] in targetsByUID
    ensures |pairs| == |uids| && forall k :: 0 <= k < |uids| ==>
      pairs[k] == EndpointAndTarget(endpointsByUID[uids[k]], targetsByUID[uids[k]])
  {
    pairs := [];
    for i := 0 to |uids|
      invariant |pairs| == i && forall k :: 0 <= k < i ==>
        pairs[k] == EndpointAndTarget(endpointsByUID[uids[k]], targetsByUID[uids[k]])
    {
      pairs := pairs + [EndpointAndTarget(endpointsByUID[uids[i]], targetsByUID[uids[i]])];
    }
  }

  method NewEndpoints(endpointsByUID: map<string, PodEndpoint>, ghost endpoints: seq<PodEndpoint>,
      targetsByUID: map<string, TargetInfo>, ghost infos: seq<TargetInfo>)
    returns (found: seq<PodEndpoint>)
    requires EndpointIndex(endpointsByUID, endpoints) && TargetIndex(targetsByUID, infos)
    ensures forall e :: e in found <==> Speaks(endpoints, e) && TargetOf(e) !in TargetsOf(infos)
    ensures NoDuplicates(found)
  {
    var uids := SortedList(endpointsByUID.Keys - targetsByUID.Keys);
    assert forall uid <- uids :: uid in Elements(uids);
    found := Select(endpointsByUID, uids);
    NewEndpointsCorrect(endpointsByUID, endpoints, targetsByUID, infos, uids, found);
  }

  method OldTargets(endpointsByUID: map<string, PodEndpoint>, ghost endpoints: seq<PodEndpoint>,
      targetsByUID: map<string, TargetInfo>, ghost infos: seq<TargetInfo>)
    returns (found: seq<TargetInfo>)
    requires EndpointIndex(endpointsByUID, endpoints) && TargetIndex(targetsByUID, infos)
    ensures forall x :: x in found <==> Current(infos, x) && x.target !in Wanted(endpoints)
    ensures NoDuplicates(found)
  {
    var uids := SortedList(targetsByUID.Keys - endpointsByUID.Keys);
    assert forall uid <- uids :: uid in Elements(uids);
    found := Select(targetsByUID, uids);
    OldTargetsCorrect(endpointsByUID, endpoints, targetsByUID, infos, uids, found);
  }

  lemma PairsCorrect(endpointsByUID: map<string, PodEndpoint>, endpoints: seq<PodEndpoint>,
      targetsByUID: map<string, TargetInfo>, infos: seq<TargetInfo>,
                     uids: seq<string>, matched: seq<EndpointAndTarget>)
    requires EndpointIndex(endpointsByUID, endpoints) && TargetIndex(targetsByUID, infos)
    requires Elements(uids) == endpointsByUID.Keys * targetsByUID.Keys && NoDuplicates(uids)
    requires |matched| == |uids| && forall k :: 0 <= k < |uids| ==>
      uids[k] in endpointsByUID && uids[k] in targetsByUID
        && matched[k] == EndpointAndTarget(endpointsByUID[uids[k]], targetsByUID[uids[k]])
    ensures forall p :: p in matched <==>
      Speaks(endpoints, p.endpoint) && Current(infos, p.target) && TargetOf(p.endpoint) == p.target.target
    ensures NoDuplicates(matched)
  {
    forall k | 0 <= k < |uids|
      ensures uids[k] in endpointsByUID && uids[k] in targetsByUID
      ensures UniqueID(TargetOf(matched[k].endpoint)) == uids[k] == UniqueID(matched[k].target.target)
      ensures TargetOf(matched[k].endpoint) == matched[k].target.target
    {
      assert uids[k] in Elements(uids);
      UniqueIDInjective(TargetOf(matched[k].endpoint), matched[k].target.target);
    }
    forall p: EndpointAndTarget | Speaks(endpoints, p.endpoint) && Current(infos, p.target)
      && TargetOf(p.endpoint) == p.target.target ensures p in matched {
      SpeakerOfIndex(endpointsByUID, endpoints, p.endpoint);
      CurrentOfIndex(targetsByUID, infos, p.target);
      assert UniqueID(TargetOf(p.endpoint)) in Elements(uids);
      var k :| 0 <= k < |uids| && uids[k] == UniqueID(TargetOf(p.endpoint));
      assert matched[k] == p;
    }
  }

  lemma NewEndpointsCorrect(endpointsByUID: map<string, PodEndpoint>, endpoints: seq<PodEndpoint>,
      targetsByUID: map<string, TargetInfo>, infos: seq<TargetInfo>,
                            uids: seq<string>, found: seq<PodEndpoint>)
    requires EndpointIndex(endpointsByUID, endpoints) && TargetIndex(targetsByUID, infos)
    requires Elements(uids) == endpointsByUID.Keys - targetsByUID.Keys && NoDuplicates(uids)
    requires |found| == |uids| && forall k :: 0 <= k < |uids| ==>
      uids[k] in endpointsByUID && found[k] == endpointsByUID[uids[k]]
    ensures forall e :: e in found <==> Speaks(endpoints, e) && TargetOf(e) !in TargetsOf(infos)
    ensures NoDuplicates(found)
  {
    forall k | 0 <= k < |uids| ensures TargetOf(found[k]) !in TargetsOf(infos)
      && UniqueID(TargetOf(found[k])) == uids[k] {
      assert uids[k] in Elements(uids);
      CurrentOfIndex(targetsByUID, infos, TargetInfo(TargetOf(found[k]), None));
    }
    forall e | Speaks(endpoints, e) && TargetOf(e) !in TargetsOf(infos) ensures e in found {
      SpeakerOfIndex(endpointsByUID, endpoints, e);
      CurrentOfIndex(targetsByUID, infos, TargetInfo(TargetOf(e), None));
      assert UniqueID(TargetOf(e)) in Elements(uids);
      var k :| 0 <= k < |uids| && uids[k] == UniqueID(TargetOf(e));
      assert found[k] == e;
    }
  }

  lemma OldTargetsCorrect(endpointsByUID: map<string, PodEndpoint>, endpoints: seq<PodEndpoint>,
      targetsByUID: map<string, TargetInfo>, infos: seq<TargetInfo>,
                          uids: seq<string>, found: seq<TargetInfo>)
    requires EndpointIndex(endpointsByUID, endpoints) && TargetIndex(targetsByUID, infos)
    requires Elements(uids) == targetsByUID.Keys - endpointsByUID.Keys && NoDuplicates(uids)
    requires |found| == |uids| && forall k :: 0 <= k < |uids| ==>
      uids[k] in targetsByUID && found[k] == targetsByUID[uids[k]]
    ensures forall x :: x in found <==> Current(infos, x) && x.target !in Wanted(endpoints)
    ensures NoDuplicates(found)
  {
    forall x: TargetInfo | x.target in Wanted(endpoints) ensures UniqueID(x.target) in endpointsByUID {
      var e :| e in endpoints && TargetOf(e) == x.target;
    }
    forall x: TargetInfo | UniqueID(x.target) in endpointsByUID ensures x.target in Wanted(endpoints) {
      var e := endpointsByUID[UniqueID(x.target)];
      UniqueIDInjective(TargetOf(e), x.target);
      assert e in endpoints;
    }
    forall k | 0 <= k < |uids| ensures found[k].target !in Wanted(endpoints) && UniqueID(found[k].target) == uids[k] {
      assert uids[k] in Elements(uids);
    }
    forall x | Current(infos, x) && x.target !in Wanted(endpoints) ensures x in found {
      CurrentOfIndex(targetsByUID, infos, x);
      assert UniqueID(x.target) in Elements(uids);
      var k :| 0 <= k < |uids| && uids[k] == UniqueID(x.target);
      assert found[k] == x;
    }
  }

  // ---------------------------------------------------------------- readiness gates

  datatype PatchResult = Patched | PodGone | PatchFailed

  datatype Patch = Patch(uid: string, condition: PodCondition)

  /**
   * Pod status in the Kubernetes API; a patch names the pod's UID as a precondition. `gone` has
   * the UIDs of the pods that do not exist when a pass begins and `leaving` those of the pods
   * that vanish during it, at any moment. Nothing in a pass changes either.
   */
  class PodApi {
    var gone: set<string>
    var leaving: set<string>
    var patches: seq<Patch>
    var faults: nat

    method PatchStatus(uid: string, condition: PodCondition) returns (r: PatchResult)
      modifies this`patches, this`faults
      ensures r.PodGone? ==> uid in gone + leaving
      ensures uid in gone ==> !r.Patched?
      ensures patches == if r.Patched? then old(patches) + [Patch(uid, condition)] else old(patches)
      ensures faults >= old(faults) && (r.PatchFailed? ==> faults > old(faults))
    {
      if * { faults := faults + 1; return PatchFailed; }
      if uid in gone { return PodGone; }
      if uid in leaving { if * { return PodGone; } }
      patches := patches + [Patch(uid, condition)];
      return Patched;
    }
  }

  function ReasonText(r: Reason): string {
    match r case NotRegistered => "Target.NotRegistered" case OtherReason(text) => text
  }

  /** The pod condition that a target's health calls for; unknown health is its own status. */
  function ConditionFor(health: Option<Health>): PodCondition {
    match health
    case None => PodCondition(ConditionUnknown, "", "")
    case Some(h) => PodCondition(if h.state == Healthy
      then ConditionTrue else ConditionFalse, ReasonText(h.reason), h.description)
  }

  /** The condition tells the health: true if healthy, false if it is known not to be, unknown otherwise. */
  ghost predicate Tells(c: PodCondition, health: Option<Health>) {
    && (c.status == ConditionTrue <==> health.Some? && health.value.state == Healthy)
    && (c.status == ConditionFalse <==> health.Some? && health.value.state != Healthy)
    && (c.status == ConditionUnknown <==> health.None?)
    && match health
       case None => c.reason == "" && c.message == ""
       case Some(h) =>
         && c.message == h.description
         && (h.reason == OtherReason(c.reason) || (h.reason == NotRegistered && c.reason == "Target.NotRegistered"))
  }

  lemma ConditionTells(c: PodCondition, health: Option<Health>)
    ensures c == ConditionFor(health) <==> Tells(c, health)
  {
  }

  datatype Probe = Probe(needFurther: bool) | ProbeFailed

  /** The pod already has the condition that the health calls for. */
  predicate Aware(pod: Pod, gate: string, health: Option<Health>) {
    gate in pod.conditions && pod.conditions[gate] == ConditionFor(health)
  }

  /** It has the condition, or is being given it. */
  predicate Informed(pod: Pod, gate: string, health: Option<Health>, patches: seq<Patch>) {
    Aware(pod, gate, health) || Patch(pod.uid, ConditionFor(health)) in patches
  }

  /** No need to come back for the pod: the target is healthy, or a patch is due and finds the pod gone. */
  predicate Settled(pod: Pod, gate: string, health: Option<Health>, gone: set<string>) {
    Gated(pod, gate) ==> IsHealthy(health) || (pod.uid in gone && !Aware(pod, gate, health))
  }

  predicate IsHealthy(health: Option<Health>) { health.Some? && health.value.state == Healthy }

  /**
   * A gated pod is informed of its target's health or is gone. Whether it needs further probing
   * is decided by whether it is settled, up to pods that vanish meanwhile.
   */
  method UpdateTargetHealthPodConditionForPod(api: PodApi, pod: Pod, health: Option<Health>, gate: string)
      returns (r: Probe)
    modifies api`patches, api`faults
    ensures api.faults >= old(api.faults) && (r.ProbeFailed? ==> api.faults > old(api.faults))
    ensures old(api.patches) <= api.patches
    ensures !Gated(pod, gate) ==> r == Probe(false) && api.patches == old(api.patches)
    ensures r.Probe? && !r.needFurther ==> Settled(pod, gate, health, api.gone + api.leaving)
    ensures r.Probe? && r.needFurther ==> !Settled(pod, gate, health, api.gone)
    ensures Gated(pod, gate) && r.Probe? ==>
      pod.uid in api.gone + api.leaving || Informed(pod, gate, health, api.patches[|old(api.patches)|..])
    ensures api.patches == old(api.patches) || api.patches == old(api.patches) + [Patch(pod.uid, ConditionFor(health))]
    ensures forall patch <- api.patches[|old(api.patches)|..] :: patch.uid == pod.uid && Tells(patch.condition, health)
    ensures Gated(pod, gate) && r.Probe? && api.patches == old(api.patches) ==>
      pod.uid in api.gone + api.leaving || (gate in pod.conditions && Tells(pod.conditions[gate], health))
  {
    if !Gated(pod, gate) { return Probe(false); }
    var condition := ConditionFor(health);
    var needFurther := condition.status != ConditionTrue;
    if gate in pod.conditions && pod.conditions[gate] == condition { return Probe(needFurther); }
    var patched := api.PatchStatus(pod.uid, condition);
    match patched
    case PodGone => return Probe(false);
    case PatchFailed => return ProbeFailed;
    case Patched => return Probe(needFurther);
  }

  ghost predicate PairsInformed(matched: seq<EndpointAndTarget>, gate: string, gone: set<string>, patches: seq<Patch>) {
    forall p <- matched :: Gated(p.endpoint.pod, gate) ==>
      p.endpoint.pod.uid in gone || Informed(p.endpoint.pod, gate, p.target.health, patches)
  }

  ghost predicate NewInformed(newEndpoints: seq<PodEndpoint>, gate: string, gone: set<string>, patches: seq<Patch>) {
    forall e <- newEndpoints :: Gated(e.pod, gate) ==>
      e.pod.uid in gone || Informed(e.pod, gate, Some(REGISTERING), patches)
  }

  ghost predicate PairsSettled(matched: seq<EndpointAndTarget>, gate: string, gone: set<string>) {
    forall p <- matched :: Settled(p.endpoint.pod, gate, p.target.health, gone)
  }

  ghost predicate NewSettled(newEndpoints: seq<PodEndpoint>, gate: string, gone: set<string>) {
    forall e <- newEndpoints :: Settled(e.pod, gate, Some(REGISTERING), gone)
  }

  /** Every gated pod is informed or gone; no further probe is needed if all are settled, and only then. */
  method UpdateTargetHealthPodCondition(api: PodApi, matched: seq<EndpointAndTarget>, newEndpoints: seq<PodEndpoint>,
      gate: string)
    returns (r: Probe)
    modifies api`patches, api`faults
    ensures api.faults >= old(api.faults) && (r.ProbeFailed? ==> api.faults > old(api.faults))
    ensures old(api.patches) <= api.patches
    ensures r.Probe? ==> PairsInformed(matched, gate, api.gone + api.leaving, api.patches[|old(api.patches)|..])
    ensures r.Probe? ==> NewInformed(newEndpoints, gate, api.gone + api.leaving, api.patches[|old(api.patches)|..])
    ensures r.Probe? && !r.needFurther ==>
      PairsSettled(matched, gate, api.gone + api.leaving) && NewSettled(newEndpoints, gate, api.gone + api.leaving)
    ensures r.Probe? && r.needFurther ==>
      !(PairsSettled(matched, gate, api.gone) && NewSettled(newEndpoints, gate, api.gone))
  {
    ghost var first := api.patches;
    r := ProbeMatched(api, matched, gate);
    if r.ProbeFailed? { return; }
    ghost var middle := api.patches;
    var more := ProbeNew(api, newEndpoints, gate);
    assert forall x <- middle[|first|..] :: x in api.patches[|first|..] by {
      assert api.patches[|first|..] == middle[|first|..] + api.patches[|middle|..];
    }
    r := if more.ProbeFailed? then more else Probe(r.needFurther || more.needFurther);
  }

  method ProbeMatched(api: PodApi, matched: seq<EndpointAndTarget>, gate: string) returns (r: Probe)
    modifies api`patches, api`faults
    ensures api.faults >= old(api.faults) && (r.ProbeFailed? ==> api.faults > old(api.faults))
    ensures old(api.patches) <= api.patches
    ensures r.Probe? ==> PairsInformed(matched, gate, api.gone + api.leaving, api.patches[|old(api.patches)|..])
    ensures r.Probe? && !r.needFurther ==> PairsSettled(matched, gate, api.gone + api.leaving)
    ensures r.Probe? && r.needFurther ==> !PairsSettled(matched, gate, api.gone)
  {
    var any := false;
    ghost var first := api.patches;
    for i := 0 to |matched|
      invariant api.faults >= old(api.faults) && first <= api.patches
      invariant PairsInformed(matched[..i], gate, api.gone + api.leaving, api.patches[|first|..])
      invariant !any ==> PairsSettled(matched[..i], gate, api.gone + api.leaving)
      invariant any ==> !PairsSettled(matched[..i], gate, api.gone)
    {
      assert matched[..i + 1] == matched[..i] + [matched[i]];
      ghost var before := api.patches;
      r := UpdateTargetHealthPodConditionForPod(api, matched[i].endpoint.pod, matched[i].target.health, gate);
      if r.ProbeFailed? { return; }
      assert api.patches[|first|..] == before[|first|..] + api.patches[|before|..];
      if r.needFurther { any := true; }
    }
    assert matched[..|matched|] == matched;
    r := Probe(any);
  }

  method ProbeNew(api: PodApi, newEndpoints: seq<PodEndpoint>, gate: string) returns (r: Probe)
    modifies api`patches, api`faults
    ensures api.faults >= old(api.faults) && (r.ProbeFailed? ==> api.faults > old(api.faults))
    ensures old(api.patches) <= api.patches
    ensures r.Probe? ==> NewInformed(newEndpoints, gate, api.gone + api.leaving, api.patches[|old(api.patches)|..])
    ensures r.Probe? && !r.needFurther ==> NewSettled(newEndpoints, gate, api.gone + api.leaving)
    ensures r.Probe? && r.needFurther ==> !NewSettled(newEndpoints, gate, api.gone)
  {
    var any := false;
    ghost var first := api.patches;
    for i := 0 to |newEndpoints|
      invariant api.faults >= old(api.faults) && first <= api.patches
      invariant NewInformed(newEndpoints[..i], gate, api.gone + api.leaving, api.patches[|first|..])
      invariant !any ==> NewSettled(newEndpoints[..i], gate, api.gone + api.leaving)
      invariant any ==> !NewSettled(newEndpoints[..i], gate, api.gone)
    {
      assert newEndpoints[..i + 1] == newEndpoints[..i] + [newEndpoints[i]];
      ghost var before := api.patches;
      r := UpdateTargetHealthPodConditionForPod(api, newEndpoints[i].pod, Some(REGISTERING), gate);
      if r.ProbeFailed? { return; }
      assert api.patches[|first|..] == before[|first|..] + api.patches[|before|..];
      if r.needFurther { any := true; }
    }
    assert newEndpoints[..|newEndpoints|] == newEndpoints;
    r := Probe(any);
  }

  // ---------------------------------------------------------------- the reconcile pass

  class ResourceManager {
    const targets: CachedTargetsManager
    const pods: PodApi

    constructor (targets: CachedTargetsManager, pods: PodApi)
      ensures this.targets == targets && this.pods == pods
    {
      this.targets := targets;
      this.pods := pods;
    }

    /** Without a backend every target is drained; a group that is gone needs no cleanup. */
    method CleanupTargets(arn: string) returns (err: Option<TargetError>)
      requires targets.Valid() && targets.Coherent()
      modifies targets, targets.api
      ensures targets.Valid() && targets.Coherent() && targets.api.OthersKept(arn)
      ensures arn in targets.api.groups ==> Live(targets.api.groups[arn]) <= Live(old(targets.api.groups)[arn])
      ensures arn in targets.api.groups && err.None? ==> Live(targets.api.groups[arn]) == {}
      ensures targets.api.faults >= old(targets.api.faults)
        && (err.Some? ==> targets.api.faults > old(targets.api.faults))
    {
      var listing := targets.ListTargets(arn);
      if listing.NotListed? {
        return if listing.error.TargetGroupNotFound? then None else Some(listing.error);
      }
      ghost var sent;
      var ts := TargetList(listing.infos);
      err, sent := targets.DeregisterTargets(arn, ts);
      if err == Some(TargetGroupNotFound) { err := None; }
    }

    /**
     * One pass. Every outcome: nothing wanted is taken away, nothing unwanted is added. Unless it
     * fails, which takes a failed call, the live targets become exactly the endpoints' ones and
     * every gated endpoint pod that still exists is informed. Whether it is done or asks to be
     * requeued is decided by whether an endpoint is still to come and by `MayFinish`, exactly so
     * unless pods vanish during the pass.
     */
    method ReconcileWithIPTargetType(arn: string, resolution: Resolution, networkingOk: bool, gate: string)
      returns (outcome: Outcome, ghost listed: seq<TargetInfo>)
      requires targets.Valid() && targets.Coherent()
      modifies targets, targets.api, pods`patches, pods`faults
      ensures targets.Valid() && targets.Coherent() && targets.api.OthersKept(arn)
      ensures arn in targets.api.groups && resolution.Resolved? ==>
        var before, after := Live(old(targets.api.groups)[arn]), Live(targets.api.groups[arn]);
        var wanted := Wanted(resolution.endpoints);
        before * wanted <= after <= before + wanted && (outcome != Failed ==> after == wanted)
      ensures arn in targets.api.groups && resolution.BackendNotFound? && outcome != Failed ==>
        Live(targets.api.groups[arn]) == {}
      ensures resolution.ResolveFailed? ==> outcome == Failed && targets.api.groups == old(targets.api.groups)
      ensures outcome == Failed && arn in targets.api.groups ==>
        || resolution.ResolveFailed? || !networkingOk
        || targets.api.faults > old(targets.api.faults) || pods.faults > old(pods.faults)
      ensures arn in targets.api.groups && resolution.Resolved? && outcome != Failed ==>
        CurrentListing(old(targets.api.groups)[arn], CachedFor(old(targets.targetsCache), arn), listed)
      ensures old(pods.patches) <= pods.patches
      ensures resolution.Resolved? && outcome != Failed ==>
        AllInformed(resolution.endpoints, listed, gate, pods.gone + pods.leaving,
          pods.patches[|old(pods.patches)|..])
      ensures resolution.Resolved? && outcome == Done ==>
        !resolution.potentialReady && MayFinish(resolution.endpoints, listed, pods.gone + pods.leaving, gate)
      ensures resolution.Resolved? && (outcome == Requeue || outcome == RequeueAfter) ==>
        resolution.potentialReady || !MayFinish(resolution.endpoints, listed, pods.gone, gate)
      ensures resolution.Resolved? && outcome == RequeueAfter ==> Starting(resolution.endpoints, listed)
      ensures resolution.Resolved? && outcome == Requeue && !resolution.potentialReady ==>
        !Starting(resolution.endpoints, listed)
    {
      listed := [];
      if resolution.ResolveFailed? { return Failed, listed; }
      if resolution.BackendNotFound? {
        var cleanup := CleanupTargets(arn);
        return if cleanup.Some? || !networkingOk then Failed else Done, listed;
      }
      var ok, matched, newEndpoints;
      ok, matched, newEndpoints, listed := ConvergeTargets(arn, resolution.endpoints, networkingOk);
      if !ok { return Failed, listed; }
      outcome := ProbePods(resolution.endpoints, resolution.potentialReady, matched, newEndpoints, gate, listed);
    }

    /** The readiness gates and the decision whether to come back. */
    method ProbePods(endpoints: seq<PodEndpoint>, potentialReady: bool, matched: seq<EndpointAndTarget>,
                     newEndpoints: seq<PodEndpoint>, gate: string,
                       ghost listed: seq<TargetInfo>) returns (outcome: Outcome)
      requires UniqueTargets(listed) && Matching(endpoints, listed, matched, newEndpoints)
      modifies pods`patches, pods`faults
      ensures pods.faults >= old(pods.faults) && (outcome == Failed ==> pods.faults > old(pods.faults))
      ensures old(pods.patches) <= pods.patches
      ensures outcome != Failed ==>
        AllInformed(endpoints, listed, gate, pods.gone + pods.leaving, pods.patches[|old(pods.patches)|..])
      ensures outcome == Done ==> !potentialReady && MayFinish(endpoints, listed, pods.gone + pods.leaving, gate)
      ensures outcome == Requeue || outcome == RequeueAfter ==>
        potentialReady || !MayFinish(endpoints, listed, pods.gone, gate)
      ensures pods.faults == old(pods.faults) && pods.leaving == {} ==>
        (outcome == Done <==> !potentialReady && MayFinish(endpoints, listed, pods.gone, gate))
      ensures outcome == RequeueAfter ==> Starting(endpoints, listed)
      ensures outcome == Requeue && !potentialReady ==> !Starting(endpoints, listed)
    {
      var probe := UpdateTargetHealthPodCondition(pods, matched, newEndpoints, gate);
      if probe.ProbeFailed? { return Failed; }
      EveryoneInformed(endpoints, listed, matched, newEndpoints, gate, pods.gone + pods.leaving,
        pods.patches[|old(pods.patches)|..]);
      MayFinishIff(endpoints, listed, matched, newEndpoints, gate, pods.gone);
      MayFinishIff(endpoints, listed, matched, newEndpoints, gate, pods.gone + pods.leaving);
      assert pods.leaving == {} ==> pods.gone + pods.leaving == pods.gone;
      if probe.needFurther {
        var initial := ContainsTargetsInInitialState(matched);
        StartingFound(endpoints, listed, matched, newEndpoints);
        return if initial || |newEndpoints| != 0 then RequeueAfter else Requeue;
      }
      if potentialReady { return Requeue; }
      return Done;
    }

    /** Lists, matches, drains what is not wanted and registers what is missing, in this order. */
    method ConvergeTargets(arn: string, endpoints: seq<PodEndpoint>, networkingOk: bool)
      returns (ok: bool, matched: seq<EndpointAndTarget>, newEndpoints: seq<PodEndpoint>, ghost listed: seq<TargetInfo>)
      requires targets.Valid() && targets.Coherent()
      modifies targets, targets.api
      ensures targets.Valid() && targets.Coherent() && targets.api.OthersKept(arn)
      ensures arn in targets.api.groups ==>
        var before, after, wanted :=
          Live(old(targets.api.groups)[arn]), Live(targets.api.groups[arn]), Wanted(endpoints);
        before * wanted <= after <= before + wanted && (ok ==> after == wanted)
      ensures targets.api.faults >= old(targets.api.faults)
      ensures !ok ==> !networkingOk || arn !in targets.api.groups || targets.api.faults > old(targets.api.faults)
      ensures ok ==> UniqueTargets(listed) && Matching(endpoints, listed, matched, newEndpoints)
      ensures ok && arn in targets.api.groups ==>
        CurrentListing(old(targets.api.groups)[arn], CachedFor(old(targets.targetsCache), arn), listed)
    {
      hide Lists, Speaks, Current, Matching, CurrentListing, Agrees, Reported, UniqueTargets;
      matched, newEndpoints, listed := [], [], [];
      var listing := targets.ListTargets(arn);
      if listing.NotListed? { return false, matched, newEndpoints, listed; }
      listed := listing.infos;
      ghost var cached := CachedFor(old(targets.targetsCache), arn);
      var notDraining, draining := PartitionTargetsByDrainingStatus(listing.infos);
      if arn in targets.api.groups {
        ListingIsCurrent(old(targets.api.groups)[arn], targets.api.groups[arn], cached, listed, notDraining);
      }
      var oldTargets;
      matched, newEndpoints, oldTargets := MatchPodEndpointWithTargets(endpoints, notDraining);
      MatchedWithListed(endpoints, listed, notDraining, matched, newEndpoints);
      if !networkingOk { return false, matched, newEndpoints, listed; }
      var leaving := TargetList(oldTargets);
      var joining := EndpointTargets(newEndpoints);
      LeavingAndJoining(endpoints, listed, notDraining, oldTargets, newEndpoints);
      ok := ChangeTargets(arn, leaving, joining);
    }

    method ChangeTargets(arn: string, leaving: seq<Target>, joining: seq<Target>) returns (ok: bool)
      requires targets.Valid() && targets.Coherent()
      modifies targets, targets.api
      ensures targets.Valid() && targets.Coherent() && targets.api.OthersKept(arn)
      ensures arn in targets.api.groups ==>
        var before, after := Live(old(targets.api.groups)[arn]), Live(targets.api.groups[arn]);
        && before - Elements(leaving) <= after <= before + Elements(joining)
        && (ok ==> after == before - Elements(leaving) + Elements(joining))
      ensures targets.api.faults >= old(targets.api.faults)
      ensures !ok ==> arn !in targets.api.groups || targets.api.faults > old(targets.api.faults)
    {
      ghost var gone, come;
      var err;
      err, gone := targets.DeregisterTargets(arn, leaving);
      assert Elements(gone) <= Elements(leaving);
      if err.Some? { return false; }
      err, come := targets.RegisterTargets(arn, joining);
      assert Elements(come) <= Elements(joining);
      ok := err.None?;
    }
  }

  ghost predicate HealthyIn(infos: seq<TargetInfo>, t: Target) { exists x <- infos :: x.target == t && x.IsHealthy() }

  function CachedFor(cache: map<string, seq<TargetInfo>>, arn: string): seq<TargetInfo> {
    if arn in cache then cache[arn] else []
  }

  /**
   * A listing of the group at some moment of the pass: every target of it, once, with the
   * health it then had unless it was cached as healthy.
   */
  ghost predicate CurrentListing(before: Group, cached: seq<TargetInfo>, listed: seq<TargetInfo>) {
    && UniqueTargets(listed)
    && exists g :: Elapsed(before, g) && TargetsOf(listed) == g.Keys && Reported(listed, g, cached)
  }

  /** No target for the endpoint but draining ones. */
  ghost predicate Unlisted(listed: seq<TargetInfo>, e: PodEndpoint) {
    forall x <- listed :: x.target == TargetOf(e) ==> x.IsDraining()
  }

  /** Some endpoint's target is in its initial state, or about to be registered. */
  ghost predicate Starting(endpoints: seq<PodEndpoint>, listed: seq<TargetInfo>) {
    exists e :: Speaks(endpoints, e) &&
      (Unlisted(listed, e) || exists x <- listed :: x.target == TargetOf(e) && x.IsInitial())
  }

  /** The pod already has the condition that its endpoint's target calls for. */
  ghost predicate AwareOf(e: PodEndpoint, listed: seq<TargetInfo>, gate: string) {
    if Unlisted(listed, e) then Aware(e.pod, gate, Some(REGISTERING))
    else exists x <- listed :: x.target == TargetOf(e) && !x.IsDraining() && Aware(e.pod, gate, x.health)
  }

  /**
   * Nothing is left to wait for: every gated pod that speaks for an endpoint has a healthy
   * target, or it is gone and a patch would find that out, as its condition is out of date.
   */
  ghost predicate MayFinish(endpoints: seq<PodEndpoint>, listed: seq<TargetInfo>, gone: set<string>, gate: string) {
    forall e :: Speaks(endpoints, e) ==> MayRest(e, listed, gone, gate)
  }

  ghost predicate MayRest(e: PodEndpoint, listed: seq<TargetInfo>, gone: set<string>, gate: string) {
    Gated(e.pod, gate) ==> HealthyIn(listed, TargetOf(e)) || (e.pod.uid in gone && !AwareOf(e, listed, gate))
  }

  ghost predicate InformedAbout(e: PodEndpoint, listed: seq<TargetInfo>, gate: string, patches: seq<Patch>) {
    if Unlisted(listed, e) then Informed(e.pod, gate, Some(REGISTERING), patches)
    else exists x <- listed :: x.target == TargetOf(e) && !x.IsDraining() && Informed(e.pod, gate, x.health, patches)
  }

  ghost predicate AllInformed(endpoints: seq<PodEndpoint>, listed: seq<TargetInfo>, gate: string, gone: set<string>,
      patches: seq<Patch>) {
    forall e :: Speaks(endpoints, e) && Gated(e.pod, gate) ==>
      e.pod.uid in gone || InformedAbout(e, listed, gate, patches)
  }

  /** Every speaking endpoint is paired with its non-draining target or is new. */
  ghost predicate Matching(endpoints: seq<PodEndpoint>, listed: seq<TargetInfo>, matched: seq<EndpointAndTarget>,
      newEndpoints: seq<PodEndpoint>) {
    && (forall p :: p in matched <==>
          Speaks(endpoints, p.endpoint) && p.target in listed && !p.target.IsDraining()
            && TargetOf(p.endpoint) == p.target.target)
    && (forall e :: e in newEndpoints <==>
          Speaks(endpoints, e) && forall x <- listed :: x.target == TargetOf(e) ==> x.IsDraining())
  }

  lemma ListingIsCurrent(before: Group, g: Group, cached: seq<TargetInfo>, listed: seq<TargetInfo>,
      notDraining: seq<TargetInfo>)
    requires Elapsed(before, g) && Lists(listed, g, cached)
    requires forall x :: x in notDraining <==> x in listed && !x.IsDraining()
    ensures CurrentListing(before, cached, listed) && TargetsOf(notDraining) == Live(g) == Live(before)
  {
    forall t | t in Live(g) ensures t in TargetsOf(notDraining) {
      var x :| x in listed && x.target == t;
      assert x in notDraining;
    }
  }

  lemma MatchedWithListed(endpoints: seq<PodEndpoint>, listed: seq<TargetInfo>, notDraining: seq<TargetInfo>,
      matched: seq<EndpointAndTarget>, newEndpoints: seq<PodEndpoint>)
    requires UniqueTargets(notDraining) && forall x :: x in notDraining <==> x in listed && !x.IsDraining()
    requires forall p :: p in matched <==>
      Speaks(endpoints, p.endpoint) && Current(notDraining, p.target) && TargetOf(p.endpoint) == p.target.target
    requires forall e :: e in newEndpoints <==> Speaks(endpoints, e) && TargetOf(e) !in TargetsOf(notDraining)
    ensures Matching(endpoints, listed, matched, newEndpoints)
  {
    hide Speaks;
    forall x ensures Current(notDraining, x) <==> x in notDraining { }
  }

  lemma SomeSpeaker(endpoints: seq<PodEndpoint>, t: Target) returns (e: PodEndpoint)
    requires t in Wanted(endpoints)
    ensures Speaks(endpoints, e) && TargetOf(e) == t
  {
    var n := |endpoints| - 1;
    e := endpoints[n];
    assert endpoints == endpoints[..n] + [e];
    SpeaksSnoc(endpoints[..n], e);
    if TargetOf(e) != t {
      assert t in Wanted(endpoints[..n]);
      e := SomeSpeaker(endpoints[..n], t);
    }
  }

  /** What leaves is unwanted, what joins is wanted, and together they make the difference. */
  lemma LeavingAndJoining(endpoints: seq<PodEndpoint>, listed: seq<TargetInfo>, notDraining: seq<TargetInfo>,
      oldTargets: seq<TargetInfo>, newEndpoints: seq<PodEndpoint>)
    requires UniqueTargets(notDraining)
    requires forall e :: e in newEndpoints <==> Speaks(endpoints, e) && TargetOf(e) !in TargetsOf(notDraining)
    requires forall x :: x in oldTargets <==> Current(notDraining, x) && x.target !in Wanted(endpoints)
    ensures TargetsOf(oldTargets) == TargetsOf(notDraining) - Wanted(endpoints)
    ensures Wanted(newEndpoints) == Wanted(endpoints) - TargetsOf(notDraining)
  {
    forall x ensures Current(notDraining, x) <==> x in notDraining { }
    forall t | t in Wanted(endpoints) - TargetsOf(notDraining) ensures t in Wanted(newEndpoints) {
      var e := SomeSpeaker(endpoints, t);
      assert e in newEndpoints;
    }
    forall t | t in TargetsOf(notDraining) - Wanted(endpoints) ensures t in TargetsOf(oldTargets) {
      var x :| x in notDraining && x.target == t;
      assert x in oldTargets;
    }
  }

  lemma MayFinishIff(endpoints: seq<PodEndpoint>, listed: seq<TargetInfo>, matched: seq<EndpointAndTarget>,
      newEndpoints: seq<PodEndpoint>, gate: string, gone: set<string>)
    requires UniqueTargets(listed) && Matching(endpoints, listed, matched, newEndpoints)
    ensures MayFinish(endpoints, listed, gone, gate) <==>
      PairsSettled(matched, gate, gone) && NewSettled(newEndpoints, gate, gone)
  {
    forall p | p in matched ensures
      Settled(p.endpoint.pod, gate, p.target.health, gone) <==> MayRest(p.endpoint, listed, gone, gate) {
      PairRests(listed, p.endpoint, p.target, gone, gate);
    }
    forall e | e in newEndpoints ensures
      Settled(e.pod, gate, Some(REGISTERING), gone) <==> MayRest(e, listed, gone, gate) {
    }
    forall e | Speaks(endpoints, e) && PairsSettled(matched, gate, gone) && NewSettled(newEndpoints, gate, gone)
      ensures MayRest(e, listed, gone, gate) {
      if e !in newEndpoints {
        var x :| x in listed && x.target == TargetOf(e) && !x.IsDraining();
        assert EndpointAndTarget(e, x) in matched;
      }
    }
  }

  lemma PairRests(listed: seq<TargetInfo>, e: PodEndpoint, x: TargetInfo, gone: set<string>, gate: string)
    requires UniqueTargets(listed) && x in listed && x.target == TargetOf(e) && !x.IsDraining()
    ensures Settled(e.pod, gate, x.health, gone) <==> MayRest(e, listed, gone, gate)
  {
    assert forall y <- listed :: y.target == x.target ==> y == x;
  }

  lemma EveryoneInformed(endpoints: seq<PodEndpoint>, listed: seq<TargetInfo>, matched: seq<EndpointAndTarget>,
      newEndpoints: seq<PodEndpoint>,
                         gate: string, gone: set<string>, patches: seq<Patch>)
    requires Matching(endpoints, listed, matched, newEndpoints)
    requires PairsInformed(matched, gate, gone, patches) && NewInformed(newEndpoints, gate, gone, patches)
    ensures AllInformed(endpoints, listed, gate, gone, patches)
  {
    forall e | Speaks(endpoints, e) && Gated(e.pod, gate)
      ensures e.pod.uid in gone || InformedAbout(e, listed, gate, patches) {
      if Unlisted(listed, e) {
        assert e in newEndpoints;
      } else {
        var x :| x in listed && x.target == TargetOf(e) && !x.IsDraining();
        assert EndpointAndTarget(e, x) in matched;
      }
    }
  }

  lemma StartingFound(endpoints: seq<PodEndpoint>, listed: seq<TargetInfo>, matched: seq<EndpointAndTarget>,
      newEndpoints: seq<PodEndpoint>)
    requires Matching(endpoints, listed, matched, newEndpoints)
    ensures Starting(endpoints, listed) <==> newEndpoints != [] || exists p <- matched :: p.target.IsInitial()
  {
    if newEndpoints != [] {
      assert newEndpoints[0] in newEndpoints && Unlisted(listed, newEndpoints[0]);
    } else if p :| p in matched && p.target.IsInitial() {
      assert Speaks(endpoints, p.endpoint);
    } else if Starting(endpoints, listed) {
      var e :| Speaks(endpoints, e)
        && (Unlisted(listed, e) || exists x <- listed :: x.target == TargetOf(e) && x.IsInitial());
      assert e in newEndpoints <==> Unlisted(listed, e);
      var x :| x in listed && x.target == TargetOf(e) && x.IsInitial();
      assert EndpointAndTarget(e, x) in matched;
    }
  }

  method ContainsTargetsInInitialState(matched: seq<EndpointAndTarget>) returns (found: bool)
    ensures found <==> exists p <- matched :: p.target.IsInitial()
  {
    for i := 0 to |matched|
      invariant forall p <- matched[..i] :: !p.target.IsInitial()
    {
      assert matched[..i + 1] == matched[..i] + [matched[i]];
      if matched[i].target.IsInitial() { return true; }
    }
    assert matched[..|matched|] == matched;
    return false;
  }

  lemma WantedSnoc(endpoints: seq<PodEndpoint>, e: PodEndpoint)
    ensures Wanted(endpoints + [e]) == Wanted(endpoints) + {TargetOf(e)}
  {
    assert e in endpoints + [e];
    assert forall f <- endpoints :: f in endpoints + [e];
  }

  method EndpointTargets(endpoints: seq<PodEndpoint>) returns (ts: seq<Target>)
    ensures Elements(ts) == Wanted(endpoints)
  {
    ts := [];
    for i := 0 to |endpoints|
      invariant Elements(ts) == Wanted(endpoints[..i])
    {
      var t := Target(endpoints[i].ip, endpoints[i].port);
      assert endpoints[..i + 1] == endpoints[..i] + [endpoints[i]];
      WantedSnoc(endpoints[..i], endpoints[i]);
      assert Elements(ts + [t]) == Elements(ts) + {t};
      ts := ts + [t];
    }
    assert endpoints[..|endpoints|] == endpoints;
  }

  method TargetList(infos: seq<TargetInfo>) returns (ts: seq<Target>)
    ensures Elements(ts) == TargetsOf(infos)
  {
    ts := [];
    for i := 0 to |infos|
      invariant Elements(ts) == TargetsOf(infos[..i])
    {
      assert infos[..i + 1] == infos[..i] + [infos[i]];
      TargetsOfSnoc(infos[..i], infos[i]);
      assert Elements(ts + [infos[i].target]) == Elements(ts) + {infos[i].target};
      ts := ts + [infos[i].target];
    }
    assert infos[..|infos|] == infos;
  }
}
