/**
 * The stack deployer (pkg/deploy/stack_deployer.go) and its synthesizers. Security groups, target
 * groups, load balancers, listeners, rules and bindings are synthesized in this order, each
 * synthesizer noting what is to be deleted; afterwards bindings, target groups and security
 * groups are deleted in the reverse order. `Deploy` states exactly when a deletion hits
 * something that is still in use, for any stack that is closed under references, any existing
 * resources and failures of any call, and what a successful run leaves behind.
 */
module StackDeployer {
  import opened Text
  import opened DeployMatching
  import opened Deploy

  /** The stack is closed under references. */
  ghost predicate Closed(stack: Stack) {
    && (forall id <- stack.lbs ::
      Resolvable(stack.lbs[id].groups, stack.groups)
        && ListenersResolvable(stack.lbs[id].listeners, stack.targets.Keys))
    && BindingsResolvable(stack.bindings, stack.targets.Keys)
  }

  ghost predicate OnePerID(lbs: map<string, LoadBalancer>) {
    forall a <- lbs, b <- lbs :: lbs[a].resourceID == lbs[b].resourceID ==> a == b
  }

  /** A target group that no resource of the stack can use. */
  predicate Unwanted(stack: Stack, targets: map<string, TargetGroup>, arn: string) {
    Useless(stack.targets, targets, TGTag, TargetGroupRequiresReplacement, arn)
  }

  /** The load balancers that are not deleted. */
  function Kept(stack: Stack, lbs: map<string, LoadBalancer>): map<string, LoadBalancer> {
    map a | a in lbs && !Useless(stack.lbs, lbs, LBTag, LoadBalancerRequiresReplacement, a) :: lbs[a]
  }

  // ---------------------------------------------------------------- when deletions are safe

  ghost predicate SuppliedGroup(stack: Stack, id: string) {
    exists lb <- stack.lbs :: Supplied(id) in stack.lbs[lb].groups
  }

  ghost predicate SpecSupplies(listener: ListenerSpec, arn: string) {
    Supplied(arn) in listener.targets || exists r <- listener.rules :: Supplied(arn) in listener.rules[r]
  }

  ghost predicate SuppliedTarget(stack: Stack, arn: string) {
    exists lb <- stack.lbs, p <- stack.lbs[lb].listeners :: SpecSupplies(stack.lbs[lb].listeners[p], arn)
  }

  ghost predicate SuppliedBinding(stack: Stack, arn: string) {
    exists b <- stack.bindings :: b.target == Supplied(arn)
  }

  /** The load balancers on which listeners are synthesized. */
  function Led(stack: Stack, lbStatus: Status): set<string> {
    set id | id in WithListeners(stack) && id in lbStatus :: lbStatus[id]
  }

  /** A listener or rule names the target group after synthesis: a desired one does, or one that is not synthesized. */
  ghost predicate StillNamed(stack: Stack, kept: map<string, LoadBalancer>, lbStatus: Status, arn: string) {
    SuppliedTarget(stack, arn) || exists a <- kept :: a !in Led(stack, lbStatus) && LbNames(kept[a], arn)
  }

  /** No security group that is given up is supplied to a load balancer. */
  ghost predicate GroupsSafe(stack: Stack, groups: set<string>, groupStatus: Status) {
    forall id <- groups :: id !in groupStatus.Values ==> !SuppliedGroup(stack, id)
  }

  ghost predicate TargetsSafe(stack: Stack, lbs: map<string, LoadBalancer>, targets: map<string, TargetGroup>,
      lbStatus: Status) {
    forall arn <- targets :: Unwanted(stack, targets, arn) ==> !StillNamed(stack, Kept(stack, lbs), lbStatus, arn)
  }

  /** No unwanted target group is named by two bindings or supplied to a desired one. */
  ghost predicate BindingsSafe(stack: Stack, targets: map<string, TargetGroup>, bindings: map<string, Binding>) {
    forall arn <- targets :: Unwanted(stack, targets, arn) ==> !Shared(bindings, arn) && !SuppliedBinding(stack, arn)
  }

  // ---------------------------------------------------------------- what synthesis leaves

  /** Every desired group has an ID and is tagged, and exactly the other existing ones are on the list for deletion. */
  ghost predicate GroupsStaged(stack: Stack, before: map<string, SecurityGroup>, after: map<string, SecurityGroup>,
      status: Status, unmatched: seq<string>) {
    && status.Keys == stack.groups && after.Keys == status.Values + Elements(unmatched)
    && Tagged(status, after, SGTag)
    && (forall id <- status, g <- before :: before[g].resourceID == Some(id) ==> status[id] in before)
    && forall id :: id in unmatched <==> id in before && id !in status.Values
  }

  ghost predicate Tagged<S>(status: Status, sdk: map<string, S>, tag: S -> Option<string>) {
    forall id <- status :: status[id] in sdk && tag(sdk[status[id]]) == Some(id)
  }

  ghost predicate TgSynced(stack: Stack, tg: TargetGroup) {
    && tg.resourceID.Some? && tg.resourceID.value in stack.targets
    && TargetGroupAsDesired(tg, tg.resourceID.value, stack.targets[tg.resourceID.value])
  }

  /**
   * Every desired target group has an ARN off the list for deletion, which has exactly the unwanted
   * ones; all others are as desired.
   */
  ghost predicate TargetsStaged(stack: Stack, before: map<string, TargetGroup>, after: map<string, TargetGroup>,
      status: Status, unmatched: seq<string>) {
    && status.Keys == stack.targets.Keys && Tagged(status, after, TGTag)
    && (forall id <- status :: status[id] !in unmatched)
    && (forall arn :: arn in unmatched <==> Unwanted(stack, before, arn))
    && (forall arn <- before :: arn in after && (TgSynced(stack, before[arn]) ==> after[arn] == before[arn]))
    && forall arn <- after :: arn in unmatched || TgSynced(stack, after[arn])
  }

  /** Traffic is as desired; what of the lists is still in use is decided by the two conditions. */
  ghost predicate TrafficStaged(stack: Stack, groups: set<string>, targets: map<string, TargetGroup>,
      before: map<string, LoadBalancer>, after: map<string, LoadBalancer>, groupStatus: Status,
      targetStatus: Status, lbStatus: Status, sgs: seq<string>, tgs: seq<string>) {
    && TrafficSynced(stack, after, lbStatus, groupStatus, targetStatus)
    && Kept(stack, before).Keys <= after.Keys && Recorded(Kept(stack, before), after, lbStatus)
    && (NoneAttached(after, sgs) <==> GroupsSafe(stack, groups, groupStatus))
    && (NoneNamed(after, tgs) <==> TargetsSafe(stack, before, targets, lbStatus))
  }

  ghost predicate BindingsStaged(stack: Stack, targets: map<string, TargetGroup>, before: map<string, Binding>,
      left: map<string, Binding>, tgs: seq<string>) {
    NoneBound(left, tgs) <==> BindingsSafe(stack, targets, before)
  }

  function IDs(pairs: seq<Pair>): set<string> { set p | p in pairs :: p.resourceID }

  function Arns(pairs: seq<Pair>): set<string> { set p | p in pairs :: p.arn }

  lemma Progress(pairs: seq<Pair>, i: nat, todo: set<string>, done: set<string>)
    requires i < |pairs|
    ensures pairs[i] in pairs
    ensures todo - Arns(pairs[..i + 1]) == todo - Arns(pairs[..i]) - {pairs[i].arn}
    ensures done + IDs(pairs[..i + 1]) == done + IDs(pairs[..i]) + {pairs[i].resourceID}
  {
    assert pairs[..i + 1] == pairs[..i] + [pairs[i]];
  }

  lemma ValuesAdded(status: Status, id: string, arn: string)
    requires id !in status
    ensures status[id := arn].Values == status.Values + {arn}
  {
    var status' := status[id := arn];
    assert status'[id] == arn;
    forall x | x in status.Values ensures x in status'.Values {
      var k :| k in status && status[k] == x;
      assert status'[k] == x;
    }
  }

  /** At most one existing resource per ID is matched, and all others are surplus. */
  ghost predicate OneEach(before: set<string>, matched: seq<Pair>, surplus: seq<string>) {
    && (forall p <- matched, q <- matched :: p.resourceID == q.resourceID ==> p == q)
    && (forall p <- matched :: p.arn in before)
    && (forall arn :: arn in surplus <==> arn in before && forall p <- matched :: p.arn != arn)
  }

  method PlanSecurityGroups(wanted: set<string>, before: map<string, SecurityGroup>, ids: seq<string>)
    returns (ok: bool, matched: seq<Pair>, create: seq<string>, surplus: seq<string>)
    requires Elements(ids) == before.Keys && NoDuplicates(ids)
    requires forall id <- ids :: id in before
    ensures NoDuplicates(create)
    ensures ok ==> Elements(create) + IDs(matched) == wanted && Elements(create) !! IDs(matched)
    ensures ok ==>
      Elements(surplus) <= before.Keys && (forall p <- matched :: p.arn !in surplus)
        && OneEach(before.Keys, matched, surplus)
    ensures ok ==> forall p <- matched :: p.arn in before && SGTag(before[p.arn]) == Some(p.resourceID)
    ensures ok ==> forall id <- create, g <- before :: before[g].resourceID != Some(id)
  {
    ok, matched, create, surplus := MatchSecurityGroups(wanted, before, ids, SGTag);
    if !ok { return; }
    assert forall id <- IDs(matched) :: id in wanted && id !in create;
    assert forall id <- wanted :: id in create || id in IDs(matched);
  }

  /** The target group is tagged for the desired one and needs no replacement. */
  ghost predicate Matches(stack: Stack, targets: map<string, TargetGroup>, p: Pair) {
    && p.arn in targets && targets[p.arn].resourceID == Some(p.resourceID) && p.resourceID in stack.targets
    && !TargetGroupRequiresReplacement(targets[p.arn], stack.targets[p.resourceID])
  }

  method PlanTargetGroups(stack: Stack, before: map<string, TargetGroup>, arns: seq<string>)
    returns (ok: bool, matched: seq<Pair>, create: seq<string>, surplus: seq<string>)
    requires Elements(arns) == before.Keys && NoDuplicates(arns)
    requires forall arn <- arns :: arn in before
    ensures ok ==> Elements(create) + IDs(matched) == stack.targets.Keys && forall id <- create :: id in stack.targets
    ensures ok ==> forall p <- matched :: p.arn !in surplus && Matches(stack, before, p)
    ensures ok ==> forall arn <- before :: arn in surplus || arn in Arns(matched)
    ensures ok ==> forall arn :: arn in surplus <==> Unwanted(stack, before, arn)
    ensures ok ==> forall arn <- surplus :: arn in before
  {
    ok, matched, create, surplus :=
      MatchByResourceID(stack.targets, before, arns, TGTag, TargetGroupRequiresReplacement);
    if !ok { return; }
    forall id | id in stack.targets && id !in create ensures id in IDs(matched) {
      ghost var arn :| arn in before && Serves(stack.targets, before, TGTag, TargetGroupRequiresReplacement, id, arn);
      assert Pair(id, arn) in matched;
    }
    assert forall id <- IDs(matched) :: id in stack.targets;
    forall arn | arn in before && arn !in surplus ensures arn in Arns(matched) {
      assert Pair(before[arn].resourceID.value, arn) in matched;
    }
  }

  /** Existing resources are either in use for the stack or on the list for deletion. */
  lemma AllAccountedFor(before: set<string>, created: Status, status: Status, matched: seq<Pair>, surplus: seq<string>)
    requires status.Keys == created.Keys + IDs(matched) && created.Keys !! IDs(matched)
    requires forall id <- created :: id !in IDs(matched) ==> status[id] == created[id]
    requires forall id <- IDs(matched) :: Pair(id, status[id]) in matched
    requires OneEach(before, matched, surplus)
    ensures before + created.Values == status.Values + Elements(surplus)
  {
    forall arn | arn in before + created.Values ensures arn in status.Values + Elements(surplus) {
      if arn in created.Values {
        var id :| id in created && created[id] == arn;
        assert status[id] == arn;
      } else if arn !in surplus {
        var p :| p in matched && p.arn == arn;
        assert p.resourceID in IDs(matched) && Pair(p.resourceID, status[p.resourceID]) == p;
        assert status[p.resourceID] == arn;
      }
    }
    forall arn | arn in status.Values ensures arn in before + created.Values {
      var id :| id in status && status[id] == arn;
      if id in IDs(matched) { assert Pair(id, arn) in matched; } else { assert created[id] == arn; }
    }
  }

  /** What is recorded is tagged, whether it was created or matched. */
  lemma StatusTagged<S>(created: Status, status: Status, matched: seq<Pair>, sdk: map<string, S>,
      tag: S -> Option<string>)
    requires status.Keys == created.Keys + IDs(matched) && Tagged(created, sdk, tag)
    requires forall id <- created :: id !in IDs(matched) ==> status[id] == created[id]
    requires forall id <- IDs(matched) :: Pair(id, status[id]) in matched
    requires forall p <- matched :: p.arn in sdk && tag(sdk[p.arn]) == Some(p.resourceID)
    ensures Tagged(status, sdk, tag)
  {
    forall id | id in status ensures status[id] in sdk && tag(sdk[status[id]]) == Some(id) {
      if id in IDs(matched) { assert Pair(id, status[id]) in matched; } else { assert status[id] == created[id]; }
    }
  }

  /** Some target groups are as they were, and the others are as desired. */
  ghost predicate TgsPartly(stack: Stack, before: map<string, TargetGroup>, targets: map<string, TargetGroup>) {
    && (forall arn <- before :: arn in targets && targets[arn] == before[arn])
    && forall arn <- targets :: arn in before || TgSynced(stack, targets[arn])
  }

  /** Target groups for some IDs have been created and recorded. */
  ghost predicate TgsMade(stack: Stack, before: map<string, TargetGroup>, targets: map<string, TargetGroup>,
      status: Status, ids: set<string>) {
    && status.Keys == ids && Tagged(status, targets, TGTag) && (forall id <- status :: status[id] !in before)
    && TgsPartly(stack, before, targets)
  }

  lemma OneMoreTg(stack: Stack, first: map<string, TargetGroup>, before: map<string, TargetGroup>,
      after: map<string, TargetGroup>, status: Status, ids: set<string>, id: string, arn: string)
    requires TgsMade(stack, first, before, status, ids) && arn !in before && arn in after
    requires after == before[arn := after[arn]]
    requires id in stack.targets && TargetGroupAsDesired(after[arn], id, stack.targets[id])
    ensures TgsMade(stack, first, after, status[id := arn], ids + {id})
  {
    MadeIsSynced(stack, after[arn], id);
    hide TgSynced;
  }

  lemma MadeIsSynced(stack: Stack, tg: TargetGroup, id: string)
    requires id in stack.targets && TargetGroupAsDesired(tg, id, stack.targets[id])
    ensures tg.resourceID == Some(id) && TgSynced(stack, tg)
  {
  }

  /** Only the health checks of some target groups differ. */
  ghost predicate OnlyHealth(before: map<string, TargetGroup>, targets: map<string, TargetGroup>, arns: set<string>) {
    && before.Keys == targets.Keys
    && (forall arn <- targets :: targets[arn] == before[arn].(health := targets[arn].health))
    && forall arn <- targets :: arn in arns || targets[arn] == before[arn]
  }

  /** A target group that needs no replacement is as desired once its health check is. */
  lemma UpdatedIsSynced(stack: Stack, before: map<string, TargetGroup>, targets: map<string, TargetGroup>, p: Pair)
    requires Matches(stack, before, p) && p.arn in targets
    requires targets[p.arn] == before[p.arn].(health := targets[p.arn].health)
    requires !HealthCheckDrifted(stack.targets[p.resourceID], targets[p.arn])
      || HealthCheckAsDesired(targets[p.arn].health, stack.targets[p.resourceID].healthCheck.value)
    ensures TgSynced(stack, targets[p.arn])
  {
  }

  /** The pairs' target groups are as desired, those that already were and the rest are as before. */
  ghost predicate TgsUpdated(stack: Stack, first: map<string, TargetGroup>, targets: map<string, TargetGroup>,
      pairs: seq<Pair>) {
    && OnlyHealth(first, targets, Arns(pairs))
    && (forall arn <- first :: TgSynced(stack, first[arn]) ==> targets[arn] == first[arn])
    && forall p <- pairs :: p.arn in targets && TgSynced(stack, targets[p.arn])
  }

  /** Each ID has the ARN of one of its pairs. */
  ghost predicate PairsRecorded(status0: Status, status: Status, pairs: seq<Pair>) {
    && status.Keys == status0.Keys + IDs(pairs)
    && (forall id <- status0 :: id !in IDs(pairs) ==> status[id] == status0[id])
    && forall id <- IDs(pairs) :: Pair(id, status[id]) in pairs
  }

  lemma OneMoreUpdated(stack: Stack, first: map<string, TargetGroup>, before: map<string, TargetGroup>,
      after: map<string, TargetGroup>, pairs: seq<Pair>, p: Pair)
    requires TgsUpdated(stack, first, before, pairs) && p.arn in first && p.arn in after
    requires after == before[p.arn := after[p.arn]] && TgSynced(stack, after[p.arn])
    requires after[p.arn] == first[p.arn].(health := after[p.arn].health)
    requires TgSynced(stack, before[p.arn]) ==> after == before
    ensures TgsUpdated(stack, first, after, pairs + [p])
  {
    hide TgSynced;
    assert Arns(pairs + [p]) == Arns(pairs) + {p.arn};
  }

  lemma OneMoreRecorded(status0: Status, status: Status, pairs: seq<Pair>, p: Pair)
    requires PairsRecorded(status0, status, pairs)
    ensures PairsRecorded(status0, status[p.resourceID := p.arn], pairs + [p])
  {
    assert IDs(pairs + [p]) == IDs(pairs) + {p.resourceID};
    assert p == Pair(p.resourceID, p.arn) && p in pairs + [p];
    assert forall q <- pairs :: q in pairs + [p];
  }

  lemma SyncedHasNotDrifted(stack: Stack, tg: TargetGroup)
    ensures TgSynced(stack, tg) ==> !HealthCheckDrifted(stack.targets[tg.resourceID.value], tg)
  {
  }

  lemma TargetsAreStaged(stack: Stack, before: map<string, TargetGroup>, made: map<string, TargetGroup>,
      after: map<string, TargetGroup>, created: Status, status: Status, matched: seq<Pair>, surplus: seq<string>)
    requires forall arn :: arn in surplus <==> Unwanted(stack, before, arn)
    requires forall arn <- surplus :: arn in before
    requires forall arn <- before :: arn in surplus || arn in Arns(matched)
    requires TgsPartly(stack, before, made)
    requires forall p <- matched :: p.arn !in surplus && Matches(stack, before, p)
    requires Tagged(created, made, TGTag) && forall id <- created :: created[id] !in before
    requires TgsUpdated(stack, made, after, matched)
    requires PairsRecorded(created, status, matched) && status.Keys == stack.targets.Keys
    ensures TargetsStaged(stack, before, after, status, surplus)
  {
    hide TgSynced, TargetGroupRequiresReplacement, Unwanted;
    StatusTagged(created, status, matched, after, TGTag);
    forall id | id in status ensures status[id] !in surplus {
      if id in IDs(matched) { assert Pair(id, status[id]) in matched; } else { assert status[id] == created[id]; }
    }
    forall arn | arn in after && arn !in surplus ensures TgSynced(stack, after[arn]) {
      if arn in Arns(matched) { var p :| p in matched && p.arn == arn; } else { assert arn !in before; }
    }
  }

  class Deployer {
    const cloud: Cloud
    const stack: Stack
    var groupStatus: Status
    var targetStatus: Status
    var lbStatus: Status
    var unmatchedSDKSGs: seq<string>
    var unmatchedSDKTGs: seq<string>
    var unmatchedK8sTGBs: seq<string>

    constructor (cloud: Cloud, stack: Stack)
      ensures this.cloud == cloud && this.stack == stack
    {
      this.cloud, this.stack := cloud, stack;
      groupStatus, targetStatus, lbStatus := map[], map[], map[];
      unmatchedSDKSGs, unmatchedSDKTGs, unmatchedK8sTGBs := [], [], [];
    }

    /** Every desired security group gets an ID that is not on the list for deletion. */
    method SynthesizeSecurityGroups() returns (ok: bool)
      modifies this`groupStatus, this`unmatchedSDKSGs, cloud`groups
      ensures ok ==>
        GroupsStaged(stack, old(cloud.groups), cloud.groups, groupStatus, unmatchedSDKSGs)
    {
      var before := cloud.groups;
      var listed, ids := Cloud.List(before);
      if !listed { return false; }
      var matched, create, surplus;
      ok, matched, create, surplus := PlanSecurityGroups(stack.groups, before, ids);
      if !ok { return; }
      unmatchedSDKSGs := surplus;
      ok := CreateSecurityGroups(create);
      if !ok { return; }
      ghost var created := groupStatus;
      groupStatus := RecordMatched(groupStatus, matched, surplus);
      ok := *;
      AllAccountedFor(before.Keys, created, groupStatus, matched, surplus);
      StatusTagged(created, groupStatus, matched, cloud.groups, SGTag);
    }

    method CreateSecurityGroups(create: seq<string>) returns (ok: bool)
      requires NoDuplicates(create)
      modifies this`groupStatus, cloud`groups
      ensures ok ==>
        groupStatus.Keys == Elements(create) && forall id <- groupStatus :: groupStatus[id] !in old(cloud.groups)
      ensures ok ==> cloud.groups.Keys == old(cloud.groups).Keys + groupStatus.Values
      ensures ok ==> Tagged(groupStatus, cloud.groups, SGTag)
      ensures forall g <- old(cloud.groups) :: g in cloud.groups && cloud.groups[g] == old(cloud.groups)[g]
    {
      groupStatus := map[];
      for i := 0 to |create|
        invariant groupStatus.Keys == Elements(create[..i]) && forall id <- groupStatus ::
          groupStatus[id] !in old(cloud.groups)
        invariant cloud.groups.Keys == old(cloud.groups).Keys + groupStatus.Values
        invariant Tagged(groupStatus, cloud.groups, SGTag)
        invariant forall g <- old(cloud.groups) :: g in cloud.groups && cloud.groups[g] == old(cloud.groups)[g]
      {
        assert Elements(create[..i + 1]) == Elements(create[..i]) + {create[i]};
        assert create[i] !in create[..i];
        var id;
        ok, id := cloud.CreateSecurityGroup(create[i]);
        if !ok { return; }
        ValuesAdded(groupStatus, create[i], id);
        groupStatus := groupStatus[create[i] := id];
      }
      assert create[..|create|] == create;
      ok := true;
    }

    /** Every desired target group gets an ARN; the unwanted ones are put on the list for deletion. */
    method SynthesizeTargetGroups() returns (ok: bool)
      modifies this`targetStatus, this`unmatchedSDKTGs, cloud`targets
      ensures ok ==> TargetsStaged(stack, old(cloud.targets), cloud.targets, targetStatus, unmatchedSDKTGs)
    {
      hide TargetGroupRequiresReplacement, TgSynced, Unwanted, Tagged, TgsUpdated, TargetsStaged;
      var before := cloud.targets;
      var listed, arns := Cloud.List(before);
      if !listed { return false; }
      var matched, create, surplus;
      ok, matched, create, surplus := PlanTargetGroups(stack, before, arns);
      if !ok { return; }
      unmatchedSDKTGs := surplus;
      ok := CreateTargetGroups(create);
      if !ok { return; }
      ghost var created, made := targetStatus, cloud.targets;
      assert forall p <- matched :: Matches(stack, made, p);
      ok := UpdateTargetGroups(matched);
      if !ok { return; }
      TargetsAreStaged(stack, before, made, cloud.targets, created, targetStatus, matched, surplus);
    }

    method CreateTargetGroups(create: seq<string>) returns (ok: bool)
      requires forall id <- create :: id in stack.targets
      modifies this`targetStatus, cloud`targets
      ensures ok ==> TgsMade(stack, old(cloud.targets), cloud.targets, targetStatus, Elements(create))
    {
      targetStatus := map[];
      assert TgsMade(stack, cloud.targets, cloud.targets, map[], Elements(create[..0]));
      hide TgsMade, TargetGroupAsDesired;
      for i := 0 to |create|
        invariant TgsMade(stack, old(cloud.targets), cloud.targets, targetStatus, Elements(create[..i]))
      {
        assert Elements(create[..i + 1]) == Elements(create[..i]) + {create[i]};
        var arn;
        ghost var before := cloud.targets;
        ok, arn := cloud.CreateTargetGroup(create[i], stack.targets[create[i]]);
        if !ok { return; }
        OneMoreTg(stack, old(cloud.targets), before, cloud.targets, targetStatus, Elements(create[..i]), create[i],
          arn);
        targetStatus := targetStatus[create[i] := arn];
      }
      assert create[..|create|] == create;
      ok := true;
    }

    /** Of several existing target groups for one resource ID all are updated and one is recorded. */
    method UpdateTargetGroups(matched: seq<Pair>) returns (ok: bool)
      requires forall p <- matched :: Matches(stack, cloud.targets, p)
      modifies this`targetStatus, cloud`targets
      ensures ok ==> TgsUpdated(stack, old(cloud.targets), cloud.targets, matched)
      ensures ok ==> PairsRecorded(old(targetStatus), targetStatus, matched)
    {
      assert TgsUpdated(stack, cloud.targets, cloud.targets, matched[..0]);
      assert PairsRecorded(targetStatus, targetStatus, matched[..0]);
      hide TgSynced, TargetGroupRequiresReplacement, PairsRecorded;
      for i := 0 to |matched|
        invariant TgsUpdated(stack, old(cloud.targets), cloud.targets, matched[..i])
        invariant PairsRecorded(old(targetStatus), targetStatus, matched[..i])
      {
        ghost var before := cloud.targets;
        assert matched[..i + 1] == matched[..i] + [matched[i]];
        ok := UpdateTargetGroup(matched[i], old(cloud.targets));
        if !ok { return; }
        OneMoreUpdated(stack, old(cloud.targets), before, cloud.targets, matched[..i], matched[i]);
        OneMoreRecorded(old(targetStatus), targetStatus, matched[..i], matched[i]);
        targetStatus := targetStatus[matched[i].resourceID := matched[i].arn];
      }
      assert matched[..|matched|] == matched;
      ok := true;
    }

    /** A drifted health check is modified. */
    method UpdateTargetGroup(p: Pair, ghost first: map<string, TargetGroup>) returns (ok: bool)
      requires Matches(stack, first, p) && p.arn in cloud.targets
      requires cloud.targets[p.arn] == first[p.arn].(health := cloud.targets[p.arn].health)
      modifies cloud`targets
      ensures ok ==>
        p.arn in cloud.targets && TgSynced(stack, cloud.targets[p.arn])
          && cloud.targets[p.arn] == first[p.arn].(health := cloud.targets[p.arn].health)
          && cloud.targets == old(cloud.targets)[p.arn := cloud.targets[p.arn]]
      ensures TgSynced(stack, old(cloud.targets)[p.arn]) ==> cloud.targets == old(cloud.targets)
    {
      hide TargetGroupRequiresReplacement, TargetGroupAsDesired;
      var spec := stack.targets[p.resourceID];
      SyncedHasNotDrifted(stack, cloud.targets[p.arn]);
      ok := true;
      if HealthCheckDrifted(spec, cloud.targets[p.arn]) {
        ok := cloud.ModifyTargetGroup(p.arn, spec.healthCheck.value);
        if !ok { return; }
      }
      UpdatedIsSynced(stack, first, cloud.targets, p);
    }

    /** The update loop: updates may fail, and a matched resource keeps its ARN. */
    static method RecordMatched(status: Status, matched: seq<Pair>, surplus: seq<string>) returns (r: Status)
      requires forall id <- status :: status[id] !in surplus
      requires forall p <- matched :: p.arn !in surplus
      ensures r.Keys == status.Keys + IDs(matched) && forall id <- r :: r[id] !in surplus
      ensures forall id <- status :: id !in IDs(matched) ==> r[id] == status[id]
      ensures forall id <- IDs(matched) :: Pair(id, r[id]) in matched
    {
      r := status;
      for i := 0 to |matched|
        invariant r.Keys == status.Keys + IDs(matched[..i]) && forall id <- r :: r[id] !in surplus
        invariant forall id <- status :: id !in IDs(matched[..i]) ==> r[id] == status[id]
        invariant forall id <- IDs(matched[..i]) :: Pair(id, r[id]) in matched
      {
        assert matched[..i + 1] == matched[..i] + [matched[i]];
        assert matched[i] == Pair(matched[i].resourceID, matched[i].arn) && matched[i] in matched;
        r := r[matched[i].resourceID := matched[i].arn];
      }
      assert matched[..|matched|] == matched;
    }

    /**
     * Load balancers that cannot be used are deleted, missing ones created and all others updated:
     * each is for a desired one and has the desired security groups. Of several existing ones
     * for one resource ID all are kept and one is recorded. Listeners stay as they are.
     */
    method SynthesizeLoadBalancers() returns (ok: bool)
      requires groupStatus.Keys == stack.groups
      requires forall id <- stack.lbs :: Resolvable(stack.lbs[id].groups, stack.groups)
      modifies this`lbStatus, cloud`lbs
      ensures ok ==> LbsSynced(stack, cloud.lbs, lbStatus, groupStatus)
      ensures ok ==> FromKept(Kept(stack, old(cloud.lbs)), cloud.lbs, lbStatus)
    {
      var before := cloud.lbs;
      var listed, arns := Cloud.List(before);
      if !listed { return false; }
      var matched, create, surplus;
      ok, matched, create, surplus :=
        MatchByResourceID(stack.lbs, before, arns, LBTag, LoadBalancerRequiresReplacement);
      if !ok { return; }
      ok := DeleteLoadBalancers(surplus);
      if !ok { return; }
      ghost var kept := cloud.lbs;
      MatchedAreKept(stack, before, kept, matched, create, surplus);
      ok := CreateLoadBalancers(create);
      if !ok { return; }
      assert kept.Keys - Arns([]) == kept.Keys;
      UpdatesBegin(stack, kept, cloud.lbs, lbStatus, groupStatus, matched);
      ok := UpdateLoadBalancers(kept, Elements(create), matched);
      if !ok { return; }
      UpdatesEnd(stack, kept, cloud.lbs, lbStatus, groupStatus, matched, Elements(create));
    }

    method CreateLoadBalancers(create: seq<string>) returns (ok: bool)
      requires groupStatus.Keys == stack.groups && NoDuplicates(create)
      requires forall id <- create :: id in stack.lbs && Resolvable(stack.lbs[id].groups, stack.groups)
      modifies this`lbStatus, cloud`lbs
      ensures ok ==>
        LbsPartly(stack, old(cloud.lbs), cloud.lbs, lbStatus, groupStatus) && lbStatus.Keys == Elements(create)
    {
      ghost var kept := cloud.lbs;
      lbStatus := map[];
      for i := 0 to |create|
        invariant LbsPartly(stack, kept, cloud.lbs, lbStatus, groupStatus) && lbStatus.Keys == Elements(create[..i])
      {
        var id := create[i];
        assert Elements(create[..i + 1]) == Elements(create[..i]) + {id};
        assert id !in create[..i];
        var arn;
        ghost var before := cloud.lbs;
        ok, arn := cloud.CreateLoadBalancer(id, stack.lbs[id], ResolveAll(stack.lbs[id].groups, groupStatus));
        if !ok { return; }
        OneMoreMade(stack, kept, before, lbStatus, groupStatus, id, arn, cloud.lbs[arn]);
        lbStatus := lbStatus[id := arn];
      }
      assert create[..|create|] == create;
      ok := true;
    }

    method UpdateLoadBalancers(ghost kept: map<string, LoadBalancer>, ghost created: set<string>,
        matched: seq<Pair>) returns (ok: bool)
      requires groupStatus.Keys == stack.groups
      requires forall p <- matched :: p.arn in kept && kept[p.arn].resourceID == Some(p.resourceID)
      requires forall p <- matched :: p.resourceID !in created
      requires forall p <- matched ::
        p.resourceID in stack.lbs && OfKind(kept[p.arn], stack.lbs[p.resourceID])
          && Resolvable(stack.lbs[p.resourceID].groups, stack.groups)
      requires LbsMostly(stack, kept, cloud.lbs, lbStatus, groupStatus, kept.Keys, created)
      modifies this`lbStatus, cloud`lbs
      ensures ok ==> LbsMostly(stack, kept, cloud.lbs, lbStatus, groupStatus, kept.Keys - Arns(matched), created)
      ensures ok ==> lbStatus.Keys == old(lbStatus).Keys + IDs(matched)
    {
      assert kept.Keys - Arns(matched[..0]) == kept.Keys;
      for i := 0 to |matched|
        invariant LbsMostly(stack, kept, cloud.lbs, lbStatus, groupStatus, kept.Keys - Arns(matched[..i]), created)
        invariant lbStatus.Keys == old(lbStatus).Keys + IDs(matched[..i])
      {
        Progress(matched, i, kept.Keys, old(lbStatus).Keys);
        ok := UpdateMatched(kept, kept.Keys - Arns(matched[..i]), created, matched[i]);
        if !ok { return; }
      }
      assert matched[..|matched|] == matched;
      ok := true;
    }

    method UpdateMatched(ghost kept: map<string, LoadBalancer>, ghost todo: set<string>, ghost created: set<string>,
        p: Pair) returns (ok: bool)
      requires p.arn in kept && kept[p.arn].resourceID == Some(p.resourceID) && p.resourceID in stack.lbs
      requires p.resourceID !in created && OfKind(kept[p.arn], stack.lbs[p.resourceID])
      requires groupStatus.Keys == stack.groups && Resolvable(stack.lbs[p.resourceID].groups, stack.groups)
      requires LbsMostly(stack, kept, cloud.lbs, lbStatus, groupStatus, todo, created)
      modifies this`lbStatus, cloud`lbs
      ensures ok ==> lbStatus.Keys == old(lbStatus).Keys + {p.resourceID}
      ensures ok ==> LbsMostly(stack, kept, cloud.lbs, lbStatus, groupStatus, todo - {p.arn}, created)
    {
      var lb := cloud.lbs[p.arn].(groups := ResolveAll(stack.lbs[p.resourceID].groups, groupStatus));
      ok := cloud.UpdateLoadBalancer(p.arn, lb);
      if !ok { return; }
      lbStatus := lbStatus[p.resourceID := p.arn];
    }

    method DeleteLoadBalancers(arns: seq<string>) returns (ok: bool)
      modifies cloud`lbs
      ensures ok ==> cloud.lbs == old(cloud.lbs) - Elements(arns)
    {
      for i := 0 to |arns|
        invariant cloud.lbs == old(cloud.lbs) - Elements(arns[..i])
      {
        assert Elements(arns[..i + 1]) == Elements(arns[..i]) + {arns[i]};
        ok := cloud.DeleteLoadBalancer(arns[i]);
        if !ok { return; }
      }
      assert arns[..|arns|] == arns;
      ok := true;
    }

    /** Every recorded load balancer with desired listeners gets exactly those; no other is touched. */
    method SynthesizeListeners() returns (ok: bool)
      requires LbsSynced(stack, cloud.lbs, lbStatus, groupStatus)
      requires forall id <- stack.lbs :: ListenersResolvable(stack.lbs[id].listeners, targetStatus.Keys)
      modifies cloud`lbs
      ensures LbsSynced(stack, cloud.lbs, lbStatus, groupStatus)
      ensures OnlyThese(old(cloud.lbs), cloud.lbs, Led(stack, lbStatus))
      ensures ok ==> AllTargetsSynced(stack, cloud.lbs, lbStatus, targetStatus, WithListeners(stack))
    {
      hide *;
      var todo := WithListeners(stack);
      ghost var all, done: set<string> := todo, {};
      NothingDone(stack, cloud.lbs, lbStatus, targetStatus);
      while todo != {}
        invariant todo <= all && done == all - todo
        invariant LbsSynced(stack, cloud.lbs, lbStatus, groupStatus)
        invariant OnlyThese(old(cloud.lbs), cloud.lbs, Led(stack, lbStatus))
        invariant AllTargetsSynced(stack, cloud.lbs, lbStatus, targetStatus, done)
        decreases todo
      {
        var id := Pick(todo);
        ok := SynthesizeListenersFor(id, old(cloud.lbs), done);
        if !ok { return; }
        todo, done := todo - {id}, done + {id};
      }
      assert done == all;
      ok := true;
    }

    method SynthesizeListenersFor(id: string, ghost first: map<string, LoadBalancer>, ghost done: set<string>)
        returns (ok: bool)
      requires id in WithListeners(stack) && ListenersResolvable(stack.lbs[id].listeners, targetStatus.Keys)
      requires LbsSynced(stack, cloud.lbs, lbStatus, groupStatus)
      requires OnlyThese(first, cloud.lbs, Led(stack, lbStatus))
      requires AllTargetsSynced(stack, cloud.lbs, lbStatus, targetStatus, done)
      modifies cloud`lbs
      ensures LbsSynced(stack, cloud.lbs, lbStatus, groupStatus)
      ensures OnlyThese(first, cloud.lbs, Led(stack, lbStatus))
      ensures ok ==> AllTargetsSynced(stack, cloud.lbs, lbStatus, targetStatus, done + {id})
    {
      ghost var before := cloud.lbs;
      ok := SynthesizeListenersOnLB(lbStatus[id], stack.lbs[id].listeners);
      OthersUntouched(stack, before, cloud.lbs, lbStatus, groupStatus, id);
      OnlyTheseStep(first, before, cloud.lbs, lbStatus[id], Led(stack, lbStatus));
      if !ok { return; }
      ListenersProgress(stack, before, cloud.lbs, lbStatus, targetStatus, id, done);
    }

    /** Listeners that are not desired go first, then missing ones are created, then the others updated. */
    method SynthesizeListenersOnLB(arn: string, want: map<int, ListenerSpec>) returns (ok: bool)
      requires arn in cloud.lbs && ListenersResolvable(want, targetStatus.Keys)
      modifies cloud`lbs
      ensures OnlyListeners(old(cloud.lbs), cloud.lbs, arn)
      ensures ok ==> TargetsSynced(cloud.lbs[arn].listeners, want, targetStatus)
    {
      var before := cloud.lbs[arn].listeners;
      ok := DeleteListeners(arn, before.Keys - want.Keys);
      if !ok { return; }
      ok := PutListeners(arn, want, want.Keys - before.Keys);
      if !ok { return; }
      ok := PutListeners(arn, want, want.Keys * before.Keys);
    }

    method DeleteListeners(arn: string, ports: set<int>) returns (ok: bool)
      requires arn in cloud.lbs
      modifies cloud`lbs
      ensures OnlyListeners(old(cloud.lbs), cloud.lbs, arn)
      ensures ok ==> cloud.lbs[arn].listeners == old(cloud.lbs)[arn].listeners - ports
    {
      var todo := ports;
      while todo != {}
        invariant todo <= ports && OnlyListeners(old(cloud.lbs), cloud.lbs, arn)
        invariant cloud.lbs[arn].listeners == old(cloud.lbs)[arn].listeners - (ports - todo)
        decreases todo
      {
        var port := Pick(todo);
        var lb := cloud.lbs[arn];
        ok := cloud.UpdateLoadBalancer(arn, lb.(listeners := lb.listeners - {port}));
        if !ok { return; }
        todo := todo - {port};
      }
      ok := true;
    }

    /** Creates or updates the listeners on some ports; an existing one keeps its rules. */
    method PutListeners(arn: string, want: map<int, ListenerSpec>, ports: set<int>) returns (ok: bool)
      requires arn in cloud.lbs && ListenersResolvable(want, targetStatus.Keys) && ports <= want.Keys
      modifies cloud`lbs
      ensures OnlyListeners(old(cloud.lbs), cloud.lbs, arn)
      ensures ok ==> cloud.lbs[arn].listeners.Keys == old(cloud.lbs)[arn].listeners.Keys + ports
      ensures ok ==> forall port <- cloud.lbs[arn].listeners ::
        if port in ports then cloud.lbs[arn].listeners[port].targets == ResolveAll(want[port].targets, targetStatus)
        else cloud.lbs[arn].listeners[port] == old(cloud.lbs)[arn].listeners[port]
    {
      var todo := ports;
      while todo != {}
        invariant todo <= ports && OnlyListeners(old(cloud.lbs), cloud.lbs, arn)
        invariant cloud.lbs[arn].listeners.Keys == old(cloud.lbs)[arn].listeners.Keys + (ports - todo)
        invariant forall port <- cloud.lbs[arn].listeners ::
          if port in ports - todo
            then cloud.lbs[arn].listeners[port].targets == ResolveAll(want[port].targets, targetStatus)
          else cloud.lbs[arn].listeners[port] == old(cloud.lbs)[arn].listeners[port]
        decreases todo
      {
        var port := Pick(todo);
        var lb := cloud.lbs[arn];
        var listener := Listener(ResolveAll(want[port].targets, targetStatus), if port in lb.listeners
          then lb.listeners[port].rules else map[]);
        ok := cloud.UpdateLoadBalancer(arn, lb.(listeners := lb.listeners[port := listener]));
        if !ok { return; }
        todo := todo - {port};
      }
      ok := true;
    }

    /** Afterwards every desired listener has exactly the desired rules. */
    method SynthesizeListenerRules() returns (ok: bool)
      requires LbsSynced(stack, cloud.lbs, lbStatus, groupStatus)
      requires forall id <- stack.lbs :: ListenersResolvable(stack.lbs[id].listeners, targetStatus.Keys)
      requires AllTargetsSynced(stack, cloud.lbs, lbStatus, targetStatus, WithListeners(stack))
      modifies cloud`lbs
      ensures LbsSynced(stack, cloud.lbs, lbStatus, groupStatus)
      ensures OnlyThese(old(cloud.lbs), cloud.lbs, Led(stack, lbStatus))
      ensures ok ==> AllListenersSynced(stack, cloud.lbs, lbStatus, targetStatus, WithListeners(stack))
    {
      hide *;
      var todo := WithListeners(stack);
      ghost var all, done: set<string> := todo, {};
      NothingDone(stack, cloud.lbs, lbStatus, targetStatus);
      while todo != {}
        invariant todo <= all && done == all - todo
        invariant LbsSynced(stack, cloud.lbs, lbStatus, groupStatus)
        invariant OnlyThese(old(cloud.lbs), cloud.lbs, Led(stack, lbStatus))
        invariant AllTargetsSynced(stack, cloud.lbs, lbStatus, targetStatus, all)
        invariant AllListenersSynced(stack, cloud.lbs, lbStatus, targetStatus, done)
        decreases todo
      {
        var id := Pick(todo);
        ok := SynthesizeRulesFor(id, old(cloud.lbs), all, done);
        if !ok { return; }
        todo, done := todo - {id}, done + {id};
      }
      assert done == all;
      ok := true;
    }

    method SynthesizeRulesFor(id: string, ghost first: map<string, LoadBalancer>, ghost all: set<string>,
        ghost done: set<string>) returns (ok: bool)
      requires id in all && id in WithListeners(stack)
      requires ListenersResolvable(stack.lbs[id].listeners, targetStatus.Keys)
      requires LbsSynced(stack, cloud.lbs, lbStatus, groupStatus)
      requires OnlyThese(first, cloud.lbs, Led(stack, lbStatus))
      requires AllTargetsSynced(stack, cloud.lbs, lbStatus, targetStatus, all)
      requires AllListenersSynced(stack, cloud.lbs, lbStatus, targetStatus, done)
      modifies cloud`lbs
      ensures LbsSynced(stack, cloud.lbs, lbStatus, groupStatus)
      ensures OnlyThese(first, cloud.lbs, Led(stack, lbStatus))
      ensures ok ==> AllTargetsSynced(stack, cloud.lbs, lbStatus, targetStatus, all)
      ensures ok ==> AllListenersSynced(stack, cloud.lbs, lbStatus, targetStatus, done + {id})
    {
      ghost var before := cloud.lbs;
      ok := SynthesizeRulesOnLB(lbStatus[id], stack.lbs[id].listeners);
      OthersUntouched(stack, before, cloud.lbs, lbStatus, groupStatus, id);
      OnlyTheseStep(first, before, cloud.lbs, lbStatus[id], Led(stack, lbStatus));
      if !ok { return; }
      RulesProgress(stack, before, cloud.lbs, lbStatus, targetStatus, id, all, done);
    }

    method SynthesizeRulesOnLB(arn: string, want: map<int, ListenerSpec>) returns (ok: bool)
      requires arn in cloud.lbs && ListenersResolvable(want, targetStatus.Keys)
      requires TargetsSynced(cloud.lbs[arn].listeners, want, targetStatus)
      modifies cloud`lbs
      ensures OnlyListeners(old(cloud.lbs), cloud.lbs, arn)
      ensures TargetsSynced(cloud.lbs[arn].listeners, want, targetStatus)
      ensures ok ==> ListenersSynced(cloud.lbs[arn].listeners, want, targetStatus)
    {
      var todo := want.Keys;
      while todo != {}
        invariant todo <= want.Keys && OnlyListeners(old(cloud.lbs), cloud.lbs, arn)
        invariant TargetsSynced(cloud.lbs[arn].listeners, want, targetStatus)
        invariant forall port <- want.Keys - todo ::
          RulesSynced(cloud.lbs[arn].listeners[port].rules, want[port].rules, targetStatus)
        decreases todo
      {
        var port := Pick(todo);
        ok := SynthesizeRulesOnListener(arn, port, want[port].rules);
        if !ok { return; }
        todo := todo - {port};
      }
      ok := true;
    }

    /** Rules that are not desired go first, then missing ones are created, then the others updated. */
    method SynthesizeRulesOnListener(arn: string, port: int, want: map<int, set<Ref>>) returns (ok: bool)
      requires arn in cloud.lbs && port in cloud.lbs[arn].listeners && forall r <- want ::
        Resolvable(want[r], targetStatus.Keys)
      modifies cloud`lbs
      ensures OnlyRules(old(cloud.lbs), cloud.lbs, arn, port)
      ensures ok ==> RulesSynced(cloud.lbs[arn].listeners[port].rules, want, targetStatus)
    {
      var lbs, before := cloud.lbs, cloud.lbs[arn].listeners[port].rules;
      SameRules(lbs, arn, port);
      var rules;
      ok, rules := DeleteRules(lbs, arn, port, before, before.Keys - want.Keys);
      if !ok { return; }
      ok, rules := PutRules(lbs, arn, port, rules, want, want.Keys - before.Keys);
      if !ok { return; }
      ok, rules := PutRules(lbs, arn, port, rules, want, want.Keys * before.Keys);
    }

    method DeleteRules(lbs: map<string, LoadBalancer>, arn: string, port: int, before: map<int, set<string>>,
        which: set<int>)
      returns (ok: bool, rules: map<int, set<string>>)
      requires arn in lbs && port in lbs[arn].listeners && cloud.lbs == WithRules(lbs, arn, port, before)
      modifies cloud`lbs
      ensures cloud.lbs == WithRules(lbs, arn, port, rules)
      ensures ok ==> rules == before - which
    {
      rules := before;
      var todo := which;
      while todo != {}
        invariant todo <= which && cloud.lbs == WithRules(lbs, arn, port, rules)
        invariant rules == before - (which - todo)
        decreases todo
      {
        var r := Pick(todo);
        ok := cloud.UpdateLoadBalancer(arn, WithRules(lbs, arn, port, rules - {r})[arn]);
        if !ok { return; }
        rules := rules - {r};
        todo := todo - {r};
      }
      ok := true;
    }

    method PutRules(lbs: map<string, LoadBalancer>, arn: string, port: int, before: map<int, set<string>>,
        want: map<int, set<Ref>>, which: set<int>)
      returns (ok: bool, rules: map<int, set<string>>)
      requires arn in lbs && port in lbs[arn].listeners && cloud.lbs == WithRules(lbs, arn, port, before)
      requires which <= want.Keys && forall r <- want :: Resolvable(want[r], targetStatus.Keys)
      modifies cloud`lbs
      ensures cloud.lbs == WithRules(lbs, arn, port, rules)
      ensures ok ==> rules.Keys == before.Keys + which
      ensures ok ==>
        forall r <- rules :: if r in which then rules[r] == ResolveAll(want[r], targetStatus) else rules[r] == before[r]
    {
      rules := before;
      var todo := which;
      while todo != {}
        invariant todo <= which && cloud.lbs == WithRules(lbs, arn, port, rules)
        invariant rules.Keys == before.Keys + (which - todo)
        invariant forall r <- rules ::
          if r in which - todo then rules[r] == ResolveAll(want[r], targetStatus) else rules[r] == before[r]
        decreases todo
      {
        var r := Pick(todo);
        var rules' := rules[r := ResolveAll(want[r], targetStatus)];
        ok := cloud.UpdateLoadBalancer(arn, WithRules(lbs, arn, port, rules')[arn]);
        if !ok { return; }
        rules := rules';
        todo := todo - {r};
      }
      ok := true;
    }

    /**
     * Bindings are matched by target group; of several that name one, only the last is seen.
     * Missing ones are created and the others updated.
     */
    method SynthesizeBindings() returns (ok: bool)
      requires BindingsResolvable(stack.bindings, targetStatus.Keys)
      modifies this`unmatchedK8sTGBs, cloud`bindings
      ensures ok ==> Bound(stack, targetStatus, old(cloud.bindings), cloud.bindings, unmatchedK8sTGBs)
    {
      hide Last;
      var before := cloud.bindings;
      var listed, names := Cloud.List(before);
      if !listed { return false; }
      var resByARN := BindingsByARN();
      var k8sByARN := K8sBindingsByARN(before, names);
      var unmatched := UnmatchedBindings(before, k8sByARN, k8sByARN.Keys - resByARN.Keys);
      unmatchedK8sTGBs := unmatched;
      ok := CreateBindings(resByARN, resByARN.Keys - k8sByARN.Keys);
      if !ok { return; }
      ghost var created := cloud.bindings;
      ok := UpdateBindings(resByARN, k8sByARN, resByARN.Keys * k8sByARN.Keys);
      if !ok { return; }
      AllBound(stack, targetStatus, before, created, cloud.bindings, resByARN, k8sByARN, unmatched);
    }

    method CreateBindings(resByARN: map<string, BindingSpec>, missing: set<string>) returns (ok: bool)
      requires missing <= resByARN.Keys
      modifies cloud`bindings
      ensures ok ==> NewBindings(old(cloud.bindings), cloud.bindings, resByARN)
      ensures ok ==> forall arn <- missing :: exists n <- cloud.bindings :: Fits(cloud.bindings[n], resByARN, arn)
    {
      hide Fits;
      var todo := missing;
      while todo != {}
        invariant todo <= missing && NewBindings(old(cloud.bindings), cloud.bindings, resByARN)
        invariant forall arn <- missing :: arn in todo || exists n <- cloud.bindings ::
          Fits(cloud.bindings[n], resByARN, arn)
        decreases todo
      {
        var arn := Pick(todo);
        var b := resByARN[arn];
        ghost var earlier := cloud.bindings;
        ok := cloud.CreateBinding(b.name, Binding(arn, b.spec));
        if !ok { return; }
        OneMoreBinding(old(cloud.bindings), earlier, resByARN, missing - todo, arn);
        todo := todo - {arn};
      }
      ok := true;
    }

    method UpdateBindings(resByARN: map<string, BindingSpec>, k8sByARN: map<string, string>, both: set<string>)
        returns (ok: bool)
      requires both <= resByARN.Keys && both <= k8sByARN.Keys
      requires forall arn <- both :: k8sByARN[arn] in cloud.bindings && cloud.bindings[k8sByARN[arn]].arn == arn
      modifies cloud`bindings
      ensures ok ==> Updated(old(cloud.bindings), cloud.bindings, resByARN)
      ensures ok ==> forall arn <- both ::
        k8sByARN[arn] in cloud.bindings && Fits(cloud.bindings[k8sByARN[arn]], resByARN, arn)
    {
      var todo := both;
      while todo != {}
        invariant todo <= both && Updated(old(cloud.bindings), cloud.bindings, resByARN)
        invariant forall arn <- both - todo ::
          k8sByARN[arn] in cloud.bindings && Fits(cloud.bindings[k8sByARN[arn]], resByARN, arn)
        decreases todo
      {
        var arn := Pick(todo);
        var binding := Binding(arn, resByARN[arn].spec);
        if cloud.bindings[k8sByARN[arn]] != binding {
          ok := cloud.UpdateBinding(k8sByARN[arn], binding);
          if !ok { return; }
        }
        todo := todo - {arn};
      }
      ok := true;
    }

    /** Of several desired bindings for one target group the last is seen. */
    method BindingsByARN() returns (m: map<string, BindingSpec>)
      requires BindingsResolvable(stack.bindings, targetStatus.Keys)
      ensures m.Keys == BoundTargets(stack.bindings, targetStatus)
      ensures forall arn <- m :: Last(stack.bindings, targetStatus, arn, m[arn])
    {
      m := map[];
      for i := 0 to |stack.bindings|
        invariant m.Keys == BoundTargets(stack.bindings[..i], targetStatus)
        invariant forall arn <- m :: Last(stack.bindings[..i], targetStatus, arn, m[arn])
      {
        var b := stack.bindings[i];
        assert stack.bindings[..i + 1] == stack.bindings[..i] + [b];
        ghost var m0 := m;
        m := m[Resolve(b.target, targetStatus) := b];
        OneMoreLast(stack.bindings[..i], targetStatus, m0, b);
      }
      assert stack.bindings[..|stack.bindings|] == stack.bindings;
    }

    static method K8sBindingsByARN(bindings: map<string, Binding>, names: seq<string>) returns (m: map<string, string>)
      requires Elements(names) == bindings.Keys && forall n <- names :: n in bindings
      ensures forall arn <- m :: m[arn] in bindings && bindings[m[arn]].arn == arn
      ensures forall n <- bindings :: bindings[n].arn in m
    {
      m := map[];
      for i := 0 to |names|
        invariant forall arn <- m :: m[arn] in bindings && bindings[m[arn]].arn == arn
        invariant forall n <- names[..i] :: bindings[n].arn in m
      {
        assert names[..i + 1] == names[..i] + [names[i]];
        m := m[bindings[names[i]].arn := names[i]];
      }
      assert names[..|names|] == names;
      forall n | n in bindings ensures bindings[n].arn in m { assert n in Elements(names); }
    }

    static method UnmatchedBindings(ghost bindings: map<string, Binding>, byARN: map<string, string>,
        arns: set<string>) returns (names: seq<string>)
      requires arns <= byARN.Keys && forall arn <- byARN :: byARN[arn] in bindings && bindings[byARN[arn]].arn == arn
      ensures forall n :: n in names <==> n in bindings && bindings[n].arn in arns && byARN[bindings[n].arn] == n
    {
      names := [];
      var todo := SortedList(arns);
      assert forall k :: 0 <= k < |todo| ==> todo[k] in Elements(todo);
      for i := 0 to |todo|
        invariant forall n :: n in names <==>
          n in bindings && bindings[n].arn in todo[..i] && byARN[bindings[n].arn] == n
      {
        assert todo[..i + 1] == todo[..i] + [todo[i]];
        names := names + [byARN[todo[i]]];
      }
      assert todo[..|todo|] == todo;
      assert forall arn :: arn in todo <==> arn in Elements(todo);
    }

    method PostSynthesizeBindings() returns (ok: bool)
      modifies cloud`bindings
      ensures ok ==> cloud.bindings == old(cloud.bindings) - Elements(unmatchedK8sTGBs)
    {
      for i := 0 to |unmatchedK8sTGBs|
        invariant cloud.bindings == old(cloud.bindings) - Elements(unmatchedK8sTGBs[..i])
      {
        assert Elements(unmatchedK8sTGBs[..i + 1]) == Elements(unmatchedK8sTGBs[..i]) + {unmatchedK8sTGBs[i]};
        ok := cloud.DeleteBinding(unmatchedK8sTGBs[i]);
        if !ok { return; }
      }
      assert unmatchedK8sTGBs[..|unmatchedK8sTGBs|] == unmatchedK8sTGBs;
      ok := true;
    }

    method PostSynthesizeTargetGroups() returns (ok: bool)
      modifies cloud`targets, cloud`released, cloud`unbound
      ensures ok ==> (cloud.released <==> old(cloud.released) && NoneNamed(cloud.lbs, unmatchedSDKTGs))
      ensures old(cloud.released) && NoneNamed(cloud.lbs, unmatchedSDKTGs) ==> cloud.released
      ensures ok ==> (cloud.unbound <==> old(cloud.unbound) && NoneBound(cloud.bindings, unmatchedSDKTGs))
      ensures old(cloud.unbound) && NoneBound(cloud.bindings, unmatchedSDKTGs) ==> cloud.unbound
      ensures ok ==> cloud.targets == old(cloud.targets) - Elements(unmatchedSDKTGs)
    {
      var arns := unmatchedSDKTGs;
      for i := 0 to |arns|
        invariant cloud.released <==> old(cloud.released) && NoneNamed(cloud.lbs, arns[..i])
        invariant cloud.unbound <==> old(cloud.unbound) && NoneBound(cloud.bindings, arns[..i])
        invariant cloud.targets == old(cloud.targets) - Elements(arns[..i])
      {
        assert arns[..i + 1] == arns[..i] + [arns[i]];
        assert Elements(arns[..i + 1]) == Elements(arns[..i]) + {arns[i]};
        ok := cloud.DeleteTargetGroup(arns[i]);
        if !ok { return; }
      }
      assert arns[..|arns|] == arns;
      ok := true;
    }

    method PostSynthesizeSecurityGroups() returns (ok: bool)
      modifies cloud`groups, cloud`detached
      ensures ok ==> (cloud.detached <==> old(cloud.detached) && NoneAttached(cloud.lbs, unmatchedSDKSGs))
      ensures old(cloud.detached) && NoneAttached(cloud.lbs, unmatchedSDKSGs) ==> cloud.detached
      ensures ok ==> cloud.groups == old(cloud.groups) - Elements(unmatchedSDKSGs)
    {
      var ids := unmatchedSDKSGs;
      for i := 0 to |ids|
        invariant cloud.detached <==> old(cloud.detached) && NoneAttached(cloud.lbs, ids[..i])
        invariant cloud.groups == old(cloud.groups) - Elements(ids[..i])
      {
        assert ids[..i + 1] == ids[..i] + [ids[i]];
        assert Elements(ids[..i + 1]) == Elements(ids[..i]) + {ids[i]};
        ok := cloud.DeleteSecurityGroup(ids[i]);
        if !ok { return; }
      }
      assert ids[..|ids|] == ids;
      ok := true;
    }

    /**
     * Synthesis forward, post-synthesis in reverse, stopping at the first failure, for any stack
     * that is closed under references and any existing resources. Exactly when a deletion
     * hits something in use: a security group while attached, if it is given up and yet supplied
     * to a load balancer; a target group while a listener or rule names it, if it is unwanted
     * and yet supplied to a listener, or named on a kept load balancer that is not synthesized;
     * a target group while a binding names it, if it is unwanted and two bindings named it
     * or one is to be supplied with it. On success everything left is as desired, told by the
     * resource IDs in the tags and the stack alone, and nothing desired is missing.
     */
    method Deploy() returns (ok: bool)
      requires Closed(stack)
      requires cloud.detached && cloud.released && cloud.unbound
      modifies this, cloud
      ensures GroupsSafe(stack, old(cloud.groups).Keys, groupStatus) ==> cloud.detached
      ensures ok ==> (cloud.detached <==> GroupsSafe(stack, old(cloud.groups).Keys, groupStatus))
      ensures TargetsSafe(stack, old(cloud.lbs), old(cloud.targets), lbStatus) ==> cloud.released
      ensures ok ==> (cloud.released <==> TargetsSafe(stack, old(cloud.lbs), old(cloud.targets), lbStatus))
      ensures BindingsSafe(stack, old(cloud.targets), old(cloud.bindings)) ==> cloud.unbound
      ensures ok ==> (cloud.unbound <==> BindingsSafe(stack, old(cloud.targets), old(cloud.bindings)))
      ensures ok ==> groupStatus.Keys == stack.groups && cloud.groups.Keys == groupStatus.Values
      ensures ok ==>
        targetStatus.Keys == stack.targets.Keys && forall id <- targetStatus :: targetStatus[id] in cloud.targets
      ensures ok ==> TrafficSynced(stack, cloud.lbs, lbStatus, groupStatus, targetStatus)
      ensures ok ==> Recorded(Kept(stack, old(cloud.lbs)), cloud.lbs, lbStatus)
      ensures ok ==> forall arn <- cloud.targets :: !Unwanted(stack, old(cloud.targets), arn)
      ensures ok ==> GroupsDeployed(stack, cloud.groups) && TargetsDeployed(stack, cloud.targets)
      ensures ok ==> GroupsReused(old(cloud.groups), groupStatus)
      ensures ok ==> TargetsReused(stack, old(cloud.targets), cloud.targets)
      ensures ok ==> LbsReused(stack, old(cloud.lbs), cloud.lbs)
      ensures ok ==> LbsDeployed(stack, cloud.groups, cloud.targets, cloud.lbs)
      ensures ok ==> BindingsDeployed(stack, cloud.targets, old(cloud.bindings), cloud.bindings)
    {
      hide GroupsStaged, TargetsStaged, TrafficSynced, Recorded, Bound, NoneAttached, NoneNamed, NoneBound;
      hide GroupsSafe, TargetsSafe, BindingsSafe, GroupsDeployed, TargetsDeployed, LbsDeployed, BindingsDeployed;
      hide Unwanted, Tagged, GroupsReused, TargetsReused, LbsReused, Kept;
      ghost var groups, targets, lbs, bindings := cloud.groups, cloud.targets, cloud.lbs, cloud.bindings;
      ok := Synthesize();
      if !ok { return; }
      ghost var stagedGroups, stagedTargets, stagedBindings := cloud.groups, cloud.targets, cloud.bindings;
      ok := PostSynthesize();
      if !ok { return; }
      DeployedGroups(stack, groups, stagedGroups, cloud.groups, groupStatus, unmatchedSDKSGs);
      DeployedTargets(stack, targets, stagedTargets, cloud.targets, targetStatus, unmatchedSDKTGs);
      ReusedTargets(stack, targets, stagedTargets, cloud.targets, targetStatus, unmatchedSDKTGs);
      DeployedLbs(stack, cloud.groups, cloud.targets, cloud.lbs, groupStatus, targetStatus, lbStatus);
      DeployedBindings(stack, cloud.targets, targetStatus, bindings, stagedBindings, unmatchedK8sTGBs);
      KeptAreReused(stack, lbs, cloud.lbs);
    }

    /** The reverse half: deletes what is on the lists. */
    method PostSynthesize() returns (ok: bool)
      requires cloud.detached && cloud.released && cloud.unbound
      modifies cloud`groups, cloud`targets, cloud`bindings, cloud`detached, cloud`released, cloud`unbound
      ensures NoneAttached(cloud.lbs, unmatchedSDKSGs) ==> cloud.detached
      ensures ok ==> (cloud.detached <==> NoneAttached(cloud.lbs, unmatchedSDKSGs))
      ensures NoneNamed(cloud.lbs, unmatchedSDKTGs) ==> cloud.released
      ensures ok ==> (cloud.released <==> NoneNamed(cloud.lbs, unmatchedSDKTGs))
      ensures NoneBound(old(cloud.bindings) - Elements(unmatchedK8sTGBs), unmatchedSDKTGs) ==> cloud.unbound
      ensures ok ==>
        (cloud.unbound <==> NoneBound(old(cloud.bindings) - Elements(unmatchedK8sTGBs), unmatchedSDKTGs))
      ensures ok ==> cloud.groups == old(cloud.groups) - Elements(unmatchedSDKSGs)
      ensures ok ==> cloud.targets == old(cloud.targets) - Elements(unmatchedSDKTGs)
      ensures ok ==> cloud.bindings == old(cloud.bindings) - Elements(unmatchedK8sTGBs)
    {
      ok := PostSynthesizeBindings();
      if !ok { return; }
      ok := PostSynthesizeTargetGroups();
      if !ok { return; }
      ok := PostSynthesizeSecurityGroups();
    }

    /** The forward half: what is on the lists for deletion, and what of it is still in use. */
    method Synthesize() returns (ok: bool)
      requires Closed(stack)
      modifies this, cloud`groups, cloud`targets, cloud`lbs, cloud`bindings
      ensures ok ==>
        GroupsStaged(stack, old(cloud.groups), cloud.groups, groupStatus, unmatchedSDKSGs)
      ensures ok ==> TargetsStaged(stack, old(cloud.targets), cloud.targets, targetStatus, unmatchedSDKTGs)
      ensures ok ==>
        TrafficStaged(stack, old(cloud.groups).Keys, old(cloud.targets), old(cloud.lbs), cloud.lbs, groupStatus,
          targetStatus, lbStatus, unmatchedSDKSGs, unmatchedSDKTGs)
      ensures ok ==>
        BindingsStaged(stack, old(cloud.targets), old(cloud.bindings),
          cloud.bindings - Elements(unmatchedK8sTGBs), unmatchedSDKTGs)
      ensures ok ==> Bound(stack, targetStatus, old(cloud.bindings), cloud.bindings, unmatchedK8sTGBs)
    {
      hide *;
      ghost var groups, targets := cloud.groups, cloud.targets;
      ok := SynthesizeSecurityGroups();
      if !ok { return; }
      ok := SynthesizeTargetGroups();
      if !ok { return; }
      ok := SynthesizeTraffic(groups, targets);
      if !ok { return; }
      ok := BindTargets(targets);
    }

    method BindTargets(ghost targets: map<string, TargetGroup>) returns (ok: bool)
      requires Closed(stack) && TargetsStaged(stack, targets, cloud.targets, targetStatus, unmatchedSDKTGs)
      modifies this`unmatchedK8sTGBs, cloud`bindings
      ensures ok ==>
        BindingsStaged(stack, targets, old(cloud.bindings), cloud.bindings - Elements(unmatchedK8sTGBs),
          unmatchedSDKTGs)
      ensures ok ==> Bound(stack, targetStatus, old(cloud.bindings), cloud.bindings, unmatchedK8sTGBs)
    {
      ghost var before := cloud.bindings;
      ok := SynthesizeBindings();
      if !ok { return; }
      BindingsLeft(stack, targetStatus, before, cloud.bindings, unmatchedK8sTGBs, unmatchedSDKTGs);
    }

    method SynthesizeTraffic(ghost groups: map<string, SecurityGroup>, ghost targets: map<string, TargetGroup>)
        returns (ok: bool)
      requires Closed(stack)
      requires GroupsStaged(stack, groups, cloud.groups, groupStatus, unmatchedSDKSGs)
      requires TargetsStaged(stack, targets, cloud.targets, targetStatus, unmatchedSDKTGs)
      modifies this`lbStatus, cloud`lbs
      ensures ok ==>
        TrafficStaged(stack, groups.Keys, targets, old(cloud.lbs), cloud.lbs, groupStatus, targetStatus, lbStatus,
          unmatchedSDKSGs, unmatchedSDKTGs)
    {
      hide *;
      ghost var before := cloud.lbs;
      References(stack, groups, cloud.groups, groupStatus, unmatchedSDKSGs, targets, cloud.targets, targetStatus,
        unmatchedSDKTGs);
      ok := SynthesizeLoadBalancers();
      if !ok { return; }
      ghost var lbs0 := cloud.lbs;
      ok := SynthesizeListeners();
      if !ok { return; }
      ghost var lbs1 := cloud.lbs;
      ok := SynthesizeListenerRules();
      if !ok { return; }
      StraysAsKept(Kept(stack, before), lbs0, lbs1, cloud.lbs, lbStatus, Led(stack, lbStatus));
      TrafficIsStaged(stack, groups, cloud.groups, targets, cloud.targets, before, cloud.lbs, groupStatus,
        targetStatus, lbStatus, unmatchedSDKSGs, unmatchedSDKTGs);
    }
  }

  /** For a desired security group that exists one of the existing ones is used. */
  ghost predicate GroupsReused(before: map<string, SecurityGroup>, status: Status) {
    forall id <- status, g <- before :: before[g].resourceID == Some(id) ==> status[id] in before
  }

  ghost predicate AnyReusable(stack: Stack, tg: TargetGroup) {
    exists id <- stack.targets :: Reusable(tg, id, stack.targets[id])
  }

  /** Exactly the target groups that can be used stay, and those that are as desired stay as they are. */
  ghost predicate TargetsReused(stack: Stack, before: map<string, TargetGroup>, after: map<string, TargetGroup>) {
    && (forall arn <- before :: arn in after <==> AnyReusable(stack, before[arn]))
    && forall arn <- before :: TgSynced(stack, before[arn]) ==> arn in after && after[arn] == before[arn]
  }

  /** Load balancers of the desired kind stay. */
  ghost predicate LbsReused(stack: Stack, before: map<string, LoadBalancer>, after: map<string, LoadBalancer>) {
    forall a <- before, id <- stack.lbs ::
      before[a].resourceID == Some(id) && OfKind(before[a], stack.lbs[id]) ==> a in after
  }

  lemma UnwantedIff(stack: Stack, targets: map<string, TargetGroup>, arn: string)
    requires arn in targets
    ensures Unwanted(stack, targets, arn) <==> !AnyReusable(stack, targets[arn])
  {
  }

  lemma KeptAreReused(stack: Stack, before: map<string, LoadBalancer>, after: map<string, LoadBalancer>)
    requires Kept(stack, before).Keys <= after.Keys
    ensures LbsReused(stack, before, after)
  {
  }

  lemma DeployedGroups(stack: Stack, before: map<string, SecurityGroup>, staged: map<string, SecurityGroup>,
      after: map<string, SecurityGroup>, status: Status, unmatched: seq<string>)
    requires GroupsStaged(stack, before, staged, status, unmatched) && after == staged - Elements(unmatched)
    ensures status.Keys == stack.groups && after.Keys == status.Values
    ensures GroupsDeployed(stack, after) && Tagged(status, after, SGTag)
    ensures GroupsReused(before, status)
  {
    forall id | id in status ensures status[id] in after && after[status[id]].resourceID == Some(id) {
      assert status[id] in status.Values;
    }
    forall g | g in after ensures exists id <- status :: g == status[id] && after[g].resourceID == Some(id) {
      assert g in status.Values;
    }
  }

  lemma DeployedTargets(stack: Stack, before: map<string, TargetGroup>, staged: map<string, TargetGroup>,
      after: map<string, TargetGroup>, status: Status, unmatched: seq<string>)
    requires TargetsStaged(stack, before, staged, status, unmatched) && after == staged - Elements(unmatched)
    ensures status.Keys == stack.targets.Keys && forall id <- status :: status[id] in after
    ensures TargetsDeployed(stack, after) && Tagged(status, after, TGTag)
    ensures forall arn <- after :: !Unwanted(stack, before, arn)
  {
    hide TargetGroupAsDesired, Unwanted, TgSynced, TargetsDeployed;
    assert forall arn <- after :: arn !in unmatched && after[arn] == staged[arn];
    forall id | id in status ensures status[id] in after && after[status[id]].resourceID == Some(id) { }
    AllSynced(stack, after, status);
  }

  lemma ReusedTargets(stack: Stack, before: map<string, TargetGroup>, staged: map<string, TargetGroup>,
      after: map<string, TargetGroup>, status: Status, unmatched: seq<string>)
    requires TargetsStaged(stack, before, staged, status, unmatched) && after == staged - Elements(unmatched)
    ensures TargetsReused(stack, before, after)
  {
    hide TgSynced, Tagged, Unwanted, AnyReusable;
    forall arn | arn in before ensures
      && (arn in after <==> AnyReusable(stack, before[arn]))
      && (TgSynced(stack, before[arn]) ==> arn in after && after[arn] == before[arn]) {
      UnwantedIff(stack, before, arn);
      SyncedIsReusable(stack, before[arn]);
      assert arn in Elements(unmatched) <==> arn in unmatched;
    }
  }

  lemma SyncedIsReusable(stack: Stack, tg: TargetGroup)
    ensures TgSynced(stack, tg) ==> AnyReusable(stack, tg)
  {
  }

  lemma AllSynced(stack: Stack, targets: map<string, TargetGroup>, status: Status)
    requires status.Keys == stack.targets.Keys && Tagged(status, targets, TGTag)
    requires forall arn <- targets :: TgSynced(stack, targets[arn])
    ensures TargetsDeployed(stack, targets)
  {
    hide TargetGroupAsDesired;
    forall id | id in stack.targets ensures exists arn <- targets :: targets[arn].resourceID == Some(id) {
      assert targets[status[id]].resourceID == Some(id);
    }
  }

  lemma ResolvedDenotes<S>(refs: set<Ref>, status: Status, sdk: map<string, S>, tag: S -> Option<string>)
    requires Resolvable(refs, status.Keys) && Tagged(status, sdk, tag)
    ensures Denotes(refs, ResolveAll(refs, status), sdk, tag)
  {
    forall r | r in refs ensures Refers(r, Resolve(r, status), sdk, tag) { }
    forall arn | arn in ResolveAll(refs, status) ensures exists r <- refs :: Refers(r, arn, sdk, tag) {
      var r :| r in refs && Resolve(r, status) == arn;
    }
  }

  lemma SyncedAsDesired(listeners: map<int, Listener>, want: map<int, ListenerSpec>, status: Status,
      targets: map<string, TargetGroup>)
    requires ListenersSynced(listeners, want, status) && Tagged(status, targets, TGTag)
    ensures ListenersAsDesired(listeners, want, targets)
  {
    hide Denotes, Tagged, Resolvable, ResolveAll;
    forall p | p in want ensures ListenerAsDesired(listeners[p], want[p], targets) {
      ResolvedDenotes(want[p].targets, status, targets, TGTag);
      forall r | r in want[p].rules ensures Denotes(want[p].rules[r], listeners[p].rules[r], targets, TGTag) {
        ResolvedDenotes(want[p].rules[r], status, targets, TGTag);
      }
    }
  }

  lemma DeployedLbs(stack: Stack, groups: map<string, SecurityGroup>, targets: map<string, TargetGroup>,
      lbs: map<string, LoadBalancer>, groupStatus: Status, targetStatus: Status, lbStatus: Status)
    requires TrafficSynced(stack, lbs, lbStatus, groupStatus, targetStatus)
    requires Tagged(groupStatus, groups, SGTag) && Tagged(targetStatus, targets, TGTag)
    ensures LbsDeployed(stack, groups, targets, lbs)
  {
    hide Denotes, Tagged, ListenersSynced, ListenersAsDesired, ResolveAll, Resolvable;
    forall id | id in stack.lbs && stack.lbs[id].listeners != map[]
      ensures ListenersAsDesired(lbs[lbStatus[id]].listeners, stack.lbs[id].listeners, targets) {
      SyncedAsDesired(lbs[lbStatus[id]].listeners, stack.lbs[id].listeners, targetStatus, targets);
    }
    forall a | a in lbs ensures
      exists id <- stack.lbs :: lbs[a].resourceID == Some(id) && LbAsDesired(lbs[a], stack.lbs[id], groups) {
      assert LbSynced(stack, lbs[a], groupStatus);
      var id := lbs[a].resourceID.value;
      ResolvedDenotes(stack.lbs[id].groups, groupStatus, groups, SGTag);
    }
  }

  lemma DeployedBindings(stack: Stack, targets: map<string, TargetGroup>, status: Status,
      before: map<string, Binding>, staged: map<string, Binding>, gone: seq<string>)
    requires Bound(stack, status, before, staged, gone) && Tagged(status, targets, TGTag)
    ensures BindingsDeployed(stack, targets, before, staged - Elements(gone))
  {
    var after := staged - Elements(gone);
    hide Bound, IsBound, IsDesired, Tagged, Shared;
    forall b | b in stack.bindings ensures IsBound(stack, targets, after, b) {
      LastBinds(stack, targets, status, before, staged, gone, b);
    }
    forall n | n in after ensures
      || IsDesired(stack, targets, after[n].arn)
      || (n in before && before[n] == after[n] && Shared(before, after[n].arn)) {
      LeftIsDesired(stack, targets, status, before, staged, gone, n);
    }
  }

  lemma LeftIsDesired(stack: Stack, targets: map<string, TargetGroup>, status: Status, before: map<string, Binding>,
      staged: map<string, Binding>, gone: seq<string>, n: string)
    requires Bound(stack, status, before, staged, gone) && Tagged(status, targets, TGTag)
    requires n in staged - Elements(gone)
    ensures IsDesired(stack, targets, staged[n].arn)
      || (n in before && before[n] == staged[n] && Shared(before, staged[n].arn))
  {
    hide AsLast, NamedAsLast, Shared;
    var arn := staged[n].arn;
    if arn in BoundTargets(stack.bindings, status) {
      var b :| b in stack.bindings && Resolve(b.target, status) == arn;
      assert Refers(b.target, arn, targets, TGTag);
    } else {
      assert (staged - Elements(gone))[n].arn == arn;
      UnboundLeft(stack, status, before, staged, gone, arn);
    }
  }

  lemma ResolvedRefers(status: Status, targets: map<string, TargetGroup>, b: BindingSpec)
    requires Tagged(status, targets, TGTag) && (b.target.Managed? ==> b.target.resourceID in status)
    ensures Refers(b.target, Resolve(b.target, status), targets, TGTag)
  {
  }

  lemma LastBinds(stack: Stack, targets: map<string, TargetGroup>, status: Status, before: map<string, Binding>,
      staged: map<string, Binding>, gone: seq<string>, b: BindingSpec)
    requires Bound(stack, status, before, staged, gone) && Tagged(status, targets, TGTag) && b in stack.bindings
    ensures IsBound(stack, targets, staged - Elements(gone), b)
  {
    hide Last, NamedAsLast;
    var arn := Resolve(b.target, status);
    assert arn in BoundTargets(stack.bindings, status);
    var n :| n in staged && staged[n].arn == arn && AsLast(stack, status, staged[n]);
    assert n !in gone;
    var c :| c in stack.bindings && Last(stack.bindings, status, arn, c) && staged[n].spec == c.spec;
    LastIsDesired(stack.bindings, status, arn, c);
    ResolvedRefers(status, targets, b);
    ResolvedRefers(status, targets, c);
    hide Bound, Tagged, Refers, AsLast, Resolve, BoundTargets;
    var left := staged - Elements(gone);
    assert n in left && Refers(b.target, left[n].arn, targets, TGTag) && Binds(left[n], c, targets);
  }

  /** What the stack refers to has been given an ID. */
  lemma References(stack: Stack, groups: map<string, SecurityGroup>, groupsAfter: map<string, SecurityGroup>,
      groupStatus: Status, sgs: seq<string>,
      targets: map<string, TargetGroup>, targetsAfter: map<string, TargetGroup>, targetStatus: Status, tgs: seq<string>)
    requires Closed(stack) && GroupsStaged(stack, groups, groupsAfter, groupStatus, sgs)
    requires TargetsStaged(stack, targets, targetsAfter, targetStatus, tgs)
    ensures groupStatus.Keys == stack.groups
    ensures forall id <- stack.lbs :: Resolvable(stack.lbs[id].groups, stack.groups)
    ensures forall id <- stack.lbs :: ListenersResolvable(stack.lbs[id].listeners, targetStatus.Keys)
  {
  }

  lemma TrafficIsStaged(stack: Stack, groups: map<string, SecurityGroup>, groupsAfter: map<string, SecurityGroup>,
      targets: map<string, TargetGroup>, targetsAfter: map<string, TargetGroup>, before: map<string, LoadBalancer>,
      after: map<string, LoadBalancer>, groupStatus: Status, targetStatus: Status, lbStatus: Status,
      sgs: seq<string>, tgs: seq<string>)
    requires GroupsStaged(stack, groups, groupsAfter, groupStatus, sgs)
    requires TargetsStaged(stack, targets, targetsAfter, targetStatus, tgs)
    requires LbsSynced(stack, after, lbStatus, groupStatus)
    requires AllListenersSynced(stack, after, lbStatus, targetStatus, WithListeners(stack))
    requires Strays(Kept(stack, before), after, Led(stack, lbStatus)) && Recorded(Kept(stack, before), after, lbStatus)
    ensures TrafficStaged(stack, groups.Keys, targets, before, after, groupStatus, targetStatus, lbStatus, sgs, tgs)
  {
    KeptStay(stack, Kept(stack, before), after, lbStatus, groupStatus);
    hide NoneAttached, GroupsSafe, NoneNamed, TargetsSafe, LbsSynced, Strays, Recorded, GroupsStaged, TargetsStaged;
    GroupsVerdict(stack, groups, groupsAfter, after, groupStatus, lbStatus, sgs);
    TargetsVerdict(stack, targets, targetsAfter, before, after, groupStatus, targetStatus, lbStatus, tgs);
  }

  lemma KeptStay(stack: Stack, kept: map<string, LoadBalancer>, lbs: map<string, LoadBalancer>, lbStatus: Status,
      groupStatus: Status)
    requires LbsSynced(stack, lbs, lbStatus, groupStatus) && Strays(kept, lbs, Led(stack, lbStatus))
    ensures kept.Keys <= lbs.Keys
  {
    hide LbSynced, WithListeners;
    forall a | a in kept ensures a in lbs {
      if a in Led(stack, lbStatus) { var id :| id in lbStatus && lbStatus[id] == a; }
    }
  }

  lemma GroupsVerdict(stack: Stack, groups: map<string, SecurityGroup>, groupsAfter: map<string, SecurityGroup>,
      lbs: map<string, LoadBalancer>,
      groupStatus: Status, lbStatus: Status, sgs: seq<string>)
    requires GroupsStaged(stack, groups, groupsAfter, groupStatus, sgs)
    requires LbsSynced(stack, lbs, lbStatus, groupStatus)
    ensures NoneAttached(lbs, sgs) <==> GroupsSafe(stack, groups.Keys, groupStatus)
  {
    hide Attached, SuppliedGroup, LbSynced;
    GroupsDetached(stack, groupStatus, lbStatus, lbs, sgs);
  }

  lemma TargetsVerdict(stack: Stack, targets: map<string, TargetGroup>, targetsAfter: map<string, TargetGroup>,
      before: map<string, LoadBalancer>, after: map<string, LoadBalancer>, groupStatus: Status,
      targetStatus: Status, lbStatus: Status, tgs: seq<string>)
    requires TargetsStaged(stack, targets, targetsAfter, targetStatus, tgs)
    requires TrafficSynced(stack, after, lbStatus, groupStatus, targetStatus)
    requires Strays(Kept(stack, before), after, Led(stack, lbStatus))
    ensures NoneNamed(after, tgs) <==> TargetsSafe(stack, before, targets, lbStatus)
  {
    assert forall arn <- tgs :: arn in targets;
    hide ListenersName, StillNamed, TrafficSynced, Strays, Unwanted;
    ListenersReleased(stack, Kept(stack, before), groupStatus, targetStatus, lbStatus, after, tgs);
  }

  /** Listeners that are not synthesized stay as they were on the kept load balancers; new ones have none. */
  ghost predicate Strays(kept: map<string, LoadBalancer>, lbs: map<string, LoadBalancer>, led: set<string>) {
    forall a :: a !in led ==>
      && (a in kept ==> a in lbs && lbs[a].listeners == kept[a].listeners)
      && (a in lbs && a !in kept ==> lbs[a].listeners == map[])
  }

  lemma StraysAsKept(kept: map<string, LoadBalancer>, lbs0: map<string, LoadBalancer>,
      lbs1: map<string, LoadBalancer>, lbs: map<string, LoadBalancer>, lbStatus: Status, led: set<string>)
    requires FromKept(kept, lbs0, lbStatus) && OnlyThese(lbs0, lbs1, led) && OnlyThese(lbs1, lbs, led)
    ensures Strays(kept, lbs, led) && Recorded(kept, lbs, lbStatus)
  {
  }

  /** After synthesis a security group that is given up is attached exactly if it is supplied. */
  lemma GroupsDetached(stack: Stack, groupStatus: Status, lbStatus: Status, lbs: map<string, LoadBalancer>,
      unmatched: seq<string>)
    requires LbsSynced(stack, lbs, lbStatus, groupStatus)
    requires forall id <- unmatched :: id !in groupStatus.Values
    ensures forall id <- unmatched :: Attached(lbs, id) <==> SuppliedGroup(stack, id)
  {
    forall id | id in unmatched ensures Attached(lbs, id) <==> SuppliedGroup(stack, id) {
      if arn :| arn in lbs && id in lbs[arn].groups {
        assert LbSynced(stack, lbs[arn], groupStatus);
        var lb := lbs[arn].resourceID.value;
        var r :| r in stack.lbs[lb].groups && Resolve(r, groupStatus) == id;
        assert r == Supplied(id);
      }
      if lb :| lb in stack.lbs && Supplied(id) in stack.lbs[lb].groups {
        assert LbSynced(stack, lbs[lbStatus[lb]], groupStatus);
        assert Resolve(Supplied(id), groupStatus) in lbs[lbStatus[lb]].groups;
      }
    }
  }

  lemma SyncedListenerNames(listener: Listener, want: ListenerSpec, status: Status, arn: string)
    requires Resolvable(want.targets, status.Keys) && listener.targets == ResolveAll(want.targets, status)
    requires RulesSynced(listener.rules, want.rules, status) && arn !in status.Values
    ensures ListenerNames(listener, arn) <==> SpecSupplies(want, arn)
  {
    ResolvedNames(want.targets, status, arn);
    forall r | r in want.rules ensures arn in listener.rules[r] <==> Supplied(arn) in want.rules[r] {
      ResolvedNames(want.rules[r], status, arn);
    }
  }

  lemma ResolvedNames(refs: set<Ref>, status: Status, arn: string)
    requires Resolvable(refs, status.Keys) && arn !in status.Values
    ensures arn in ResolveAll(refs, status) <==> Supplied(arn) in refs
  {
    if r :| r in refs && Resolve(r, status) == arn { assert r == Supplied(arn); }
    if Supplied(arn) in refs { assert Resolve(Supplied(arn), status) == arn; }
  }

  lemma SyncedLbNames(lb: LoadBalancer, want: map<int, ListenerSpec>, status: Status, arn: string)
    requires ListenersSynced(lb.listeners, want, status) && arn !in status.Values
    ensures LbNames(lb, arn) <==> exists p <- want :: SpecSupplies(want[p], arn)
  {
    forall p | p in want ensures ListenerNames(lb.listeners[p], arn) <==> SpecSupplies(want[p], arn) {
      SyncedListenerNames(lb.listeners[p], want[p], status, arn);
    }
  }

  /** After synthesis a listener or rule names an unwanted target group exactly if it is still named. */
  lemma ListenersReleased(stack: Stack, kept: map<string, LoadBalancer>, groupStatus: Status, status: Status,
      lbStatus: Status, lbs: map<string, LoadBalancer>, unmatched: seq<string>)
    requires TrafficSynced(stack, lbs, lbStatus, groupStatus, status) && Strays(kept, lbs, Led(stack, lbStatus))
    requires forall id <- status :: status[id] !in unmatched
    ensures forall arn <- unmatched :: ListenersName(lbs, arn) <==> StillNamed(stack, kept, lbStatus, arn)
  {
    forall arn | arn in unmatched ensures ListenersName(lbs, arn) <==> StillNamed(stack, kept, lbStatus, arn) {
      assert arn !in status.Values;
      if ListenersName(lbs, arn) { NamedMeansStill(stack, kept, groupStatus, status, lbStatus, lbs, arn); }
      if StillNamed(stack, kept, lbStatus, arn) {
        StillMeansNamed(stack, kept, groupStatus, status, lbStatus, lbs, arn);
      }
    }
  }

  lemma NamedMeansStill(stack: Stack, kept: map<string, LoadBalancer>, groupStatus: Status, status: Status,
      lbStatus: Status, lbs: map<string, LoadBalancer>, arn: string)
    requires TrafficSynced(stack, lbs, lbStatus, groupStatus, status) && Strays(kept, lbs, Led(stack, lbStatus))
    requires arn !in status.Values && ListenersName(lbs, arn)
    ensures StillNamed(stack, kept, lbStatus, arn)
  {
    var a :| a in lbs && LbNames(lbs[a], arn);
    if a in Led(stack, lbStatus) {
      var id :| id in WithListeners(stack) && id in lbStatus && lbStatus[id] == a;
      SyncedLbNames(lbs[a], stack.lbs[id].listeners, status, arn);
      assert SuppliedTarget(stack, arn);
    } else {
      assert a in kept && LbNames(kept[a], arn);
    }
  }

  lemma StillMeansNamed(stack: Stack, kept: map<string, LoadBalancer>, groupStatus: Status, status: Status,
      lbStatus: Status, lbs: map<string, LoadBalancer>, arn: string)
    requires TrafficSynced(stack, lbs, lbStatus, groupStatus, status) && Strays(kept, lbs, Led(stack, lbStatus))
    requires arn !in status.Values && StillNamed(stack, kept, lbStatus, arn)
    ensures ListenersName(lbs, arn)
  {
    if SuppliedTarget(stack, arn) {
      var id, p :| id in stack.lbs && p in stack.lbs[id].listeners && SpecSupplies(stack.lbs[id].listeners[p], arn);
      assert id in WithListeners(stack);
      SyncedLbNames(lbs[lbStatus[id]], stack.lbs[id].listeners, status, arn);
    } else {
      var a :| a in kept && a !in Led(stack, lbStatus) && LbNames(kept[a], arn);
      assert LbNames(lbs[a], arn);
    }
  }

  /** A binding is left for an unwanted target group exactly if there were two, or if one is to be supplied with it. */
  lemma BindingsLeft(stack: Stack, status: Status, before: map<string, Binding>, after: map<string, Binding>,
      gone: seq<string>, unmatched: seq<string>)
    requires Bound(stack, status, before, after, gone)
    requires forall id <- status :: status[id] !in unmatched
    ensures forall arn <- unmatched ::
      BindingNames(after - Elements(gone), arn) <==> Shared(before, arn) || SuppliedBinding(stack, arn)
  {
    forall arn | arn in unmatched ensures
      BindingNames(after - Elements(gone), arn) <==> Shared(before, arn) || SuppliedBinding(stack, arn) {
      assert arn in BoundTargets(stack.bindings, status) <==> SuppliedBinding(stack, arn) by {
        if b :| b in stack.bindings && Resolve(b.target, status) == arn { assert b.target == Supplied(arn); }
        if b :| b in stack.bindings && b.target == Supplied(arn) { assert Resolve(b.target, status) == arn; }
      }
      if arn in BoundTargets(stack.bindings, status) {
        var n :| n in after && after[n].arn == arn;
        assert n !in gone;
        assert n in after - Elements(gone) && (after - Elements(gone))[n].arn == arn;
      } else {
        UnboundLeft(stack, status, before, after, gone, arn);
      }
    }
  }

  lemma UnboundLeft(stack: Stack, status: Status, before: map<string, Binding>, after: map<string, Binding>,
      gone: seq<string>, arn: string)
    requires Bound(stack, status, before, after, gone) && arn !in BoundTargets(stack.bindings, status)
    ensures BindingNames(after - Elements(gone), arn) <==> Shared(before, arn)
  {
    hide BoundTargets, BindingsResolvable;
    if n :| n in after - Elements(gone) && (after - Elements(gone))[n].arn == arn {
      assert n in before && before[n].arn == arn;
      var m :| m in gone && before[m].arn == before[n].arn;
      assert m != n;
    }
    if Shared(before, arn) {
      var m, n :| m in before && n in before && m != n && before[m].arn == arn && before[n].arn == arn;
      var left := if m in gone then n else m;
      assert left !in gone;
      assert left in after - Elements(gone);
    }
  }

  ghost predicate NoneAttached(lbs: map<string, LoadBalancer>, ids: seq<string>) {
    forall id <- ids :: !Attached(lbs, id)
  }

  ghost predicate NoneNamed(lbs: map<string, LoadBalancer>, arns: seq<string>) {
    forall arn <- arns :: !ListenersName(lbs, arn)
  }

  ghost predicate NoneBound(bindings: map<string, Binding>, arns: seq<string>) {
    forall arn <- arns :: !BindingNames(bindings, arn)
  }

  ghost predicate BindingsResolvable(bindings: seq<BindingSpec>, ids: set<string>) {
    forall b <- bindings :: b.target.Managed? ==> b.target.resourceID in ids
  }

  /**
   * The usual case is safe: the user supplies no resource of the stack's own, every desired
   * load balancer has a listener, and no two existing ones have one resource ID.
   */
  lemma UsuallySafe(stack: Stack, groups: set<string>, targets: map<string, TargetGroup>,
      lbs: map<string, LoadBalancer>, after: map<string, LoadBalancer>, groupStatus: Status, lbStatus: Status)
    requires forall id <- groups :: !SuppliedGroup(stack, id)
    requires forall arn <- targets :: !SuppliedTarget(stack, arn)
    requires WithListeners(stack) == stack.lbs.Keys && OnePerID(lbs) && lbStatus.Keys == stack.lbs.Keys
    requires Recorded(Kept(stack, lbs), after, lbStatus)
    ensures GroupsSafe(stack, groups, groupStatus) && TargetsSafe(stack, lbs, targets, lbStatus)
  {
    var kept := Kept(stack, lbs);
    forall a | a in kept ensures a in Led(stack, lbStatus) {
      assert KeptRecorded(kept, a, lbStatus);
      var id := kept[a].resourceID.value;
      assert lbStatus[id] in kept && lbs[lbStatus[id]].resourceID == lbs[a].resourceID;
    }
  }

  /** Unsafe bindings are possible: two of them name a target group of a stack that is being taken down. */
  lemma SharedUnwantedIsPossible(b: Binding, one: string, two: string, tg: TargetGroup)
    requires one != two && tg.resourceID.Some?
    ensures var stack := Stack({}, map[], map[], []);
      Closed(stack) && !BindingsSafe(stack, map[b.arn := tg], map[one := b, two := b])
  {
    var arn, bindings := b.arn, map[one := b, two := b];
    assert one in bindings && two in bindings && bindings[one] == b && bindings[two] == b;
    assert Shared(bindings, arn);
    assert Unwanted(Stack({}, map[], map[], []), map[arn := tg], arn);
  }

  /**
   * Unsafe listeners are possible: two load balancers with the ID of a desired one name a target
   * group that is no longer wanted. Whichever of them is recorded, the other keeps its listener.
   */
  lemma StrayListenerIsPossible(id: string, spec: LoadBalancerSpec, one: string, two: string, arn: string,
      lb: LoadBalancer, tg: TargetGroup, lbStatus: Status)
    requires one != two && tg.resourceID.Some? && LbNames(lb, arn) && lb.resourceID == Some(id)
    requires !LoadBalancerRequiresReplacement(lb, spec)
    ensures var stack := Stack({}, map[], map[id := spec], []);
      !TargetsSafe(stack, map[one := lb, two := lb], map[arn := tg], lbStatus)
  {
    var stack, lbs := Stack({}, map[], map[id := spec], []), map[one := lb, two := lb];
    var left := if one in Led(stack, lbStatus) then two else one;
    assert forall x <- Led(stack, lbStatus) :: x == lbStatus[id];
    assert left !in Led(stack, lbStatus);
    assert lbs[left] == lb && LBTag(lb) == Some(id) && id in stack.lbs && stack.lbs[id] == spec;
    assert Serves(stack.lbs, lbs, LBTag, LoadBalancerRequiresReplacement, id, left);
    assert left in Kept(stack, lbs) && LbNames(Kept(stack, lbs)[left], arn);
    assert Unwanted(stack, map[arn := tg], arn);
  }

  /** Unsafe groups are possible: the user supplies the group that the stack had managed so far. */
  lemma OwnGroupSupplied(id: string, sg: string, spec: LoadBalancerSpec)
    requires Supplied(sg) in spec.groups
    ensures !GroupsSafe(Stack({}, map[], map[id := spec], []), {sg}, map[])
  {
    var stack := Stack({}, map[], map[id := spec], []);
    assert id in stack.lbs && stack.lbs[id] == spec;
    assert SuppliedGroup(stack, sg);
  }

  function BoundTargets(bindings: seq<BindingSpec>, status: Status): set<string> {
    set b | b in bindings :: Resolve(b.target, status)
  }

  /** The last of the bindings for the target group. */
  ghost predicate Last(bindings: seq<BindingSpec>, status: Status, arn: string, b: BindingSpec) {
    exists i | 0 <= i < |bindings| :: bindings[i] == b && LastAt(bindings, status, arn, i)
  }

  ghost predicate LastAt(bindings: seq<BindingSpec>, status: Status, arn: string, i: nat)
    requires i < |bindings|
  {
    && Resolve(bindings[i].target, status) == arn
    && forall j | i < j < |bindings| :: Resolve(bindings[j].target, status) != arn
  }

  lemma OneMoreLast(bindings: seq<BindingSpec>, status: Status, m: map<string, BindingSpec>, b: BindingSpec)
    requires forall arn <- m :: Last(bindings, status, arn, m[arn])
    ensures var m' := m[Resolve(b.target, status) := b];
      forall arn <- m' :: Last(bindings + [b], status, arn, m'[arn])
  {
    var m', all := m[Resolve(b.target, status) := b], bindings + [b];
    forall arn | arn in m' ensures Last(all, status, arn, m'[arn]) {
      if arn == Resolve(b.target, status) {
        assert all[|bindings|] == b && LastAt(all, status, arn, |bindings|);
      } else {
        var i :| 0 <= i < |bindings| && bindings[i] == m[arn] && LastAt(bindings, status, arn, i);
        assert all[i] == m'[arn] && LastAt(all, status, arn, i);
      }
    }
  }

  predicate Fits(binding: Binding, resByARN: map<string, BindingSpec>, arn: string) {
    arn in resByARN && binding == Binding(arn, resByARN[arn].spec)
  }

  /** Existing bindings stay, and new ones are as desired for their target group and have the desired name. */
  ghost predicate NewBindings(before: map<string, Binding>, after: map<string, Binding>,
      resByARN: map<string, BindingSpec>) {
    && (forall n <- before :: n in after && after[n] == before[n])
    && forall n <- after :: n in before || (Fits(after[n], resByARN, after[n].arn) && n == resByARN[after[n].arn].name)
  }

  lemma OneMoreBinding(before: map<string, Binding>, earlier: map<string, Binding>,
      resByARN: map<string, BindingSpec>, done: set<string>, arn: string)
    requires arn in resByARN && resByARN[arn].name !in earlier && NewBindings(before, earlier, resByARN)
    requires forall a <- done :: exists n <- earlier :: Fits(earlier[n], resByARN, a)
    ensures var after := earlier[resByARN[arn].name := Binding(arn, resByARN[arn].spec)];
      NewBindings(before, after, resByARN)
        && forall a <- done + {arn} :: exists n <- after :: Fits(after[n], resByARN, a)
  {
    var name := resByARN[arn].name;
    var after := earlier[name := Binding(arn, resByARN[arn].spec)];
    assert Fits(after[name], resByARN, arn);
    forall a | a in done ensures exists n <- after :: Fits(after[n], resByARN, a) {
      var n :| n in earlier && Fits(earlier[n], resByARN, a);
      assert Fits(after[n], resByARN, a);
    }
  }

  /** Bindings keep their target groups, and those that differ are as desired for them. */
  ghost predicate Updated(before: map<string, Binding>, after: map<string, Binding>,
      resByARN: map<string, BindingSpec>) {
    && before.Keys == after.Keys
    && forall n <- after ::
      after[n].arn == before[n].arn && (after[n] == before[n] || Fits(after[n], resByARN, after[n].arn))
  }

  /** The binding is as the last desired one for its target group says. */
  ghost predicate AsLast(stack: Stack, status: Status, binding: Binding) {
    exists b <- stack.bindings :: Last(stack.bindings, status, binding.arn, b) && binding.spec == b.spec
  }

  ghost predicate NamedAsLast(stack: Stack, status: Status, binding: Binding, name: string) {
    exists b <- stack.bindings :: Last(stack.bindings, status, binding.arn, b) && name == b.name
  }

  /**
   * Existing bindings keep their target groups. Those that differ or are new are as desired, every
   * desired target group has such a binding, and one binding per undesired target group is to go.
   */
  ghost predicate Bound(stack: Stack, status: Status, before: map<string, Binding>, after: map<string, Binding>,
      unmatched: seq<string>) {
    && BindingsResolvable(stack.bindings, status.Keys)
    && (forall n <- before :: n in after && after[n].arn == before[n].arn)
    && (forall n <- after ::
      || (n in before && after[n] == before[n])
      || (after[n].arn in BoundTargets(stack.bindings, status) && AsLast(stack, status, after[n])))
    && (forall n <- after :: n in before || NamedAsLast(stack, status, after[n], n))
    && (forall n <- unmatched :: n in before && before[n].arn !in BoundTargets(stack.bindings, status))
    && (forall m <- unmatched, n <- unmatched :: before[m].arn == before[n].arn ==> m == n)
    && (forall n <- before :: before[n].arn !in BoundTargets(stack.bindings, status) ==>
      exists m <- unmatched :: before[m].arn == before[n].arn)
    && (forall arn <- BoundTargets(stack.bindings, status) ::
      exists n <- after :: after[n].arn == arn && AsLast(stack, status, after[n]))
  }

  lemma LastIsDesired(bindings: seq<BindingSpec>, status: Status, arn: string, b: BindingSpec)
    requires Last(bindings, status, arn, b)
    ensures b in bindings && Resolve(b.target, status) == arn
  {
  }

  lemma AllBound(stack: Stack, status: Status, before: map<string, Binding>, created: map<string, Binding>,
      after: map<string, Binding>, resByARN: map<string, BindingSpec>, k8sByARN: map<string, string>,
      unmatched: seq<string>)
    requires BindingsResolvable(stack.bindings, status.Keys)
    requires resByARN.Keys == BoundTargets(stack.bindings, status)
    requires forall arn <- resByARN :: Last(stack.bindings, status, arn, resByARN[arn])
    requires forall arn <- k8sByARN :: k8sByARN[arn] in before && before[k8sByARN[arn]].arn == arn
    requires forall n <- before :: before[n].arn in k8sByARN
    requires NewBindings(before, created, resByARN) && Updated(created, after, resByARN)
    requires forall arn <- resByARN.Keys - k8sByARN.Keys :: exists n <- created :: Fits(created[n], resByARN, arn)
    requires forall arn <- resByARN.Keys * k8sByARN.Keys ::
      k8sByARN[arn] in after && Fits(after[k8sByARN[arn]], resByARN, arn)
    requires forall n :: n in unmatched <==>
      n in before && before[n].arn in k8sByARN.Keys - resByARN.Keys && k8sByARN[before[n].arn] == n
    ensures Bound(stack, status, before, after, unmatched)
  {
    hide Last, BoundTargets, BindingsResolvable, Fits, AsLast, NamedAsLast;
    FitsAsLast(stack, status, before, created, after, resByARN);
    forall arn | arn in resByARN ensures exists n <- after :: after[n].arn == arn && AsLast(stack, status, after[n]) {
      if arn in k8sByARN {
        FitIsAsLast(stack, status, after[k8sByARN[arn]], resByARN, arn);
      } else {
        assert arn in resByARN.Keys - k8sByARN.Keys;
        var n :| n in created && Fits(created[n], resByARN, arn);
        StaysFit(created, after, resByARN, n, arn);
        FitIsAsLast(stack, status, after[n], resByARN, arn);
      }
    }
  }

  lemma FitIsAsLast(stack: Stack, status: Status, binding: Binding, resByARN: map<string, BindingSpec>, arn: string)
    requires Fits(binding, resByARN, arn) && Last(stack.bindings, status, arn, resByARN[arn])
    ensures binding.arn == arn && arn in resByARN && AsLast(stack, status, binding)
  {
  }

  lemma StaysFit(before: map<string, Binding>, after: map<string, Binding>, resByARN: map<string, BindingSpec>,
      n: string, arn: string)
    requires Updated(before, after, resByARN) && n in before && Fits(before[n], resByARN, arn)
    ensures n in after && Fits(after[n], resByARN, arn)
  {
  }

  /** Bindings that differ or are new are as desired. */
  lemma FitsAsLast(stack: Stack, status: Status, before: map<string, Binding>, created: map<string, Binding>,
      after: map<string, Binding>, resByARN: map<string, BindingSpec>)
    requires forall arn <- resByARN :: Last(stack.bindings, status, arn, resByARN[arn])
    requires NewBindings(before, created, resByARN) && Updated(created, after, resByARN)
    ensures forall n <- before :: n in after && after[n].arn == before[n].arn
    ensures forall n <- after ::
      (n in before && after[n] == before[n]) || (after[n].arn in resByARN && AsLast(stack, status, after[n]))
    ensures forall n <- after :: n in before || NamedAsLast(stack, status, after[n], n)
  {
    hide Last, AsLast;
    forall n | n in after && Fits(after[n], resByARN, after[n].arn) ensures AsLast(stack, status, after[n]) {
      FitIsAsLast(stack, status, after[n], resByARN, after[n].arn);
    }
    forall n | n in after && n !in before ensures NamedAsLast(stack, status, after[n], n) {
      assert n == resByARN[after[n].arn].name;
      LastIsDesired(stack.bindings, status, after[n].arn, resByARN[after[n].arn]);
    }
  }

  /** Only the listeners of one load balancer differ. */
  ghost predicate OnlyListeners(before: map<string, LoadBalancer>, after: map<string, LoadBalancer>, arn: string) {
    arn in before && arn in after && after == before[arn := before[arn].(listeners := after[arn].listeners)]
  }

  /** Only some load balancers differ, and those keep their resource IDs. */
  ghost predicate OnlyThese(before: map<string, LoadBalancer>, after: map<string, LoadBalancer>, arns: set<string>) {
    before.Keys == after.Keys && forall a <- before ::
      after[a].resourceID == before[a].resourceID && (a !in arns ==> after[a] == before[a])
  }

  lemma OnlyTheseStep(first: map<string, LoadBalancer>, before: map<string, LoadBalancer>,
      after: map<string, LoadBalancer>, arn: string, arns: set<string>)
    requires OnlyThese(first, before, arns) && OnlyListeners(before, after, arn) && arn in arns
    ensures OnlyThese(first, after, arns)
  {
  }

  function WithListeners(stack: Stack): set<string> { set id | id in stack.lbs && stack.lbs[id].listeners != map[] }

  ghost predicate AllTargetsSynced(stack: Stack, lbs: map<string, LoadBalancer>, lbStatus: Status, status: Status,
      ids: set<string>) {
    forall id <- ids ::
      id in stack.lbs && id in lbStatus && lbStatus[id] in lbs
        && TargetsSynced(lbs[lbStatus[id]].listeners, stack.lbs[id].listeners, status)
  }

  ghost predicate AllListenersSynced(stack: Stack, lbs: map<string, LoadBalancer>, lbStatus: Status, status: Status,
      ids: set<string>) {
    forall id <- ids ::
      id in stack.lbs && id in lbStatus && lbStatus[id] in lbs
        && ListenersSynced(lbs[lbStatus[id]].listeners, stack.lbs[id].listeners, status)
  }

  lemma NothingDone(stack: Stack, lbs: map<string, LoadBalancer>, lbStatus: Status, status: Status)
    ensures forall id <- WithListeners(stack) :: id in stack.lbs
    ensures OnlyThese(lbs, lbs, Led(stack, lbStatus))
    ensures AllTargetsSynced(stack, lbs, lbStatus, status, {}) && AllListenersSynced(stack, lbs, lbStatus, status, {})
  {
  }

  lemma ListenersProgress(stack: Stack, before: map<string, LoadBalancer>, after: map<string, LoadBalancer>,
      lbStatus: Status, status: Status, id: string, done: set<string>)
    requires AllTargetsSynced(stack, before, lbStatus, status, done)
    requires id in stack.lbs && id in lbStatus && lbStatus[id] in after
    requires forall other <- lbStatus :: other != id ==>
      lbStatus[other] in before && lbStatus[other] in after && after[lbStatus[other]] == before[lbStatus[other]]
    requires TargetsSynced(after[lbStatus[id]].listeners, stack.lbs[id].listeners, status)
    ensures AllTargetsSynced(stack, after, lbStatus, status, done + {id})
  {
  }

  lemma RulesProgress(stack: Stack, before: map<string, LoadBalancer>, after: map<string, LoadBalancer>,
      lbStatus: Status, status: Status, id: string, all: set<string>, done: set<string>)
    requires AllTargetsSynced(stack, before, lbStatus, status, all)
      && AllListenersSynced(stack, before, lbStatus, status, done)
    requires id in stack.lbs && id in lbStatus && lbStatus[id] in after
    requires forall other <- lbStatus :: other != id ==>
      lbStatus[other] in before && lbStatus[other] in after && after[lbStatus[other]] == before[lbStatus[other]]
    requires ListenersSynced(after[lbStatus[id]].listeners, stack.lbs[id].listeners, status)
    ensures AllTargetsSynced(stack, after, lbStatus, status, all)
      && AllListenersSynced(stack, after, lbStatus, status, done + {id})
  {
  }

  lemma OthersUntouched(stack: Stack, before: map<string, LoadBalancer>, after: map<string, LoadBalancer>,
      lbStatus: Status, groupStatus: Status, id: string)
    requires LbsSynced(stack, before, lbStatus, groupStatus) && id in lbStatus
      && OnlyListeners(before, after, lbStatus[id])
    ensures LbsSynced(stack, after, lbStatus, groupStatus)
    ensures forall other <- lbStatus :: other != id ==> after[lbStatus[other]] == before[lbStatus[other]]
  {
    assert forall other <- lbStatus :: other != id ==> lbStatus[other] != lbStatus[id];
    forall arn | arn in after ensures LbSynced(stack, after[arn], groupStatus) {
      assert LbSynced(stack, before[arn], groupStatus);
    }
  }

  function WithRules(lbs: map<string, LoadBalancer>, arn: string, port: int,
      rules: map<int, set<string>>): map<string, LoadBalancer>
  {
    if arn in lbs && port in lbs[arn].listeners then
      lbs[arn := lbs[arn].(listeners := lbs[arn].listeners[port := lbs[arn].listeners[port].(rules := rules)])]
    else lbs
  }

  lemma SameRules(lbs: map<string, LoadBalancer>, arn: string, port: int)
    requires arn in lbs && port in lbs[arn].listeners
    ensures WithRules(lbs, arn, port, lbs[arn].listeners[port].rules) == lbs
  {
    var rules := lbs[arn].listeners[port].rules;
    assert lbs[arn].listeners[port := lbs[arn].listeners[port].(rules := rules)] == lbs[arn].listeners;
  }

  /** Only the rules of one listener differ. */
  ghost predicate OnlyRules(before: map<string, LoadBalancer>, after: map<string, LoadBalancer>, arn: string,
      port: int) {
    && arn in before && arn in after && port in before[arn].listeners && port in after[arn].listeners
    && after == WithRules(before, arn, port, after[arn].listeners[port].rules)
  }

  /** Load balancers are for desired ones, and the recorded ones have exactly the desired listeners and rules. */
  ghost predicate TrafficSynced(stack: Stack, lbs: map<string, LoadBalancer>, lbStatus: Status, groupStatus: Status,
      targetStatus: Status) {
    && LbsSynced(stack, lbs, lbStatus, groupStatus)
    && AllListenersSynced(stack, lbs, lbStatus, targetStatus, WithListeners(stack))
  }

  ghost predicate ListenersSynced(listeners: map<int, Listener>, want: map<int, ListenerSpec>, status: Status) {
    && TargetsSynced(listeners, want, status)
    && forall p <- want :: RulesSynced(listeners[p].rules, want[p].rules, status)
  }

  ghost predicate ListenersResolvable(want: map<int, ListenerSpec>, ids: set<string>) {
    forall p <- want :: Resolvable(want[p].targets, ids) && forall r <- want[p].rules ::
      Resolvable(want[p].rules[r], ids)
  }

  ghost predicate TargetsSynced(listeners: map<int, Listener>, want: map<int, ListenerSpec>, status: Status) {
    && listeners.Keys == want.Keys
    && forall p <- want ::
      Resolvable(want[p].targets, status.Keys) && listeners[p].targets == ResolveAll(want[p].targets, status)
  }

  ghost predicate RulesSynced(rules: map<int, set<string>>, want: map<int, set<Ref>>, status: Status) {
    && rules.Keys == want.Keys
    && forall r <- want :: Resolvable(want[r], status.Keys) && rules[r] == ResolveAll(want[r], status)
  }

  ghost predicate LbSynced(stack: Stack, lb: LoadBalancer, groupStatus: Status) {
    && lb.resourceID.Some? && lb.resourceID.value in stack.lbs && OfKind(lb, stack.lbs[lb.resourceID.value])
    && Resolvable(stack.lbs[lb.resourceID.value].groups, groupStatus.Keys)
    && lb.groups == ResolveAll(stack.lbs[lb.resourceID.value].groups, groupStatus)
  }

  ghost predicate LbsSynced(stack: Stack, lbs: map<string, LoadBalancer>, lbStatus: Status, groupStatus: Status) {
    && (forall arn <- lbs :: LbSynced(stack, lbs[arn], groupStatus))
    && lbStatus.Keys == stack.lbs.Keys && forall id <- lbStatus ::
      lbStatus[id] in lbs && lbs[lbStatus[id]].resourceID == Some(id)
  }

  /** A new load balancer is recorded and has no listeners yet. */
  ghost predicate Made(lb: LoadBalancer, arn: string, lbStatus: Status) {
    IsRecorded(lb, arn, lbStatus) && lb.listeners == map[]
  }

  ghost predicate IsRecorded(lb: LoadBalancer, arn: string, lbStatus: Status) {
    lb.resourceID.Some? && lb.resourceID.value in lbStatus && lbStatus[lb.resourceID.value] == arn
  }

  ghost predicate KeptRecorded(kept: map<string, LoadBalancer>, arn: string, lbStatus: Status)
    requires arn in kept
  {
    var id := kept[arn].resourceID;
    id.Some? && id.value in lbStatus && lbStatus[id.value] in kept && kept[lbStatus[id.value]].resourceID == id
  }

  /** Every load balancer is a kept one or recorded, and for the ID of a kept one a kept one is recorded. */
  ghost predicate Recorded(kept: map<string, LoadBalancer>, lbs: map<string, LoadBalancer>, lbStatus: Status) {
    && (forall arn <- lbs :: arn in kept || IsRecorded(lbs[arn], arn, lbStatus))
    && (forall arn <- kept :: KeptRecorded(kept, arn, lbStatus))
  }

  /** In addition, kept load balancers have their listeners and new ones none. */
  ghost predicate FromKept(kept: map<string, LoadBalancer>, lbs: map<string, LoadBalancer>, lbStatus: Status) {
    && Recorded(kept, lbs, lbStatus)
    && (forall arn <- lbs :: arn in kept || lbs[arn].listeners == map[])
    && (forall arn <- kept :: arn in lbs && lbs[arn].listeners == kept[arn].listeners)
  }

  /** Some load balancers are still as they were, and the others are new. */
  ghost predicate LbsPartly(stack: Stack, kept: map<string, LoadBalancer>, lbs: map<string, LoadBalancer>,
      lbStatus: Status, groupStatus: Status) {
    && (forall arn <- lbs ::
      if arn in kept then lbs[arn] == kept[arn]
      else LbSynced(stack, lbs[arn], groupStatus) && Made(lbs[arn], arn, lbStatus))
    && kept.Keys <= lbs.Keys
    && forall id <- lbStatus :: lbStatus[id] in lbs && lbs[lbStatus[id]].resourceID == Some(id)
  }

  lemma OneMoreMade(stack: Stack, kept: map<string, LoadBalancer>, lbs: map<string, LoadBalancer>, lbStatus: Status,
      groupStatus: Status, id: string, arn: string, lb: LoadBalancer)
    requires LbsPartly(stack, kept, lbs, lbStatus, groupStatus) && arn !in lbs && id !in lbStatus
    requires LbSynced(stack, lb, groupStatus) && lb.resourceID == Some(id) && lb.listeners == map[]
    ensures LbsPartly(stack, kept, lbs[arn := lb], lbStatus[id := arn], groupStatus)
  {
    forall a | a in lbs && a !in kept ensures Made(lbs[a], a, lbStatus[id := arn]) { assert Made(lbs[a], a, lbStatus); }
  }

  /** As above, where the kept ones are as desired too unless they are still to be updated. */
  ghost predicate LbsMostly(stack: Stack, kept: map<string, LoadBalancer>, lbs: map<string, LoadBalancer>,
      lbStatus: Status, groupStatus: Status, todo: set<string>, created: set<string>) {
    && (forall arn <- lbs :: arn in todo || LbSynced(stack, lbs[arn], groupStatus))
    && (forall arn <- lbs :: arn in kept || (Made(lbs[arn], arn, lbStatus) && lbs[arn].resourceID.value in created))
    && (forall arn <- kept :: arn in lbs && lbs[arn] == kept[arn].(groups := lbs[arn].groups))
    && forall id <- lbStatus ::
      lbStatus[id] in lbs && lbs[lbStatus[id]].resourceID == Some(id) && (id in created || lbStatus[id] in kept)
  }

  /** The pairs are exactly the kept load balancers with their resource IDs. */
  ghost predicate PairsCover(stack: Stack, kept: map<string, LoadBalancer>, matched: seq<Pair>) {
    && (forall p <- matched ::
      p.arn in kept && kept[p.arn].resourceID == Some(p.resourceID) && p.resourceID in stack.lbs
        && OfKind(kept[p.arn], stack.lbs[p.resourceID]))
    && (forall arn <- kept :: exists p <- matched :: p.arn == arn)
  }

  lemma UpdatesBegin(stack: Stack, kept: map<string, LoadBalancer>, lbs: map<string, LoadBalancer>, lbStatus: Status,
      groupStatus: Status, matched: seq<Pair>)
    requires LbsPartly(stack, kept, lbs, lbStatus, groupStatus) && PairsCover(stack, kept, matched)
    requires lbStatus.Keys == stack.lbs.Keys - IDs(matched)
    ensures LbsMostly(stack, kept, lbs, lbStatus, groupStatus, kept.Keys, lbStatus.Keys)
    ensures forall p <- matched :: p.resourceID !in lbStatus
  {
    forall p | p in matched ensures p.resourceID !in lbStatus { assert p.resourceID in IDs(matched); }
  }

  lemma UpdatesEnd(stack: Stack, kept: map<string, LoadBalancer>, lbs: map<string, LoadBalancer>, lbStatus: Status,
      groupStatus: Status, matched: seq<Pair>, created: set<string>)
    requires PairsCover(stack, kept, matched) && created == stack.lbs.Keys - IDs(matched)
    requires LbsMostly(stack, kept, lbs, lbStatus, groupStatus, kept.Keys - Arns(matched), created)
    requires lbStatus.Keys == created + IDs(matched)
    ensures LbsSynced(stack, lbs, lbStatus, groupStatus) && FromKept(kept, lbs, lbStatus)
  {
    hide LbSynced, OfKind;
    forall arn | arn in kept ensures arn in Arns(matched) && kept[arn].resourceID.Some?
      && kept[arn].resourceID.value in IDs(matched) {
      var p :| p in matched && p.arn == arn;
    }
    forall id | id in IDs(matched) ensures id in stack.lbs { var p :| p in matched && p.resourceID == id; }
  }

  lemma MatchedAreKept(stack: Stack, before: map<string, LoadBalancer>, kept: map<string, LoadBalancer>,
      matched: seq<Pair>, create: seq<string>, surplus: seq<string>)
    requires kept == before - Elements(surplus) && forall arn <- before :: before[arn].resourceID.Some?
    requires forall p :: p in matched <==>
      Serves(stack.lbs, before, LBTag, LoadBalancerRequiresReplacement, p.resourceID, p.arn)
    requires forall id :: id in create <==>
      id in stack.lbs && forall arn <- before ::
        !Serves(stack.lbs, before, LBTag, LoadBalancerRequiresReplacement, id, arn)
    requires forall arn :: arn in surplus <==> Useless(stack.lbs, before, LBTag, LoadBalancerRequiresReplacement, arn)
    ensures PairsCover(stack, kept, matched) && kept == Kept(stack, before)
    ensures Elements(create) == stack.lbs.Keys - IDs(matched)
  {
    forall arn | arn in kept ensures exists p <- matched :: p.arn == arn {
      assert arn in before && arn !in surplus;
      assert Pair(before[arn].resourceID.value, arn) in matched;
    }
    forall p | p in matched ensures p.arn in kept { assert p.arn !in surplus; }
    forall id | id in stack.lbs && id !in create ensures id in IDs(matched) {
      var arn :| arn in before && Serves(stack.lbs, before, LBTag, LoadBalancerRequiresReplacement, id, arn);
      assert Pair(id, arn) in matched;
    }
  }
}
