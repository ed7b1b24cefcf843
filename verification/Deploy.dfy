/**
 * Deploying a stack: synthesizers run forward and their post-synthesis runs in reverse, with
 * failures anywhere (pkg/deploy/stack_deployer.go and the synthesizers it drives).
 */
module Deploy {
  import opened Text
  import opened DeployMatching

  // ---------------------------------------------------------------- existing resources

  datatype Matcher = Matcher(grpcCode: string, httpCode: string)

  datatype SecurityGroup = SecurityGroup(resourceID: Option<string>)
  datatype HealthCheck = HealthCheck(port: string, protocol: string, path: string, matcher: Option<Matcher>,
      interval: int, timeout: int, healthyThreshold: int, unhealthyThreshold: int)
  datatype TargetGroup = TargetGroup(resourceID: Option<string>, targetType: string, protocol: string,
      protocolVersion: string, health: HealthCheck)

  /** A listener's default action and its rules, by the target groups that they name. */
  datatype Listener = Listener(targets: set<string>, rules: map<int, set<string>>)
  datatype LoadBalancer = LoadBalancer(resourceID: Option<string>, lbType: string, scheme: string,
      groups: set<string>, listeners: map<int, Listener>)

  /** The spec is everything but the target group: target type, service, networking and node selector. */
  datatype Binding = Binding(arn: string, spec: string)

  // ---------------------------------------------------------------- desired resources

  /** A reference to another resource of the stack, or to one that the user supplies. */
  datatype Ref = Managed(resourceID: string) | Supplied(arn: string)

  datatype HealthCheckSpec = HealthCheckSpec(port: Option<string>, protocol: Option<string>, path: Option<string>,
      matcher: Option<Matcher>, interval: Option<int>, timeout: Option<int>, healthyThreshold: Option<int>,
      unhealthyThreshold: Option<int>)
  datatype TargetGroupSpec = TargetGroupSpec(targetType: string, protocol: string, protocolVersion: Option<string>,
      healthCheck: Option<HealthCheckSpec>)
  datatype ListenerSpec = ListenerSpec(targets: set<Ref>, rules: map<int, set<Ref>>)
  datatype LoadBalancerSpec = LoadBalancerSpec(lbType: string, scheme: Option<string>, groups: set<Ref>,
      listeners: map<int, ListenerSpec>)
  datatype BindingSpec = BindingSpec(name: string, target: Ref, spec: string)

  datatype Stack = Stack(groups: set<string>, targets: map<string, TargetGroupSpec>,
      lbs: map<string, LoadBalancerSpec>, bindings: seq<BindingSpec>)

  predicate Differs<T(==)>(wanted: Option<T>, actual: T) { wanted.Some? && wanted.value != actual }

  predicate TargetGroupRequiresReplacement(sdk: TargetGroup, res: TargetGroupSpec) {
    || res.targetType != sdk.targetType
    || res.protocol != sdk.protocol
    || Differs(res.protocolVersion, sdk.protocolVersion)
    || (res.healthCheck.Some? && res.protocol in {"TCP", "UDP", "TCP_UDP", "TLS"}
      && HealthCheckRequiresReplacement(sdk, res.healthCheck.value))
  }

  predicate HealthCheckRequiresReplacement(sdk: TargetGroup, hc: HealthCheckSpec) {
    || Differs(hc.protocol, sdk.health.protocol)
    || (hc.matcher.Some? && hc.matcher != sdk.health.matcher)
    || Differs(hc.interval, sdk.health.interval)
    || Differs(hc.timeout, sdk.health.timeout)
  }

  predicate HealthCheckDrifted(res: TargetGroupSpec, sdk: TargetGroup) {
    res.healthCheck.Some? && (var hc := res.healthCheck.value;
      || Differs(hc.port, sdk.health.port)
      || Differs(hc.protocol, sdk.health.protocol)
      || Differs(hc.path, sdk.health.path)
      || (hc.matcher.Some? && hc.matcher != sdk.health.matcher)
      || Differs(hc.interval, sdk.health.interval)
      || Differs(hc.timeout, sdk.health.timeout)
      || Differs(hc.healthyThreshold, sdk.health.healthyThreshold)
      || Differs(hc.unhealthyThreshold, sdk.health.unhealthyThreshold))
  }

  predicate LoadBalancerRequiresReplacement(sdk: LoadBalancer, res: LoadBalancerSpec) {
    res.lbType != sdk.lbType || Differs(res.scheme, sdk.scheme)
  }

  function SGTag(x: SecurityGroup): Option<string> { x.resourceID }
  function TGTag(x: TargetGroup): Option<string> { x.resourceID }
  function LBTag(x: LoadBalancer): Option<string> { x.resourceID }

  // ---------------------------------------------------------------- references

  ghost predicate ListenerNames(listener: Listener, arn: string) {
    arn in listener.targets || exists r <- listener.rules :: arn in listener.rules[r]
  }

  ghost predicate LbNames(lb: LoadBalancer, arn: string) {
    exists p <- lb.listeners :: ListenerNames(lb.listeners[p], arn)
  }

  ghost predicate ListenersName(lbs: map<string, LoadBalancer>, arn: string) {
    exists a <- lbs :: LbNames(lbs[a], arn)
  }

  ghost predicate BindingNames(bindings: map<string, Binding>,
      arn: string) { exists n <- bindings :: bindings[n].arn == arn }

  ghost predicate Attached(lbs: map<string, LoadBalancer>, id: string) { exists a <- lbs :: id in lbs[a].groups }

  /** Two bindings name the target group. */
  ghost predicate Shared(bindings: map<string, Binding>, arn: string) {
    exists m <- bindings, n <- bindings :: m != n && bindings[m].arn == arn && bindings[n].arn == arn
  }

  // ---------------------------------------------------------------- as desired

  /** What is stated is as stated, and the rest is open. */
  ghost predicate Meets<T>(stated: Option<T>, actual: T) { stated.Some? ==> actual == stated.value }

  ghost predicate HealthCheckAsDesired(health: HealthCheck, hc: HealthCheckSpec) {
    && Meets(hc.port, health.port) && Meets(hc.protocol, health.protocol) && Meets(hc.path, health.path)
    && (hc.matcher.Some? ==> health.matcher == hc.matcher)
    && Meets(hc.interval, health.interval) && Meets(hc.timeout, health.timeout)
    && Meets(hc.healthyThreshold, health.healthyThreshold) && Meets(hc.unhealthyThreshold, health.unhealthyThreshold)
  }

  ghost predicate TargetGroupAsDesired(tg: TargetGroup, id: string, spec: TargetGroupSpec) {
    && tg.resourceID == Some(id) && tg.targetType == spec.targetType && tg.protocol == spec.protocol
    && Meets(spec.protocolVersion, tg.protocolVersion)
    && (spec.healthCheck.Some? ==> HealthCheckAsDesired(tg.health, spec.healthCheck.value))
  }

  /** What cannot be changed any more is as desired: with the NLB's protocols that includes most of the health check. */
  ghost predicate Reusable(tg: TargetGroup, id: string, spec: TargetGroupSpec) {
    && tg.resourceID == Some(id) && tg.targetType == spec.targetType && tg.protocol == spec.protocol
    && Meets(spec.protocolVersion, tg.protocolVersion)
    && (spec.protocol in {"TCP", "UDP", "TCP_UDP", "TLS"} && spec.healthCheck.Some? ==>
      var hc := spec.healthCheck.value;
      && Meets(hc.protocol, tg.health.protocol) && (hc.matcher.Some? ==> tg.health.matcher == hc.matcher)
      && Meets(hc.interval, tg.health.interval) && Meets(hc.timeout, tg.health.timeout))
  }

  ghost predicate OfKind(lb: LoadBalancer, spec: LoadBalancerSpec) {
    lb.lbType == spec.lbType && Meets(spec.scheme, lb.scheme)
  }

  function OrElse<T>(stated: Option<T>, otherwise: T): T { if stated.Some? then stated.value else otherwise }

  function WithHealthCheck(health: HealthCheck, hc: HealthCheckSpec): HealthCheck {
    HealthCheck(OrElse(hc.port, health.port), OrElse(hc.protocol, health.protocol), OrElse(hc.path, health.path),
      if hc.matcher.Some? then hc.matcher else health.matcher, OrElse(hc.interval, health.interval),
      OrElse(hc.timeout, health.timeout), OrElse(hc.healthyThreshold, health.healthyThreshold),
      OrElse(hc.unhealthyThreshold, health.unhealthyThreshold))
  }

  /** The resource that is referred to has the ARN: told by its resource ID, or supplied by the user. */
  ghost predicate Refers<S>(r: Ref, arn: string, sdk: map<string, S>, tag: S -> Option<string>) {
    match r
    case Managed(id) => arn in sdk && tag(sdk[arn]) == Some(id)
    case Supplied(given) => arn == given
  }

  /** The ARNs are those of the resources that are referred to. */
  ghost predicate Denotes<S>(refs: set<Ref>, arns: set<string>, sdk: map<string, S>, tag: S -> Option<string>) {
    && (forall arn <- arns :: exists r <- refs :: Refers(r, arn, sdk, tag))
    && (forall r <- refs :: exists arn <- arns :: Refers(r, arn, sdk, tag))
  }

  ghost predicate ListenerAsDesired(listener: Listener, spec: ListenerSpec, targets: map<string, TargetGroup>) {
    && Denotes(spec.targets, listener.targets, targets, TGTag)
    && listener.rules.Keys == spec.rules.Keys
    && forall r <- spec.rules :: Denotes(spec.rules[r], listener.rules[r], targets, TGTag)
  }

  ghost predicate LbAsDesired(lb: LoadBalancer, spec: LoadBalancerSpec, groups: map<string, SecurityGroup>) {
    OfKind(lb, spec) && Denotes(spec.groups, lb.groups, groups, SGTag)
  }

  ghost predicate ListenersAsDesired(listeners: map<int, Listener>, want: map<int, ListenerSpec>,
      targets: map<string, TargetGroup>) {
    listeners.Keys == want.Keys && forall p <- want :: ListenerAsDesired(listeners[p], want[p], targets)
  }

  /** Every security group is for another desired one, and none is missing. */
  ghost predicate GroupsDeployed(stack: Stack, groups: map<string, SecurityGroup>) {
    && (forall id <- stack.groups :: exists g <- groups :: groups[g].resourceID == Some(id))
    && (forall g <- groups :: exists id <- stack.groups :: groups[g].resourceID == Some(id))
    && (forall g <- groups, h <- groups :: groups[g].resourceID == groups[h].resourceID ==> g == h)
  }

  /** Every target group is as desired for its resource ID, and none is missing. */
  ghost predicate TargetsDeployed(stack: Stack, targets: map<string, TargetGroup>) {
    && (forall id <- stack.targets :: exists arn <- targets :: targets[arn].resourceID == Some(id))
    && (forall arn <- targets ::
      exists id <- stack.targets :: TargetGroupAsDesired(targets[arn], id, stack.targets[id]))
  }

  /** The same for load balancers; where listeners are desired, one for the ID has exactly those. */
  ghost predicate LbsDeployed(stack: Stack, groups: map<string, SecurityGroup>, targets: map<string, TargetGroup>,
      lbs: map<string, LoadBalancer>) {
    && (forall id <- stack.lbs :: exists a <- lbs ::
      lbs[a].resourceID == Some(id)
        && (stack.lbs[id].listeners == map[]
          || ListenersAsDesired(lbs[a].listeners, stack.lbs[id].listeners, targets)))
    && (forall a <- lbs ::
      exists id <- stack.lbs :: lbs[a].resourceID == Some(id) && LbAsDesired(lbs[a], stack.lbs[id], groups))
  }

  ghost predicate Binds(binding: Binding, b: BindingSpec, targets: map<string, TargetGroup>) {
    Refers(b.target, binding.arn, targets, TGTag) && binding.spec == b.spec
  }

  ghost predicate IsBound(stack: Stack, targets: map<string, TargetGroup>, bindings: map<string, Binding>,
      b: BindingSpec) {
    exists n <- bindings, c <- stack.bindings ::
      Refers(b.target, bindings[n].arn, targets, TGTag) && Binds(bindings[n], c, targets)
  }

  ghost predicate IsDesired(stack: Stack, targets: map<string, TargetGroup>, arn: string) {
    exists b <- stack.bindings :: Refers(b.target, arn, targets, TGTag)
  }

  /**
   * What a desired binding refers to is bound as a desired binding for it says, and every binding
   * is for such a target group or was one of several for its target group.
   */
  ghost predicate BindingsDeployed(stack: Stack, targets: map<string, TargetGroup>, before: map<string, Binding>,
      bindings: map<string, Binding>) {
    && (forall b <- stack.bindings :: IsBound(stack, targets, bindings, b))
    && (forall n <- bindings ::
      || IsDesired(stack, targets, bindings[n].arn)
      || (n in before && before[n] == bindings[n] && Shared(before, bindings[n].arn)))
  }

  // ---------------------------------------------------------------- the cloud

  /**
   * What carries the stack's tags or labels. A failed creation may leave the resource behind,
   * since its attributes are reconciled afterwards; other failed calls have no effect. The three
   * flags say that so far no security group was deleted while attached, no target group while
   * a listener or rule named it, and none while a binding named it.
   */
  class Cloud {
    var groups: map<string, SecurityGroup>
    var targets: map<string, TargetGroup>
    var lbs: map<string, LoadBalancer>
    var bindings: map<string, Binding>
    ghost var detached: bool
    ghost var released: bool
    ghost var unbound: bool

    static method List<V>(m: map<string, V>) returns (ok: bool, arns: seq<string>)
      ensures Elements(arns) == m.Keys && NoDuplicates(arns)
      ensures forall arn <- arns :: arn in m
    {
      arns := [];
      var todo := m.Keys;
      while todo != {}
        invariant todo <= m.Keys && Elements(arns) == m.Keys - todo && NoDuplicates(arns)
        decreases todo
      {
        var arn := Pick(todo);
        assert forall k :: 0 <= k < |arns| ==> arns[k] in Elements(arns);
        assert Elements(arns + [arn]) == Elements(arns) + {arn};
        arns := arns + [arn];
        todo := todo - {arn};
      }
      assert forall arn <- arns :: arn in Elements(arns);
      ok := *;
    }

    method CreateSecurityGroup(resourceID: string) returns (ok: bool, id: string)
      modifies this`groups
      ensures id !in old(groups)
      ensures groups == old(groups)[id := SecurityGroup(Some(resourceID))] || (!ok && groups == old(groups))
    {
      id := FreshName("sg-", groups.Keys);
      var made := *;
      if made { groups := groups[id := SecurityGroup(Some(resourceID))]; }
      ok := *;
      ok := ok && made;
    }

    /** What the spec leaves open is up to the service. */
    method CreateTargetGroup(resourceID: string, spec: TargetGroupSpec) returns (ok: bool, arn: string)
      modifies this`targets
      ensures arn !in old(targets)
      ensures (!ok && targets == old(targets)) || (arn in targets && targets == old(targets)[arn := targets[arn]])
      ensures ok ==> TargetGroupAsDesired(targets[arn], resourceID, spec)
    {
      arn := FreshName("targetgroup/", targets.Keys);
      var made := *;
      var version: string := *;
      var health: HealthCheck := *;
      if made {
        if spec.healthCheck.Some? { health := WithHealthCheck(health, spec.healthCheck.value); }
        targets := targets[arn := TargetGroup(Some(resourceID), spec.targetType, spec.protocol,
          OrElse(spec.protocolVersion, version), health)];
      }
      ok := *;
      ok := ok && made;
    }

    method ModifyTargetGroup(arn: string, hc: HealthCheckSpec) returns (ok: bool)
      requires arn in targets
      modifies this`targets
      ensures ok ==>
        arn in targets && targets == old(targets)[arn := old(targets)[arn].(health := targets[arn].health)]
          && HealthCheckAsDesired(targets[arn].health, hc)
      ensures !ok ==> targets == old(targets)
    {
      ok := *;
      if ok { targets := targets[arn := targets[arn].(health := WithHealthCheck(targets[arn].health, hc))]; }
    }

    method CreateLoadBalancer(resourceID: string, spec: LoadBalancerSpec, attached: set<string>)
        returns (ok: bool, arn: string)
      modifies this`lbs
      ensures arn !in old(lbs)
      ensures (!ok && lbs == old(lbs)) || (arn in lbs && lbs == old(lbs)[arn := lbs[arn]])
      ensures ok ==>
        lbs[arn].resourceID == Some(resourceID) && OfKind(lbs[arn], spec) && lbs[arn].groups == attached
          && lbs[arn].listeners == map[]
    {
      arn := FreshName("loadbalancer/", lbs.Keys);
      var made := *;
      var scheme: string := *;
      if made {
        lbs := lbs[arn := LoadBalancer(Some(resourceID), spec.lbType, OrElse(spec.scheme, scheme), attached, map[])];
      }
      ok := *;
      ok := ok && made;
    }

    /** The load balancer's listeners and rules go with it. */
    method DeleteLoadBalancer(arn: string) returns (ok: bool)
      modifies this`lbs
      ensures lbs == if ok then old(lbs) - {arn} else old(lbs)
    {
      ok := *;
      if ok { lbs := lbs - {arn}; }
    }

    method UpdateLoadBalancer(arn: string, lb: LoadBalancer) returns (ok: bool)
      requires arn in lbs
      modifies this`lbs
      ensures lbs == if ok then old(lbs)[arn := lb] else old(lbs)
    {
      ok := *;
      if ok { lbs := lbs[arn := lb]; }
    }

    method CreateBinding(name: string, binding: Binding) returns (ok: bool)
      modifies this`bindings
      ensures ok ==> name !in old(bindings)
      ensures bindings == if ok then old(bindings)[name := binding] else old(bindings)
    {
      ok := *;
      if name in bindings { ok := false; }
      if ok { bindings := bindings[name := binding]; }
    }

    method UpdateBinding(name: string, binding: Binding) returns (ok: bool)
      requires name in bindings
      modifies this`bindings
      ensures bindings == if ok then old(bindings)[name := binding] else old(bindings)
    {
      ok := *;
      if ok { bindings := bindings[name := binding]; }
    }

    method DeleteBinding(name: string) returns (ok: bool)
      modifies this`bindings
      ensures bindings == if ok then old(bindings) - {name} else old(bindings)
    {
      ok := *;
      if ok { bindings := bindings - {name}; }
    }

    method DeleteTargetGroup(arn: string) returns (ok: bool)
      modifies this`targets, this`released, this`unbound
      ensures released == (old(released) && !ListenersName(lbs, arn))
      ensures unbound == (old(unbound) && !BindingNames(bindings, arn))
      ensures targets == if ok then old(targets) - {arn} else old(targets)
    {
      released := released && !ListenersName(lbs, arn);
      unbound := unbound && !BindingNames(bindings, arn);
      ok := *;
      if ok { targets := targets - {arn}; }
    }

    method DeleteSecurityGroup(id: string) returns (ok: bool)
      modifies this`groups, this`detached
      ensures detached == (old(detached) && !Attached(lbs, id))
      ensures groups == if ok then old(groups) - {id} else old(groups)
    {
      detached := detached && !Attached(lbs, id);
      ok := *;
      if ok { groups := groups - {id}; }
    }
  }

  // ---------------------------------------------------------------- resolving references

  type Status = map<string, string>

  ghost predicate Resolvable(refs: set<Ref>,
      ids: set<string>) { forall r <- refs :: r.Managed? ==> r.resourceID in ids }

  /** An unresolved reference has no ARN. */
  function Resolve(r: Ref, status: Status): string {
    match r
    case Managed(id) => if id in status then status[id] else ""
    case Supplied(arn) => arn
  }

  function ResolveAll(refs: set<Ref>, status: Status): set<string> { set r | r in refs :: Resolve(r, status) }
}
