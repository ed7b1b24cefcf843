/** What a Service's networking rules admit. */
module HealthCheckNetworking {
  import opened Text

  // The ingress rules that a Service's target group binding asks for, who gets through them, and
  // whether the load balancer's health checks do (pkg/service/model_build_target_group.go).

  datatype Port = IntPort(number: int) | NamedPort(name: string)
  datatype Protocol = TCP | UDP | OtherProtocol
  datatype HealthCheckPort = TrafficPort | OnPort(number: int)

  datatype NetworkingPort = NetworkingPort(port: Port, protocol: Protocol)
  datatype IngressRule = IngressRule(from: seq<string>, ports: seq<NetworkingPort>)

  /** The Service: its source ranges (from its spec, or else from its annotation) and its subnets. */
  datatype Service = Service(specRanges: seq<string>, annotatedRanges: seq<string>, subnets: seq<string>)

  /** Go's IntOrString.IntValue: a port name is not a number and counts as zero. */
  function IntValue(p: Port): int { if p.IntPort? then p.number else 0 }

  function SourceRanges(svc: Service, defaults: seq<string>): (seq<string>, bool) {
    if svc.specRanges != [] then (svc.specRanges, true)
    else if svc.annotatedRanges != [] then (svc.annotatedRanges, true)
    else (defaults, false)
  }

  function BuildHealthCheckRules(source: seq<string>, subnets: seq<string>, tgPort: Port, hcPort: HealthCheckPort,
                                 protocol: Protocol, preserveClientIP: bool, customRanges: bool): seq<IngressRule>
  {
    if protocol != UDP && (hcPort.TrafficPort? || hcPort.number == IntValue(tgPort))
       && (!preserveClientIP || !customRanges || "0.0.0.0/0" in source)
    then []
    else [IngressRule(subnets, [NetworkingPort(if hcPort.TrafficPort? then tgPort else IntPort(hcPort.number), TCP)])]
  }

  function BuildNetworking(svc: Service, tgPort: Port, preserveClientIP: bool, hcPort: HealthCheckPort,
      protocol: Protocol, defaults: seq<string>): seq<IngressRule> {
    var networkingProtocol := if protocol == UDP then UDP else TCP;
    var (source, custom) :=
      if networkingProtocol == UDP || preserveClientIP then SourceRanges(svc, defaults) else (svc.subnets, false);
    [IngressRule(source, [NetworkingPort(tgPort, networkingProtocol)])]
      + BuildHealthCheckRules(source, svc.subnets, tgPort, hcPort, protocol, preserveClientIP, custom)
  }

  // ---------------------------------------------------------------- reachability

  /**
   * Rules admit a packet from an address to a port. `covers` says which addresses a CIDR block
   * has, and `number` which port a pod means by a name.
   */
  ghost predicate Admits(rules: seq<IngressRule>, covers: (string, string) -> bool, number: string -> int,
      address: string, port: int, protocol: Protocol) {
    exists r <- rules, cidr <- r.from, p <- r.ports ::
      covers(cidr, address) && p.protocol == protocol && Number(p.port, number) == port
  }

  function Number(p: Port, number: string -> int): int { if p.IntPort? then p.number else number(p.name) }

  /** The block is effective: the first ranges that are stated if clients' own addresses arrive, else the subnets. */
  predicate Effective(svc: Service, preserveClientIP: bool, protocol: Protocol, defaults: seq<string>, cidr: string) {
    if protocol != UDP && !preserveClientIP then cidr in svc.subnets
    else
      || cidr in svc.specRanges
      || (svc.specRanges == [] && cidr in svc.annotatedRanges)
      || (svc.specRanges == [] && svc.annotatedRanges == [] && cidr in defaults)
  }

  ghost predicate FromEffective(svc: Service, preserveClientIP: bool, protocol: Protocol, defaults: seq<string>,
      covers: (string, string) -> bool, address: string) {
    exists cidr :: Effective(svc, preserveClientIP, protocol, defaults, cidr) && covers(cidr, address)
  }

  /** Health checks have a rule of their own unless they arrive as traffic that the ranges are known to admit. */
  ghost predicate ProbedApart(svc: Service, tgPort: Port, preserveClientIP: bool, hcPort: HealthCheckPort,
      protocol: Protocol) {
    || protocol == UDP
    || (hcPort.OnPort? && hcPort.number != IntValue(tgPort))
    || (preserveClientIP && (svc.specRanges != [] || svc.annotatedRanges != [])
      && !Effective(svc, true, protocol, [], "0.0.0.0/0"))
  }

  /**
   * All that is admitted: on the Service's own protocol and port what comes from the effective
   * ranges, and on TCP and the probed port what comes from the subnets if probes have their rule.
   */
  lemma AdmittedExactly(svc: Service, tgPort: Port, preserveClientIP: bool, hcPort: HealthCheckPort,
      protocol: Protocol, defaults: seq<string>, covers: (string, string) -> bool, number: string -> int,
      address: string, port: int, over: Protocol)
    ensures Admits(BuildNetworking(svc, tgPort, preserveClientIP, hcPort, protocol, defaults), covers, number, address,
      port, over) <==>
      || (over == (if protocol == UDP then UDP else TCP) && port == Number(tgPort, number)
        && FromEffective(svc, preserveClientIP, protocol, defaults, covers, address))
      || (over == TCP && port == ProbedPort(tgPort, hcPort, number)
        && ProbedApart(svc, tgPort, preserveClientIP, hcPort, protocol)
        && exists cidr <- svc.subnets :: covers(cidr, address))
  {
    var rules := BuildNetworking(svc, tgPort, preserveClientIP, hcPort, protocol, defaults);
    var traffic := rules[0];
    assert rules == [traffic] || rules == [traffic, rules[1]];
    assert |rules| == 2 <==> ProbedApart(svc, tgPort, preserveClientIP, hcPort, protocol);
    assert forall cidr :: cidr in traffic.from <==> Effective(svc, preserveClientIP, protocol, defaults, cidr);
    RuleAdmits(traffic, covers, number, address, port, over);
    if |rules| == 1 {
      AdmitsEither(rules, traffic, traffic, covers, number, address, port, over);
    } else {
      RuleAdmits(rules[1], covers, number, address, port, over);
      AdmitsEither(rules, traffic, rules[1], covers, number, address, port, over);
    }
  }

  lemma AdmitsEither(rules: seq<IngressRule>, a: IngressRule, b: IngressRule, covers: (string, string) -> bool,
      number: string -> int, address: string, port: int, over: Protocol)
    requires forall r :: r in rules <==> r == a || r == b
    ensures Admits(rules, covers, number, address, port, over) <==>
      Admits([a], covers, number, address, port, over) || Admits([b], covers, number, address, port, over)
  {
    assert a in [a] && b in [b] && a in rules && b in rules;
  }

  lemma RuleAdmits(rule: IngressRule, covers: (string, string) -> bool, number: string -> int, address: string,
      port: int, over: Protocol)
    requires |rule.ports| == 1
    ensures Admits([rule], covers, number, address, port, over) <==>
      && rule.ports[0].protocol == over && Number(rule.ports[0].port, number) == port
      && exists cidr <- rule.from :: covers(cidr, address)
  {
    assert rule in [rule] && rule.ports[0] in rule.ports;
  }

  function ProbedPort(tgPort: Port, hcPort: HealthCheckPort, number: string -> int): int {
    if hcPort.TrafficPort? then Number(tgPort, number) else hcPort.number
  }

  /** A port name stands for zero in the comparison, so a probe on port zero is taken for one on the traffic port. */
  predicate Confused(svc: Service, tgPort: Port, preserveClientIP: bool, hcPort: HealthCheckPort, protocol: Protocol,
      defaults: seq<string>, number: string -> int) {
    var (ranges, custom) := SourceRanges(svc, defaults);
    && hcPort == OnPort(0) && tgPort.NamedPort? && number(tgPort.name) != 0
    && protocol != UDP && (!preserveClientIP || !custom || "0.0.0.0/0" in ranges)
  }

  /**
   * A health check from a load balancer subnet is admitted, whatever the Service's protocol, client
   * address setting, source ranges and ports, as long as the default ranges contain the
   * subnets, if and only if the two ports are not confused.
   */
  lemma HealthChecksAdmitted(svc: Service, tgPort: Port, preserveClientIP: bool, hcPort: HealthCheckPort,
      protocol: Protocol, defaults: seq<string>,
                             covers: (string, string) -> bool, number: string -> int, address: string)
    requires forall a :: covers("0.0.0.0/0", a)
    requires exists cidr <- svc.subnets :: covers(cidr, address)
    requires exists cidr <- defaults :: covers(cidr, address)
    ensures Admits(BuildNetworking(svc, tgPort, preserveClientIP, hcPort, protocol, defaults), covers, number,
      address, ProbedPort(tgPort, hcPort, number), TCP)
      <==> !Confused(svc, tgPort, preserveClientIP, hcPort, protocol, defaults, number)
  {
    var rules := BuildNetworking(svc, tgPort, preserveClientIP, hcPort, protocol, defaults);
    var traffic := rules[0];
    var subnet :| subnet in svc.subnets && covers(subnet, address);
    if Confused(svc, tgPort, preserveClientIP, hcPort, protocol, defaults, number) {
      assert forall r <- rules, p <- r.ports :: Number(p.port, number) == number(tgPort.name);
    } else if |rules| == 1 {
      var probe := NetworkingPort(tgPort, TCP);
      assert traffic.ports == [probe] && probe in traffic.ports;
      assert Number(tgPort, number) == ProbedPort(tgPort, hcPort, number);
      if !preserveClientIP {
        assert subnet in traffic.from;
      } else if "0.0.0.0/0" in traffic.from {
        assert covers("0.0.0.0/0", address);
      } else {
        var cidr :| cidr in defaults && covers(cidr, address);
        assert cidr in traffic.from;
      }
      assert traffic in rules;
    } else {
      var probe := rules[1];
      assert probe in rules && subnet in probe.from && probe.ports[0] in probe.ports;
    }
  }
}
