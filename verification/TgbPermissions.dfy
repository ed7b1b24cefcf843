/**
 * The ingress permissions that a TargetGroupBinding's networking rules ask for
 * (pkg/targetgroupbinding/networking_manager.go).
 */
module TgbPermissions {
  import opened Text
  import opened PermissionLabels
  import opened Permissions

  const SHARED_KEY: string := "elbv2.k8s.aws/targetGroupBinding"
  const SHARED_VALUE: string := "shared"
  const SHARED_LABELS: Labels := map[SHARED_KEY := SHARED_VALUE]
  const SHARED: Selector := LabelEquals(SHARED_KEY, SHARED_VALUE)

  datatype Protocol = TCP | UDP
  datatype PortSpec = Numeric(number: int) | Named(name: string)
  datatype Port = Port(protocol: Option<Protocol>, port: Option<PortSpec>)
  datatype Peer = Peer(securityGroup: Option<string>, ipBlock: Option<string>)
  datatype IngressRule = IngressRule(from: seq<Peer>, ports: seq<Port>)

  /** A pod's container ports by name; the first of a name counts. */
  datatype Pod = Pod(containerPorts: seq<(string, int)>)

  /** What one permission must be, up to its description. */
  datatype Want = Want(protocol: string, fromPort: int, toPort: int, kind: SourceKind, id: string)

  const ALL_TCP: Port := Port(Some(TCP), None)

  // ---------------------------------------------------------------- specification

  function LookupPort(pod: Pod, name: string): Option<int> {
    LookupIn(pod.containerPorts, name)
  }

  function LookupIn(ports: seq<(string, int)>, name: string): Option<int> {
    if ports == [] then None
    else if ports[0].0 == name then Some(ports[0].1)
    else LookupIn(ports[1..], name)
  }

  function NumericalPorts(spec: PortSpec, pods: seq<Pod>): Option<set<int>> {
    match spec
    case Numeric(n) => Some({n})
    case Named(name) =>
      if pods == [] || exists p <- pods :: LookupPort(p, name).None? then None
      else Some(set p | p in pods :: LookupPort(p, name).value)
  }

  datatype Range = Range(fromPort: int, toPort: int)

  function PortRanges(port: Port, pods: seq<Pod>): Option<set<Range>> {
    match port.port
    case None => Some({Range(0, 65535)})
    case Some(spec) =>
      match NumericalPorts(spec, pods)
      case None => None
      case Some(ns) => Some(set n | n in ns :: Range(n, n))
  }

  function ProtocolText(port: Port): string {
    if port.protocol == Some(UDP) then "udp" else "tcp"
  }

  /** A security group takes precedence over an address block; `parses` is net.ParseCIDR's verdict. */
  function PeerSource(peer: Peer, parses: string -> bool): Option<(SourceKind, string)> {
    match peer.securityGroup
    case Some(group) => Some((Group, group))
    case None =>
      match peer.ipBlock
      case None => None
      case Some(cidr) =>
        if !parses(cidr) then None else Some((if ':' in cidr then CidrV6 else Cidr, cidr))
  }

  function Wants(peer: Peer, port: Port, pods: seq<Pod>, parses: string -> bool): Option<set<Want>> {
    var ranges, source := PortRanges(port, pods), PeerSource(peer, parses);
    if ranges.None? || source.None? then None
    else Some(set r | r in ranges.value ::
      Want(ProtocolText(port), r.fromPort, r.toPort, source.value.0, source.value.1))
  }

  /** The ports that are looked at for a rule: its own, or all TCP ports when it has none. */
  predicate Considered(rule: IngressRule, port: Port) {
    port in rule.ports || (rule.ports == [] && port == ALL_TCP)
  }

  ghost predicate PeerFails(rule: IngressRule, peer: Peer, pods: seq<Pod>, parses: string -> bool) {
    exists port :: Considered(rule, port) && Wants(peer, port, pods, parses).None?
  }

  ghost predicate RuleFails(rule: IngressRule, pods: seq<Pod>, parses: string -> bool) {
    exists peer <- rule.from :: PeerFails(rule, peer, pods, parses)
  }

  ghost predicate Fails(rules: seq<IngressRule>, pods: seq<Pod>, parses: string -> bool) {
    exists rule <- rules :: RuleFails(rule, pods, parses)
  }

  predicate Grants(peer: Peer, port: Port, pods: seq<Pod>, parses: string -> bool, w: Want) {
    var ws := Wants(peer, port, pods, parses);
    ws.Some? && w in ws.value
  }

  ghost predicate PeerGranted(ports: seq<Port>, peer: Peer, pods: seq<Pod>, parses: string -> bool, w: Want) {
    exists port <- ports :: Grants(peer, port, pods, parses, w)
  }

  /** What the code grants: only the ports that are spelled out. */
  ghost predicate RuleGranted(rule: IngressRule, pods: seq<Pod>, parses: string -> bool, w: Want) {
    exists peer <- rule.from :: PeerGranted(rule.ports, peer, pods, parses, w)
  }

  ghost predicate Granted(rules: seq<IngressRule>, pods: seq<Pod>, parses: string -> bool, w: Want) {
    exists rule <- rules :: RuleGranted(rule, pods, parses, w)
  }

  /** What the API documents: a rule without ports stands for all TCP ports. */
  ghost predicate Documented(rules: seq<IngressRule>, pods: seq<Pod>, parses: string -> bool, w: Want) {
    exists rule, peer, port ::
      rule in rules && peer in rule.from && Considered(rule, port) && Grants(peer, port, pods, parses, w)
  }

  // ---------------------------------------------------------------- the loops of the source

  ghost predicate Realised(info: IPPermissionInfo, w: Want) {
    BuiltPermission(info, w.protocol, w.fromPort, w.toPort, w.kind, w.id, SHARED_LABELS)
  }

  /** Permission by permission, the list is what was wanted. */
  ghost predicate Realises(infos: seq<IPPermissionInfo>, ws: seq<Want>) {
    |infos| == |ws| && forall i :: 0 <= i < |ws| ==> Realised(infos[i], ws[i])
  }

  method ComputeNumericalPorts(spec: PortSpec, pods: seq<Pod>) returns (r: Option<set<int>>)
    ensures r == NumericalPorts(spec, pods)
  {
    if spec.Numeric? { return Some({spec.number}); }
    if |pods| == 0 { return None; }
    var ports: set<int> := {};
    for i := 0 to |pods|
      invariant forall p <- pods[..i] :: LookupPort(p, spec.name).Some?
      invariant ports == set p | p in pods[..i] :: LookupPort(p, spec.name).value
    {
      var found := LookupPort(pods[i], spec.name);
      if found.None? { return None; }
      assert pods[..i + 1] == pods[..i] + [pods[i]];
      ports := ports + {found.value};
    }
    assert pods[..|pods|] == pods;
    return Some(ports);
  }

  method ComputePermissionsForPeerPort(peer: Peer, port: Port, pods: seq<Pod>, parses: string -> bool)
    returns (r: Option<seq<IPPermissionInfo>>, ghost ws: seq<Want>)
    ensures r.None? <==> Wants(peer, port, pods, parses).None?
    ensures r.Some? ==> Realises(r.value, ws) && forall w :: w in ws <==> Grants(peer, port, pods, parses, w)
  {
    ws := [];
    var protocol := ProtocolText(port);
    var ranges: set<Range> := {Range(0, 65535)};
    if port.port.Some? {
      var numbers := ComputeNumericalPorts(port.port.value, pods);
      if numbers.None? { return None, ws; }
      ranges := set n | n in numbers.value :: Range(n, n);
    }
    var source := PeerSource(peer, parses);
    if source.None? { return None, ws; }
    assert ranges == PortRanges(port, pods).value;
    var permissions: seq<IPPermissionInfo> := [];
    var todo := ranges;
    while todo != {}
      invariant todo <= ranges && Realises(permissions, ws)
      invariant forall w :: w in ws <==>
        && Range(w.fromPort, w.toPort) in ranges - todo
        && w == Want(protocol, w.fromPort, w.toPort, source.value.0, source.value.1)
      decreases todo
    {
      var g := Pick(todo);
      var info := NewIPPermission(protocol, g.fromPort, g.toPort, source.value.0, source.value.1, SHARED_LABELS);
      permissions := permissions + [info];
      ws := ws + [Want(protocol, g.fromPort, g.toPort, source.value.0, source.value.1)];
      todo := todo - {g};
    }
    forall w ensures w in ws <==> Grants(peer, port, pods, parses, w) {
      if w in ws { assert Range(w.fromPort, w.toPort) in ranges; }
    }
    return Some(permissions), ws;
  }

  /** The inner loop; for a rule without ports the computed permissions are thrown away. */
  method ComputeForPeer(rule: IngressRule, peer: Peer, pods: seq<Pod>, parses: string -> bool)
    returns (r: Option<seq<IPPermissionInfo>>, ghost ws: seq<Want>)
    ensures r.None? <==> PeerFails(rule, peer, pods, parses)
    ensures r.Some? ==> Realises(r.value, ws) && forall w :: w in ws <==> PeerGranted(rule.ports, peer, pods, parses, w)
  {
    var permissions: seq<IPPermissionInfo> := [];
    ws := [];
    for i := 0 to |rule.ports|
      invariant forall port <- rule.ports[..i] :: Wants(peer, port, pods, parses).Some?
      invariant Realises(permissions, ws) && forall w :: w in ws <==>
        PeerGranted(rule.ports[..i], peer, pods, parses, w)
    {
      var some, more := ComputePermissionsForPeerPort(peer, rule.ports[i], pods, parses);
      if some.None? {
        assert Considered(rule, rule.ports[i]);
        return None, ws;
      }
      assert rule.ports[..i + 1] == rule.ports[..i] + [rule.ports[i]];
      permissions := permissions + some.value;
      ws := ws + more;
    }
    assert rule.ports[..|rule.ports|] == rule.ports;
    if |rule.ports| == 0 {
      var shadowing, _ := ComputePermissionsForPeerPort(peer, ALL_TCP, pods, parses);
      if shadowing.None? {
        assert Considered(rule, ALL_TCP);
        return None, ws;
      }
      var dropped := shadowing.value + shadowing.value;
    }
    return Some(permissions), ws;
  }

  method ComputeForRule(rule: IngressRule, pods: seq<Pod>, parses: string -> bool)
    returns (r: Option<seq<IPPermissionInfo>>, ghost ws: seq<Want>)
    ensures r.None? <==> RuleFails(rule, pods, parses)
    ensures r.Some? ==> Realises(r.value, ws) && forall w :: w in ws <==> RuleGranted(rule, pods, parses, w)
  {
    var permissions: seq<IPPermissionInfo> := [];
    ws := [];
    for i := 0 to |rule.from|
      invariant forall peer <- rule.from[..i] :: !PeerFails(rule, peer, pods, parses)
      invariant Realises(permissions, ws) && forall w :: w in ws <==>
        RuleGranted(rule.(from := rule.from[..i]), pods, parses, w)
    {
      var some, more := ComputeForPeer(rule, rule.from[i], pods, parses);
      if some.None? { return None, ws; }
      assert rule.from[..i + 1] == rule.from[..i] + [rule.from[i]];
      permissions := permissions + some.value;
      ws := ws + more;
    }
    assert rule.from[..|rule.from|] == rule.from;
    assert rule.(from := rule.from) == rule;
    return Some(permissions), ws;
  }

  method ComputeIngressPermissionsForTGBNetworking(rules: seq<IngressRule>, pods: seq<Pod>, parses: string -> bool)
    returns (r: Option<seq<IPPermissionInfo>>, ghost ws: seq<Want>)
    ensures r.None? <==> Fails(rules, pods, parses)
    ensures r.Some? ==> Realises(r.value, ws) && forall w :: w in ws <==> Granted(rules, pods, parses, w)
  {
    var permissions: seq<IPPermissionInfo> := [];
    ws := [];
    for i := 0 to |rules|
      invariant forall rule <- rules[..i] :: !RuleFails(rule, pods, parses)
      invariant Realises(permissions, ws) && forall w :: w in ws <==> Granted(rules[..i], pods, parses, w)
    {
      var some, more := ComputeForRule(rules[i], pods, parses);
      if some.None? { return None, ws; }
      assert rules[..i + 1] == rules[..i] + [rules[i]];
      permissions := permissions + some.value;
      ws := ws + more;
    }
    assert rules[..|rules|] == rules;
    return Some(permissions), ws;
  }

  // ---------------------------------------------------------------- which traffic is admitted

  /** A packet as EC2 sees it: its sender has an address and is in security groups. */
  datatype Packet = Packet(protocol: string, port: int, address: string, groups: set<string>)

  type Covers = (string, string) -> bool

  predicate IsV6(address: string) { ':' in address }

  /** Blocks have addresses of their own family only. */
  ghost predicate FamiliesApart(covers: Covers) {
    forall cidr, address :: covers(cidr, address) ==> IsV6(cidr) == IsV6(address)
  }

  /** EC2 lets the packet through for the rule. */
  ghost predicate Passes(p: Permission, covers: Covers, packet: Packet) {
    && p.protocol == packet.protocol
    && p.fromPort.Some? && p.toPort.Some? && p.fromPort.value <= packet.port <= p.toPort.value
    && match p.source
       case IpRange(cidr, _) => !IsV6(packet.address) && covers(cidr, packet.address)
       case Ipv6Range(cidr, _) => IsV6(packet.address) && covers(cidr, packet.address)
       case GroupPair(group, _) => group in packet.groups
       case _ => false
  }

  /** The first container port of the name is the number. */
  ghost predicate FirstNamed(pod: Pod, name: string, number: int) {
    exists i | 0 <= i < |pod.containerPorts| ::
      pod.containerPorts[i] == (name, number) && forall k | 0 <= k < i :: pod.containerPorts[k].0 != name
  }

  ghost predicate SpeaksOf(port: Port, packet: Packet, pods: seq<Pod>) {
    && packet.protocol == (if port.protocol == Some(UDP) then "udp" else "tcp")
    && match port.port
       case None => 0 <= packet.port <= 65535
       case Some(Numeric(n)) => packet.port == n
       case Some(Named(name)) => exists pod <- pods :: FirstNamed(pod, name, packet.port)
  }

  /** The group is looked at before the block. */
  ghost predicate SentBy(peer: Peer, covers: Covers, packet: Packet) {
    || (peer.securityGroup.Some? && peer.securityGroup.value in packet.groups)
    || (peer.securityGroup.None? && peer.ipBlock.Some? && covers(peer.ipBlock.value, packet.address))
  }

  /** Some rule lists a peer that sends the packet and a port that speaks of it. */
  ghost predicate Stated(rules: seq<IngressRule>, pods: seq<Pod>, covers: Covers, packet: Packet) {
    exists rule, peer, port :: rule in rules && peer in rule.from && port in rule.ports
      && SentBy(peer, covers, packet) && SpeaksOf(port, packet, pods)
  }

  /** A peer without a source or with one that does not parse, or a port name that not every pod has. */
  ghost predicate Malformed(peer: Peer, port: Port, pods: seq<Pod>, parses: string -> bool) {
    || (peer.securityGroup.None? && (peer.ipBlock.None? || !parses(peer.ipBlock.value)))
    || (port.port.Some? && port.port.value.Named?
      && (pods == [] || exists pod <- pods :: forall p <- pod.containerPorts :: p.0 != port.port.value.name))
  }

  lemma {:induction false} LookupIsFirst(ports: seq<(string, int)>, name: string)
    ensures LookupIn(ports, name).None? <==> forall p <- ports :: p.0 != name
    ensures forall n :: LookupIn(ports, name) == Some(n) <==> FirstNamed(Pod(ports), name, n)
  {
    if ports != [] {
      LookupIsFirst(ports[1..], name);
      assert ports == [ports[0]] + ports[1..];
      if ports[0].0 != name {
        forall n ensures FirstNamed(Pod(ports), name, n) <==> FirstNamed(Pod(ports[1..]), name, n) {
          if i :| 0 <= i < |ports| && ports[i] == (name, n) && forall k | 0 <= k < i :: ports[k].0 != name {
            assert ports[1..][i - 1] == (name, n);
          }
          var rest := ports[1..];
          if i :| 0 <= i < |rest| && rest[i] == (name, n) && forall k | 0 <= k < i :: rest[k].0 != name {
            assert ports[i + 1] == (name, n) && forall k | 0 <= k < i + 1 :: ports[k].0 != name;
          }
        }
      } else {
        forall n ensures FirstNamed(Pod(ports), name, n) <==> n == ports[0].1 { }
      }
    }
  }

  lemma PodLookup(pod: Pod, name: string)
    ensures LookupPort(pod, name).None? <==> forall p <- pod.containerPorts :: p.0 != name
    ensures forall n :: LookupPort(pod, name) == Some(n) <==> FirstNamed(pod, name, n)
  {
    LookupIsFirst(pod.containerPorts, name);
    assert Pod(pod.containerPorts) == pod;
  }

  lemma WantsIff(peer: Peer, port: Port, pods: seq<Pod>, parses: string -> bool)
    ensures Wants(peer, port, pods, parses).None? <==> Malformed(peer, port, pods, parses)
  {
    if port.port.Some? && port.port.value.Named? {
      forall pod | pod in pods ensures LookupPort(pod, port.port.value.name).None?
        <==> forall p <- pod.containerPorts :: p.0 != port.port.value.name { PodLookup(pod, port.port.value.name); }
    }
  }

  /** Computing the permissions fails exactly for a malformed peer or port that is looked at. */
  lemma FailsIff(rules: seq<IngressRule>, pods: seq<Pod>, parses: string -> bool)
    ensures Fails(rules, pods, parses) <==> exists rule, peer, port ::
      rule in rules && peer in rule.from && Considered(rule, port) && Malformed(peer, port, pods, parses)
  {
    hide Wants, Malformed;
    if Fails(rules, pods, parses) {
      var rule :| rule in rules && RuleFails(rule, pods, parses);
      var peer :| peer in rule.from && PeerFails(rule, peer, pods, parses);
      var port :| Considered(rule, port) && Wants(peer, port, pods, parses).None?;
      WantsIff(peer, port, pods, parses);
    }
    if rule, peer, port :| (rule in rules && peer in rule.from && Considered(rule, port)
      && Malformed(peer, port, pods, parses)) {
      WantsIff(peer, port, pods, parses);
      assert PeerFails(rule, peer, pods, parses) && RuleFails(rule, pods, parses);
    }
  }

  ghost predicate WantPasses(w: Want, covers: Covers, packet: Packet) {
    Passes(Permission(w.protocol, Some(w.fromPort), Some(w.toPort), MakeSource(w.kind, w.id, "")), covers, packet)
  }

  lemma NumbersMean(spec: PortSpec, pods: seq<Pod>, number: int)
    requires NumericalPorts(spec, pods).Some?
    ensures number in NumericalPorts(spec, pods).value <==>
      match spec
      case Numeric(n) => number == n
      case Named(name) => exists pod <- pods :: FirstNamed(pod, name, number)
  {
    if spec.Named? {
      forall pod | pod in pods ensures LookupPort(pod, spec.name) == Some(number) <==>
        FirstNamed(pod, spec.name, number) { PodLookup(pod, spec.name); }
    }
  }

  /** What is granted for a peer and a port lets through what the peer sends and the port speaks of. */
  lemma GrantMeans(peer: Peer, port: Port, pods: seq<Pod>, parses: string -> bool, covers: Covers, packet: Packet)
    requires FamiliesApart(covers) && Wants(peer, port, pods, parses).Some?
    ensures (exists w :: Grants(peer, port, pods, parses, w) && WantPasses(w, covers, packet)) <==>
      SentBy(peer, covers, packet) && SpeaksOf(port, packet, pods)
  {
    hide FirstNamed, NumericalPorts;
    if port.port.Some? { NumbersMean(port.port.value, pods, packet.port); }
    var source, ranges := PeerSource(peer, parses).value, PortRanges(port, pods).value;
    if w :| Grants(peer, port, pods, parses, w) && WantPasses(w, covers, packet) {
      assert Range(w.fromPort, w.toPort) in ranges && w.kind == source.0 && w.id == source.1;
    }
    if SentBy(peer, covers, packet) && SpeaksOf(port, packet, pods) {
      var r := if port.port.None? then Range(0, 65535) else Range(packet.port, packet.port);
      assert r in ranges;
      var w := Want(ProtocolText(port), r.fromPort, r.toPort, source.0, source.1);
      assert Grants(peer, port, pods, parses, w);
    }
  }

  lemma RealisedPasses(info: IPPermissionInfo, w: Want, covers: Covers, packet: Packet)
    requires Realised(info, w)
    ensures Passes(info.permission, covers, packet) <==> WantPasses(w, covers, packet)
  {
  }

  /**
   * The permissions computed for a binding admit exactly the packets that some rule states by
   * a listed peer and a listed port.
   */
  lemma AdmittedTraffic(rules: seq<IngressRule>, pods: seq<Pod>, parses: string -> bool, infos: seq<IPPermissionInfo>,
      ws: seq<Want>, covers: Covers, packet: Packet)
    requires FamiliesApart(covers) && !Fails(rules, pods, parses)
    requires Realises(infos, ws) && forall w :: w in ws <==> Granted(rules, pods, parses, w)
    ensures (exists info <- infos :: Passes(info.permission, covers, packet)) <==> Stated(rules, pods, covers, packet)
  {
    hide Realised, Passes, WantPasses, Grants, Wants, SentBy, SpeaksOf, FamiliesApart;
    if info :| info in infos && Passes(info.permission, covers, packet) {
      var i :| 0 <= i < |infos| && infos[i] == info;
      RealisedPasses(info, ws[i], covers, packet);
      GrantedIsStated(rules, pods, parses, covers, packet, ws[i]);
    }
    if Stated(rules, pods, covers, packet) {
      var w := StatedIsGranted(rules, pods, parses, covers, packet);
      var i :| 0 <= i < |ws| && ws[i] == w;
      RealisedPasses(infos[i], w, covers, packet);
      assert infos[i] in infos;
    }
  }

  lemma GrantedIsStated(rules: seq<IngressRule>, pods: seq<Pod>, parses: string -> bool, covers: Covers,
      packet: Packet, w: Want)
    requires FamiliesApart(covers) && Granted(rules, pods, parses, w) && WantPasses(w, covers, packet)
    ensures Stated(rules, pods, covers, packet)
  {
    hide WantPasses, SentBy, SpeaksOf, FamiliesApart;
    var rule :| rule in rules && RuleGranted(rule, pods, parses, w);
    var peer :| peer in rule.from && PeerGranted(rule.ports, peer, pods, parses, w);
    var port :| port in rule.ports && Grants(peer, port, pods, parses, w);
    GrantMeans(peer, port, pods, parses, covers, packet);
  }

  lemma StatedIsGranted(rules: seq<IngressRule>, pods: seq<Pod>, parses: string -> bool, covers: Covers,
      packet: Packet) returns (w: Want)
    requires FamiliesApart(covers) && !Fails(rules, pods, parses) && Stated(rules, pods, covers, packet)
    ensures Granted(rules, pods, parses, w) && WantPasses(w, covers, packet)
  {
    hide WantPasses, Grants, Wants, SentBy, SpeaksOf, FamiliesApart;
    var rule, peer, port :| rule in rules && peer in rule.from && port in rule.ports
      && SentBy(peer, covers, packet) && SpeaksOf(port, packet, pods);
    assert !RuleFails(rule, pods, parses) && !PeerFails(rule, peer, pods, parses) && Considered(rule, port);
    GrantMeans(peer, port, pods, parses, covers, packet);
    w :| Grants(peer, port, pods, parses, w) && WantPasses(w, covers, packet);
    assert PeerGranted(rule.ports, peer, pods, parses, w) && RuleGranted(rule, pods, parses, w);
  }

  // ---------------------------------------------------------------- where code and documentation differ

  /** Some other rule states, for the same source, TCP without a port. */
  ghost predicate AllTcpStated(rules: seq<IngressRule>, parses: string -> bool, peer: Peer) {
    exists rule, p, port :: rule in rules && p in rule.from && port in rule.ports
      && PeerSource(p, parses) == PeerSource(peer, parses) && port.port.None? && port.protocol != Some(UDP)
  }

  function AllTcpWant(source: (SourceKind, string)): Want { Want("tcp", 0, 65535, source.0, source.1) }

  lemma AllTcpGrantedIff(rules: seq<IngressRule>, pods: seq<Pod>, parses: string -> bool, peer: Peer)
    requires PeerSource(peer, parses).Some?
    ensures Granted(rules, pods, parses, AllTcpWant(PeerSource(peer, parses).value)) <==>
      AllTcpStated(rules, parses, peer)
  {
    var w := AllTcpWant(PeerSource(peer, parses).value);
    if Granted(rules, pods, parses, w) {
      var rule :| rule in rules && RuleGranted(rule, pods, parses, w);
      var p :| p in rule.from && PeerGranted(rule.ports, p, pods, parses, w);
      var port :| port in rule.ports && Grants(p, port, pods, parses, w);
      assert "udp"[0] != "tcp"[0];
    }
    if AllTcpStated(rules, parses, peer) {
      var rule, p, port :| rule in rules && p in rule.from && port in rule.ports
        && PeerSource(p, parses) == PeerSource(peer, parses) && port.port.None? && port.protocol != Some(UDP);
      assert Range(0, 65535) in PortRanges(port, pods).value;
      assert Grants(p, port, pods, parses, w);
      assert PeerGranted(rule.ports, p, pods, parses, w) && RuleGranted(rule, pods, parses, w);
    }
  }

  /**
   * The code grants what the API documents exactly when every rule without ports has, for
   * each of its peers, all TCP ports stated by some other rule.
   */
  lemma EmptyPortsIff(rules: seq<IngressRule>, pods: seq<Pod>, parses: string -> bool)
    requires !Fails(rules, pods, parses)
    ensures (forall w :: Granted(rules, pods, parses, w) <==> Documented(rules, pods, parses, w))
      <==> (forall rule, peer :: rule in rules && rule.ports == [] && peer in rule.from ==>
        AllTcpStated(rules, parses, peer))
  {
    forall w | Granted(rules, pods, parses, w) ensures Documented(rules, pods, parses, w) {
      var rule :| rule in rules && RuleGranted(rule, pods, parses, w);
      var peer :| peer in rule.from && PeerGranted(rule.ports, peer, pods, parses, w);
      var port :| port in rule.ports && Grants(peer, port, pods, parses, w);
      assert Considered(rule, port);
    }
    forall rule, peer | rule in rules && rule.ports == [] && peer in rule.from
      ensures PeerSource(peer, parses).Some?
      ensures Documented(rules, pods, parses, AllTcpWant(PeerSource(peer, parses).value))
    {
      assert Considered(rule, ALL_TCP) && !RuleFails(rule, pods, parses) && !PeerFails(rule, peer, pods, parses);
      var source := PeerSource(peer, parses).value;
      assert Range(0, 65535) in PortRanges(ALL_TCP, pods).value;
      assert Grants(peer, ALL_TCP, pods, parses, AllTcpWant(source));
    }
    if forall w :: Granted(rules, pods, parses, w) <==> Documented(rules, pods, parses, w) {
      forall rule, peer | rule in rules && rule.ports == [] && peer in rule.from
        ensures AllTcpStated(rules, parses, peer)
      {
        assert Granted(rules, pods, parses, AllTcpWant(PeerSource(peer, parses).value));
        AllTcpGrantedIff(rules, pods, parses, peer);
      }
    }
    if forall rule, peer :: rule in rules && rule.ports == [] && peer in rule.from ==>
      AllTcpStated(rules, parses, peer) {
      forall w | Documented(rules, pods, parses, w) ensures Granted(rules, pods, parses, w) {
        var rule, peer, port :| rule in rules && peer in rule.from && Considered(rule, port)
          && Grants(peer, port, pods, parses, w);
        if port in rule.ports {
          assert PeerGranted(rule.ports, peer, pods, parses, w) && RuleGranted(rule, pods, parses, w);
        } else {
          assert w == AllTcpWant(PeerSource(peer, parses).value);
          AllTcpGrantedIff(rules, pods, parses, peer);
        }
      }
    }
  }

  /** The smallest case where they differ: one rule, one peer, no ports. */
  lemma EmptyPortsGrantNothing(group: string, parses: string -> bool)
    ensures var rules := [IngressRule([Peer(Some(group), None)], [])];
      && !Fails(rules, [], parses)
      && Documented(rules, [], parses, Want("tcp", 0, 65535, Group, group))
      && forall w :: !Granted(rules, [], parses, w)
  {
    var peer := Peer(Some(group), None);
    var rule := IngressRule([peer], []);
    assert Range(0, 65535) in PortRanges(ALL_TCP, []).value;
    assert Considered(rule, ALL_TCP) && Grants(peer, ALL_TCP, [], parses, Want("tcp", 0, 65535, Group, group));
  }

  // ---------------------------------------------------------------- ownership

  lemma SharedLabelsAreClean()
    ensures CleanLabels(SHARED_LABELS) && RAW_DESCRIPTION !in SHARED_LABELS
  {
    assert SHARED_KEY[0] != RAW_DESCRIPTION[0];
    assert Token(SHARED_KEY);
    assert Token(SHARED_VALUE);
  }

  /** A permission described by clean labels carries them again when EC2 reports it. */
  lemma BuiltKeepsLabels(info: IPPermissionInfo, w: Want, labels: Labels, key: string)
    requires BuiltPermission(info, w.protocol, w.fromPort, w.toPort, w.kind, w.id, labels)
    requires CleanLabels(labels) && RAW_DESCRIPTION !in labels && key in labels
    ensures LabelEquals(key, labels[key]).Matches(RawLabels(info.permission))
    ensures info.labels == labels
  {
    var d :| Describes(d, labels)
      && info == IPPermissionInfo(Permission(w.protocol, Some(w.fromPort), Some(w.toPort),
        MakeSource(w.kind, w.id, d)), labels);
    hide Describes, CleanLabels, LabelsForDescription;
    DescribedLabel(labels, d, key);
    SourceDescribed(info.permission, w.kind, w.id, d);
  }

  lemma SourceDescribed(p: Permission, kind: SourceKind, id: string, d: string)
    requires p.source == MakeSource(kind, id, d)
    ensures RawLabels(p) == LabelsForDescription(d)
  {
  }

  lemma DescribedLabel(labels: Labels, d: string, key: string)
    requires Describes(d, labels) && CleanLabels(labels) && RAW_DESCRIPTION !in labels && key in labels
    ensures key in LabelsForDescription(d) && LabelsForDescription(d)[key] == labels[key]
  {
    LabelRoundTrip(labels, d);
    var all := labels[RAW_DESCRIPTION := d];
    assert all[key] == labels[key];
  }

  /**
   * Every permission granted for a binding is recognised as the controller's own when EC2
   * reports it back: its description parses to labels that the shared selector accepts.
   */
  lemma GrantedIsOwned(info: IPPermissionInfo, w: Want)
    requires Realised(info, w)
    ensures SHARED.Matches(RawLabels(info.permission))
    ensures SHARED.Matches(info.labels)
  {
    SharedLabelsAreClean();
    BuiltKeepsLabels(info, w, SHARED_LABELS, SHARED_KEY);
  }
}
