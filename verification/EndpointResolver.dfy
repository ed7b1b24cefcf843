/**
 * Resolving a Service's endpoints to pods (pkg/backend/endpoint_resolver.go).
 */
module EndpointResolver {
  import opened Text
  import opened Targets

  datatype ConditionStatus = ConditionTrue | ConditionFalse | ConditionUnknown
  datatype PodCondition = PodCondition(status: ConditionStatus, reason: string, message: string)

  datatype Pod = Pod(name: string, uid: string, readinessGates: seq<string>, containersReady: bool,
      conditions: map<string, PodCondition>)

  /** The outcome of looking a pod up in the pod repository. */
  datatype Lookup = Found(pod: Pod) | Missing | LookupFailed

  datatype Address = Address(ip: string, podRef: Option<string>)
  datatype EndpointPort = EndpointPort(name: string, port: int)
  datatype Subset = Subset(ports: seq<EndpointPort>, addresses: seq<Address>, notReadyAddresses: seq<Address>)

  datatype PodEndpoint = PodEndpoint(ip: string, port: int, pod: Pod)

  datatype Resolution = Resolved(endpoints: seq<PodEndpoint>, potentialReady: bool) | BackendNotFound | ResolveFailed

  type Repo = string -> Lookup

  // ---------------------------------------------------------------- what is to be resolved

  predicate Gated(pod: Pod, gate: string) { gate in pod.readinessGates }

  predicate PortSelected(p: EndpointPort, svcPortName: string) { svcPortName == "" || svcPortName == p.name }

  /** A ready address stands for its pod. */
  predicate FromReady(a: Address, port: int, repo: Repo, e: PodEndpoint) {
    a.podRef.Some? && repo(a.podRef.value) == Found(e.pod) && e == PodEndpoint(a.ip, port, e.pod)
  }

  /** A not-ready address stands for its pod if only the readiness gate holds the pod back. */
  predicate FromNotReady(a: Address, port: int, repo: Repo, gate: string, e: PodEndpoint) {
    FromReady(a, port, repo, e) && Gated(e.pod, gate) && e.pod.containersReady
  }

  /** A not-ready address that may yet become an endpoint. */
  predicate Potential(a: Address, repo: Repo, gate: string) {
    && a.podRef.Some?
    && match repo(a.podRef.value)
       case Missing => true
       case Found(pod) => Gated(pod, gate) && !pod.containersReady
       case LookupFailed => false
  }

  /** What the pod at an address may be later: any pod if it is missing, else one with the same readiness gates. */
  ghost predicate MayBe(found: Lookup, later: Pod) {
    found.Missing? || (found.Found? && later.readinessGates == found.pod.readinessGates)
  }

  /** A not-ready address is potential if it gives no endpoint now and may give one later. */
  lemma PotentialIff(a: Address, port: int, repo: Repo, gate: string)
    requires a.podRef.Some? ==> !repo(a.podRef.value).LookupFailed?
    ensures Potential(a, repo, gate) <==>
      && a.podRef.Some?
      && (forall e :: !FromNotReady(a, port, repo, gate, e))
      && exists later ::
        MayBe(repo(a.podRef.value), later)
          && FromNotReady(a, port, _ => Found(later), gate, PodEndpoint(a.ip, port, later))
  {
    if a.podRef.Some? {
      var found := repo(a.podRef.value);
      if found.Missing? {
        assert MayBe(found, Pod("", "", [gate], true, map[]));
      } else {
        assert FromNotReady(a, port, repo, gate, PodEndpoint(a.ip, port, found.pod)) <==>
          Gated(found.pod, gate) && found.pod.containersReady;
        assert MayBe(found, found.pod.(containersReady := true));
      }
    }
  }

  ghost predicate EndpointOf(s: Subset, p: EndpointPort, repo: Repo, gate: string, e: PodEndpoint) {
    || (exists a <- s.addresses :: FromReady(a, p.port, repo, e))
    || (exists a <- s.notReadyAddresses :: FromNotReady(a, p.port, repo, gate, e))
  }

  ghost predicate IsEndpoint(subsets: seq<Subset>, svcPortName: string, repo: Repo, gate: string, e: PodEndpoint) {
    exists s <- subsets, p <- s.ports :: PortSelected(p, svcPortName) && EndpointOf(s, p, repo, gate, e)
  }

  ghost predicate SubsetPotential(s: Subset, svcPortName: string, repo: Repo, gate: string) {
    (exists p <- s.ports :: PortSelected(p, svcPortName))
      && (exists a <- s.notReadyAddresses :: Potential(a, repo, gate))
  }

  /** Ready addresses need their pods; for the others it is enough that the lookup works. */
  ghost predicate SubsetResolvable(s: Subset, svcPortName: string, repo: Repo) {
    (exists p <- s.ports :: PortSelected(p, svcPortName)) ==>
      && (forall a <- s.addresses :: a.podRef.Some? ==> repo(a.podRef.value).Found?)
      && (forall a <- s.notReadyAddresses :: a.podRef.Some? ==> !repo(a.podRef.value).LookupFailed?)
  }

  // ---------------------------------------------------------------- the loops

  method ResolveReady(addresses: seq<Address>, port: int, repo: Repo) returns (ok: bool, endpoints: seq<PodEndpoint>)
    ensures ok <==> forall a <- addresses :: a.podRef.Some? ==> repo(a.podRef.value).Found?
    ensures ok ==> forall e :: e in endpoints <==> exists a <- addresses :: FromReady(a, port, repo, e)
  {
    endpoints := [];
    for i := 0 to |addresses|
      invariant forall a <- addresses[..i] :: a.podRef.Some? ==> repo(a.podRef.value).Found?
      invariant forall e :: e in endpoints <==> exists a <- addresses[..i] :: FromReady(a, port, repo, e)
    {
      var a := addresses[i];
      assert addresses[..i + 1] == addresses[..i] + [a];
      if a.podRef.None? { continue; }
      var found := repo(a.podRef.value);
      if !found.Found? { return false, []; }
      var e := PodEndpoint(a.ip, port, found.pod);
      assert FromReady(a, port, repo, e);
      endpoints := endpoints + [e];
    }
    assert addresses[..|addresses|] == addresses;
    return true, endpoints;
  }

  method ResolveNotReady(addresses: seq<Address>, port: int, repo: Repo, gate: string)
      returns (ok: bool, endpoints: seq<PodEndpoint>, potential: bool)
    ensures ok <==> forall a <- addresses :: a.podRef.Some? ==> !repo(a.podRef.value).LookupFailed?
    ensures ok ==> forall e :: e in endpoints <==> exists a <- addresses :: FromNotReady(a, port, repo, gate, e)
    ensures ok ==> (potential <==> exists a <- addresses :: Potential(a, repo, gate))
  {
    endpoints, potential := [], false;
    for i := 0 to |addresses|
      invariant forall a <- addresses[..i] :: a.podRef.Some? ==> !repo(a.podRef.value).LookupFailed?
      invariant forall e :: e in endpoints <==> exists a <- addresses[..i] :: FromNotReady(a, port, repo, gate, e)
      invariant potential <==> exists a <- addresses[..i] :: Potential(a, repo, gate)
    {
      var a := addresses[i];
      assert addresses[..i + 1] == addresses[..i] + [a];
      if a.podRef.None? { continue; }
      var found := repo(a.podRef.value);
      if found.LookupFailed? { return false, [], false; }
      if found.Missing? { assert Potential(a, repo, gate); potential := true; continue; }
      if !Gated(found.pod, gate) { continue; }
      if !found.pod.containersReady { assert Potential(a, repo, gate); potential := true; continue; }
      var e := PodEndpoint(a.ip, port, found.pod);
      assert FromNotReady(a, port, repo, gate, e);
      endpoints := endpoints + [e];
    }
    assert addresses[..|addresses|] == addresses;
    return true, endpoints, potential;
  }

  method ResolveSubset(s: Subset, svcPortName: string, repo: Repo, gate: string)
      returns (ok: bool, endpoints: seq<PodEndpoint>, potential: bool)
    ensures ok <==> SubsetResolvable(s, svcPortName, repo)
    ensures ok ==> forall e :: e in endpoints <==>
      exists p <- s.ports :: PortSelected(p, svcPortName) && EndpointOf(s, p, repo, gate, e)
    ensures ok ==> (potential <==> SubsetPotential(s, svcPortName, repo, gate))
  {
    endpoints, potential := [], false;
    for i := 0 to |s.ports|
      invariant forall e :: e in endpoints <==>
        exists p <- s.ports[..i] :: PortSelected(p, svcPortName) && EndpointOf(s, p, repo, gate, e)
      invariant SubsetResolvable(s.(ports := s.ports[..i]), svcPortName, repo)
      invariant potential <==>
        (exists p <- s.ports[..i] :: PortSelected(p, svcPortName))
          && (exists a <- s.notReadyAddresses :: Potential(a, repo, gate))
    {
      var p := s.ports[i];
      assert s.ports[..i + 1] == s.ports[..i] + [p];
      if svcPortName != "" && svcPortName != p.name { continue; }
      assert PortSelected(p, svcPortName);
      var okReady, ready := ResolveReady(s.addresses, p.port, repo);
      if !okReady { return false, [], false; }
      var okNotReady, notReady, more := ResolveNotReady(s.notReadyAddresses, p.port, repo, gate);
      if !okNotReady { return false, [], false; }
      assert forall e :: e in ready + notReady <==> EndpointOf(s, p, repo, gate, e);
      endpoints := endpoints + (ready + notReady);
      potential := potential || more;
    }
    assert s.ports[..|s.ports|] == s.ports;
    return true, endpoints, potential;
  }

  /** `subsets` is absent when the Service, its port or its Endpoints object does not exist. */
  method ResolvePodEndpoints(subsets: Option<seq<Subset>>, svcPortName: string, repo: Repo, gate: string)
      returns (r: Resolution)
    ensures r.BackendNotFound? <==> subsets.None?
    ensures r.ResolveFailed? <==> subsets.Some? && exists s <- subsets.value :: !SubsetResolvable(s, svcPortName, repo)
    ensures r.Resolved? ==> forall e :: e in r.endpoints <==> IsEndpoint(subsets.value, svcPortName, repo, gate, e)
    ensures r.Resolved? ==>
      (r.potentialReady <==> exists s <- subsets.value :: SubsetPotential(s, svcPortName, repo, gate))
  {
    if subsets.None? { return BackendNotFound; }
    var all := subsets.value;
    var endpoints: seq<PodEndpoint>, potential := [], false;
    for i := 0 to |all|
      invariant forall s <- all[..i] :: SubsetResolvable(s, svcPortName, repo)
      invariant forall e :: e in endpoints <==> IsEndpoint(all[..i], svcPortName, repo, gate, e)
      invariant potential <==> exists s <- all[..i] :: SubsetPotential(s, svcPortName, repo, gate)
    {
      assert all[..i + 1] == all[..i] + [all[i]];
      var ok, more, morePotential := ResolveSubset(all[i], svcPortName, repo, gate);
      if !ok { return ResolveFailed; }
      endpoints := endpoints + more;
      potential := potential || morePotential;
    }
    assert all[..|all|] == all;
    return Resolved(endpoints, potential);
  }
}
