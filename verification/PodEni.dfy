/**
 * Resolving the network interface behind each pod: a cache, then a lookup by annotation, then
 * a lookup by IP address for the pods still missing (pkg/networking/pod_eni_info_resolver.go).
 * What is cached is explained by the pods that were asked about: each entry belonged to one of
 * its key by annotation or address, and exactly when to one of its UID.
 */
module PodEni {
  import opened Text

  type PodKey = (string, string)

  datatype Annotation = Annotation(eniID: string, privateIP: string)
  datatype Pod = Pod(key: PodKey, uid: string, ip: string, eniInfos: seq<Annotation>)
  datatype Eni = Eni(id: string, privateIPs: seq<string>, securityGroups: seq<string>)

  type Infos = map<PodKey, Eni>

  datatype Lookup = Found(infos: Infos) | LookupFailed

  const CHUNK_SIZE: nat := 199

  function KeysOf(pods: seq<Pod>): set<PodKey> { set p | p in pods :: p.key }

  lemma KeysOfSnoc(pods: seq<Pod>, p: Pod)
    ensures KeysOf(pods + [p]) == KeysOf(pods) + {p.key}
  {
    assert p in pods + [p];
    assert forall q <- pods :: q in pods + [p];
  }

  lemma {:induction false} FewKeys(pods: seq<Pod>)
    ensures |KeysOf(pods)| <= |pods|
  {
    if pods != [] {
      var n := |pods| - 1;
      FewKeys(pods[..n]);
      assert pods == pods[..n] + [pods[n]];
      KeysOfSnoc(pods[..n], pods[n]);
    }
  }

  lemma SubsetSize<T>(a: set<T>, b: set<T>)
    requires a <= b
    ensures |a| <= |b|
  {
    assert b == a + (b - a);
  }

  /** What is resolved for some of the pods never outnumbers them, duplicates included. */
  lemma NoMoreThanPods(pods: seq<Pod>, infos: Infos)
    requires infos.Keys <= KeysOf(pods)
    ensures |infos| <= |pods|
  {
    FewKeys(pods);
    SubsetSize(infos.Keys, KeysOf(pods));
    assert |infos| == |infos.Keys|;
  }

  /** The result is allocated with capacity |pods| - |infos|, which must not be negative. */
  method ComputePodsWithoutENIInfo(pods: seq<Pod>, infos: Infos) returns (rest: seq<Pod>)
    requires |infos| <= |pods|
    ensures forall p :: p in rest <==> p in pods && p.key !in infos
    ensures KeysOf(rest) == KeysOf(pods) - infos.Keys
  {
    rest := [];
    for i := 0 to |pods|
      invariant forall p :: p in rest <==> p in pods[..i] && p.key !in infos
    {
      assert pods[..i + 1] == pods[..i] + [pods[i]];
      if pods[i].key !in infos { rest := rest + [pods[i]]; }
    }
    assert pods[..|pods|] == pods;
  }

  // ---------------------------------------------------------------- where an interface may come from

  /** The last annotated interface with the pod's IP. */
  function AnnotatedENI(p: Pod): string { AnnotatedIn(p.eniInfos, p.ip) }

  function AnnotatedIn(infos: seq<Annotation>, ip: string): string {
    if infos == [] then ""
    else if infos[|infos| - 1].privateIP == ip then infos[|infos| - 1].eniID
    else AnnotatedIn(infos[..|infos| - 1], ip)
  }

  /** The last entry for the address. */
  ghost predicate LastFor(infos: seq<Annotation>, ip: string, i: nat) {
    i < |infos| && infos[i].privateIP == ip && forall j :: i < j < |infos| ==> infos[j].privateIP != ip
  }

  lemma {:induction false} LastAnnotationCounts(infos: seq<Annotation>, ip: string, i: nat)
    requires LastFor(infos, ip, i)
    ensures AnnotatedIn(infos, ip) == infos[i].eniID
  {
    if i < |infos| - 1 { LastAnnotationCounts(infos[..|infos| - 1], ip, i); }
  }

  lemma {:induction false} OtherAnnotationsDoNot(infos: seq<Annotation>, ip: string)
    requires forall i: nat :: !LastFor(infos, ip, i)
    ensures AnnotatedIn(infos, ip) == ""
  {
    if infos != [] {
      var n := |infos| - 1;
      assert !LastFor(infos, ip, n);
      forall i: nat ensures !LastFor(infos[..n], ip, i) {
        if LastFor(infos[..n], ip, i) { assert LastFor(infos, ip, i); }
      }
      OtherAnnotationsDoNot(infos[..n], ip);
    }
  }

  /** The annotation names an interface for the pod's address if its last entry for the address does. */
  lemma AnnotatedIff(p: Pod, id: string)
    requires id != ""
    ensures AnnotatedENI(p) == id <==> exists i: nat :: LastFor(p.eniInfos, p.ip, i) && p.eniInfos[i].eniID == id
  {
    if i: nat :| LastFor(p.eniInfos, p.ip, i) {
      forall k: nat | LastFor(p.eniInfos, p.ip, k) ensures AnnotatedENI(p) == p.eniInfos[k].eniID {
        LastAnnotationCounts(p.eniInfos, p.ip, k);
      }
    } else {
      OtherAnnotationsDoNot(p.eniInfos, p.ip);
    }
  }

  predicate ByAnnotation(p: Pod, e: Eni) { e.id != "" && e.id == AnnotatedENI(p) }
  predicate ByAddress(p: Pod, e: Eni) { p.ip in e.privateIPs }

  ghost predicate From(pods: seq<Pod>, infos: Infos, how: (Pod, Eni) -> bool) {
    forall k <- infos :: exists p <- pods :: p.key == k && how(p, infos[k])
  }

  lemma FromKeys(pods: seq<Pod>, infos: Infos, how: (Pod, Eni) -> bool)
    requires From(pods, infos, how)
    ensures infos.Keys <= KeysOf(pods) && |infos| <= |pods|
  {
    forall k | k in infos ensures k in KeysOf(pods) { var p :| p in pods && p.key == k; }
    NoMoreThanPods(pods, infos);
  }

  // ---------------------------------------------------------------- the lookups

  /** The pod's annotation names an interface that exists. */
  predicate HasAnnotated(enis: map<string, Eni>, p: Pod) { AnnotatedENI(p) != "" && AnnotatedENI(p) in enis }

  /** The answers are interfaces as they are. */
  ghost predicate Actual(enis: map<string, Eni>, infos: Infos) {
    forall k <- infos :: infos[k].id in enis && enis[infos[k].id] == infos[k]
  }

  /** Where a pod's annotation names an interface, the answer for its key is by annotation. */
  ghost predicate AnnotationFirst(enis: map<string, Eni>, pods: seq<Pod>, infos: Infos) {
    forall p <- pods :: HasAnnotated(enis, p) ==> p.key in infos && exists q <- pods ::
      q.key == p.key && ByAnnotation(q, infos[p.key])
  }

  ghost predicate HasAddress(enis: map<string, Eni>, p: Pod) { exists id <- enis :: p.ip in enis[id].privateIPs }

  predicate AnyAddress(e: Eni, ips: set<string>) { exists ip <- e.privateIPs :: ip in ips }

  predicate ValidEnis(enis: map<string, Eni>) { forall id <- enis :: enis[id].id == id }

  /** The field `faults` counts failed calls. */
  class Network {
    var enis: map<string, Eni>
    var faults: nat

    ghost predicate Valid() reads this { ValidEnis(enis) }

    /** Interfaces come and go. */
    method ChangeInterfaces(after: map<string, Eni>)
      requires ValidEnis(after)
      modifies this
      ensures Valid() && enis == after && faults == old(faults)
    {
      enis := after;
    }

    /** Reports the interfaces asked for by ID, and those that have one of the addresses. */
    method DescribeNetworkInterfaces(ids: set<string>, ips: set<string>) returns (ok: bool, found: map<string, Eni>)
      requires Valid()
      modifies this`faults
      ensures faults >= old(faults) && (!ok ==> faults > old(faults))
      ensures ok ==> forall id :: id in found <==> id in enis && (id in ids || AnyAddress(enis[id], ips))
      ensures ok ==> forall id <- found :: found[id] == enis[id]
    {
      ok := *;
      if !ok { faults := faults + 1; return false, map[]; }
      found := map id | id in enis && (id in ids || AnyAddress(enis[id], ips)) :: enis[id];
    }
  }

  /** Groups pod keys: a key is in the group that one of its pods is for, if that has a name. */
  ghost predicate Grouped(groups: map<string, seq<PodKey>>, pods: seq<Pod>, of: Pod -> string) {
    && (forall g <- groups, k <- groups[g] :: exists p <- pods :: p.key == k && of(p) == g)
    && (forall p <- pods :: of(p) != "" ==> of(p) in groups && p.key in groups[of(p)])
  }

  method ResolveViaPodENIAnnotation(network: Network, pods: seq<Pod>) returns (r: Lookup)
    requires network.Valid()
    modifies network`faults
    ensures network.faults >= old(network.faults) && (r.LookupFailed? ==> network.faults > old(network.faults))
    ensures r.Found? ==> From(pods, r.infos, ByAnnotation) && Actual(network.enis, r.infos)
    ensures r.Found? ==> forall p <- pods :: HasAnnotated(network.enis, p) ==> p.key in r.infos
  {
    hide AnnotatedENI, ByAnnotation, From, Actual;
    var byENI := GroupByAnnotation(pods);
    NothingFound(pods, network.enis);
    if byENI == map[] { return Found(map[]); }
    var ok, enis := network.DescribeNetworkInterfaces(byENI.Keys, {});
    if !ok { return LookupFailed; }
    var infos: Infos := map[];
    var todo := enis.Keys;
    while todo != {}
      invariant todo <= enis.Keys && From(pods, infos, ByAnnotation) && Actual(network.enis, infos)
      invariant forall p <- pods :: AnnotatedENI(p) in enis.Keys - todo && AnnotatedENI(p) != "" ==> p.key in infos
      modifies {}
      decreases todo
    {
      var id := Pick(todo);
      assert enis[id].id == id && id in byENI;
      infos := AssignAnnotated(infos, byENI[id], enis[id], pods, network.enis);
      todo := todo - {id};
    }
    return Found(infos);
  }

  lemma NothingFound(pods: seq<Pod>, enis: map<string, Eni>)
    ensures From(pods, map[], ByAnnotation) && Actual(enis, map[])
  {
  }

  method GroupByAnnotation(pods: seq<Pod>) returns (byENI: map<string, seq<PodKey>>)
    ensures Grouped(byENI, pods, AnnotatedENI) && "" !in byENI
  {
    byENI := map[];
    for i := 0 to |pods|
      invariant Grouped(byENI, pods[..i], AnnotatedENI) && "" !in byENI
    {
      var eniID := LastAnnotated(pods[i]);
      assert pods[..i + 1] == pods[..i] + [pods[i]];
      if |eniID| == 0 { continue; }
      byENI := byENI[eniID := (if eniID in byENI then byENI[eniID] else []) + [pods[i].key]];
    }
    assert pods[..|pods|] == pods;
  }

  method AssignAnnotated(infos: Infos, keys: seq<PodKey>, e: Eni, ghost pods: seq<Pod>, ghost enis: map<string, Eni>)
      returns (r: Infos)
    requires From(pods, infos, ByAnnotation) && Actual(enis, infos)
    requires e.id != "" && e.id in enis && enis[e.id] == e
    requires forall k <- keys :: exists p <- pods :: p.key == k && AnnotatedENI(p) == e.id
    requires forall p <- pods :: AnnotatedENI(p) == e.id ==> p.key in keys
    ensures From(pods, r, ByAnnotation) && Actual(enis, r) && infos.Keys <= r.Keys
    ensures forall p <- pods :: AnnotatedENI(p) == e.id ==> p.key in r
  {
    hide AnnotatedENI;
    r := Assign(infos, keys, e, pods, ByAnnotation);
    assert forall p <- pods :: AnnotatedENI(p) == e.id ==> p.key in Elements(keys);
  }

  method LastAnnotated(pod: Pod) returns (eniID: string)
    ensures eniID == AnnotatedENI(pod)
  {
    eniID := "";
    for i := 0 to |pod.eniInfos|
      invariant eniID == AnnotatedIn(pod.eniInfos[..i], pod.ip)
    {
      assert pod.eniInfos[..i + 1][..i] == pod.eniInfos[..i];
      if pod.eniInfos[i].privateIP == pod.ip { eniID := pod.eniInfos[i].eniID; }
    }
    assert pod.eniInfos[..|pod.eniInfos|] == pod.eniInfos;
  }

  method Assign(infos: Infos, keys: seq<PodKey>, e: Eni, ghost pods: seq<Pod>, ghost how: (Pod, Eni) -> bool)
      returns (r: Infos)
    requires From(pods, infos, how) && forall k <- keys :: exists p <- pods :: p.key == k && how(p, e)
    ensures From(pods, r, how) && r.Keys == infos.Keys + Elements(keys)
    ensures forall k <- r :: r[k] == e || (k in infos && r[k] == infos[k])
  {
    r := infos;
    for i := 0 to |keys|
      invariant From(pods, r, how) && r.Keys == infos.Keys + Elements(keys[..i])
      invariant forall k <- r :: r[k] == e || (k in infos && r[k] == infos[k])
    {
      assert Elements(keys[..i + 1]) == Elements(keys[..i]) + {keys[i]};
      assert keys[i] in keys;
      r := r[keys[i] := e];
    }
    assert keys[..|keys|] == keys;
  }

  function IPOf(p: Pod): string { p.ip }

  method GroupByIP(pods: seq<Pod>) returns (byIP: map<string, seq<PodKey>>)
    ensures Grouped(byIP, pods, IPOf) && forall p <- pods :: p.ip in byIP && p.key in byIP[p.ip]
  {
    byIP := map[];
    for i := 0 to |pods|
      invariant Grouped(byIP, pods[..i], IPOf) && forall p <- pods[..i] :: p.ip in byIP && p.key in byIP[p.ip]
    {
      assert pods[..i + 1] == pods[..i] + [pods[i]];
      byIP := byIP[pods[i].ip := (if pods[i].ip in byIP then byIP[pods[i].ip] else []) + [pods[i].key]];
    }
    assert pods[..|pods|] == pods;
  }

  /** The interfaces with any of the addresses, asked for in chunks. */
  method InterfacesWith(network: Network, ips: seq<string>) returns (ok: bool, eniByID: map<string, Eni>)
    requires network.Valid()
    modifies network`faults
    ensures network.faults >= old(network.faults) && (!ok ==> network.faults > old(network.faults))
    ensures ok ==> forall id :: id in eniByID <==> id in network.enis && AnyAddress(network.enis[id], Elements(ips))
    ensures ok ==> forall id <- eniByID :: eniByID[id] == network.enis[id]
  {
    eniByID := map[];
    var start := 0;
    while start < |ips|
      invariant 0 <= start <= |ips| && network.faults >= old(network.faults)
      invariant forall id :: id in eniByID <==>
        id in network.enis && AnyAddress(network.enis[id], Elements(ips[..start]))
      invariant forall id <- eniByID :: eniByID[id] == network.enis[id]
    {
      var end := if start + CHUNK_SIZE < |ips| then start + CHUNK_SIZE else |ips|;
      var enis;
      ok, enis := network.DescribeNetworkInterfaces({}, Elements(ips[start..end]));
      if !ok { return; }
      assert ips[..end] == ips[..start] + ips[start..end];
      assert Elements(ips[..end]) == Elements(ips[..start]) + Elements(ips[start..end]);
      forall e: Eni ensures AnyAddress(e, Elements(ips[..end])) <==>
        AnyAddress(e, Elements(ips[..start])) || AnyAddress(e, Elements(ips[start..end])) { }
      eniByID := eniByID + enis;
      start := end;
    }
    assert ips[..|ips|] == ips;
    ok := true;
  }

  /** Resolves exactly the pods whose address some interface has. */
  method ResolveViaVPCIPAddress(network: Network, pods: seq<Pod>) returns (r: Lookup)
    requires network.Valid()
    modifies network`faults
    ensures network.faults >= old(network.faults) && (r.LookupFailed? ==> network.faults > old(network.faults))
    ensures r.Found? ==> From(pods, r.infos, ByAddress) && Actual(network.enis, r.infos)
    ensures r.Found? ==> forall p <- pods :: HasAddress(network.enis, p) ==> p.key in r.infos
  {
    hide From, Actual, ByAddress;
    var byIP := GroupByIP(pods);
    NothingFoundByAddress(pods, network.enis);
    if byIP == map[] { return Found(map[]); }
    var ips := SortedList(byIP.Keys);
    var ok, eniByID := InterfacesWith(network, ips);
    if !ok { return LookupFailed; }
    var infos: Infos := map[];
    var todo := eniByID.Keys;
    while todo != {}
      invariant todo <= eniByID.Keys && From(pods, infos, ByAddress) && Actual(network.enis, infos)
      invariant forall id <- eniByID.Keys - todo, p <- pods :: p.ip in eniByID[id].privateIPs ==> p.key in infos
      modifies {}
      decreases todo
    {
      var id := Pick(todo);
      infos := AssignInterface(infos, byIP, eniByID[id], pods, network.enis);
      todo := todo - {id};
    }
    forall p, id | p in pods && id in network.enis && p.ip in network.enis[id].privateIPs ensures p.key in infos {
      assert p.ip in Elements(ips);
      assert AnyAddress(network.enis[id], Elements(ips));
    }
    return Found(infos);
  }

  lemma NothingFoundByAddress(pods: seq<Pod>, enis: map<string, Eni>)
    ensures From(pods, map[], ByAddress) && Actual(enis, map[])
  {
  }

  method AssignAddress(infos: Infos, keys: seq<PodKey>, e: Eni, ghost ip: string, ghost pods: seq<Pod>,
      ghost enis: map<string, Eni>) returns (r: Infos)
    requires From(pods, infos, ByAddress) && Actual(enis, infos) && e.id in enis && enis[e.id] == e
    requires ip in e.privateIPs && forall k <- keys :: exists p <- pods :: p.key == k && p.ip == ip
    ensures From(pods, r, ByAddress) && Actual(enis, r) && infos.Keys <= r.Keys && forall k <- keys :: k in r
  {
    r := Assign(infos, keys, e, pods, ByAddress);
    assert forall k <- keys :: k in Elements(keys);
  }

  method AssignInterface(infos: Infos, byIP: map<string, seq<PodKey>>, e: Eni, ghost pods: seq<Pod>,
      ghost enis: map<string, Eni>) returns (r: Infos)
    requires From(pods, infos, ByAddress) && Actual(enis, infos) && e.id in enis && enis[e.id] == e
    requires Grouped(byIP, pods, IPOf) && forall p <- pods :: p.ip in byIP && p.key in byIP[p.ip]
    ensures From(pods, r, ByAddress) && Actual(enis, r) && infos.Keys <= r.Keys
    ensures forall p <- pods :: p.ip in e.privateIPs ==> p.key in r
  {
    hide From, Actual, ByAddress;
    r := infos;
    for i := 0 to |e.privateIPs|
      invariant From(pods, r, ByAddress) && Actual(enis, r) && infos.Keys <= r.Keys
      invariant forall p <- pods :: p.ip in e.privateIPs[..i] ==> p.key in r
    {
      assert e.privateIPs[..i + 1] == e.privateIPs[..i] + [e.privateIPs[i]];
      var keys := if e.privateIPs[i] in byIP then byIP[e.privateIPs[i]] else [];
      r := AssignAddress(r, keys, e, e.privateIPs[i], pods, enis);
    }
    assert e.privateIPs[..|e.privateIPs|] == e.privateIPs;
  }

  predicate ByLookup(p: Pod, e: Eni) { ByAnnotation(p, e) || ByAddress(p, e) }

  /** The second lookup is only asked about pods that the first did not resolve. */
  method ResolveViaCascadedLookup(network: Network, pods: seq<Pod>) returns (r: Lookup)
    requires network.Valid()
    modifies network`faults
    ensures network.faults >= old(network.faults) && (r.LookupFailed? ==> network.faults > old(network.faults))
    ensures r.Found? ==> From(pods, r.infos, ByLookup) && Actual(network.enis, r.infos)
    ensures r.Found? ==> AnnotationFirst(network.enis, pods, r.infos)
    ensures r.Found? ==> forall p <- pods :: HasAddress(network.enis, p) ==> p.key in r.infos
  {
    if |pods| == 0 { return Found(map[]); }
    var first := ResolveViaPodENIAnnotation(network, pods);
    if first.LookupFailed? { return LookupFailed; }
    FromKeys(pods, first.infos, ByAnnotation);
    var rest := ComputePodsWithoutENIInfo(pods, first.infos);
    if |rest| == 0 {
      forall p | p in pods ensures p.key in first.infos { assert p.key in first.infos || p in rest; }
      return first;
    }
    var second := ResolveViaVPCIPAddress(network, rest);
    if second.LookupFailed? { return LookupFailed; }
    FromKeys(rest, second.infos, ByAddress);
    var left := ComputePodsWithoutENIInfo(rest, second.infos);
    return Found(first.infos + second.infos);
  }

  // ---------------------------------------------------------------- the resolver

  type CacheKey = (PodKey, string)

  function CacheKeyOf(p: Pod): CacheKey { (p.key, p.uid) }

  /** Every cached answer belonged to a pod of that key, by annotation or by address, when it was asked about. */
  ghost predicate ByKey(cache: map<CacheKey, Eni>, asked: seq<Pod>) {
    forall c <- cache :: exists p <- asked :: p.key == c.0 && ByLookup(p, cache[c])
  }

  /** The same, and the pod had that UID too. */
  ghost predicate ByUID(cache: map<CacheKey, Eni>, asked: seq<Pod>) {
    forall c <- cache :: exists p <- asked :: CacheKeyOf(p) == c && ByLookup(p, cache[c])
  }

  /** What is cached after an answer: it is stored for every requested pod of an answered key. */
  function Saved(cache: map<CacheKey, Eni>, pods: seq<Pod>, infos: Infos): map<CacheKey, Eni> {
    if pods == [] then cache
    else
      var earlier, p := Saved(cache, pods[..|pods| - 1], infos), pods[|pods| - 1];
      if p.key in infos then earlier[CacheKeyOf(p) := infos[p.key]] else earlier
  }

  ghost predicate Stores(pods: seq<Pod>, infos: Infos, c: CacheKey) {
    exists p <- pods :: p.key in infos && CacheKeyOf(p) == c
  }

  lemma StoresSnoc(pods: seq<Pod>, p: Pod, infos: Infos, c: CacheKey)
    ensures Stores(pods + [p], infos, c) <==> Stores(pods, infos, c) || (p.key in infos && CacheKeyOf(p) == c)
  {
    assert p in pods + [p];
    assert forall q <- pods :: q in pods + [p];
  }

  lemma {:induction false} SavedEntry(cache: map<CacheKey, Eni>, pods: seq<Pod>, infos: Infos, c: CacheKey)
    ensures var saved := Saved(cache, pods, infos);
      if Stores(pods, infos, c) then c in saved && saved[c] == infos[c.0]
      else (c in saved <==> c in cache) && (c in cache ==> saved[c] == cache[c])
  {
    if pods != [] {
      var n := |pods| - 1;
      SavedEntry(cache, pods[..n], infos, c);
      StoresSnoc(pods[..n], pods[n], infos, c);
      assert pods == pods[..n] + [pods[n]];
    }
  }

  class PodENIInfoResolver {
    const network: Network
    var cache: map<CacheKey, Eni>
    ghost var asked: seq<Pod>

    ghost predicate Valid() reads this, network { network.Valid() && ByKey(cache, asked) }

    constructor (network: Network)
      requires network.Valid()
      ensures Valid() && this.network == network && cache == map[] && asked == []
    {
      this.network := network;
      cache := map[];
      asked := [];
    }

    /** Entries expire on their own. */
    method Expire(k: CacheKey)
      requires Valid()
      modifies this`cache
      ensures Valid() && cache == old(cache) - {k}
      ensures old(ByUID(cache, asked)) ==> ByUID(cache, asked)
    {
      cache := cache - {k};
    }

    method FetchENIInfosFromCache(pods: seq<Pod>) returns (infos: Infos)
      ensures forall p <- pods :: CacheKeyOf(p) in cache ==> p.key in infos
      ensures forall k <- infos :: exists p <- pods ::
        p.key == k && CacheKeyOf(p) in cache && cache[CacheKeyOf(p)] == infos[k]
    {
      infos := map[];
      for i := 0 to |pods|
        invariant forall k :: 0 <= k < i && CacheKeyOf(pods[k]) in cache ==> pods[k].key in infos
        invariant forall k <- infos :: exists p <- pods ::
          p.key == k && CacheKeyOf(p) in cache && cache[CacheKeyOf(p)] == infos[k]
      {
        if CacheKeyOf(pods[i]) in cache { infos := infos[pods[i].key := cache[CacheKeyOf(pods[i])]]; }
      }
    }

    method SaveENIInfosToCache(pods: seq<Pod>, infos: Infos)
      modifies this`cache
      ensures cache == Saved(old(cache), pods, infos)
    {
      for i := 0 to |pods|
        invariant cache == Saved(old(cache), pods[..i], infos)
      {
        assert pods[..i + 1][..i] == pods[..i];
        var p := pods[i];
        if p.key in infos { cache := cache[CacheKeyOf(p) := infos[p.key]]; }
      }
      assert pods[..|pods|] == pods;
    }

    /**
     * Answers for exactly the requested pods, or fails: a call failed, or some pod is neither
     * cached nor has an address of any interface. Each answer was cached for a requested
     * pod of that key and UID, or belongs to one by annotation or by address; what is cached
     * belonged to a pod of that key, and of that UID too if all requests are alike per key.
     */
    method Resolve(pods: seq<Pod>) returns (r: Lookup)
      requires Valid()
      modifies this, network`faults
      ensures Valid() && asked == old(asked) + pods
      ensures old(ByUID(cache, asked)) && Alike(pods) ==> ByUID(cache, asked)
      ensures r.Found? ==> r.infos.Keys == KeysOf(pods)
      ensures r.LookupFailed? && network.faults == old(network.faults) ==>
        exists p <- pods ::
          CacheKeyOf(p) !in old(cache) && !HasAddress(network.enis, p) && !HasAnnotated(network.enis, p)
      ensures r.Found? ==> forall k <- r.infos :: exists p <- pods :: p.key == k && Known(old(cache), p, r.infos[k])
      ensures r.Found? ==> forall k <- r.infos ::
        FromCache(old(cache), pods, k, r.infos[k]) || Actual(network.enis, map[k := r.infos[k]])
      ensures r.Found? ==> From(asked, r.infos, ByLookup)
      ensures r.Found? && old(ByUID(cache, asked)) && Stable(asked) ==> From(pods, r.infos, ByLookup)
    {
      hide From, Actual, Known, FromCache, ByKey, ByUID, Stable, Alike, HasAddress, HasAnnotated, AnnotationFirst;
      asked := asked + pods;
      AskedMore(cache, old(asked), pods);
      var cached, missing := SplitByCache(pods);
      var lookup := ResolveViaCascadedLookup(network, missing);
      if lookup.LookupFailed? { return LookupFailed; }
      var complete := SaveLookup(old(asked), pods, cached, missing, lookup.infos);
      if !complete { return LookupFailed; }
      var infos := cached + lookup.infos;
      Resolved(pods, missing, cached, lookup.infos, old(cache));
      CachedOrActual(pods, cached, lookup.infos, old(cache), network.enis);
      AnswersBelong(pods, old(asked), old(cache), infos);
      return Found(infos);
    }

    /** What the cache knows, and the pods that it does not know. */
    method SplitByCache(pods: seq<Pod>) returns (cached: Infos, missing: seq<Pod>)
      ensures forall k <- cached :: FromCache(cache, pods, k, cached[k])
      ensures forall k <- cached :: exists p <- pods :: p.key == k && Known(cache, p, cached[k])
      ensures forall p :: p in missing <==> p in pods && p.key !in cached
      ensures forall p <- missing :: CacheKeyOf(p) !in cache
    {
      cached := FetchENIInfosFromCache(pods);
      CachedFacts(pods, cached, cache);
      missing := ComputePodsWithoutENIInfo(pods, cached);
    }

    /** Keeps what was looked up and tells whether it covers all missing pods. */
    method SaveLookup(ghost before: seq<Pod>, ghost pods: seq<Pod>, ghost cached: Infos, missing: seq<Pod>,
        infos: Infos) returns (complete: bool)
      requires From(missing, infos, ByLookup) && asked == before + pods && ByKey(cache, before)
      requires forall p :: p in missing <==> p in pods && p.key !in cached
      modifies this`cache
      ensures ByKey(cache, asked)
      ensures ByUID(old(cache), before) && Alike(pods) ==> ByUID(cache, asked)
      ensures if complete then KeysOf(missing) <= infos.Keys else exists p <- missing :: p.key !in infos
    {
      var unresolved := missing;
      if |infos| > 0 {
        FromKeys(missing, infos, ByLookup);
        SaveENIInfosToCache(missing, infos);
        SavedBelongs(old(cache), before, pods, cached, missing, infos);
        unresolved := ComputePodsWithoutENIInfo(missing, infos);
      } else {
        AskedMore(cache, before, pods);
      }
      complete := |unresolved| == 0;
      if !complete { assert unresolved[0] in unresolved; }
      assert complete ==> KeysOf(unresolved) == {};
    }
  }

  /** The answer was cached for a requested pod of the key and its UID. */
  ghost predicate FromCache(cache: map<CacheKey, Eni>, pods: seq<Pod>, k: PodKey, e: Eni) {
    exists p <- pods :: p.key == k && CacheKeyOf(p) in cache && cache[CacheKeyOf(p)] == e
  }

  lemma CachedOrActual(pods: seq<Pod>, cached: Infos, looked: Infos, cache: map<CacheKey, Eni>, enis: map<string, Eni>)
    requires Actual(enis, looked) && forall k <- cached :: FromCache(cache, pods, k, cached[k])
    ensures forall k <- cached + looked ::
      FromCache(cache, pods, k, (cached + looked)[k]) || Actual(enis, map[k := (cached + looked)[k]])
  {
    hide FromCache;
  }

  predicate Known(cache: map<CacheKey, Eni>, p: Pod, e: Eni) {
    (CacheKeyOf(p) in cache && cache[CacheKeyOf(p)] == e) || ByLookup(p, e)
  }

  lemma AskedMore(cache: map<CacheKey, Eni>, asked: seq<Pod>, pods: seq<Pod>)
    ensures ByKey(cache, asked) ==> ByKey(cache, asked + pods)
    ensures ByUID(cache, asked) ==> ByUID(cache, asked + pods)
  {
    assert forall p <- asked :: p in asked + pods;
  }

  lemma CachedFacts(pods: seq<Pod>, infos: Infos, cache: map<CacheKey, Eni>)
    requires forall k <- infos :: exists p <- pods ::
      p.key == k && CacheKeyOf(p) in cache && cache[CacheKeyOf(p)] == infos[k]
    ensures |infos| <= |pods|
    ensures forall k <- infos :: exists p <- pods :: p.key == k && Known(cache, p, infos[k])
  {
    forall k | k in infos ensures k in KeysOf(pods) && exists p <- pods :: p.key == k && Known(cache, p, infos[k]) {
      var p :| p in pods && p.key == k && CacheKeyOf(p) in cache && cache[CacheKeyOf(p)] == infos[k];
      assert Known(cache, p, infos[k]);
    }
    NoMoreThanPods(pods, infos);
  }

  lemma Resolved(pods: seq<Pod>, missing: seq<Pod>, cached: Infos, looked: Infos, cache: map<CacheKey, Eni>)
    requires forall p :: p in missing <==> p in pods && p.key !in cached
    requires forall k <- cached :: exists p <- pods :: p.key == k && Known(cache, p, cached[k])
    requires From(missing, looked, ByLookup) && KeysOf(missing) <= looked.Keys
    ensures (cached + looked).Keys == KeysOf(pods)
    ensures forall k <- cached + looked :: exists p <- pods :: p.key == k && Known(cache, p, (cached + looked)[k])
  {
    forall k | k in cached + looked ensures exists p <- pods :: p.key == k && Known(cache, p, (cached + looked)[k]) {
      if k in looked {
        var p :| p in missing && p.key == k && ByLookup(p, looked[k]);
        assert Known(cache, p, looked[k]);
      }
    }
    forall p | p in pods ensures p.key in (cached + looked).Keys {
      if p.key !in cached { assert p.key in KeysOf(missing); }
    }
  }

  // ---------------------------------------------------------------- what the cache says over time

  /** Pods of one key and UID keep their address and their annotation. */
  ghost predicate Stable(asked: seq<Pod>) {
    forall p <- asked, q <- asked :: CacheKeyOf(p) == CacheKeyOf(q) ==> p.ip == q.ip && p.eniInfos == q.eniInfos
  }

  lemma KnownIsOwn(asked: seq<Pod>, pods: seq<Pod>, cache: map<CacheKey, Eni>, p: Pod, e: Eni)
    requires p in pods && Known(cache, p, e) && ByUID(cache, asked) && Stable(asked + pods)
    ensures ByLookup(p, e)
  {
    if CacheKeyOf(p) in cache && cache[CacheKeyOf(p)] == e {
      var u :| u in asked && CacheKeyOf(u) == CacheKeyOf(p) && ByLookup(u, e);
      assert u in asked + pods && p in asked + pods;
    }
  }

  lemma KnownIsSomeones(asked: seq<Pod>, pods: seq<Pod>, cache: map<CacheKey, Eni>, p: Pod, e: Eni)
    requires p in pods && Known(cache, p, e) && ByKey(cache, asked)
    ensures exists q <- asked + pods :: q.key == p.key && ByLookup(q, e)
  {
    if ByLookup(p, e) {
      assert p in asked + pods;
    } else {
      var q :| q in asked && q.key == p.key && ByLookup(q, e);
      assert q in asked + pods;
    }
  }

  lemma AnswersBelong(pods: seq<Pod>, asked: seq<Pod>, cache: map<CacheKey, Eni>, infos: Infos)
    requires forall k <- infos :: exists p <- pods :: p.key == k && Known(cache, p, infos[k])
    requires ByKey(cache, asked)
    ensures From(asked + pods, infos, ByLookup)
    ensures ByUID(cache, asked) && Stable(asked + pods) ==> From(pods, infos, ByLookup)
  {
    forall k | k in infos
      ensures exists p <- asked + pods :: p.key == k && ByLookup(p, infos[k])
      ensures ByUID(cache, asked) && Stable(asked + pods) ==> exists p <- pods :: p.key == k && ByLookup(p, infos[k])
    {
      var p :| p in pods && p.key == k && Known(cache, p, infos[k]);
      KnownIsSomeones(asked, pods, cache, p, infos[k]);
      if ByUID(cache, asked) && Stable(asked + pods) { KnownIsOwn(asked, pods, cache, p, infos[k]); }
    }
  }

  /** Some pod with the second one's key and UID has the first one's address, and one its annotation. */
  ghost predicate Twins(pods: seq<Pod>, p: Pod, q: Pod) {
    && (exists t <- pods :: CacheKeyOf(t) == CacheKeyOf(q) && t.ip == p.ip)
    && (AnnotatedENI(p) != "" ==>
      exists t <- pods :: CacheKeyOf(t) == CacheKeyOf(q) && AnnotatedENI(t) == AnnotatedENI(p))
  }

  /** The lookups cannot tell pods of one key apart. */
  ghost predicate Alike(pods: seq<Pod>) {
    forall p, q {:trigger Twins(pods, p, q)} :: p in pods && q in pods && p.key == q.key ==> Twins(pods, p, q)
  }

  lemma SavedAlike(pods: seq<Pod>, infos: Infos)
    requires Alike(pods) && From(pods, infos, ByLookup)
    ensures ByUID(Saved(map[], pods, infos), pods)
  {
    var saved := Saved(map[], pods, infos);
    forall c | c in saved ensures exists t <- pods :: CacheKeyOf(t) == c && ByLookup(t, saved[c]) {
      SavedEntry(map[], pods, infos, c);
      var q :| q in pods && q.key in infos && CacheKeyOf(q) == c;
      var p :| p in pods && p.key == q.key && ByLookup(p, infos[q.key]);
      TwinServes(pods, p, q, saved[c]);
    }
  }

  lemma TwinServes(pods: seq<Pod>, p: Pod, q: Pod, e: Eni)
    requires Alike(pods) && p in pods && q in pods && p.key == q.key && ByLookup(p, e)
    ensures exists t <- pods :: CacheKeyOf(t) == CacheKeyOf(q) && ByLookup(t, e)
  {
    assert Twins(pods, p, q);
    if ByAddress(p, e) {
      var t :| t in pods && CacheKeyOf(t) == CacheKeyOf(q) && t.ip == p.ip;
      assert ByLookup(t, e);
    } else {
      var t :| t in pods && CacheKeyOf(t) == CacheKeyOf(q) && AnnotatedENI(t) == AnnotatedENI(p);
      assert ByLookup(t, e);
    }
  }

  /**
   * One answer is stored for all requested pods of a key. It belongs to a pod of each entry's
   * UID, whatever the answer is, if and only if pods of one key are alike.
   */
  lemma SavedByUIDIff(pods: seq<Pod>)
    ensures (forall infos :: From(pods, infos, ByLookup) ==> ByUID(Saved(map[], pods, infos), pods)) <==> Alike(pods)
  {
    if Alike(pods) {
      forall infos | From(pods, infos, ByLookup) ensures ByUID(Saved(map[], pods, infos), pods) {
        SavedAlike(pods, infos);
      }
    } else {
      var p, q :| p in pods && q in pods && p.key == q.key && !Twins(pods, p, q);
      NoTwin(pods, p, q);
    }
  }

  lemma NoTwin(pods: seq<Pod>, p: Pod, q: Pod)
    requires p in pods && q in pods && p.key == q.key && !Twins(pods, p, q)
    ensures exists infos :: From(pods, infos, ByLookup) && !ByUID(Saved(map[], pods, infos), pods)
  {
    if exists t <- pods :: CacheKeyOf(t) == CacheKeyOf(q) && t.ip == p.ip {
      MixedUp(pods, p, q, Eni(AnnotatedENI(p), [], []));
    } else {
      MixedUp(pods, p, q, Eni("", [p.ip], []));
    }
  }

  lemma MixedUp(pods: seq<Pod>, p: Pod, q: Pod, e: Eni)
    requires p in pods && q in pods && p.key == q.key && ByLookup(p, e)
    requires forall t <- pods :: CacheKeyOf(t) == CacheKeyOf(q) ==> !ByLookup(t, e)
    ensures From(pods, map[p.key := e], ByLookup) && !ByUID(Saved(map[], pods, map[p.key := e]), pods)
  {
    SavedEntry(map[], pods, map[p.key := e], CacheKeyOf(q));
  }

  /** The smallest case: a pod that was replaced while the request was put together. */
  lemma ReplacedPod(key: PodKey)
    ensures !Alike([Pod(key, "u", "10.0.0.1", []), Pod(key, "v", "10.0.0.2", [])])
  {
    var p, q := Pod(key, "u", "10.0.0.1", []), Pod(key, "v", "10.0.0.2", []);
    assert p in [p, q] && q in [p, q];
    assert "10.0.0.1"[7] != "10.0.0.2"[7] && "u"[0] != "v"[0];
    assert !Twins([p, q], p, q);
  }

  lemma SavedBelongs(cache: map<CacheKey, Eni>, asked: seq<Pod>, pods: seq<Pod>, cached: Infos, missing: seq<Pod>,
      infos: Infos)
    requires From(missing, infos, ByLookup)
    requires forall p :: p in missing <==> p in pods && p.key !in cached
    ensures ByKey(cache, asked) ==> ByKey(Saved(cache, missing, infos), asked + pods)
    ensures ByUID(cache, asked) && Alike(pods) ==> ByUID(Saved(cache, missing, infos), asked + pods)
  {
    var saved, all := Saved(cache, missing, infos), asked + pods;
    forall c | c in saved && ByKey(cache, asked) ensures exists p <- all :: p.key == c.0 && ByLookup(p, saved[c]) {
      SavedEntry(cache, missing, infos, c);
      if q :| q in missing && q.key in infos && CacheKeyOf(q) == c {
        var p :| p in missing && p.key == c.0 && ByLookup(p, infos[c.0]);
        assert p in all;
      } else {
        var p :| p in asked && p.key == c.0 && ByLookup(p, cache[c]);
        assert p in all;
      }
    }
    forall c | c in saved && ByUID(cache, asked) && Alike(pods)
      ensures exists p <- all :: CacheKeyOf(p) == c && ByLookup(p, saved[c]) {
      SavedEntry(cache, missing, infos, c);
      if q :| q in missing && q.key in infos && CacheKeyOf(q) == c {
        var p :| p in missing && p.key == c.0 && ByLookup(p, infos[c.0]);
        TwinServes(pods, p, q, infos[c.0]);
        var t :| t in pods && CacheKeyOf(t) == CacheKeyOf(q) && ByLookup(t, infos[c.0]);
        assert t in all;
      } else {
        var p :| p in asked && CacheKeyOf(p) == c && ByLookup(p, cache[c]);
        assert p in all;
      }
    }
  }

  // ---------------------------------------------------------------- whole histories

  datatype Event = Request(pods: seq<Pod>) | Expiry(key: CacheKey) | Interfaces(enis: map<string, Eni>)

  function PodsOf(e: Event): seq<Pod> { if e.Request? then e.pods else [] }

  function RequestedPods(events: seq<Event>): seq<Pod> {
    if events == [] then [] else RequestedPods(events[..|events| - 1]) + PodsOf(events[|events| - 1])
  }

  /** An answer has exactly the requested keys and belongs to some of the given pods. */
  ghost predicate Fits(e: Event, answer: Lookup, pods: seq<Pod>) {
    e.Request? && answer.Found? ==> answer.infos.Keys == KeysOf(e.pods) && From(pods, answer.infos, ByLookup)
  }

  ghost predicate AllAlike(events: seq<Event>) { forall e <- events :: Alike(PodsOf(e)) }

  /**
   * The last answer belonged to a pod of its key when that pod was looked up, and belongs to the
   * requested pod itself if pods of one key and UID keep address and annotation and earlier
   * requests are alike per key; and so for all earlier answers.
   */
  ghost predicate Answered(events: seq<Event>, answers: seq<Lookup>) {
    |events| == |answers| && (events != [] ==>
      var n := |events| - 1;
      && Answered(events[..n], answers[..n])
      && Fits(events[n], answers[n], RequestedPods(events))
      && (Stable(RequestedPods(events)) && AllAlike(events[..n]) ==> Fits(events[n], answers[n], PodsOf(events[n]))))
  }

  lemma {:induction false} AnsweredAt(events: seq<Event>, answers: seq<Lookup>, i: nat)
    requires Answered(events, answers) && i < |events|
    ensures Fits(events[i], answers[i], RequestedPods(events[..i + 1]))
    ensures Stable(RequestedPods(events[..i + 1])) && AllAlike(events[..i]) ==>
      Fits(events[i], answers[i], PodsOf(events[i]))
  {
    var n := |events| - 1;
    if i == n {
      assert events[..i + 1] == events;
    } else {
      AnsweredAt(events[..n], answers[..n], i);
      assert events[..n][..i + 1] == events[..i + 1] && events[..n][..i] == events[..i];
    }
  }

  method Handle(resolver: PodENIInfoResolver, e: Event) returns (answer: Lookup)
    requires resolver.Valid() && (e.Interfaces? ==> ValidEnis(e.enis))
    modifies resolver, resolver.network
    ensures resolver.Valid() && resolver.asked == old(resolver.asked) + PodsOf(e)
    ensures old(ByUID(resolver.cache, resolver.asked)) && Alike(PodsOf(e)) ==> ByUID(resolver.cache, resolver.asked)
    ensures Fits(e, answer, resolver.asked)
    ensures old(ByUID(resolver.cache, resolver.asked)) && Stable(resolver.asked) ==> Fits(e, answer, PodsOf(e))
  {
    answer := LookupFailed;
    match e
    case Request(pods) => answer := resolver.Resolve(pods);
    case Expiry(key) => resolver.Expire(key);
    case Interfaces(enis) => resolver.network.ChangeInterfaces(enis);
  }

  /** Any history of requests, expiries and changing interfaces. */
  method Serve(network: Network, events: seq<Event>) returns (answers: seq<Lookup>)
    requires network.Valid() && forall e <- events :: e.Interfaces? ==> ValidEnis(e.enis)
    modifies network
    ensures Answered(events, answers)
  {
    hide *;
    var resolver := new PodENIInfoResolver(network);
    answers := [];
    NothingAsked();
    assert events[..0] == [];
    for i := 0 to |events|
      invariant fresh(resolver) && resolver.network == network && resolver.Valid()
      invariant resolver.asked == RequestedPods(events[..i])
      invariant AllAlike(events[..i]) ==> ByUID(resolver.cache, resolver.asked)
      invariant Answered(events[..i], answers)
    {
      NextEvent(events, i);
      var answer := Handle(resolver, events[i]);
      AnsweredNext(events, i, answers, answer);
      answers := answers + [answer];
    }
    assert events[..|events|] == events;
  }

  lemma NothingAsked()
    ensures RequestedPods([]) == [] && ByUID(map[], []) && Answered([], [])
  {
  }

  lemma AnsweredNext(events: seq<Event>, i: nat, answers: seq<Lookup>, answer: Lookup)
    requires i < |events| && Answered(events[..i], answers)
    requires Fits(events[i], answer, RequestedPods(events[..i + 1]))
    requires Stable(RequestedPods(events[..i + 1])) && AllAlike(events[..i]) ==>
      Fits(events[i], answer, PodsOf(events[i]))
    ensures Answered(events[..i + 1], answers + [answer])
  {
    assert events[..i + 1][..i] == events[..i] && (answers + [answer])[..i] == answers;
  }

  lemma NextEvent(events: seq<Event>, i: nat)
    requires i < |events|
    ensures RequestedPods(events[..i + 1]) == RequestedPods(events[..i]) + PodsOf(events[i])
    ensures AllAlike(events[..i + 1]) <==> AllAlike(events[..i]) && Alike(PodsOf(events[i]))
    ensures events[i] in events
  {
    assert events[..i + 1][..i] == events[..i];
    assert events[..i + 1] == events[..i] + [events[i]];
  }
}
