/**
 * Security groups behind the EC2 API, the caching manager above it, and the reconciler that
 * drives a group's ingress rules to the desired ones
 * (pkg/networking/security_group_manager.go, security_group_reconciler.go).
 */
module SecurityGroups {
  import opened Text
  import opened PermissionLabels
  import opened Permissions

  datatype ErrorCode = DuplicatePermission | PermissionNotFound | GroupNotFound | OtherFailure

  type Error = Option<ErrorCode>

  datatype Fetched<T> = Ok(value: T) | Failed(code: ErrorCode)

  /** A change request and whether EC2 accepted it, or a change by others. */
  datatype Call =
    | Authorize(groupId: string, infos: seq<IPPermissionInfo>, accepted: bool)
    | Revoke(groupId: string, infos: seq<IPPermissionInfo>, accepted: bool)
    | Foreign(after: map<string, Rules>)

  function RulesOf(infos: seq<IPPermissionInfo>): Rules {
    map h | h in ByHash(infos) :: ByHash(infos)[h].permission
  }

  /** What a logged call does to the groups. */
  function Apply(groups: map<string, Rules>, c: Call): map<string, Rules> {
    match c
    case Authorize(g, infos, accepted) => if accepted && g in groups
      then groups[g := groups[g] + RulesOf(infos)] else groups
    case Revoke(g, infos, accepted) => if accepted && g in groups
      then groups[g := groups[g] - Hashes(infos)] else groups
    case Foreign(after) => after
  }

  function Replay(groups: map<string, Rules>, calls: seq<Call>): map<string, Rules> {
    if calls == [] then groups else Apply(Replay(groups, calls[..|calls| - 1]), calls[|calls| - 1])
  }

  /** One more source among those of a reported permission. */
  function WithSource(sdk: SdkPermission, source: Source): SdkPermission {
    match source
    case IpRange(id, d) => sdk.(ipRanges := sdk.ipRanges + [Entry(id, d)])
    case Ipv6Range(id, d) => sdk.(ipv6Ranges := sdk.ipv6Ranges + [Entry(id, d)])
    case PrefixList(id, d) => sdk.(prefixListIds := sdk.prefixListIds + [Entry(id, d)])
    case GroupPair(id, d) => sdk.(groupPairs := sdk.groupPairs + [Entry(id, d)])
    case Unrecognized(payload) => sdk.(payload := payload)
  }

  function SingleSource(p: Permission): SdkPermission {
    WithSource(SdkPermission(p.protocol, p.fromPort, p.toPort, [], [], [], [], ""), p.source)
  }

  lemma SingleReported(p: Permission, q: Permission)
    ensures Reports(SingleSource(p), q) <==> q == p
  {
  }

  /** The permission has a known source and shares protocol and ports with the rule. */
  predicate Joins(sdk: SdkPermission, p: Permission) {
    && !NoEntries(sdk) && !p.source.Unrecognized?
    && sdk.protocol == p.protocol && sdk.fromPort == p.fromPort && sdk.toPort == p.toPort
  }

  lemma JoinedReported(sdk: SdkPermission, p: Permission, q: Permission)
    requires Joins(sdk, p)
    ensures Reports(WithSource(sdk, p.source), q) <==> Reports(sdk, q) || q == p
  {
  }

  lemma JoinedReportedBy(perms: seq<SdkPermission>, i: nat, p: Permission, q: Permission)
    requires i < |perms| && Joins(perms[i], p)
    ensures ReportedBy(perms[i := WithSource(perms[i], p.source)], q) <==> ReportedBy(perms, q) || q == p
  {
    hide Reports, WithSource;
    var joined := perms[i := WithSource(perms[i], p.source)];
    JoinedReported(perms[i], p, q);
    if sdk :| sdk in perms && Reports(sdk, q) {
      var k :| 0 <= k < |perms| && perms[k] == sdk;
      assert Reports(joined[k], q) && joined[k] in joined;
    }
    if q == p { assert joined[i] in joined; }
  }

  lemma AddedReportedBy(perms: seq<SdkPermission>, p: Permission, q: Permission)
    ensures ReportedBy(perms + [SingleSource(p)], q) <==> ReportedBy(perms, q) || q == p
  {
    hide Reports;
    SingleReported(p, q);
    var all := perms + [SingleSource(p)];
    assert all[|perms|] in all && forall sdk <- perms :: sdk in all;
  }

  // ---------------------------------------------------------------- the EC2 API

  /**
   * EC2. Changes are atomic: a failed call has no effect. The field `faults` counts the
   * failures that the state of the groups does not explain (throttling, network, ...). The
   * log of calls explains the groups from the initial ones.
   */
  class Ec2 {
    const initial: map<string, Rules>
    var groups: map<string, Rules>
    var calls: seq<Call>
    var faults: nat

    ghost predicate Valid() reads this {
      && (forall g <- groups :: ValidRules(groups[g]))
      && groups == Replay(initial, calls)
    }

    constructor (groups: map<string, Rules>)
      requires forall g <- groups :: ValidRules(groups[g])
      ensures Valid() && this.groups == groups && calls == [] && faults == 0
    {
      initial, this.groups, calls, faults := groups, groups, [], 0;
    }

    /** Other actors change groups as they like. */
    method ChangeByOthers(after: map<string, Rules>)
      requires Valid() && forall g <- after :: ValidRules(after[g])
      modifies this
      ensures Valid() && groups == after && calls == old(calls) + [Foreign(after)] && faults == old(faults)
    {
      groups, calls := after, calls + [Foreign(after)];
    }

    /** Reports requested groups only, each grouped in any way. */
    method DescribeSecurityGroups(ids: set<string>) returns (r: Fetched<map<string, seq<SdkPermission>>>)
      requires Valid()
      modifies this`faults
      ensures r.Ok? ==> r.value.Keys <= ids * groups.Keys && forall id <- r.value :: Grouping(r.value[id], groups[id])
      ensures faults >= old(faults)
      ensures faults == old(faults) ==> if ids <= groups.Keys then r.Ok? else r == Failed(GroupNotFound)
      ensures r.Ok? && ids <= groups.Keys ==> r.value.Keys == ids
      ensures r.Failed? && r.code == GroupNotFound ==> !(ids <= groups.Keys)
    {
      if * { faults := faults + 1; return Failed(OtherFailure); }
      if !(ids <= groups.Keys) { return Failed(GroupNotFound); }
      var found: map<string, seq<SdkPermission>> := map[];
      var todo := ids;
      while todo != {}
        invariant todo <= ids && found.Keys == ids - todo
        invariant forall id <- found :: Grouping(found[id], groups[id])
        modifies {}
        decreases todo
      {
        var id := Pick(todo);
        var perms := Grouped(groups[id]);
        found := found[id := perms];
        todo := todo - {id};
      }
      return Ok(found);
    }

    /** Rules that share protocol and ports may be reported as one permission with several sources. */
    static method Grouped(rules: Rules) returns (perms: seq<SdkPermission>)
      requires ValidRules(rules)
      ensures Grouping(perms, rules)
    {
      perms := [];
      var todo := rules.Keys;
      while todo != {}
        invariant todo <= rules.Keys
        invariant forall p :: ReportedBy(perms, p) <==> HashCode(p) in rules.Keys - todo && rules[HashCode(p)] == p
        decreases todo
      {
        var h := Pick(todo);
        var i: int := *;
        ghost var before := perms;
        if 0 <= i < |perms| && Joins(perms[i], rules[h]) {
          perms := perms[i := WithSource(perms[i], rules[h].source)];
          forall q ensures ReportedBy(perms, q) <==> ReportedBy(before, q) || q == rules[h] {
            JoinedReportedBy(before, i, rules[h], q);
          }
        } else {
          perms := perms + [SingleSource(rules[h])];
          forall q ensures ReportedBy(perms, q) <==> ReportedBy(before, q) || q == rules[h] {
            AddedReportedBy(before, rules[h], q);
          }
        }
        todo := todo - {h};
      }
    }

    method AuthorizeSecurityGroupIngress(id: string, infos: seq<IPPermissionInfo>) returns (err: Error)
      requires Valid()
      modifies this
      ensures Valid() && calls == old(calls) + [Authorize(id, infos, err.None?)] && faults >= old(faults)
      ensures err.Some? ==> groups == old(groups)
      ensures err == Some(GroupNotFound) ==> id !in groups
      ensures err.None? ==> id in old(groups) && Hashes(infos) !! old(groups)[id].Keys
      ensures err.None? ==> groups == old(groups)[id := old(groups)[id] + RulesOf(infos)]
      ensures err.Some? && faults == old(faults) ==>
        if id !in groups then err.value == GroupNotFound
        else err.value == DuplicatePermission && Hashes(infos) * groups[id].Keys != {}
    {
      var log := calls;
      calls := log + [Authorize(id, infos, false)];
      if * { faults := faults + 1; return Some(OtherFailure); }
      if id !in groups { return Some(GroupNotFound); }
      if !(Hashes(infos) !! groups[id].Keys) {
        var h :| h in Hashes(infos) && h in groups[id].Keys;
        assert h in Hashes(infos) * groups[id].Keys;
        return Some(DuplicatePermission);
      }
      groups := groups[id := groups[id] + RulesOf(infos)];
      calls := log + [Authorize(id, infos, true)];
      return None;
    }

    method RevokeSecurityGroupIngress(id: string, infos: seq<IPPermissionInfo>) returns (err: Error)
      requires Valid()
      modifies this
      ensures Valid() && calls == old(calls) + [Revoke(id, infos, err.None?)] && faults >= old(faults)
      ensures err.Some? ==> groups == old(groups)
      ensures err == Some(GroupNotFound) ==> id !in groups
      ensures err.None? ==> id in old(groups) && Hashes(infos) <= old(groups)[id].Keys
      ensures err.None? ==> groups == old(groups)[id := old(groups)[id] - Hashes(infos)]
      ensures err.Some? && faults == old(faults) ==>
        if id !in groups then err.value == GroupNotFound
        else err.value == PermissionNotFound && !(Hashes(infos) <= groups[id].Keys)
    {
      var log := calls;
      calls := log + [Revoke(id, infos, false)];
      if * { faults := faults + 1; return Some(OtherFailure); }
      if id !in groups { return Some(GroupNotFound); }
      if !(Hashes(infos) <= groups[id].Keys) { return Some(PermissionNotFound); }
      groups := groups[id := groups[id] - Hashes(infos)];
      calls := log + [Revoke(id, infos, true)];
      return None;
    }
  }

  // ---------------------------------------------------------------- the caching manager

  type Snapshot = seq<IPPermissionInfo>

  /** The controller itself changed the group by this call. */
  predicate Changes(c: Call, id: string) {
    match c
    case Foreign(_) => false
    case Authorize(g, _, accepted) => g == id && accepted
    case Revoke(g, _, accepted) => g == id && accepted
  }

  ghost predicate AccurateAt(snapshot: Snapshot, initial: map<string, Rules>, calls: seq<Call>, id: string) {
    id in Replay(initial, calls) && Accurate(snapshot, Replay(initial, calls)[id])
  }

  ghost predicate Dated(snapshot: Snapshot, initial: map<string, Rules>, calls: seq<Call>, id: string) {
    exists n :: 0 <= n <= |calls| && AccurateAt(snapshot, initial, calls[..n], id)
      && forall i :: n <= i < |calls| ==> !Changes(calls[i], id)
  }

  ghost predicate AllDated(snapshots: map<string, Snapshot>, initial: map<string, Rules>, calls: seq<Call>) {
    forall id <- snapshots :: Dated(snapshots[id], initial, calls, id)
  }

  ghost predicate AllAccurate(snapshots: map<string, Snapshot>, groups: map<string, Rules>) {
    forall id <- snapshots :: id in groups && Accurate(snapshots[id], groups[id])
  }

  /** Exactly the requested snapshots, the cached ones as they are and the others accurate. */
  ghost predicate Served(snapshots: map<string, Snapshot>, ids: set<string>, cache: map<string, Snapshot>,
      groups: map<string, Rules>) {
    && snapshots.Keys == ids
    && forall id <- ids :: if id in cache then snapshots[id] == cache[id]
      else id in groups && Accurate(snapshots[id], groups[id])
  }

  /** What is cached was cached before or is accurate. */
  ghost predicate Refreshed(before: map<string, Snapshot>, after: map<string, Snapshot>, groups: map<string, Rules>) {
    forall id <- after :: (id in before && after[id] == before[id])
      || (id in groups && Accurate(after[id], groups[id]))
  }

  lemma AnsweredFor(ids: set<string>, usable: map<string, Snapshot>, cached: map<string, Snapshot>,
      found: map<string, Snapshot>, groups: map<string, Rules>)
    requires cached == map id | id in ids * usable.Keys :: usable[id]
    requires found.Keys <= ids - usable.Keys && AllAccurate(found, groups)
    ensures (cached + found).Keys == ids ==> Served(cached + found, ids, usable, groups)
    ensures found.Keys == ids - usable.Keys ==> (cached + found).Keys == ids
  {
  }

  lemma {:induction false} NowDated(snapshots: map<string, Snapshot>, groups: map<string, Rules>,
      initial: map<string, Rules>,
      calls: seq<Call>)
    requires groups == Replay(initial, calls) && AllAccurate(snapshots, groups)
    ensures AllDated(snapshots, initial, calls)
  {
    assert calls[..|calls|] == calls;
    forall id | id in snapshots ensures Dated(snapshots[id], initial, calls, id) {
      assert AccurateAt(snapshots[id], initial, calls[..|calls|], id);
    }
  }

  lemma StaysDated(snapshots: map<string, Snapshot>, initial: map<string, Rules>, calls: seq<Call>, c: Call)
    requires AllDated(snapshots, initial, calls) && forall id <- snapshots :: !Changes(c, id)
    ensures AllDated(snapshots, initial, calls + [c])
  {
    forall id | id in snapshots ensures Dated(snapshots[id], initial, calls + [c], id) {
      var n :| 0 <= n <= |calls| && AccurateAt(snapshots[id], initial, calls[..n], id)
        && forall i :: n <= i < |calls| ==> !Changes(calls[i], id);
      assert (calls + [c])[..n] == calls[..n];
    }
  }

  /** Others changed the group by the i-th call. */
  ghost predicate Disturbed(initial: map<string, Rules>, calls: seq<Call>, i: nat, id: string)
    requires i < |calls|
  {
    calls[i].Foreign? && id in Replay(initial, calls[..i])
      && !(id in calls[i].after && calls[i].after[id] == Replay(initial, calls[..i])[id])
  }

  lemma {:induction false} UndisturbedSince(initial: map<string, Rules>, calls: seq<Call>, n: nat, id: string)
    requires n <= |calls| && id in Replay(initial, calls[..n])
    requires forall i :: n <= i < |calls| ==> !Changes(calls[i], id) && !Disturbed(initial, calls, i, id)
    ensures id in Replay(initial, calls) && Replay(initial, calls)[id] == Replay(initial, calls[..n])[id]
  {
    hide RulesOf, Hashes;
    if n == |calls| {
      assert calls[..n] == calls;
    } else {
      var last := |calls| - 1;
      var earlier := calls[..last];
      assert earlier[..n] == calls[..n];
      forall i | n <= i < last ensures !Changes(earlier[i], id) && !Disturbed(initial, earlier, i, id) {
        assert earlier[i] == calls[i] && earlier[..i] == calls[..i];
      }
      UndisturbedSince(initial, earlier, n, id);
      assert !Changes(calls[last], id) && !Disturbed(initial, calls, last, id);
    }
  }

  /**
   * A cached snapshot is out of date only by what others did: if no foreign change ever touched
   * the group, it is accurate.
   */
  lemma StaleOnlyByOthers(snapshot: Snapshot, initial: map<string, Rules>, calls: seq<Call>, id: string)
    requires Dated(snapshot, initial, calls, id)
    requires forall i :: 0 <= i < |calls| ==> !Disturbed(initial, calls, i, id)
    ensures AccurateAt(snapshot, initial, calls, id)
  {
    var n :| 0 <= n <= |calls| && AccurateAt(snapshot, initial, calls[..n], id)
      && forall i :: n <= i < |calls| ==> !Changes(calls[i], id);
    UndisturbedSince(initial, calls, n, id);
  }

  class SecurityGroupManager {
    const ec2: Ec2
    var sgInfoCache: map<string, Snapshot>

    /** A cached snapshot was accurate at some time, and the controller has not changed the group since. */
    ghost predicate Valid() reads this, ec2 {
      ec2.Valid() && AllDated(sgInfoCache, ec2.initial, ec2.calls)
    }

    /** Every cached snapshot equals what EC2 has. */
    ghost predicate Coherent() reads this, ec2 {
      AllAccurate(sgInfoCache, ec2.groups)
    }

    constructor (ec2: Ec2)
      requires ec2.Valid()
      ensures this.ec2 == ec2 && Valid() && Coherent() && sgInfoCache == map[]
    {
      this.ec2 := ec2;
      sgInfoCache := map[];
    }

    /** Entries expire on their own. */
    method Expire(id: string)
      requires Valid()
      modifies this
      ensures Valid() && sgInfoCache == old(sgInfoCache) - {id}
      ensures old(Coherent()) ==> Coherent()
    {
      sgInfoCache := sgInfoCache - {id};
    }

    /** Others change groups behind the cache. */
    method Disturb(after: map<string, Rules>)
      requires Valid() && forall g <- after :: ValidRules(after[g])
      modifies ec2
      ensures Valid() && ec2.groups == after && ec2.calls == old(ec2.calls) + [Foreign(after)]
    {
      StaysDated(sgInfoCache, ec2.initial, ec2.calls, Foreign(after));
      ec2.ChangeByOthers(after);
    }

    method SaveSGInfosToCache(found: map<string, Snapshot>)
      requires Valid() && AllAccurate(found, ec2.groups) && AllDated(found, ec2.initial, ec2.calls)
      modifies this
      ensures Valid() && Refreshed(old(sgInfoCache), sgInfoCache, ec2.groups)
      ensures old(Coherent()) ==> Coherent()
    {
      sgInfoCache := sgInfoCache + found;
    }

    /**
     * Snapshots come from the cache unless reloading is asked for; whatever is fetched is
     * accurate and cached. The groups themselves are not touched.
     */
    method FetchSGInfosByID(ids: set<string>, reloadIgnoringCache: bool) returns (r: Fetched<map<string, Snapshot>>)
      requires Valid()
      modifies this, ec2`faults
      ensures Valid() && ec2.faults >= old(ec2.faults)
      ensures r.Ok? ==> Served(r.value, ids, if reloadIgnoringCache then map[] else old(sgInfoCache), ec2.groups)
      ensures Refreshed(old(sgInfoCache), sgInfoCache, ec2.groups)
      ensures old(Coherent()) ==> Coherent()
      ensures r.Failed? && ec2.faults == old(ec2.faults) ==> r.code == GroupNotFound
      ensures r.Failed? && r.code == GroupNotFound ==> !(ids <= ec2.groups.Keys)
    {
      var usable := if reloadIgnoringCache then map[] else sgInfoCache;
      var sgInfoByID := map id | id in ids * usable.Keys :: usable[id];
      var unfetched := ids - usable.Keys;
      var fromAWS := Ok(map[]);
      if unfetched != {} {
        fromAWS := FetchSGInfosFromAWS(unfetched);
        if fromAWS.Failed? { return fromAWS; }
        SaveSGInfosToCache(fromAWS.value);
      }
      AnsweredFor(ids, usable, sgInfoByID, fromAWS.value, ec2.groups);
      sgInfoByID := sgInfoByID + fromAWS.value;
      if sgInfoByID.Keys != ids { return Failed(OtherFailure); }
      return Ok(sgInfoByID);
    }

    /** Fetch by filter: `matching` are the groups that the filter selects. Everything found is cached. */
    method FetchSGInfosByRequest(matching: set<string>) returns (r: Fetched<set<string>>)
      requires Valid()
      modifies this, ec2`faults
      ensures Valid() && ec2.groups == old(ec2.groups) && ec2.faults >= old(ec2.faults)
      ensures r.Ok? ==> r.value == matching * ec2.groups.Keys
      ensures r.Failed? ==> ec2.faults > old(ec2.faults)
      ensures old(Coherent()) ==> Coherent()
    {
      var fromAWS := FetchSGInfosFromAWS(matching * ec2.groups.Keys);
      if fromAWS.Failed? { return Failed(fromAWS.code); }
      SaveSGInfosToCache(fromAWS.value);
      return Ok(fromAWS.value.Keys);
    }

    method FetchSGInfosFromAWS(ids: set<string>) returns (r: Fetched<map<string, Snapshot>>)
      requires ec2.Valid()
      modifies ec2`faults
      ensures ec2.faults >= old(ec2.faults)
      ensures r.Ok? ==> r.value.Keys <= ids && AllAccurate(r.value, ec2.groups)
      ensures r.Ok? ==> AllDated(r.value, ec2.initial, ec2.calls)
      ensures ec2.faults == old(ec2.faults) ==> if ids <= ec2.groups.Keys then r.Ok? else r == Failed(GroupNotFound)
      ensures r.Ok? && ids <= ec2.groups.Keys ==> r.value.Keys == ids
      ensures r.Failed? && r.code == GroupNotFound ==> !(ids <= ec2.groups.Keys)
    {
      var described := ec2.DescribeSecurityGroups(ids);
      if described.Failed? { return Failed(described.code); }
      var snapshots := Snapshots(described.value, ec2.groups);
      NowDated(snapshots, ec2.groups, ec2.initial, ec2.calls);
      return Ok(snapshots);
    }

    static method Snapshots(described: map<string, seq<SdkPermission>>, ghost groups: map<string, Rules>)
        returns (r: map<string, Snapshot>)
      requires forall g <- groups :: ValidRules(groups[g])
      requires forall id <- described :: id in groups && Grouping(described[id], groups[id])
      ensures r.Keys == described.Keys && AllAccurate(r, groups)
    {
      r := map[];
      var todo := described.Keys;
      while todo != {}
        invariant todo <= described.Keys && r.Keys == described.Keys - todo
        invariant forall id <- r :: Accurate(r[id], groups[id])
        decreases todo
      {
        var id := Pick(todo);
        var snapshot := NewRawSecurityGroupInfo(described[id]);
        ExpansionIsAccurate(described[id], groups[id]);
        r := r[id := snapshot];
        todo := todo - {id};
      }
    }

    method AuthorizeSGIngress(id: string, infos: seq<IPPermissionInfo>) returns (err: Error)
      requires Valid()
      modifies this, ec2
      ensures Valid() && ec2.calls == old(ec2.calls) + [Authorize(id, infos, err.None?)]
        && ec2.faults >= old(ec2.faults)
      ensures err.Some? ==> ec2.groups == old(ec2.groups) && sgInfoCache == old(sgInfoCache)
      ensures err == Some(GroupNotFound) ==> id !in ec2.groups
      ensures err.None? ==> id in old(ec2.groups) && Hashes(infos) !! old(ec2.groups)[id].Keys
      ensures err.None? ==> ec2.groups == old(ec2.groups)[id := old(ec2.groups)[id] + RulesOf(infos)]
      ensures err.None? ==> sgInfoCache == old(sgInfoCache) - {id}
      ensures old(Coherent()) ==> Coherent()
      ensures err.Some? && ec2.faults == old(ec2.faults) ==>
        if id !in ec2.groups then err.value == GroupNotFound
        else err.value == DuplicatePermission && Hashes(infos) * ec2.groups[id].Keys != {}
    {
      ghost var calls := ec2.calls;
      err := ec2.AuthorizeSecurityGroupIngress(id, infos);
      StaysDated(if err.None? then sgInfoCache - {id} else sgInfoCache, ec2.initial, calls,
        Authorize(id, infos, err.None?));
      if err.Some? { return; }
      sgInfoCache := sgInfoCache - {id};
    }

    method RevokeSGIngress(id: string, infos: seq<IPPermissionInfo>) returns (err: Error)
      requires Valid()
      modifies this, ec2
      ensures Valid() && ec2.calls == old(ec2.calls) + [Revoke(id, infos, err.None?)] && ec2.faults >= old(ec2.faults)
      ensures err.Some? ==> ec2.groups == old(ec2.groups) && sgInfoCache == old(sgInfoCache)
      ensures err == Some(GroupNotFound) ==> id !in ec2.groups
      ensures err.None? ==> id in old(ec2.groups) && Hashes(infos) <= old(ec2.groups)[id].Keys
      ensures err.None? ==> ec2.groups == old(ec2.groups)[id := old(ec2.groups)[id] - Hashes(infos)]
      ensures err.None? ==> sgInfoCache == old(sgInfoCache) - {id}
      ensures old(Coherent()) ==> Coherent()
      ensures err.Some? && ec2.faults == old(ec2.faults) ==>
        if id !in ec2.groups then err.value == GroupNotFound
        else err.value == PermissionNotFound && !(Hashes(infos) <= ec2.groups[id].Keys)
    {
      ghost var calls := ec2.calls;
      err := ec2.RevokeSecurityGroupIngress(id, infos);
      StaysDated(if err.None? then sgInfoCache - {id} else sgInfoCache, ec2.initial, calls,
        Revoke(id, infos, err.None?));
      if err.Some? { return; }
      sgInfoCache := sgInfoCache - {id};
    }
  }

  // ---------------------------------------------------------------- the reconciler

  datatype Options = Options(selector: Selector, authorizeOnly: bool)

  /** What a snapshot makes the reconciler revoke. */
  function RevokeSet(snapshot: Snapshot, desired: seq<IPPermissionInfo>, opts: Options): set<string> {
    if opts.authorizeOnly then {}
    else set h | h in Hashes(snapshot) - Hashes(desired) && opts.selector.Matches(ByHash(snapshot)[h].labels)
  }

  function GrantSet(snapshot: Snapshot, desired: seq<IPPermissionInfo>): set<string> {
    Hashes(desired) - Hashes(snapshot)
  }

  /** A call the reconciler may send for a group, whatever its snapshot says. */
  predicate SafeCall(c: Call, id: string, desired: seq<IPPermissionInfo>, opts: Options) {
    match c
    case Foreign(_) => false
    case Authorize(g, infos, _) => g == id && forall x <- infos :: x in desired
    case Revoke(g, infos, _) =>
      && g == id && !opts.authorizeOnly
      && (forall x <- infos :: HashCode(x.permission) !in Hashes(desired) && opts.selector.Matches(x.labels))
  }

  predicate SafeCalls(cs: seq<Call>, id: string, desired: seq<IPPermissionInfo>, opts: Options) {
    forall c <- cs :: SafeCall(c, id, desired, opts)
  }

  ghost predicate Extends(before: seq<Call>, after: seq<Call>, id: string, desired: seq<IPPermissionInfo>,
      opts: Options) {
    before <= after && SafeCalls(after[|before|..], id, desired, opts)
  }

  /** The goal: everything desired is there, and nothing else that the selector owns. */
  ghost predicate Converged(rules: Rules, desired: seq<IPPermissionInfo>, opts: Options) {
    && Hashes(desired) <= rules.Keys
    && (!opts.authorizeOnly ==>
      forall h <- rules :: h in Hashes(desired) || !opts.selector.Matches(RawLabels(rules[h])))
  }

  ghost predicate OnlyGroupChanged(before: map<string, Rules>, after: map<string, Rules>, id: string) {
    before.Keys == after.Keys && forall g <- before :: g != id ==> after[g] == before[g]
  }

  /** Rules that are desired are never taken away. */
  ghost predicate DesiredKept(before: map<string, Rules>, after: map<string, Rules>, id: string,
      desired: seq<IPPermissionInfo>) {
    id in before ==> id in after && forall h <- before[id] :: h in Hashes(desired) ==>
      h in after[id] && after[id][h] == before[id][h]
  }

  /** The outcome of one error-free pass that worked from a snapshot, accurate or not. */
  ghost predicate PassOutcome(before: Rules, after: Rules, snapshot: Snapshot, desired: seq<IPPermissionInfo>,
      opts: Options) {
    var revoked, granted := RevokeSet(snapshot, desired, opts), GrantSet(snapshot, desired);
    && revoked <= before.Keys
    && granted !! (before.Keys - revoked)
    && after.Keys == before.Keys - revoked + granted
    && (forall h <- before.Keys - revoked :: after[h] == before[h])
  }

  /**
   * How far a pass can be trusted: with a snapshot of any age, an error-free pass reaches
   * the goal exactly when no desired rule in the snapshot has vanished meanwhile and no
   * owned, undesired rule is missing from what the snapshot would have revoked.
   */
  lemma PassConvergesIff(before: Rules, after: Rules, snapshot: Snapshot, desired: seq<IPPermissionInfo>, opts: Options)
    requires PassOutcome(before, after, snapshot, desired, opts)
    ensures Converged(after, desired, opts) <==>
      && Hashes(desired) * Hashes(snapshot) <= before.Keys
      && (!opts.authorizeOnly ==> forall h <- before ::
            h in Hashes(desired) || !opts.selector.Matches(RawLabels(before[h]))
              || h in RevokeSet(snapshot, desired, opts))
  {
    var revoked := RevokeSet(snapshot, desired, opts);
    if Converged(after, desired, opts) {
      forall h | h in Hashes(desired) * Hashes(snapshot) ensures h in before {
        assert h in after;
      }
      if !opts.authorizeOnly {
        forall h | h in before && h !in Hashes(desired) && h !in revoked
          ensures !opts.selector.Matches(RawLabels(before[h]))
        {
          assert h in after && after[h] == before[h];
        }
      }
    }
  }

  /** An accurate snapshot always meets that condition. */
  lemma AccuratePassConverges(before: Rules, after: Rules, snapshot: Snapshot, desired: seq<IPPermissionInfo>,
      opts: Options)
    requires PassOutcome(before, after, snapshot, desired, opts)
    requires Accurate(snapshot, before) && ValidRules(before)
    ensures Converged(after, desired, opts)
  {
    PassConvergesIff(before, after, snapshot, desired, opts);
  }

  class SecurityGroupReconciler {
    const sgManager: SecurityGroupManager

    constructor (sgManager: SecurityGroupManager)
      ensures this.sgManager == sgManager
    {
      this.sgManager := sgManager;
    }

    ghost predicate Valid() reads sgManager, sgManager.ec2 { sgManager.Valid() }

    lemma ValidGroups()
      requires Valid()
      ensures forall g <- sgManager.ec2.groups :: ValidRules(sgManager.ec2.groups[g])
    {
    }

    method RevokeExtra(id: string, toRevoke: seq<IPPermissionInfo>, authorizeOnly: bool) returns (err: Error)
      requires Valid()
      modifies sgManager, sgManager.ec2
      ensures Valid() && sgManager.ec2.faults >= old(sgManager.ec2.faults)
      ensures err == Some(GroupNotFound) ==> id !in sgManager.ec2.groups
      ensures sgManager.ec2.calls ==
        old(sgManager.ec2.calls) + (if |toRevoke| > 0 && !authorizeOnly then [Revoke(id, toRevoke, err.None?)] else [])
      ensures err.Some? ==> sgManager.ec2.groups == old(sgManager.ec2.groups)
      ensures err.None? ==>
        Shrunk(old(sgManager.ec2.groups), sgManager.ec2.groups, id, if authorizeOnly then {} else Hashes(toRevoke))
      ensures old(sgManager.Coherent()) ==> sgManager.Coherent()
      ensures err.Some? && sgManager.ec2.faults == old(sgManager.ec2.faults) ==>
        if id !in sgManager.ec2.groups then err.value == GroupNotFound
        else err.value == PermissionNotFound && !authorizeOnly && !(Hashes(toRevoke) <= sgManager.ec2.groups[id].Keys)
    {
      hide AllDated, AllAccurate, Replay, ValidRules;
      err := None;
      if |toRevoke| > 0 && !authorizeOnly {
        err := sgManager.RevokeSGIngress(id, toRevoke);
      } else {
        assert forall g <- sgManager.ec2.groups :: sgManager.ec2.groups[g] - {} == sgManager.ec2.groups[g];
      }
    }

    method GrantMissing(id: string, toGrant: seq<IPPermissionInfo>) returns (err: Error)
      requires Valid()
      modifies sgManager, sgManager.ec2
      ensures Valid() && sgManager.ec2.faults >= old(sgManager.ec2.faults)
      ensures err == Some(GroupNotFound) ==> id !in sgManager.ec2.groups
      ensures sgManager.ec2.calls ==
        old(sgManager.ec2.calls) + (if |toGrant| > 0 then [Authorize(id, toGrant, err.None?)] else [])
      ensures err.Some? ==> sgManager.ec2.groups == old(sgManager.ec2.groups)
      ensures err.None? ==> Grown(old(sgManager.ec2.groups), sgManager.ec2.groups, id, toGrant)
      ensures old(sgManager.Coherent()) ==> sgManager.Coherent()
      ensures err.Some? && sgManager.ec2.faults == old(sgManager.ec2.faults) ==>
        if id !in sgManager.ec2.groups then err.value == GroupNotFound
        else err.value == DuplicatePermission && Hashes(toGrant) * sgManager.ec2.groups[id].Keys != {}
    {
      hide AllDated, AllAccurate, Replay, ValidRules;
      err := None;
      if |toGrant| > 0 {
        err := sgManager.AuthorizeSGIngress(id, toGrant);
      } else {
        assert forall g <- sgManager.ec2.groups :: sgManager.ec2.groups[g] + map[] == sgManager.ec2.groups[g];
      }
    }

    /** One pass: revoke, then grant, from the given snapshot. */
    method ReconcileIngressWithSGInfo(id: string, snapshot: Snapshot, desired: seq<IPPermissionInfo>, opts: Options)
        returns (err: Error)
      requires Valid()
      modifies sgManager, sgManager.ec2
      ensures Valid() && sgManager.ec2.faults >= old(sgManager.ec2.faults)
      ensures err == Some(GroupNotFound) ==> id !in sgManager.ec2.groups
      ensures Extends(old(sgManager.ec2.calls), sgManager.ec2.calls, id, desired, opts)
      ensures OnlyGroupChanged(old(sgManager.ec2.groups), sgManager.ec2.groups, id)
      ensures DesiredKept(old(sgManager.ec2.groups), sgManager.ec2.groups, id, desired)
      ensures old(sgManager.Coherent()) ==> sgManager.Coherent()
      ensures err.None? && id in sgManager.ec2.groups ==>
        PassOutcome(old(sgManager.ec2.groups)[id], sgManager.ec2.groups[id], snapshot, desired, opts)
      ensures err.Some? && sgManager.ec2.faults == old(sgManager.ec2.faults) ==>
        if id !in sgManager.ec2.groups then err.value == GroupNotFound
        else
          && err.value in {DuplicatePermission, PermissionNotFound}
          && !Accurate(snapshot, old(sgManager.ec2.groups)[id])
    {
      hide *;
      var extra := DiffIPPermissionInfos(snapshot, desired);
      var toRevoke := Selected(extra, opts.selector);
      var toGrant := DiffIPPermissionInfos(desired, snapshot);
      RevokeHashes(snapshot, desired, opts, extra, toRevoke);
      GrantHashes(snapshot, desired, toGrant);
      ghost var calls0, groups0 := sgManager.ec2.calls, sgManager.ec2.groups;
      if id in groups0 && Accurate(snapshot, groups0[id]) {
        ValidGroups();
        AccuratePassAccepted(groups0[id], snapshot, desired, opts);
      }
      err := RevokeExtra(id, toRevoke, opts.authorizeOnly);
      SafePass(calls0, id, desired, opts, toRevoke, err.None?, toGrant, false);
      NothingLost(groups0, id, desired);
      if err.Some? { return; }
      ghost var groups1 := sgManager.ec2.groups;
      RevokeSpares(groups0, groups1, id, snapshot, desired, opts, toRevoke, toGrant);
      err := GrantMissing(id, toGrant);
      SafePass(calls0, id, desired, opts, toRevoke, true, toGrant, err.None?);
      if err.Some? { return; }
      OutcomeOfPass(groups0, groups1, sgManager.ec2.groups, id, snapshot, desired, opts, toGrant);
    }

    /** The retry, from a fresh snapshot. */
    method ReloadAndReconcile(id: string, desired: seq<IPPermissionInfo>, opts: Options) returns (err: Error)
      requires Valid()
      modifies sgManager, sgManager.ec2
      ensures Valid() && sgManager.ec2.faults >= old(sgManager.ec2.faults)
      ensures err == Some(GroupNotFound) ==> id !in sgManager.ec2.groups
      ensures Extends(old(sgManager.ec2.calls), sgManager.ec2.calls, id, desired, opts)
      ensures OnlyGroupChanged(old(sgManager.ec2.groups), sgManager.ec2.groups, id)
      ensures DesiredKept(old(sgManager.ec2.groups), sgManager.ec2.groups, id, desired)
      ensures old(sgManager.Coherent()) ==> sgManager.Coherent()
      ensures err.Some? && sgManager.ec2.faults == old(sgManager.ec2.faults) ==> err.value == GroupNotFound
      ensures err.None? ==> id in sgManager.ec2.groups && Converged(sgManager.ec2.groups[id], desired, opts)
    {
      hide PassOutcome, Converged, Accurate, AllDated, SafeCall, Replay, ValidRules;
      var fetched := sgManager.FetchSGInfosByID({id}, true);
      if fetched.Failed? { return Some(fetched.code); }
      ghost var groups := sgManager.ec2.groups;
      err := ReconcileIngressWithSGInfo(id, fetched.value[id], desired, opts);
      if err.None? { AccuratePassConverges(groups[id], sgManager.ec2.groups[id], fetched.value[id], desired, opts); }
    }

    /**
     * Reconcile from a cached snapshot and, if EC2 contradicts the snapshot, once more from
     * a fresh one. However stale the cache is, only safe calls are sent and no desired rule
     * is lost; without faults the result is never an error. Success reaches the goal, unless
     * a cached snapshot was used and EC2 had no reason to refuse what follows from it: then
     * the group has changed by exactly that pass, and PassConvergesIff says whether it is enough.
     */
    method ReconcileIngress(id: string, desired: seq<IPPermissionInfo>, opts: Options) returns (err: Error)
      requires Valid()
      modifies sgManager, sgManager.ec2
      ensures Valid() && sgManager.ec2.faults >= old(sgManager.ec2.faults)
      ensures err == Some(GroupNotFound) ==> id !in sgManager.ec2.groups
      ensures Extends(old(sgManager.ec2.calls), sgManager.ec2.calls, id, desired, opts)
      ensures OnlyGroupChanged(old(sgManager.ec2.groups), sgManager.ec2.groups, id)
      ensures DesiredKept(old(sgManager.ec2.groups), sgManager.ec2.groups, id, desired)
      ensures old(sgManager.Coherent()) ==> sgManager.Coherent()
      ensures err.Some? && sgManager.ec2.faults == old(sgManager.ec2.faults) ==> err.value == GroupNotFound
      ensures err.None? && id in sgManager.ec2.groups ==>
        || Converged(sgManager.ec2.groups[id], desired, opts)
        || (&& id in old(sgManager.sgInfoCache)
            && PassOutcome(old(sgManager.ec2.groups)[id], sgManager.ec2.groups[id], old(sgManager.sgInfoCache)[id],
              desired, opts))
      ensures err.None? && id in sgManager.ec2.groups && old(sgManager.Coherent()) ==>
        Converged(sgManager.ec2.groups[id], desired, opts)
      ensures err.None? && old(sgManager.Coherent()) ==> id in sgManager.ec2.groups
    {
      hide PassOutcome, Converged, Accurate, AllDated, SafeCall, Replay, ValidRules;
      var fetched := sgManager.FetchSGInfosByID({id}, false);
      if fetched.Failed? { return Some(fetched.code); }
      ghost var groups0 := sgManager.ec2.groups;
      err := ReconcileIngressWithSGInfo(id, fetched.value[id], desired, opts);
      if err.Some? {
        if err.value != DuplicatePermission && err.value != PermissionNotFound { return; }
        err := ReloadAndReconcile(id, desired, opts);
      } else if id !in old(sgManager.sgInfoCache) || old(sgManager.Coherent()) {
        AccuratePassConverges(groups0[id], sgManager.ec2.groups[id], fetched.value[id], desired, opts);
      }
    }
  }

  ghost predicate Shrunk(before: map<string, Rules>, after: map<string, Rules>, id: string, revoked: set<string>) {
    && OnlyGroupChanged(before, after, id)
    && (id in before ==> revoked <= before[id].Keys && after[id] == before[id] - revoked)
  }

  ghost predicate Grown(before: map<string, Rules>, after: map<string, Rules>, id: string,
      granted: seq<IPPermissionInfo>) {
    && OnlyGroupChanged(before, after, id)
    && (id in before ==> Hashes(granted) !! before[id].Keys && after[id] == before[id] + RulesOf(granted))
  }

  lemma SafePass(calls: seq<Call>, id: string, desired: seq<IPPermissionInfo>, opts: Options,
                 toRevoke: seq<IPPermissionInfo>, revoked: bool, toGrant: seq<IPPermissionInfo>, granted: bool)
    requires forall x <- toRevoke :: HashCode(x.permission) !in Hashes(desired) && opts.selector.Matches(x.labels)
    requires forall x <- toGrant :: x in desired
    ensures var r := if |toRevoke| > 0 && !opts.authorizeOnly then [Revoke(id, toRevoke, revoked)] else [];
      var g := if |toGrant| > 0 then [Authorize(id, toGrant, granted)] else [];
      Extends(calls, calls + r, id, desired, opts) && Extends(calls, calls + r + g, id, desired, opts)
  {
    var r := if |toRevoke| > 0 && !opts.authorizeOnly then [Revoke(id, toRevoke, revoked)] else [];
    var g := if |toGrant| > 0 then [Authorize(id, toGrant, granted)] else [];
    assert (calls + r)[|calls|..] == r && (calls + r + g)[|calls|..] == r + g;
  }

  /** With an accurate snapshot EC2 has no reason to refuse either call. */
  lemma AccuratePassAccepted(rules: Rules, snapshot: Snapshot, desired: seq<IPPermissionInfo>, opts: Options)
    requires Accurate(snapshot, rules) && ValidRules(rules)
    ensures RevokeSet(snapshot, desired, opts) <= rules.Keys
    ensures GrantSet(snapshot, desired) !! rules.Keys
  {
  }

  lemma NothingLost(groups: map<string, Rules>, id: string, desired: seq<IPPermissionInfo>)
    ensures OnlyGroupChanged(groups, groups, id) && DesiredKept(groups, groups, id, desired)
  {
  }

  /** What is revoked is not desired, and does not get in the way of what is granted. */
  lemma RevokeSpares(before: map<string, Rules>, after: map<string, Rules>, id: string, snapshot: Snapshot,
      desired: seq<IPPermissionInfo>, opts: Options, toRevoke: seq<IPPermissionInfo>, toGrant: seq<IPPermissionInfo>)
    requires Shrunk(before, after, id, if opts.authorizeOnly then {} else Hashes(toRevoke))
    requires !opts.authorizeOnly ==> Hashes(toRevoke) == RevokeSet(snapshot, desired, opts)
    ensures OnlyGroupChanged(before, after, id) && DesiredKept(before, after, id, desired)
    ensures Shrunk(before, after, id, RevokeSet(snapshot, desired, opts))
    ensures id in before && Hashes(toGrant) !! before[id].Keys ==> id in after && Hashes(toGrant) !! after[id].Keys
  {
  }

  lemma OutcomeOfPass(before: map<string, Rules>, mid: map<string, Rules>, after: map<string, Rules>, id: string,
                      snapshot: Snapshot, desired: seq<IPPermissionInfo>, opts: Options, toGrant: seq<IPPermissionInfo>)
    requires Hashes(toGrant) == GrantSet(snapshot, desired)
    requires Shrunk(before, mid, id, RevokeSet(snapshot, desired, opts)) && Grown(mid, after, id, toGrant)
    ensures OnlyGroupChanged(before, after, id) && DesiredKept(before, after, id, desired)
    ensures id in before <==> id in after
    ensures id in before ==> PassOutcome(before[id], after[id], snapshot, desired, opts)
  {
    assert RevokeSet(snapshot, desired, opts) !! Hashes(desired);
    assert RulesOf(toGrant).Keys == Hashes(toGrant);
    hide RevokeSet, GrantSet, RulesOf;
  }

  method Selected(infos: seq<IPPermissionInfo>, selector: Selector) returns (r: seq<IPPermissionInfo>)
    ensures forall x :: x in r <==> x in infos && selector.Matches(x.labels)
  {
    r := [];
    for i := 0 to |infos|
      invariant forall x :: x in r <==> x in infos[..i] && selector.Matches(x.labels)
    {
      if selector.Matches(infos[i].labels) { r := r + [infos[i]]; }
    }
  }

  lemma RevokeHashes(snapshot: Snapshot, desired: seq<IPPermissionInfo>, opts: Options, extra: seq<IPPermissionInfo>,
      toRevoke: seq<IPPermissionInfo>)
    requires Difference(extra, snapshot, desired)
    requires forall x :: x in toRevoke <==> x in extra && opts.selector.Matches(x.labels)
    ensures !opts.authorizeOnly ==> Hashes(toRevoke) == RevokeSet(snapshot, desired, opts)
    ensures forall x <- toRevoke :: HashCode(x.permission) !in Hashes(desired) && opts.selector.Matches(x.labels)
  {
    if !opts.authorizeOnly {
      forall h | h in RevokeSet(snapshot, desired, opts) ensures h in Hashes(toRevoke) {
        assert ByHash(snapshot)[h] in toRevoke;
      }
    }
  }

  lemma GrantHashes(snapshot: Snapshot, desired: seq<IPPermissionInfo>, toGrant: seq<IPPermissionInfo>)
    requires Difference(toGrant, desired, snapshot)
    ensures Hashes(toGrant) == GrantSet(snapshot, desired)
    ensures forall x <- toGrant :: x in desired
  {
    forall h | h in GrantSet(snapshot, desired) ensures h in Hashes(toGrant) {
      assert ByHash(desired)[h] in toGrant;
    }
  }
}
