/**
 * The shared endpoint security groups of all TargetGroupBindings
 * (pkg/targetgroupbinding/networking_manager.go): merge what every binding needs, decide
 * whether enough is known to revoke, drive each group, and garbage-collect unused groups.
 */
module NetworkingManagers {
  import opened Text
  import opened PermissionLabels
  import opened Permissions
  import opened SecurityGroups
  import opened TgbPermissions

  /** The namespaced name of a TargetGroupBinding. */
  type Key = string

  /** Permissions by security group; an empty map is Go's nil. */
  type PerGroup = map<string, seq<IPPermissionInfo>>

  type Entries = map<Key, PerGroup>

  // ---------------------------------------------------------------- what a reconcile may do

  function Consolidate(entries: Entries, listed: set<Key>): Entries {
    map k | k in entries && k in listed :: entries[k]
  }

  function GroupsOf(entries: Entries): set<string> {
    set k, g | k in entries && g in entries[k] :: g
  }

  /** The hash codes that some entry needs on a group. */
  function Needed(entries: Entries, g: string): set<string> {
    set k, x | k in entries && g in entries[k] && x in entries[k][g] :: HashCode(x.permission)
  }

  ghost predicate Wanted(entries: Entries, g: string, x: IPPermissionInfo) {
    exists k :: k in entries && g in entries[k] && x in entries[k][g]
  }

  /** What one reconcile works from: its entries, and whether they cover every listed binding. */
  datatype Plan = Plan(entries: Entries, complete: bool)

  function PlanFor(entries: Entries, listed: set<Key>): Plan {
    var kept := Consolidate(entries, listed);
    Plan(kept, kept.Keys == listed)
  }

  /** Grants come from entries; revocations need a complete plan and spare what any entry needs. */
  ghost predicate Allowed(plan: Plan, c: Call) {
    match c
    case Foreign(_) => false
    case Authorize(g, infos, _) => forall x <- infos :: Wanted(plan.entries, g, x)
    case Revoke(g, infos, _) =>
      plan.complete && forall x <- infos ::
        HashCode(x.permission) !in Needed(plan.entries, g) && SHARED.Matches(x.labels)
  }

  /** The source compares lengths; after consolidation that decides whether all bindings are covered. */
  lemma LengthTestIsKeyEquality(entries: Entries, listed: set<Key>)
    ensures |Consolidate(entries, listed)| == |listed| <==> Consolidate(entries, listed).Keys == listed
  {
    var kept := Consolidate(entries, listed).Keys;
    assert kept <= listed;
    SubsetOfSameSize(kept, listed);
  }

  lemma {:induction false} SubsetOfSameSize<T>(a: set<T>, b: set<T>)
    requires a <= b
    ensures |a| == |b| <==> a == b
  {
    if a != b {
      assert b == a + (b - a);
      assert |b| == |a| + |b - a|;
      var x :| x in b - a;
    }
  }

  ghost predicate AllAllowed(plan: Plan, before: seq<Call>, after: seq<Call>) {
    before <= after && forall i :: |before| <= i < |after| ==> Allowed(plan, after[i])
  }

  /** No rule that an entry needs is taken away. */
  ghost predicate NeededKept(entries: Entries, before: map<string, Rules>, after: map<string, Rules>) {
    && before.Keys == after.Keys
    && forall g, h :: g in before && h in before[g] && h in Needed(entries, g) ==>
      h in after[g] && after[g][h] == before[g][h]
  }

  ghost predicate InSync(rules: Rules, needed: set<string>, complete: bool) {
    needed <= rules.Keys && (complete ==> forall h <- rules :: h in needed || !SHARED.Matches(RawLabels(rules[h])))
  }

  // ---------------------------------------------------------------- aggregation

  type HashTable = map<string, IPPermissionInfo>

  /** Exactly the hash codes that the entries need on a group, each with a permission of some entry. */
  ghost predicate Collected(byHash: HashTable, entries: Entries, g: string) {
    && byHash.Keys == Needed(entries, g)
    && forall h <- byHash :: HashCode(byHash[h].permission) == h && Wanted(entries, g, byHash[h])
  }

  function Merged(perGroup: map<string, HashTable>, entry: PerGroup, g: string): HashTable {
    var base := if g in perGroup then perGroup[g] else map[];
    if g in entry then base + ByHash(entry[g]) else base
  }

  method AddEntry(perGroup: map<string, HashTable>, entry: PerGroup) returns (r: map<string, HashTable>)
    ensures r.Keys == perGroup.Keys + entry.Keys
    ensures forall g <- r :: r[g] == Merged(perGroup, entry, g)
  {
    r := perGroup;
    var todo := entry.Keys;
    while todo != {}
      invariant todo <= entry.Keys && r.Keys == perGroup.Keys + (entry.Keys - todo)
      invariant forall g <- r :: r[g] == if g in todo then perGroup[g] else Merged(perGroup, entry, g)
      decreases todo
    {
      var g := Pick(todo);
      var existing := if g in r then r[g] else map[];
      var mine := MapByHash(entry[g]);
      r := r[g := existing + mine];
      todo := todo - {g};
    }
  }

  lemma WantedAdd(entries: Entries, k: Key, entry: PerGroup, g: string, x: IPPermissionInfo)
    requires k !in entries
    ensures Wanted(entries[k := entry], g, x) <==> Wanted(entries, g, x) || (g in entry && x in entry[g])
  {
    var more := entries[k := entry];
    if Wanted(entries, g, x) {
      var k' :| k' in entries && g in entries[k'] && x in entries[k'][g];
      assert k' in more && more[k'] == entries[k'];
    }
    if g in entry && x in entry[g] {
      assert k in more && more[k] == entry;
    }
  }

  lemma NeededAdd(entries: Entries, k: Key, entry: PerGroup, g: string)
    requires k !in entries
    ensures Needed(entries[k := entry], g) ==
      Needed(entries, g) + if g in entry then Hashes(entry[g]) else {}
  {
    hide HashCode;
    var more, added := entries[k := entry], if g in entry then Hashes(entry[g]) else {};
    forall h | h in Needed(more, g) ensures h in Needed(entries, g) + added {
      var j: Key, x: IPPermissionInfo :| j in more && g in more[j] && x in more[j][g] && HashCode(x.permission) == h;
      assert j == k || (j in entries && entries[j] == more[j]);
    }
    forall h | h in Needed(entries, g) + added ensures h in Needed(more, g) {
      if h in added {
        var x: IPPermissionInfo :| x in entry[g] && HashCode(x.permission) == h;
        assert k in more && more[k] == entry;
      } else {
        var j: Key, x: IPPermissionInfo :|
          j in entries && g in entries[j] && x in entries[j][g] && HashCode(x.permission) == h;
        assert j in more && more[j] == entries[j];
      }
    }
  }

  lemma CollectedAdd(perGroup: map<string, HashTable>, entries: Entries, k: Key, entry: PerGroup, g: string)
    requires k !in entries
    requires Collected(if g in perGroup then perGroup[g] else map[], entries, g)
    ensures Collected(Merged(perGroup, entry, g), entries[k := entry], g)
  {
    hide HashCode, Needed, Wanted;
    var base: HashTable := if g in perGroup then perGroup[g] else map[];
    var more, merged := entries[k := entry], Merged(perGroup, entry, g);
    NeededAdd(entries, k, entry, g);
    forall h | h in merged ensures HashCode(merged[h].permission) == h && Wanted(more, g, merged[h]) {
      WantedAdd(entries, k, entry, g, merged[h]);
    }
  }

  /** Per group, one permission for every hash code that some entry needs. */
  ghost predicate Aggregates(agg: PerGroup, entries: Entries) {
    && agg.Keys == GroupsOf(entries)
    && (forall g <- agg :: Hashes(agg[g]) == Needed(entries, g))
    && (forall g, x :: g in agg && x in agg[g] ==> Wanted(entries, g, x))
  }

  lemma GroupsAdd(entries: Entries, k: Key, entry: PerGroup)
    requires k !in entries
    ensures GroupsOf(entries[k := entry]) == GroupsOf(entries) + entry.Keys
  {
    var more := entries[k := entry];
    forall g | g in GroupsOf(entries) + entry.Keys ensures g in GroupsOf(more) {
      if g in entry {
        assert k in more && g in more[k];
      } else {
        var k' :| k' in entries && g in entries[k'];
        assert k' in more && g in more[k'];
      }
    }
  }

  method CollectByHash(entries: Entries) returns (perGroup: map<string, HashTable>)
    ensures perGroup.Keys == GroupsOf(entries)
    ensures forall g <- perGroup :: Collected(perGroup[g], entries, g)
  {
    perGroup := map[];
    ghost var done: Entries := map[];
    var todo := entries.Keys;
    while todo != {}
      invariant todo <= entries.Keys && done.Keys == entries.Keys - todo
      invariant forall k <- done :: done[k] == entries[k]
      invariant perGroup.Keys == GroupsOf(done)
      invariant forall g <- perGroup :: Collected(perGroup[g], done, g)
      decreases todo
    {
      var k := Pick(todo);
      var more := AddEntry(perGroup, entries[k]);
      GroupsAdd(done, k, entries[k]);
      forall g | g in more ensures Collected(more[g], done[k := entries[k]], g) {
        CollectedAdd(perGroup, done, k, entries[k], g);
      }
      perGroup := more;
      done := done[k := entries[k]];
      todo := todo - {k};
    }
    assert done == entries;
  }

  method ComputeAggregatedIngressPermissionsPerSG(entries: Entries) returns (agg: PerGroup)
    ensures Aggregates(agg, entries)
  {
    var perGroup := CollectByHash(entries);
    agg := map[];
    var todo := perGroup.Keys;
    while todo != {}
      invariant todo <= perGroup.Keys && agg.Keys == perGroup.Keys - todo
      invariant forall g <- agg :: Hashes(agg[g]) == perGroup[g].Keys
      invariant forall g, x :: g in agg && x in agg[g] ==> Wanted(entries, g, x)
      decreases todo
    {
      var g := Pick(todo);
      var perms := ListByHash(perGroup[g]);
      agg := agg[g := perms];
      todo := todo - {g};
    }
  }

  method ListByHash(byHash: HashTable) returns (perms: seq<IPPermissionInfo>)
    requires forall h <- byHash :: HashCode(byHash[h].permission) == h
    ensures Hashes(perms) == byHash.Keys
    ensures forall x <- perms :: HashCode(x.permission) in byHash && x == byHash[HashCode(x.permission)]
  {
    var hashCodes := SortedList(byHash.Keys);
    assert forall k :: 0 <= k < |hashCodes| ==> hashCodes[k] in Elements(hashCodes);
    perms := [];
    for i := 0 to |hashCodes|
      invariant |perms| == i && forall k :: 0 <= k < i ==> perms[k] == byHash[hashCodes[k]]
    {
      perms := perms + [byHash[hashCodes[i]]];
    }
    forall h | h in byHash.Keys ensures h in Hashes(perms) {
      assert h in Elements(hashCodes);
      var k :| 0 <= k < |hashCodes| && hashCodes[k] == h;
      assert perms[k] in perms;
    }
  }

  // ---------------------------------------------------------------- the manager

  class NetworkingManager {
    const sgReconciler: SecurityGroupReconciler
    const sgManager: SecurityGroupManager
    const ec2: Ec2
    var ingressPermissionsPerSGByTGB: Entries
    var trackedEndpointSGs: set<string>
    var trackedEndpointSGsInitialized: bool

    /** Every group that an entry uses is tracked, so it can be cleaned up later. */
    ghost predicate Valid() reads this, sgManager, ec2 {
      && sgReconciler.sgManager == sgManager && sgManager.ec2 == ec2
      && sgManager.Valid()
      && GroupsOf(ingressPermissionsPerSGByTGB) <= trackedEndpointSGs
    }

    constructor (sgReconciler: SecurityGroupReconciler)
      requires sgReconciler.Valid()
      ensures Valid() && this.sgReconciler == sgReconciler && ingressPermissionsPerSGByTGB == map[]
    {
      this.sgReconciler := sgReconciler;
      this.sgManager := sgReconciler.sgManager;
      this.ec2 := sgReconciler.sgManager.ec2;
      ingressPermissionsPerSGByTGB := map[];
      trackedEndpointSGs := {};
      trackedEndpointSGsInitialized := false;
    }

    /** Bindings that are gone or no longer carry networking rules lose their entries. */
    method ConsolidateIngressPermissionsPerSGByTGB(listed: set<Key>) returns (complete: bool)
      requires Valid()
      modifies this`ingressPermissionsPerSGByTGB
      ensures Valid()
      ensures Plan(ingressPermissionsPerSGByTGB, complete) == PlanFor(old(ingressPermissionsPerSGByTGB), listed)
    {
      var todo := ingressPermissionsPerSGByTGB.Keys;
      while todo != {}
        invariant todo <= old(ingressPermissionsPerSGByTGB).Keys
        invariant forall k :: k in ingressPermissionsPerSGByTGB <==>
          k in old(ingressPermissionsPerSGByTGB) && (k in todo || k in listed)
        invariant forall k <- ingressPermissionsPerSGByTGB ::
          ingressPermissionsPerSGByTGB[k] == old(ingressPermissionsPerSGByTGB)[k]
        decreases todo
      {
        var k := Pick(todo);
        if k !in listed { ingressPermissionsPerSGByTGB := ingressPermissionsPerSGByTGB - {k}; }
        todo := todo - {k};
      }
      assert ingressPermissionsPerSGByTGB == Consolidate(old(ingressPermissionsPerSGByTGB), listed);
      LengthTestIsKeyEquality(old(ingressPermissionsPerSGByTGB), listed);
      complete := |ingressPermissionsPerSGByTGB| == |listed|;
    }

    /** Drive one group to what the entries need there. */
    method DriveGroup(g: string, perms: seq<IPPermissionInfo>, complete: bool) returns (err: Error)
      requires Valid() && Hashes(perms) == Needed(ingressPermissionsPerSGByTGB, g)
      requires forall x <- perms :: Wanted(ingressPermissionsPerSGByTGB, g, x)
      modifies sgManager, ec2
      ensures Valid() && ec2.faults >= old(ec2.faults)
      ensures AllAllowed(Plan(ingressPermissionsPerSGByTGB, complete), old(ec2.calls), ec2.calls)
      ensures NeededKept(ingressPermissionsPerSGByTGB, old(ec2.groups), ec2.groups)
      ensures OnlyGroupChanged(old(ec2.groups), ec2.groups, g)
      ensures old(sgManager.Coherent()) ==> sgManager.Coherent()
      ensures err.Some? && ec2.faults == old(ec2.faults) ==> g !in ec2.groups
      ensures err.None? && old(sgManager.Coherent()) ==>
        g in ec2.groups && InSync(ec2.groups[g], Needed(ingressPermissionsPerSGByTGB, g), complete)
    {
      var opts := Options(SHARED, !complete);
      ghost var calls, groups := ec2.calls, ec2.groups;
      err := sgReconciler.ReconcileIngress(g, perms, opts);
      StepAllowed(Plan(ingressPermissionsPerSGByTGB, complete), perms, g, opts, calls, calls, ec2.calls);
    }

    /** Drive every group that some entry uses. */
    method ReconcileUsedGroups(agg: PerGroup, complete: bool) returns (err: Error)
      requires Valid() && Aggregates(agg, ingressPermissionsPerSGByTGB)
      modifies sgManager, ec2
      ensures Valid() && ec2.faults >= old(ec2.faults)
      ensures AllAllowed(Plan(ingressPermissionsPerSGByTGB, complete), old(ec2.calls), ec2.calls)
      ensures NeededKept(ingressPermissionsPerSGByTGB, old(ec2.groups), ec2.groups)
      ensures old(sgManager.Coherent()) ==> sgManager.Coherent()
      ensures err.Some? && ec2.faults == old(ec2.faults) ==> !(agg.Keys <= ec2.groups.Keys)
      ensures err.None? && old(sgManager.Coherent()) ==> forall g <- agg ::
        g in ec2.groups && InSync(ec2.groups[g], Needed(ingressPermissionsPerSGByTGB, g), complete)
    {
      hide AllDated, Replay, ValidRules, InSync, Allowed, AllAccurate;
      var todo := agg.Keys;
      while todo != {}
        invariant todo <= agg.Keys && Valid() && ec2.faults >= old(ec2.faults)
        invariant AllAllowed(Plan(ingressPermissionsPerSGByTGB, complete), old(ec2.calls), ec2.calls)
        invariant NeededKept(ingressPermissionsPerSGByTGB, old(ec2.groups), ec2.groups)
        invariant old(sgManager.Coherent()) ==> sgManager.Coherent()
        invariant old(sgManager.Coherent()) ==> forall g <- agg.Keys - todo ::
          g in ec2.groups && InSync(ec2.groups[g], Needed(ingressPermissionsPerSGByTGB, g), complete)
        modifies sgManager, ec2
        decreases todo
      {
        var g := Pick(todo);
        ghost var calls0, groups0 := ec2.calls, ec2.groups;
        err := DriveGroup(g, agg[g], complete);
        AllowedTwice(Plan(ingressPermissionsPerSGByTGB, complete), old(ec2.calls), calls0, ec2.calls);
        if err.Some? { return; }
        todo := todo - {g};
      }
      err := None;
    }

    /** Tracked groups; on first use the groups that carry the cluster tag are discovered. */
    method FetchEndpointSGs(tagged: set<string>) returns (r: Fetched<set<string>>)
      requires Valid()
      modifies this`trackedEndpointSGs, this`trackedEndpointSGsInitialized, sgManager, ec2`faults
      ensures Valid() && ec2.faults >= old(ec2.faults) && (r.Failed? ==> ec2.faults > old(ec2.faults))
      ensures old(sgManager.Coherent()) ==> sgManager.Coherent()
      ensures r.Failed? ==> trackedEndpointSGs == old(trackedEndpointSGs)
      ensures r.Ok? ==> trackedEndpointSGsInitialized && r.value == trackedEndpointSGs
      ensures r.Ok? && old(trackedEndpointSGsInitialized) ==> trackedEndpointSGs == old(trackedEndpointSGs)
      ensures r.Ok? && !old(trackedEndpointSGsInitialized) ==>
        trackedEndpointSGs == old(trackedEndpointSGs) + tagged * ec2.groups.Keys
    {
      if !trackedEndpointSGsInitialized {
        var discovered := sgManager.FetchSGInfosByRequest(tagged);
        if discovered.Failed? { return Failed(discovered.code); }
        trackedEndpointSGs := trackedEndpointSGs + discovered.value;
        trackedEndpointSGsInitialized := true;
      }
      return Ok(trackedEndpointSGs);
    }

    /** Takes what the controller owns off a group that no entry uses. */
    method CleanUnusedGroup(g: string) returns (err: Error)
      requires Valid() && g !in GroupsOf(ingressPermissionsPerSGByTGB)
      modifies sgManager, ec2
      ensures Valid() && ec2.faults >= old(ec2.faults)
      ensures AllAllowed(Plan(ingressPermissionsPerSGByTGB, true), old(ec2.calls), ec2.calls)
      ensures OnlyGroupChanged(old(ec2.groups), ec2.groups, g)
      ensures old(sgManager.Coherent()) ==> sgManager.Coherent()
      ensures err.None? && old(sgManager.Coherent()) ==> g in ec2.groups && InSync(ec2.groups[g], {}, true)
      ensures err == Some(GroupNotFound) ==> g !in ec2.groups
      ensures err.Some? && ec2.faults == old(ec2.faults) ==> err.value == GroupNotFound
    {
      var opts := Options(SHARED, false);
      ghost var calls := ec2.calls;
      err := sgReconciler.ReconcileIngress(g, [], opts);
      StepAllowed(Plan(ingressPermissionsPerSGByTGB, true), [], g, opts, calls, calls, ec2.calls);
    }

    /** Cleans a group, or forgets it if EC2 does not know it. */
    method CleanOrForget(g: string) returns (err: Error)
      requires Valid() && g !in GroupsOf(ingressPermissionsPerSGByTGB)
      modifies this`trackedEndpointSGs, sgManager, ec2
      ensures Valid() && ec2.faults >= old(ec2.faults) && (err.Some? ==> ec2.faults > old(ec2.faults))
      ensures AllAllowed(Plan(ingressPermissionsPerSGByTGB, true), old(ec2.calls), ec2.calls)
      ensures OnlyGroupChanged(old(ec2.groups), ec2.groups, g)
      ensures old(sgManager.Coherent()) ==> sgManager.Coherent()
      ensures if trackedEndpointSGs == old(trackedEndpointSGs)
        then err.None? && old(sgManager.Coherent()) && g in trackedEndpointSGs ==> AllClean(ec2.groups, {g})
        else trackedEndpointSGs == old(trackedEndpointSGs) - {g} && g !in ec2.groups
    {
      err := CleanUnusedGroup(g);
      if err == Some(GroupNotFound) {
        trackedEndpointSGs := trackedEndpointSGs - {g};
        err := None;
      }
    }

    /** Clean tracked groups that no entry uses; a group that no longer exists is forgotten. */
    method GcIngressPermissionsFromUnusedEndpointSGs(tagged: set<string>) returns (err: Error)
      requires Valid()
      modifies this`trackedEndpointSGs, this`trackedEndpointSGsInitialized, sgManager, ec2
      ensures Valid() && ec2.faults >= old(ec2.faults)
      ensures AllAllowed(Plan(ingressPermissionsPerSGByTGB, true), old(ec2.calls), ec2.calls)
      ensures NeededKept(ingressPermissionsPerSGByTGB, old(ec2.groups), ec2.groups)
      ensures forall g <- GroupsOf(ingressPermissionsPerSGByTGB) :: g in old(ec2.groups) ==>
        ec2.groups[g] == old(ec2.groups)[g]
      ensures old(sgManager.Coherent()) ==> sgManager.Coherent()
      ensures err.None? && old(sgManager.Coherent()) ==>
        forall g <- trackedEndpointSGs - GroupsOf(ingressPermissionsPerSGByTGB) ::
        g in ec2.groups && InSync(ec2.groups[g], {}, true)
      ensures forall g <- old(trackedEndpointSGs) :: g in trackedEndpointSGs || g !in ec2.groups
      ensures err.Some? ==> ec2.faults > old(ec2.faults)
    {
      hide AllDated, Replay, ValidRules, InSync, Allowed, AllAccurate;
      var endpointSGs := FetchEndpointSGs(tagged);
      if endpointSGs.Failed? { return Some(endpointSGs.code); }
      var unused := endpointSGs.value - GroupsOf(ingressPermissionsPerSGByTGB);
      err := CleanUnusedGroups(unused);
    }

    method CleanUnusedGroups(unused: set<string>) returns (err: Error)
      requires Valid() && unused !! GroupsOf(ingressPermissionsPerSGByTGB)
      modifies this`trackedEndpointSGs, sgManager, ec2
      ensures Valid() && ec2.faults >= old(ec2.faults)
      ensures AllAllowed(Plan(ingressPermissionsPerSGByTGB, true), old(ec2.calls), ec2.calls)
      ensures OnlyTheseChanged(old(ec2.groups), ec2.groups, unused)
      ensures old(sgManager.Coherent()) ==> sgManager.Coherent()
      ensures err.None? && old(sgManager.Coherent()) ==> AllClean(ec2.groups, unused * trackedEndpointSGs)
      ensures trackedEndpointSGs <= old(trackedEndpointSGs)
      ensures forall g <- old(trackedEndpointSGs) - trackedEndpointSGs :: g !in ec2.groups
      ensures err.Some? ==> ec2.faults > old(ec2.faults)
    {
      hide AllDated, Replay, ValidRules, InSync, Allowed, AllAccurate;
      var todo := unused;
      while todo != {}
        invariant todo <= unused && Valid() && ec2.faults >= old(ec2.faults)
        invariant AllAllowed(Plan(ingressPermissionsPerSGByTGB, true), old(ec2.calls), ec2.calls)
        invariant OnlyTheseChanged(old(ec2.groups), ec2.groups, unused)
        invariant old(sgManager.Coherent()) ==> sgManager.Coherent()
        invariant old(sgManager.Coherent()) ==> AllClean(ec2.groups, (unused - todo) * trackedEndpointSGs)
        invariant trackedEndpointSGs <= old(trackedEndpointSGs)
        invariant forall g <- old(trackedEndpointSGs) - trackedEndpointSGs :: g !in ec2.groups
        modifies this`trackedEndpointSGs, sgManager, ec2
        decreases todo
      {
        var g := Pick(todo);
        ghost var calls0, groups0 := ec2.calls, ec2.groups;
        err := CleanOrForget(g);
        AllowedTwice(Plan(ingressPermissionsPerSGByTGB, true), old(ec2.calls), calls0, ec2.calls);
        if err.Some? { return; }
        todo := todo - {g};
      }
      err := None;
    }

    /**
     * One reconcile of one binding. `listed` are the bindings with networking that the API
     * server lists (absent when listing fails) and `tagged` the groups with the cluster tag.
     * If the listing succeeds, no call fails and every group in use exists, it succeeds.
     */
    method ReconcileWithIngressPermissionsPerSG(tgb: Key, perGroup: PerGroup, listed: Option<set<Key>>,
        tagged: set<string>) returns (err: Error)
      requires Valid()
      modifies this, sgManager, ec2
      ensures Valid() && ec2.faults >= old(ec2.faults)
      ensures var entries := old(ingressPermissionsPerSGByTGB)[tgb := perGroup];
        listed.None? ==> ingressPermissionsPerSGByTGB == entries && ec2.calls == old(ec2.calls) && err.Some?
      ensures var entries := old(ingressPermissionsPerSGByTGB)[tgb := perGroup];
        listed.Some? ==>
          && ingressPermissionsPerSGByTGB == PlanFor(entries, listed.value).entries
          && AllAllowed(PlanFor(entries, listed.value), old(ec2.calls), ec2.calls)
      ensures NeededKept(ingressPermissionsPerSGByTGB, old(ec2.groups), ec2.groups)
      ensures old(sgManager.Coherent()) ==> sgManager.Coherent()
      ensures err.None? && old(sgManager.Coherent()) ==> forall g <- GroupsOf(ingressPermissionsPerSGByTGB) ::
        g in ec2.groups && InSync(ec2.groups[g], Needed(ingressPermissionsPerSGByTGB, g),
          ingressPermissionsPerSGByTGB.Keys == listed.value)
      ensures err.None? && old(sgManager.Coherent()) && ingressPermissionsPerSGByTGB.Keys == listed.value ==>
        forall g <- trackedEndpointSGs ::
          g in ec2.groups && InSync(ec2.groups[g], Needed(ingressPermissionsPerSGByTGB, g), true)
      ensures forall g <- old(trackedEndpointSGs) + perGroup.Keys :: g in trackedEndpointSGs || g !in ec2.groups
      ensures err.Some? && listed.Some? && ec2.faults == old(ec2.faults) ==>
        !(GroupsOf(ingressPermissionsPerSGByTGB) <= ec2.groups.Keys)
    {
      hide AllDated, Replay, ValidRules, InSync, Allowed, AllAccurate;
      ghost var entries := ingressPermissionsPerSGByTGB[tgb := perGroup];
      ingressPermissionsPerSGByTGB := ingressPermissionsPerSGByTGB[tgb := perGroup];
      trackedEndpointSGs := trackedEndpointSGs + perGroup.Keys;
      if listed.None? { return Some(OtherFailure); }
      var complete := ConsolidateIngressPermissionsPerSGByTGB(listed.value);
      var agg := ComputeAggregatedIngressPermissionsPerSG(ingressPermissionsPerSGByTGB);
      err := ReconcileUsedGroups(agg, complete);
      if err.Some? { return; }
      if complete {
        ghost var calls1, groups1 := ec2.calls, ec2.groups;
        err := GcIngressPermissionsFromUnusedEndpointSGs(tagged);
        AllowedTwice(PlanFor(entries, listed.value), old(ec2.calls), calls1, ec2.calls);
        forall g ensures g in GroupsOf(ingressPermissionsPerSGByTGB) || Needed(ingressPermissionsPerSGByTGB, g) == {} {
        }
      }
    }
  }

  /** The groups have no rule left that the controller owns. */
  ghost predicate AllClean(groups: map<string, Rules>, ids: set<string>) {
    forall g <- ids :: g in groups && InSync(groups[g], {}, true)
  }

  ghost predicate OnlyTheseChanged(before: map<string, Rules>, after: map<string, Rules>, ids: set<string>) {
    before.Keys == after.Keys && forall g <- before :: g !in ids ==> after[g] == before[g]
  }

  lemma StepAllowed(plan: Plan, desired: seq<IPPermissionInfo>, g: string, opts: Options,
                    calls: seq<Call>, before: seq<Call>, after: seq<Call>)
    requires AllAllowed(plan, calls, before) && Extends(before, after, g, desired, opts)
    requires opts == Options(SHARED, !plan.complete)
    requires Hashes(desired) == Needed(plan.entries, g) && forall x <- desired :: Wanted(plan.entries, g, x)
    ensures AllAllowed(plan, calls, after)
  {
    forall i | |calls| <= i < |after| ensures Allowed(plan, after[i]) {
      if i < |before| {
        assert after[i] == before[i];
      } else {
        assert after[i] == after[|before|..][i - |before|];
        assert SafeCall(after[i], g, desired, opts);
      }
    }
  }

  lemma AllowedTwice(plan: Plan, a: seq<Call>, b: seq<Call>, c: seq<Call>)
    requires AllAllowed(plan, a, b) && AllAllowed(plan, b, c)
    ensures AllAllowed(plan, a, c)
  {
    assert forall i :: |a| <= i < |b| ==> c[i] == b[i];
  }
}
