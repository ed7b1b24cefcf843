/**
 * Ingress permissions: their hash codes, the expansion of EC2's grouped form, and the
 * hash-keyed difference (pkg/networking/security_group_info.go, security_group_reconciler.go).
 */
module Permissions {
  import opened Text
  import opened PermissionLabels

  /** Where traffic comes from, with the description that EC2 stores beside it. */
  datatype Source =
    | IpRange(cidr: string, description: string)
    | Ipv6Range(cidrV6: string, description: string)
    | PrefixList(listId: string, description: string)
    | GroupPair(groupId: string, description: string)
    | Unrecognized(payload: string)

  /** A permission with a single source. */
  datatype Permission = Permission(protocol: string, fromPort: Option<int>, toPort: Option<int>, source: Source)

  datatype Entry = Entry(id: string, description: string)

  /** A permission as EC2 reports it: all sources that share protocol and ports are grouped. */
  datatype SdkPermission = SdkPermission(
    protocol: string, fromPort: Option<int>, toPort: Option<int>,
    ipRanges: seq<Entry>, ipv6Ranges: seq<Entry>, prefixListIds: seq<Entry>, groupPairs: seq<Entry>,
    payload: string)

  datatype IPPermissionInfo = IPPermissionInfo(permission: Permission, labels: Labels)

  // ---------------------------------------------------------------- hash codes

  function PortValue(port: Option<int>): int { if port.Some? then port.value else 0 }

  function SourceText(s: Source): string {
    match s
    case IpRange(cidr, _) => " IpRange: " + cidr
    case Ipv6Range(cidr, _) => " Ipv6Range: " + cidr
    case PrefixList(id, _) => " PrefixListId: " + id
    case GroupPair(id, _) => " UserIdGroupPair: " + id
    case Unrecognized(payload) => payload
  }

  /** The hash code covers the permission but not its description. */
  function HashCode(p: Permission): string {
    if p.source.Unrecognized? then p.source.payload
    else
      "IpProtocol: " + p.protocol + "," +
      (" FromPort: " + IntToString(PortValue(p.fromPort)) + "," +
       (" ToPort: " + IntToString(PortValue(p.toPort)) + "," + SourceText(p.source)))
  }

  predicate SameSource(s: Source, t: Source) {
    match (s, t)
    case (IpRange(a, _), IpRange(b, _)) => a == b
    case (Ipv6Range(a, _), Ipv6Range(b, _)) => a == b
    case (PrefixList(a, _), PrefixList(b, _)) => a == b
    case (GroupPair(a, _), GroupPair(b, _)) => a == b
    case (Unrecognized(a), Unrecognized(b)) => a == b
    case _ => false
  }

  lemma SourceTextInjective(s: Source, t: Source)
    requires !s.Unrecognized? && !t.Unrecognized?
    ensures SourceText(s) == SourceText(t) <==> SameSource(s, t)
  {
    var x, y := SourceText(s), SourceText(t);
    assert (s.IpRange? ==> x[1] == 'I' && x[3] == 'R') && (t.IpRange? ==> y[1] == 'I' && y[3] == 'R');
    assert (s.Ipv6Range? ==> x[1] == 'I' && x[3] == 'v') && (t.Ipv6Range? ==> y[1] == 'I' && y[3] == 'v');
    assert (s.PrefixList? ==> x[1] == 'P') && (t.PrefixList? ==> y[1] == 'P');
    assert (s.GroupPair? ==> x[1] == 'U') && (t.GroupPair? ==> y[1] == 'U');
    if x == y {
      match (s, t) {
        case (IpRange(a, _), IpRange(b, _)) => CommonPrefix(" IpRange: ", a, b);
        case (Ipv6Range(a, _), Ipv6Range(b, _)) => CommonPrefix(" Ipv6Range: ", a, b);
        case (PrefixList(a, _), PrefixList(b, _)) => CommonPrefix(" PrefixListId: ", a, b);
        case (GroupPair(a, _), GroupPair(b, _)) => CommonPrefix(" UserIdGroupPair: ", a, b);
        case _ =>
      }
    }
  }

  /**
   * A hash code identifies a permission: for protocols without a comma, two permissions
   * share a hash code exactly when protocol, ports and source agree.
   */
  lemma HashCodeIdentifies(p: Permission, q: Permission)
    requires !p.source.Unrecognized? && !q.source.Unrecognized?
    requires ',' !in p.protocol && ',' !in q.protocol
    ensures HashCode(p) == HashCode(q) <==>
      && p.protocol == q.protocol
      && PortValue(p.fromPort) == PortValue(q.fromPort)
      && PortValue(p.toPort) == PortValue(q.toPort)
      && SameSource(p.source, q.source)
  {
    SourceTextInjective(p.source, q.source);
    if HashCode(p) == HashCode(q) { SameHashSameParts(p, q); }
  }

  lemma SameHashSameParts(p: Permission, q: Permission)
    requires !p.source.Unrecognized? && !q.source.Unrecognized?
    requires ',' !in p.protocol && ',' !in q.protocol
    requires HashCode(p) == HashCode(q)
    ensures p.protocol == q.protocol && SourceText(p.source) == SourceText(q.source)
    ensures PortValue(p.fromPort) == PortValue(q.fromPort) && PortValue(p.toPort) == PortValue(q.toPort)
  {
    var pf, pt := PortValue(p.fromPort), PortValue(p.toPort);
    var qf, qt := PortValue(q.fromPort), PortValue(q.toPort);
    var ps, qs := SourceText(p.source), SourceText(q.source);
    hide SourceText, PortValue, IntToString;
    var p1, q1 := " ToPort: " + IntToString(pt) + "," + ps, " ToPort: " + IntToString(qt) + "," + qs;
    var p2, q2 := " FromPort: " + IntToString(pf) + "," + p1, " FromPort: " + IntToString(qf) + "," + q1;
    FirstSeparator("IpProtocol: " + p.protocol, p2, "IpProtocol: " + q.protocol, q2, ',');
    CommonPrefix("IpProtocol: ", p.protocol, q.protocol);
    SameNumberFirst(" FromPort: ", pf, p1, qf, q1);
    SameNumberFirst(" ToPort: ", pt, ps, qt, qs);
  }

  lemma SameNumberFirst(name: string, a: int, rest: string, b: int, more: string)
    requires ',' !in name
    requires name + IntToString(a) + "," + rest == name + IntToString(b) + "," + more
    ensures a == b && rest == more
  {
    FirstSeparator(name + IntToString(a), rest, name + IntToString(b), more, ',');
    CommonPrefix(name, IntToString(a), IntToString(b));
    IntToStringInjective(a, b);
  }

  // ---------------------------------------------------------------- labels of a stored rule

  function RawLabels(p: Permission): Labels {
    if p.source.Unrecognized? then map[] else LabelsForDescription(p.source.description)
  }

  function NewRawIPPermission(p: Permission): (info: IPPermissionInfo) {
    IPPermissionInfo(p, RawLabels(p))
  }

  datatype SourceKind = Cidr | CidrV6 | PrefixListKind | Group

  function MakeSource(kind: SourceKind, id: string, description: string): Source {
    match kind
    case Cidr => IpRange(id, description)
    case CidrV6 => Ipv6Range(id, description)
    case PrefixListKind => PrefixList(id, description)
    case Group => GroupPair(id, description)
  }

  /** A permission built from its parts, whose description is the printed form of its labels. */
  ghost predicate BuiltPermission(info: IPPermissionInfo, protocol: string, fromPort: int, toPort: int,
      kind: SourceKind, id: string, labels: Labels) {
    exists d :: Describes(d, labels)
      && info == IPPermissionInfo(Permission(protocol, Some(fromPort), Some(toPort), MakeSource(kind, id, d)), labels)
  }

  method NewIPPermission(protocol: string, fromPort: int, toPort: int, kind: SourceKind, id: string, labels: Labels)
    returns (info: IPPermissionInfo)
    ensures BuiltPermission(info, protocol, fromPort, toPort, kind, id, labels)
  {
    var description := BuildIPPermissionDescriptionForLabels(labels);
    info := IPPermissionInfo(Permission(protocol, Some(fromPort), Some(toPort), MakeSource(kind, id, description)),
      labels);
  }

  datatype Selector = Everything | LabelEquals(key: string, value: string) {
    predicate Matches(labels: Labels) {
      match this
      case Everything => true
      case LabelEquals(k, v) => k in labels && labels[k] == v
    }
  }

  // ---------------------------------------------------------------- expansion

  /** EC2 reports a rule by an entry among the sources of its kind, or, for one without a known source, by itself. */
  ghost predicate Reports(sdk: SdkPermission, p: Permission) {
    && p.protocol == sdk.protocol && p.fromPort == sdk.fromPort && p.toPort == sdk.toPort
    && match p.source
       case IpRange(cidr, description) => Entry(cidr, description) in sdk.ipRanges
       case Ipv6Range(cidr, description) => Entry(cidr, description) in sdk.ipv6Ranges
       case PrefixList(id, description) => Entry(id, description) in sdk.prefixListIds
       case GroupPair(id, description) => Entry(id, description) in sdk.groupPairs
       case Unrecognized(payload) => payload == sdk.payload && NoEntries(sdk)
  }

  predicate NoEntries(sdk: SdkPermission) {
    sdk.ipRanges == [] && sdk.ipv6Ranges == [] && sdk.prefixListIds == [] && sdk.groupPairs == []
  }

  ghost predicate ReportedBy(perms: seq<SdkPermission>, p: Permission) { exists sdk <- perms :: Reports(sdk, p) }

  function ExpandEntries(p: SdkPermission, kind: SourceKind, entries: seq<Entry>): seq<Permission> {
    seq(|entries|, i requires 0 <= i < |entries| =>
      Permission(p.protocol, p.fromPort, p.toPort, MakeSource(kind, entries[i].id, entries[i].description)))
  }

  function Expand(p: SdkPermission): seq<Permission> {
    var all := ExpandEntries(p, Cidr, p.ipRanges) + ExpandEntries(p, CidrV6, p.ipv6Ranges)
               + ExpandEntries(p, PrefixListKind, p.prefixListIds) + ExpandEntries(p, Group, p.groupPairs);
    if all == [] then [Permission(p.protocol, p.fromPort, p.toPort, Unrecognized(p.payload))] else all
  }

  method AppendEntries(p: SdkPermission, kind: SourceKind, entries: seq<Entry>, acc: seq<Permission>)
      returns (r: seq<Permission>)
    ensures r == acc + ExpandEntries(p, kind, entries)
  {
    r := acc;
    for i := 0 to |entries|
      invariant r == acc + ExpandEntries(p, kind, entries)[..i]
    {
      r := r + [Permission(p.protocol, p.fromPort, p.toPort, MakeSource(kind, entries[i].id, entries[i].description))];
    }
  }

  lemma EntryExpanded(sdk: SdkPermission, kind: SourceKind, entries: seq<Entry>, p: Permission)
    ensures p in ExpandEntries(sdk, kind, entries) <==>
      exists e <- entries ::
        p == Permission(sdk.protocol, sdk.fromPort, sdk.toPort, MakeSource(kind, e.id, e.description))
  {
    var all := ExpandEntries(sdk, kind, entries);
    if e :| e in entries && p == Permission(sdk.protocol, sdk.fromPort, sdk.toPort,
      MakeSource(kind, e.id, e.description)) {
      var i :| 0 <= i < |entries| && entries[i] == e;
      assert all[i] == p;
    }
  }

  /** Expansion yields exactly the rules that the permission reports. */
  lemma ExpandedAsReported(sdk: SdkPermission, p: Permission)
    ensures p in Expand(sdk) <==> Reports(sdk, p)
  {
    EntryExpanded(sdk, Cidr, sdk.ipRanges, p);
    EntryExpanded(sdk, CidrV6, sdk.ipv6Ranges, p);
    EntryExpanded(sdk, PrefixListKind, sdk.prefixListIds, p);
    EntryExpanded(sdk, Group, sdk.groupPairs, p);
    var v4, v6 := ExpandEntries(sdk, Cidr, sdk.ipRanges), ExpandEntries(sdk, CidrV6, sdk.ipv6Ranges);
    var lists, groups :=
      ExpandEntries(sdk, PrefixListKind, sdk.prefixListIds), ExpandEntries(sdk, Group, sdk.groupPairs);
    assert |v4 + v6 + lists + groups| == |v4| + |v6| + |lists| + |groups|;
    assert p in v4 + v6 + lists + groups <==> p in v4 || p in v6 || p in lists || p in groups;
  }

  lemma {:induction false} AllExpandedAsReported(perms: seq<SdkPermission>, p: Permission)
    ensures p in ExpandAll(perms) <==> ReportedBy(perms, p)
  {
    if perms != [] {
      var n := |perms| - 1;
      hide Reports, Expand;
      AllExpandedAsReported(perms[..n], p);
      ExpandedAsReported(perms[n], p);
      assert perms == perms[..n] + [perms[n]];
    }
  }

  method ExpandSDKIPPermission(p: SdkPermission) returns (expanded: seq<Permission>)
    ensures expanded == Expand(p)
    ensures forall x :: x in expanded <==> Reports(p, x)
  {
    forall x ensures x in Expand(p) <==> Reports(p, x) { ExpandedAsReported(p, x); }
    hide Reports, ExpandEntries;
    expanded := AppendEntries(p, Cidr, p.ipRanges, []);
    expanded := AppendEntries(p, CidrV6, p.ipv6Ranges, expanded);
    expanded := AppendEntries(p, PrefixListKind, p.prefixListIds, expanded);
    expanded := AppendEntries(p, Group, p.groupPairs, expanded);
    if |expanded| == 0 {
      expanded := [Permission(p.protocol, p.fromPort, p.toPort, Unrecognized(p.payload))];
    }
  }

  /** The rules of a security group, by hash code. */
  type Rules = map<string, Permission>

  ghost predicate ValidRules(rules: Rules) {
    forall h <- rules :: HashCode(rules[h]) == h
  }

  function ExpandAll(perms: seq<SdkPermission>): seq<Permission> {
    if perms == [] then [] else ExpandAll(perms[..|perms| - 1]) + Expand(perms[|perms| - 1])
  }

  /** Any way of grouping the rules that leaves none out and adds none. */
  ghost predicate Grouping(perms: seq<SdkPermission>, rules: Rules) {
    forall p :: ReportedBy(perms, p) <==> HashCode(p) in rules && rules[HashCode(p)] == p
  }

  /** An accurate snapshot: exactly the group's rules, each with the labels its description carries. */
  ghost predicate Accurate(ingress: seq<IPPermissionInfo>, rules: Rules) {
    && (forall x <- ingress :: x == NewRawIPPermission(x.permission)
         && HashCode(x.permission) in rules && rules[HashCode(x.permission)] == x.permission)
    && (forall h <- rules :: NewRawIPPermission(rules[h]) in ingress)
  }

  function RawInfos(ps: seq<Permission>): seq<IPPermissionInfo> {
    seq(|ps|, i requires 0 <= i < |ps| => NewRawIPPermission(ps[i]))
  }

  lemma RawInfosConcat(a: seq<Permission>, b: seq<Permission>)
    ensures RawInfos(a + b) == RawInfos(a) + RawInfos(b)
  {
  }

  method NewRawSecurityGroupInfo(perms: seq<SdkPermission>) returns (ingress: seq<IPPermissionInfo>)
    ensures ingress == RawInfos(ExpandAll(perms))
  {
    ingress := [];
    for i := 0 to |perms|
      invariant ingress == RawInfos(ExpandAll(perms[..i]))
    {
      var expanded := ExpandSDKIPPermission(perms[i]);
      ingress := AppendRaw(expanded, ingress);
      RawInfosConcat(ExpandAll(perms[..i]), expanded);
      assert perms[..i + 1][..i] == perms[..i];
    }
    assert perms[..|perms|] == perms;
  }

  method AppendRaw(expanded: seq<Permission>, acc: seq<IPPermissionInfo>) returns (r: seq<IPPermissionInfo>)
    ensures r == acc + RawInfos(expanded)
  {
    r := acc;
    for j := 0 to |expanded|
      invariant r == acc + RawInfos(expanded)[..j]
    {
      r := r + [NewRawIPPermission(expanded[j])];
    }
  }

  /** However EC2 groups the rules, expanding them gives an accurate snapshot. */
  lemma {:induction false} ExpansionIsAccurate(perms: seq<SdkPermission>, rules: Rules)
    requires Grouping(perms, rules) && ValidRules(rules)
    ensures Accurate(RawInfos(ExpandAll(perms)), rules)
  {
    var ps := ExpandAll(perms);
    var infos := RawInfos(ps);
    forall p ensures p in ps <==> ReportedBy(perms, p) { AllExpandedAsReported(perms, p); }
    hide ReportedBy, HashCode, ExpandAll;
    forall x | x in infos
      ensures x == NewRawIPPermission(x.permission)
           && HashCode(x.permission) in rules && rules[HashCode(x.permission)] == x.permission
    {
      var i :| 0 <= i < |infos| && infos[i] == x;
      assert ps[i] in ps;
    }
    forall h | h in rules ensures NewRawIPPermission(rules[h]) in infos {
      assert rules[h] in ps;
      var i :| 0 <= i < |ps| && ps[i] == rules[h];
      assert infos[i] in infos;
    }
  }

  // ---------------------------------------------------------------- differences by hash code

  function Hashes(infos: seq<IPPermissionInfo>): set<string> {
    set x | x in infos :: HashCode(x.permission)
  }

  /** Among permissions of one hash code the last wins. */
  function ByHash(infos: seq<IPPermissionInfo>): (m: map<string, IPPermissionInfo>)
    ensures m.Keys == Hashes(infos)
    ensures forall h <- m :: m[h] in infos && HashCode(m[h].permission) == h
  {
    if infos == [] then map[]
    else
      var last := infos[|infos| - 1];
      assert infos == infos[..|infos| - 1] + [last];
      ByHash(infos[..|infos| - 1])[HashCode(last.permission) := last]
  }

  lemma {:induction false} LastWins(infos: seq<IPPermissionInfo>, i: nat)
    requires i < |infos|
    requires forall j :: i < j < |infos| ==> HashCode(infos[j].permission) != HashCode(infos[i].permission)
    ensures HashCode(infos[i].permission) in ByHash(infos) && ByHash(infos)[HashCode(infos[i].permission)] == infos[i]
  {
    hide HashCode;
    var n := |infos| - 1;
    assert infos == infos[..n] + [infos[n]];
    if i < n { LastWins(infos[..n], i); }
  }

  method MapByHash(infos: seq<IPPermissionInfo>) returns (m: map<string, IPPermissionInfo>)
    ensures m == ByHash(infos)
  {
    m := map[];
    for i := 0 to |infos|
      invariant m == ByHash(infos[..i])
    {
      assert infos[..i + 1][..i] == infos[..i];
      m := m[HashCode(infos[i].permission) := infos[i]];
    }
    assert infos[..|infos|] == infos;
  }

  /** The difference lists each remaining hash code once. */
  ghost predicate Difference(diffs: seq<IPPermissionInfo>, source: seq<IPPermissionInfo>,
      target: seq<IPPermissionInfo>) {
    && (forall x :: x in diffs <==> exists h :: h in ByHash(source).Keys - Hashes(target) && x == ByHash(source)[h])
    && NoDuplicates(diffs)
  }

  method DiffIPPermissionInfos(source: seq<IPPermissionInfo>, target: seq<IPPermissionInfo>)
      returns (diffs: seq<IPPermissionInfo>)
    ensures Difference(diffs, source, target)
  {
    var sourceByHashCode := MapByHash(source);
    var targetByHashCode := MapByHash(target);
    var hashCodes := SortedList(sourceByHashCode.Keys - targetByHashCode.Keys);
    assert forall k :: 0 <= k < |hashCodes| ==> hashCodes[k] in Elements(hashCodes);
    diffs := SelectByHash(sourceByHashCode, hashCodes);
    DifferenceFound(source, target, sourceByHashCode, hashCodes, diffs);
  }

  method SelectByHash(byHash: map<string, IPPermissionInfo>, hashCodes: seq<string>)
      returns (found: seq<IPPermissionInfo>)
    requires forall k :: 0 <= k < |hashCodes| ==> hashCodes[k] in byHash
    ensures |found| == |hashCodes| && forall k :: 0 <= k < |hashCodes| ==> found[k] == byHash[hashCodes[k]]
  {
    found := [];
    for i := 0 to |hashCodes|
      invariant |found| == i && forall k :: 0 <= k < i ==> found[k] == byHash[hashCodes[k]]
    {
      found := found + [byHash[hashCodes[i]]];
    }
  }

  lemma DifferenceFound(source: seq<IPPermissionInfo>, target: seq<IPPermissionInfo>,
      byHash: map<string, IPPermissionInfo>, hashCodes: seq<string>, diffs: seq<IPPermissionInfo>)
    requires byHash == ByHash(source) && Elements(hashCodes) == byHash.Keys - Hashes(target) && NoDuplicates(hashCodes)
    requires |diffs| == |hashCodes| && forall k :: 0 <= k < |diffs| ==>
      hashCodes[k] in byHash && diffs[k] == byHash[hashCodes[k]]
    ensures Difference(diffs, source, target)
  {
    forall x | x in diffs ensures exists h :: h in ByHash(source).Keys - Hashes(target) && x == ByHash(source)[h] {
      var k :| 0 <= k < |diffs| && diffs[k] == x;
      assert hashCodes[k] in Elements(hashCodes);
    }
    forall h | h in ByHash(source).Keys - Hashes(target) ensures byHash[h] in diffs {
      assert h in Elements(hashCodes);
      var k :| 0 <= k < |hashCodes| && hashCodes[k] == h;
      assert diffs[k] == byHash[h];
    }
    forall i, j | 0 <= i < j < |diffs| ensures diffs[i] != diffs[j] {
      assert HashCode(diffs[i].permission) == hashCodes[i] && HashCode(diffs[j].permission) == hashCodes[j];
    }
  }
}
