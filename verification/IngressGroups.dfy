/** Ingress groups: membership, finalizers and loading. */
module IngressGroups {
  import opened Text

  // Which group an Ingress belongs to, the finalizers that tie Ingresses to groups, loading a group,
  // and which groups an Ingress event wakes up (pkg/ingress/group_loader.go,
  // pkg/ingress/finalizer.go, controllers/ingress/eventhandlers/ingress_events.go).

  /** An explicit group has no namespace; an implicit one carries its Ingress's key. */
  datatype GroupID = GroupID(namespace: string, name: string) {
    predicate IsExplicit() { namespace == "" }
  }

  datatype OrderAnnotation = NoOrder | MalformedOrder | Order(value: int)

  datatype Ingress = Ingress(
    namespace: string,
    name: string,
    finalizers: seq<string>,
    deleting: bool,
    classAnnotation: Option<string>,
    className: Option<string>,
    groupAnnotation: Option<string>,
    groupOrder: OrderAnnotation)

  /** What loading an Ingress's class yields; the class may set the group's name. */
  datatype ClassLoad = ClassLoaded(isALB: bool, groupName: Option<string>) | ClassInvalid | ClassLookupFailed

  /** The controller's settings and its view of the IngressClasses. */
  datatype Config = Config(matchesAnnotation: string -> bool, manageWithoutClass: bool, loadClass: Ingress -> ClassLoad)

  datatype GroupLoad = InGroup(id: GroupID) | NoGroup | InvalidGroup | LookupFailed

  const EXPLICIT_PREFIX: string := "group.ingress.k8s.aws/"
  const IMPLICIT_FINALIZER: string := "ingress.k8s.aws/resources"
  const MAX_GROUP_NAME_LENGTH: nat := 63

  function ImplicitID(ing: Ingress): GroupID { GroupID(ing.namespace, ing.name) }

  function BuildGroupFinalizer(g: GroupID): string {
    if g.IsExplicit() then EXPLICIT_PREFIX + g.name else IMPLICIT_FINALIZER
  }

  // ---------------------------------------------------------------- membership

  predicate LowerAlnum(c: char) { 'a' <= c <= 'z' || '0' <= c <= '9' }

  predicate ValidGroupName(s: string) {
    && 0 < |s| <= MAX_GROUP_NAME_LENGTH
    && LowerAlnum(s[0]) && LowerAlnum(s[|s| - 1])
    && forall c <- s :: LowerAlnum(c) || c == '-' || c == '.'
  }

  function ExplicitGroup(name: string): GroupLoad {
    if ValidGroupName(name) then InGroup(GroupID("", name)) else InvalidGroup
  }

  function AnnotatedGroup(ing: Ingress): GroupLoad {
    if ing.groupAnnotation.Some? then ExplicitGroup(ing.groupAnnotation.value) else InGroup(ImplicitID(ing))
  }

  /** The class annotation outranks the class name; the class's group outranks the annotation. */
  function LoadGroupIDIfAny(cfg: Config, ing: Ingress): GroupLoad {
    if ing.deleting then NoGroup
    else if ing.classAnnotation.Some? then
      if cfg.matchesAnnotation(ing.classAnnotation.value) then AnnotatedGroup(ing) else NoGroup
    else if ing.className.Some? then
      match cfg.loadClass(ing)
      case ClassInvalid => InvalidGroup
      case ClassLookupFailed => LookupFailed
      case ClassLoaded(isALB, groupName) =>
        if !isALB then NoGroup
        else if groupName.Some? then ExplicitGroup(groupName.value)
        else AnnotatedGroup(ing)
    else if cfg.manageWithoutClass then AnnotatedGroup(ing)
    else NoGroup
  }

  predicate MemberOf(cfg: Config, g: GroupID, ing: Ingress) { LoadGroupIDIfAny(cfg, ing) == InGroup(g) }

  /** The controller takes care of the Ingress: the class annotation outranks the class name. */
  ghost predicate Managed(cfg: Config, ing: Ingress) {
    || (ing.classAnnotation.Some? && cfg.matchesAnnotation(ing.classAnnotation.value))
    || (ing.classAnnotation.None? && ing.className.Some? && cfg.loadClass(ing).ClassLoaded? && cfg.loadClass(ing).isALB)
    || (ing.classAnnotation.None? && ing.className.None? && cfg.manageWithoutClass)
  }

  /** The Ingress's class sets the group's name. */
  ghost predicate ClassSets(cfg: Config, ing: Ingress, name: string) {
    ing.classAnnotation.None? && ing.className.Some? && cfg.loadClass(ing) == ClassLoaded(true, Some(name))
  }

  /** Who is a member of a group: the class's group outranks the annotation, which outranks the Ingress's own group. */
  lemma MemberIff(cfg: Config, g: GroupID, ing: Ingress)
    ensures MemberOf(cfg, g, ing) <==>
      && !ing.deleting && Managed(cfg, ing)
      && if exists name :: ClassSets(cfg, ing, name)
         then g.IsExplicit() && ValidGroupName(g.name) && ClassSets(cfg, ing, g.name)
         else if ing.groupAnnotation.Some?
         then g.IsExplicit() && ValidGroupName(g.name) && ing.groupAnnotation == Some(g.name)
         else g == ImplicitID(ing)
  {
    hide ValidGroupName;
    if ing.classAnnotation.None? && ing.className.Some? && cfg.loadClass(ing).ClassLoaded? {
      var load := cfg.loadClass(ing);
      assert load.groupName.Some? && load.isALB ==> ClassSets(cfg, ing, load.groupName.value);
    }
  }

  /** All Ingresses of a class that sets a group's name are members of that group, whatever their annotations say. */
  lemma ClassMembers(cfg: Config, ings: set<Ingress>, name: string)
    requires ValidGroupName(name) && forall ing <- ings :: !ing.deleting && ClassSets(cfg, ing, name)
    ensures forall ing <- ings, g :: MemberOf(cfg, g, ing) <==> g == GroupID("", name)
  {
    forall ing, g | ing in ings ensures MemberOf(cfg, g, ing) <==> g == GroupID("", name) { MemberIff(cfg, g, ing); }
  }

  predicate ContainsGroupFinalizer(g: GroupID, ing: Ingress) {
    (g.IsExplicit() || ImplicitID(ing) == g) && BuildGroupFinalizer(g) in ing.finalizers
  }

  /** An Ingress is a namespaced object, and namespaces contain no slash. */
  predicate Namespaced(ing: Ingress) { ing.namespace != "" && '/' !in ing.namespace }

  // ---------------------------------------------------------------- finalizers and groups

  method LoadGroupIDsPendingFinalization(ing: Ingress) returns (ids: seq<GroupID>)
    requires Namespaced(ing)
    ensures forall g :: g in ids <==> ContainsGroupFinalizer(g, ing)
  {
    hide BuildGroupFinalizer;
    ids := [];
    for i := 0 to |ing.finalizers|
      invariant forall g :: g in ids <==> ContainsGroupFinalizer(g, ing.(finalizers := ing.finalizers[..i]))
    {
      var f := ing.finalizers[i];
      assert ing.finalizers[..i + 1] == ing.finalizers[..i] + [f];
      forall g: GroupID | g.IsExplicit() || ImplicitID(ing) == g
        ensures BuildGroupFinalizer(g) == f <==> DecodeFinalizer(ing, f) == Some(g)
      {
        FinalizerRoundTrip(ing, g, f);
      }
      if f == IMPLICIT_FINALIZER {
        ids := ids + [ImplicitID(ing)];
      } else if EXPLICIT_PREFIX <= f {
        ids := ids + [GroupID("", f[|EXPLICIT_PREFIX|..])];
      }
    }
    assert ing.finalizers[..|ing.finalizers|] == ing.finalizers;
  }

  /** The group that a finalizer on an Ingress stands for, if any. */
  function DecodeFinalizer(ing: Ingress, f: string): Option<GroupID> {
    if f == IMPLICIT_FINALIZER then Some(ImplicitID(ing))
    else if EXPLICIT_PREFIX <= f then Some(GroupID("", f[|EXPLICIT_PREFIX|..]))
    else None
  }

  /** Decoding inverts encoding, on the groups that can put their finalizer on the Ingress. */
  lemma FinalizerRoundTrip(ing: Ingress, g: GroupID, f: string)
    requires Namespaced(ing) && (g.IsExplicit() || ImplicitID(ing) == g)
    ensures BuildGroupFinalizer(g) == f <==> DecodeFinalizer(ing, f) == Some(g)
  {
    assert IMPLICIT_FINALIZER[0] != EXPLICIT_PREFIX[0];
    if g.IsExplicit() && BuildGroupFinalizer(g) == f {
      assert f[0] == EXPLICIT_PREFIX[0];
      assert f[|EXPLICIT_PREFIX|..] == g.name;
    }
  }

  /** An event wakes up exactly the groups that would list the Ingress, as member or inactive. */
  method EnqueueIfBelongsToGroup(cfg: Config, ing: Ingress) returns (queue: set<GroupID>)
    requires Namespaced(ing)
    ensures forall g :: g in queue <==> MemberOf(cfg, g, ing) || ContainsGroupFinalizer(g, ing)
  {
    var pending := LoadGroupIDsPendingFinalization(ing);
    queue := {};
    for i := 0 to |pending|
      invariant queue == Elements(pending[..i])
    {
      assert Elements(pending[..i + 1]) == Elements(pending[..i]) + {pending[i]};
      queue := queue + {pending[i]};
    }
    assert pending[..|pending|] == pending;
    var own := LoadGroupIDIfAny(cfg, ing);
    if own.InGroup? { queue := queue + {own.id}; }
  }

  // ---------------------------------------------------------------- order of members

  predicate GoodOrder(ing: Ingress) {
    ing.groupOrder.NoOrder? || (ing.groupOrder.Order? && 1 <= ing.groupOrder.value <= 1000)
  }

  function OrderOf(ing: Ingress): int { if ing.groupOrder.Order? then ing.groupOrder.value else 0 }

  /** Explicit orders are in range, and no two Ingresses have the same one. */
  ghost predicate GoodOrders(s: set<Ingress>) {
    && (forall x <- s :: GoodOrder(x))
    && (forall x, y :: x in s && y in s && x != y && x.groupOrder.Order? ==> x.groupOrder != y.groupOrder)
  }

  function FullName(ing: Ingress): string { ing.namespace + "/" + ing.name }

  predicate Before(x: Ingress, y: Ingress) {
    OrderOf(x) < OrderOf(y)
      || (OrderOf(x) == OrderOf(y) && FullName(x) != FullName(y) && LexLe(FullName(x), FullName(y)))
  }

  ghost predicate Sorted(s: seq<Ingress>) { forall i, j :: 0 <= i < j < |s| ==> Before(s[i], s[j]) }

  /** Objects of one kind: keys are unique. */
  ghost predicate Listing(s: seq<Ingress>) {
    && (forall x <- s :: Namespaced(x))
    && (forall i, j :: 0 <= i < j < |s| ==> ImplicitID(s[i]) != ImplicitID(s[j]))
  }

  ghost predicate DistinctNames(s: set<Ingress>) { forall x,
      y :: x in s && y in s && FullName(x) == FullName(y) ==> x == y }

  lemma ListingNames(s: seq<Ingress>)
    requires Listing(s)
    ensures DistinctNames(Elements(s))
  {
    forall x, y | x in s && y in s && FullName(x) == FullName(y) ensures x == y {
      FirstSeparator(x.namespace, x.name, y.namespace, y.name, '/');
      var i, j :| 0 <= i < |s| && 0 <= j < |s| && s[i] == x && s[j] == y;
      assert ImplicitID(s[i]) == ImplicitID(s[j]);
    }
  }

  lemma BeforeTotal(x: Ingress, y: Ingress)
    requires FullName(x) != FullName(y)
    ensures Before(x, y) != Before(y, x)
  {
    LexLeTotal(FullName(x), FullName(y));
    if LexLe(FullName(x), FullName(y)) && LexLe(FullName(y), FullName(x)) {
      LexLeAntisymmetric(FullName(x), FullName(y));
    }
  }

  lemma BeforeTransitive(x: Ingress, y: Ingress, z: Ingress)
    requires Before(x, y) && Before(y, z)
    ensures Before(x, z)
  {
    if OrderOf(x) == OrderOf(y) == OrderOf(z) {
      LexLeTransitive(FullName(x), FullName(y), FullName(z));
      if FullName(x) == FullName(z) {
        LexLeAntisymmetric(FullName(x), FullName(y));
        assert false;
      }
    }
  }

  /** There is only one way to sort a set of Ingresses, whatever order they were listed in. */
  lemma {:induction false} SortedUnique(a: seq<Ingress>, b: seq<Ingress>)
    requires Sorted(a) && Sorted(b) && Elements(a) == Elements(b)
    ensures a == b
  {
    assert b != [] ==> b[0] in Elements(b);
    if a != [] {
      assert a[0] in Elements(a) && a[0] in b;
      assert b[0] in Elements(b) && b[0] in a;
      if a[0] != b[0] {
        assert Before(a[0], b[0]) && Before(b[0], a[0]);
        BeforeTotal(a[0], b[0]);
        assert false;
      }
      forall x ensures x in a[1..] <==> x in a && x != a[0] { TailMember(a, x); }
      forall x ensures x in b[1..] <==> x in b && x != b[0] { TailMember(b, x); }
      assert Elements(a[1..]) == Elements(a) - {a[0]} == Elements(b[1..]);
      SortedUnique(a[1..], b[1..]);
      assert a == [a[0]] + a[1..] && b == [b[0]] + b[1..];
    }
  }

  lemma TailMember(a: seq<Ingress>, x: Ingress)
    requires Sorted(a) && a != []
    ensures x in a[1..] <==> x in a && x != a[0]
  {
    assert a == [a[0]] + a[1..];
    if x in a[1..] {
      var k :| 0 <= k < |a[1..]| && a[1..][k] == x;
      assert Before(a[0], a[k + 1]);
      assert !Before(a[0], a[0]);
    }
  }

  /** Any sorting method will do; this one inserts. */
  method SortSlice(members: seq<Ingress>) returns (sorted: seq<Ingress>)
    requires DistinctNames(Elements(members)) && NoDuplicates(members)
    ensures Sorted(sorted) && Elements(sorted) == Elements(members)
  {
    hide Before, FullName;
    sorted := [];
    for i := 0 to |members|
      invariant Sorted(sorted) && Elements(sorted) == Elements(members[..i])
    {
      assert members[..i + 1] == members[..i] + [members[i]];
      var k := 0;
      while k < |sorted| && Before(sorted[k], members[i])
        invariant 0 <= k <= |sorted|
        invariant forall j :: 0 <= j < k ==> Before(sorted[j], members[i])
      {
        k := k + 1;
      }
      forall j | k <= j < |sorted| ensures Before(members[i], sorted[j]) {
        assert sorted[j] in Elements(sorted) && sorted[j] in members[..i];
        assert sorted[j] in Elements(members) && members[i] in Elements(members);
        assert FullName(sorted[j]) != FullName(members[i]);
        assert sorted[k] in Elements(sorted) && sorted[k] in members[..i] && sorted[k] in Elements(members);
        BeforeTotal(sorted[k], members[i]);
        if k < j { BeforeTransitive(members[i], sorted[k], sorted[j]); }
      }
      ghost var before := sorted;
      sorted := sorted[..k] + [members[i]] + sorted[k..];
      assert Elements(sorted) == Elements(before) + {members[i]} by {
        assert before == before[..k] + before[k..];
      }
    }
    assert members[..|members|] == members;
  }

  /** Members without an order come first, by name; the others follow by order. */
  lemma SortedMeans(s: seq<Ingress>, i: nat, j: nat)
    requires Sorted(s) && GoodOrders(Elements(s)) && i < j < |s|
    ensures s[j].groupOrder.NoOrder? ==> s[i].groupOrder.NoOrder?
    ensures s[i].groupOrder.Order? ==> s[j].groupOrder.Order? && s[i].groupOrder.value < s[j].groupOrder.value
    ensures s[i].groupOrder.NoOrder? && s[j].groupOrder.NoOrder? ==>
      var x, y := s[i].namespace + "/" + s[i].name, s[j].namespace + "/" + s[j].name;
      x < y || exists k: nat :: SmallerAt(x, y, k)
  {
    assert s[i] in Elements(s) && s[j] in Elements(s) && Before(s[i], s[j]);
    LexLeIff(FullName(s[i]), FullName(s[j]));
  }

  datatype SortResult = SortedMembers(members: seq<Ingress>) | BadOrders

  method SortGroupMembers(members: seq<Ingress>) returns (r: SortResult)
    requires DistinctNames(Elements(members)) && NoDuplicates(members)
    ensures r.BadOrders? <==> !GoodOrders(Elements(members))
    ensures r.SortedMembers? ==> Sorted(r.members) && Elements(r.members) == Elements(members)
  {
    if |members| == 0 { return SortedMembers([]); }
    var explicitOrders: set<int> := {};
    for i := 0 to |members|
      invariant GoodOrders(Elements(members[..i]))
      invariant explicitOrders == set x | x in members[..i] && x.groupOrder.Order? :: x.groupOrder.value
    {
      var m := members[i];
      assert members[..i + 1] == members[..i] + [m];
      assert Elements(members[..i + 1]) == Elements(members[..i]) + {m};
      assert Elements(members[..i + 1]) <= Elements(members) && m in Elements(members);
      if m.groupOrder.MalformedOrder? { return BadOrders; }
      if m.groupOrder.Order? {
        if m.groupOrder.value < 1 || m.groupOrder.value > 1000 { return BadOrders; }
        if m.groupOrder.value in explicitOrders {
          var x :| x in members[..i] && x.groupOrder.Order? && x.groupOrder.value == m.groupOrder.value;
          assert x in Elements(members) && x != m;
          return BadOrders;
        }
        explicitOrders := explicitOrders + {m.groupOrder.value};
      }
    }
    assert members[..|members|] == members;
    var sorted := SortSlice(members);
    return SortedMembers(sorted);
  }

  // ---------------------------------------------------------------- loading a group

  datatype LoadResult = Group(members: seq<Ingress>, inactive: seq<Ingress>) | LoadFailed

  function Members(cfg: Config, g: GroupID, s: set<Ingress>): set<Ingress> { set x | x in s && MemberOf(cfg, g, x) }

  function Inactive(cfg: Config, g: GroupID, s: set<Ingress>): set<Ingress> {
    set x | x in s && !MemberOf(cfg, g, x) && ContainsGroupFinalizer(g, x)
  }

  /** The outcome depends on the set of Ingresses only. */
  ghost predicate LoadedFrom(cfg: Config, g: GroupID, s: set<Ingress>, r: LoadResult) {
    && (r.LoadFailed? <==> (exists x <- s :: LoadGroupIDIfAny(cfg, x).LookupFailed?) || !GoodOrders(Members(cfg, g, s)))
    && (r.Group? ==>
          && Elements(r.members) == Members(cfg, g, s) && Sorted(r.members)
          && Elements(r.inactive) == Inactive(cfg, g, s) && NoDuplicates(r.inactive))
  }

  /** Tells the group's members from the others that hold its finalizer; fails exactly on a failed lookup. */
  method SplitByGroup(cfg: Config, ings: seq<Ingress>, g: GroupID)
      returns (ok: bool, members: seq<Ingress>, inactive: seq<Ingress>)
    requires NoDuplicates(ings)
    ensures ok <==> forall x <- ings :: !LoadGroupIDIfAny(cfg, x).LookupFailed?
    ensures ok ==> Elements(members) == Members(cfg, g, Elements(ings)) && NoDuplicates(members)
    ensures ok ==> Elements(inactive) == Inactive(cfg, g, Elements(ings)) && NoDuplicates(inactive)
  {
    hide LoadGroupIDIfAny, ContainsGroupFinalizer;
    members, inactive := [], [];
    for i := 0 to |ings|
      invariant forall x <- ings[..i] :: !LoadGroupIDIfAny(cfg, x).LookupFailed?
      invariant Elements(members) == Members(cfg, g, Elements(ings[..i])) && NoDuplicates(members)
      invariant Elements(inactive) == Inactive(cfg, g, Elements(ings[..i])) && NoDuplicates(inactive)
    {
      var ing := ings[i];
      assert ings[..i + 1] == ings[..i] + [ing];
      assert Elements(ings[..i + 1]) == Elements(ings[..i]) + {ing};
      assert ing !in ings[..i];
      assert forall x <- members :: x in Elements(members);
      assert forall x <- inactive :: x in Elements(inactive);
      var own := LoadGroupIDIfAny(cfg, ing);
      if own.LookupFailed? { return false, members, inactive; }
      if own == InGroup(g) {
        assert Elements(members + [ing]) == Elements(members) + {ing};
        members := members + [ing];
      } else if ContainsGroupFinalizer(g, ing) {
        assert Elements(inactive + [ing]) == Elements(inactive) + {ing};
        inactive := inactive + [ing];
      }
    }
    assert ings[..|ings|] == ings;
    ok := true;
  }

  method Load(cfg: Config, ings: seq<Ingress>, g: GroupID) returns (r: LoadResult)
    requires Listing(ings)
    ensures LoadedFrom(cfg, g, Elements(ings), r)
  {
    hide LoadGroupIDIfAny, ContainsGroupFinalizer, GoodOrders, Sorted;
    var ok, members, inactive := SplitByGroup(cfg, ings, g);
    assert forall x :: x in ings <==> x in Elements(ings);
    if !ok { return LoadFailed; }
    ListingNames(ings);
    var sorted := SortGroupMembers(members);
    if sorted.BadOrders? { return LoadFailed; }
    return Group(sorted.members, inactive);
  }

  /**
   * Members and inactive members are disjoint and cover every Ingress that holds the group's
   * finalizer.
   */
  lemma LoadCoversFinalizers(cfg: Config, g: GroupID, s: set<Ingress>, r: LoadResult)
    requires LoadedFrom(cfg, g, s, r) && r.Group?
    ensures Elements(r.members) !! Elements(r.inactive)
    ensures forall x <- s :: ContainsGroupFinalizer(g, x) ==> x in r.members || x in r.inactive
    ensures forall x <- r.members :: !x.deleting
  {
    assert forall x :: x in r.members <==> x in Elements(r.members);
    assert forall x :: x in r.inactive <==> x in Elements(r.inactive);
  }

  /** The sorted member list is the same for every order in which the Ingresses are listed. */
  lemma LoadOrderIndependent(cfg: Config, g: GroupID, a: seq<Ingress>, b: seq<Ingress>, r: LoadResult, q: LoadResult)
    requires multiset(a) == multiset(b)
    requires LoadedFrom(cfg, g, Elements(a), r) && LoadedFrom(cfg, g, Elements(b), q)
    ensures r.Group? <==> q.Group?
    ensures r.Group? ==> r.members == q.members && Elements(r.inactive) == Elements(q.inactive)
  {
    assert Elements(a) == Elements(b) by {
      forall x ensures x in a <==> x in b { assert x in multiset(a) <==> x in multiset(b); }
    }
    if r.Group? { SortedUnique(r.members, q.members); }
  }
}
