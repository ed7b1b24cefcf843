/**
 * Matching desired resources with existing ones by the resource ID in their tags: target
 * groups and load balancers in one way, security groups in another
 * (pkg/deploy/elbv2/target_group_synthesizer.go, load_balancer_synthesizer.go,
 * pkg/deploy/ec2/security_group_synthesizer.go).
 */
module DeployMatching {
  import opened Text

  datatype Pair = Pair(resourceID: string, arn: string)

  /** An existing resource serves a desired one that has its ID and does not need a new one. */
  predicate Serves<R, S>(res: map<string, R>, sdk: map<string, S>, tag: S -> Option<string>, replace: (S, R) -> bool,
      id: string, arn: string) {
    arn in sdk && tag(sdk[arn]) == Some(id) && id in res && !replace(sdk[arn], res[id])
  }

  predicate Useless<R, S>(res: map<string, R>, sdk: map<string, S>, tag: S -> Option<string>, replace: (S, R) -> bool,
      arn: string) {
    arn in sdk && (tag(sdk[arn]).Some? ==> !Serves(res, sdk, tag, replace, tag(sdk[arn]).value, arn))
  }

  ghost predicate Grouped<S>(byID: map<string, seq<string>>, sdk: map<string, S>, arns: seq<string>,
      tag: S -> Option<string>)
    requires forall arn <- arns :: arn in sdk
  {
    && (forall id <- byID :: byID[id] != [] && NoDuplicates(byID[id]))
    && (forall id <- byID, arn <- byID[id] :: arn in arns && tag(sdk[arn]) == Some(id))
    && (forall arn <- arns :: tag(sdk[arn]).Some? && tag(sdk[arn]).value in byID && arn in byID[tag(sdk[arn]).value])
  }

  lemma OneMoreGrouped<S>(byID: map<string, seq<string>>, sdk: map<string, S>, arns: seq<string>,
      tag: S -> Option<string>, id: string, arn: string)
    requires forall a <- arns :: a in sdk
    requires Grouped(byID, sdk, arns, tag) && arn in sdk && arn !in arns && tag(sdk[arn]) == Some(id)
    ensures Grouped(byID[id := if id in byID then byID[id] + [arn] else [arn]], sdk, arns + [arn], tag)
  {
    assert id in byID ==> arn !in byID[id];
  }

  /** Fails exactly when an existing resource has no resource ID. */
  method GroupByResourceID<S>(sdk: map<string, S>, arns: seq<string>, tag: S -> Option<string>)
      returns (ok: bool, byID: map<string, seq<string>>)
    requires Elements(arns) == sdk.Keys && NoDuplicates(arns)
    requires forall arn <- arns :: arn in sdk
    ensures ok <==> forall arn <- sdk :: tag(sdk[arn]).Some?
    ensures ok ==> Grouped(byID, sdk, arns, tag)
  {
    byID := map[];
    assert Grouped(byID, sdk, arns[..0], tag);
    hide Grouped;
    for i := 0 to |arns|
      invariant Grouped(byID, sdk, arns[..i], tag)
    {
      var arn := arns[i];
      assert arns[..i + 1] == arns[..i] + [arn];
      assert arn !in arns[..i];
      if tag(sdk[arn]).None? { return false, byID; }
      var id := tag(sdk[arn]).value;
      OneMoreGrouped(byID, sdk, arns[..i], tag, id, arn);
      byID := byID[id := if id in byID then byID[id] + [arn] else [arn]];
    }
    assert arns[..|arns|] == arns;
    GroupedFacts(byID, sdk, arns, tag);
    ok := true;
  }

  /**
   * Matching of target groups and load balancers. Every existing resource is either paired
   * or unmatched, according to whether it serves a desired one; every desired resource that
   * nothing serves is unmatched.
   */
  method MatchByResourceID<R, S>(res: map<string, R>, sdk: map<string, S>, arns: seq<string>,
      tag: S -> Option<string>, replace: (S, R) -> bool)
    returns (ok: bool, matched: seq<Pair>, unmatchedRes: seq<string>, unmatchedSDK: seq<string>)
    requires Elements(arns) == sdk.Keys && NoDuplicates(arns)
    requires forall arn <- arns :: arn in sdk
    ensures ok <==> forall arn <- sdk :: tag(sdk[arn]).Some?
    ensures ok ==> forall p :: p in matched <==> Serves(res, sdk, tag, replace, p.resourceID, p.arn)
    ensures ok ==> forall id :: id in unmatchedRes <==>
      id in res && forall arn <- sdk :: !Serves(res, sdk, tag, replace, id, arn)
    ensures ok ==> forall arn :: arn in unmatchedSDK <==> Useless(res, sdk, tag, replace, arn)
    ensures NoDuplicates(unmatchedRes)
  {
    hide Grouped, Serves, Useless;
    var byID;
    matched, unmatchedRes, unmatchedSDK := [], [], [];
    ok, byID := GroupByResourceID(sdk, arns, tag);
    if !ok { return; }
    GroupedFacts(byID, sdk, arns, tag);
    var both := SortedIDs(res.Keys * byID.Keys);
    matched, unmatchedRes, unmatchedSDK := MatchCommon(res, sdk, arns, tag, replace, byID, both);
    var onlyRes := SortedIDs(res.Keys - byID.Keys);
    var onlySDK := SortedIDs(byID.Keys - res.Keys);
    var rest := AppendAll(byID, onlySDK);
    AllMatched(res, sdk, tag, replace, byID, both, matched, unmatchedRes, onlyRes, unmatchedSDK, rest);
    unmatchedRes, unmatchedSDK := unmatchedRes + onlyRes, unmatchedSDK + rest;
  }

  method SortedIDs(s: set<string>) returns (ids: seq<string>)
    ensures NoDuplicates(ids) && forall id :: id in ids <==> id in s
  {
    ids := SortedList(s);
    assert forall id :: id in ids <==> id in Elements(ids);
  }

  lemma AllMatched<R, S>(res: map<string, R>, sdk: map<string, S>, tag: S -> Option<string>, replace: (S, R) -> bool,
                         byID: map<string, seq<string>>, both: seq<string>, matched: seq<Pair>,
                         commonRes: seq<string>, onlyRes: seq<string>, commonSDK: seq<string>, onlySDK: seq<string>)
    requires forall arn <- sdk :: tag(sdk[arn]).Some? && tag(sdk[arn]).value in byID && arn in byID[tag(sdk[arn]).value]
    requires forall id <- byID, arn <- byID[id] :: arn in sdk && tag(sdk[arn]) == Some(id)
    requires forall id :: id in both <==> id in res && id in byID
    requires forall p :: p in matched <==> Serves(res, sdk, tag, replace, p.resourceID, p.arn) && p.resourceID in both
    requires forall id :: id in commonRes <==>
      id in both && forall arn <- sdk :: !Serves(res, sdk, tag, replace, id, arn)
    requires NoDuplicates(commonRes) && NoDuplicates(onlyRes) && forall id :: id in onlyRes <==>
      id in res && id !in byID
    requires forall arn :: arn in commonSDK <==> Useless(res, sdk, tag, replace, arn) && tag(sdk[arn]).value in both
    requires forall arn :: arn in onlySDK <==> exists id <- byID :: id !in res && arn in byID[id]
    ensures forall p :: p in matched <==> Serves(res, sdk, tag, replace, p.resourceID, p.arn)
    ensures forall id :: id in commonRes + onlyRes <==>
      id in res && forall arn <- sdk :: !Serves(res, sdk, tag, replace, id, arn)
    ensures forall arn :: arn in commonSDK + onlySDK <==> Useless(res, sdk, tag, replace, arn)
    ensures NoDuplicates(commonRes + onlyRes)
  {
    NoDuplicatesConcat(commonRes, onlyRes);
  }

  method MatchCommon<R, S>(res: map<string, R>, sdk: map<string, S>, arns: seq<string>, tag: S -> Option<string>,
      replace: (S, R) -> bool,
                           byID: map<string, seq<string>>, ids: seq<string>)
    returns (matched: seq<Pair>, unmatchedRes: seq<string>, unmatchedSDK: seq<string>)
    requires Elements(arns) == sdk.Keys
    requires forall arn <- arns :: arn in sdk
    requires Grouped(byID, sdk, arns, tag) && NoDuplicates(ids) && (forall id <- ids :: id in res && id in byID)
      && forall arn <- sdk :: tag(sdk[arn]).Some?
    ensures forall p :: p in matched <==> Serves(res, sdk, tag, replace, p.resourceID, p.arn) && p.resourceID in ids
    ensures forall id :: id in unmatchedRes <==>
      id in ids && forall arn <- sdk :: !Serves(res, sdk, tag, replace, id, arn)
    ensures forall arn :: arn in unmatchedSDK <==> Useless(res, sdk, tag, replace, arn) && tag(sdk[arn]).value in ids
    ensures NoDuplicates(unmatchedRes)
  {
    matched, unmatchedRes, unmatchedSDK := [], [], [];
    for i := 0 to |ids|
      invariant forall p :: p in matched <==>
        Serves(res, sdk, tag, replace, p.resourceID, p.arn) && p.resourceID in ids[..i]
      invariant forall id :: id in unmatchedRes <==>
        id in ids[..i] && forall arn <- sdk :: !Serves(res, sdk, tag, replace, id, arn)
      invariant forall arn :: arn in unmatchedSDK <==>
        Useless(res, sdk, tag, replace, arn) && tag(sdk[arn]).value in ids[..i]
      invariant NoDuplicates(unmatchedRes)
    {
      var id := ids[i];
      assert ids[..i + 1] == ids[..i] + [id];
      var found, pairs, rejected := MatchOne(res, sdk, arns, tag, replace, byID, id);
      matched := matched + pairs;
      unmatchedSDK := unmatchedSDK + rejected;
      assert id !in ids[..i];
      if !found { unmatchedRes := unmatchedRes + [id]; }
    }
    assert ids[..|ids|] == ids;
  }

  method AppendAll(byID: map<string, seq<string>>, ids: seq<string>) returns (all: seq<string>)
    requires forall id <- ids :: id in byID
    ensures forall arn :: arn in all <==> exists id <- ids :: arn in byID[id]
  {
    all := [];
    for i := 0 to |ids|
      invariant forall arn :: arn in all <==> exists id <- ids[..i] :: arn in byID[id]
    {
      assert ids[..i + 1] == ids[..i] + [ids[i]];
      all := all + byID[ids[i]];
    }
    assert ids[..|ids|] == ids;
  }

  /** The existing resources of one ID: each serves it or is rejected. */
  method MatchOne<R, S>(res: map<string, R>, sdk: map<string, S>, arns: seq<string>, tag: S -> Option<string>,
      replace: (S, R) -> bool,
                        byID: map<string, seq<string>>, id: string)
    returns (found: bool, pairs: seq<Pair>, rejected: seq<string>)
    requires Elements(arns) == sdk.Keys
    requires forall arn <- arns :: arn in sdk
    requires Grouped(byID, sdk, arns, tag) && id in res && id in byID
    ensures found <==> exists arn <- sdk :: Serves(res, sdk, tag, replace, id, arn)
    ensures forall p :: p in pairs <==> p.resourceID == id && Serves(res, sdk, tag, replace, id, p.arn)
    ensures forall arn :: arn in rejected <==> Useless(res, sdk, tag, replace, arn) && tag(sdk[arn]) == Some(id)
  {
    found, pairs, rejected := false, [], [];
    var mine := byID[id];
    forall arn | arn in sdk && tag(sdk[arn]) == Some(id) ensures arn in mine { assert arn in Elements(arns); }
    for i := 0 to |mine|
      invariant found <==> exists arn <- mine[..i] :: Serves(res, sdk, tag, replace, id, arn)
      invariant forall p :: p in pairs <==>
        p.resourceID == id && p.arn in mine[..i] && Serves(res, sdk, tag, replace, id, p.arn)
      invariant forall arn :: arn in rejected <==> arn in mine[..i] && Useless(res, sdk, tag, replace, arn)
    {
      var arn := mine[i];
      assert arn in arns && arn in sdk && tag(sdk[arn]) == Some(id);
      assert mine[..i + 1] == mine[..i] + [arn];
      assert Useless(res, sdk, tag, replace, arn) <==> replace(sdk[arn], res[id]);
      if replace(sdk[arn], res[id]) {
        rejected := rejected + [arn];
        continue;
      }
      assert Serves(res, sdk, tag, replace, id, arn);
      pairs := pairs + [Pair(id, arn)];
      found := true;
    }
    assert mine[..|mine|] == mine;
  }

  /** Matching of security groups: the first of each ID is kept, the others are surplus. */
  method MatchSecurityGroups<S>(res: set<string>, sdk: map<string, S>, arns: seq<string>, tag: S -> Option<string>)
    returns (ok: bool, matched: seq<Pair>, unmatchedRes: seq<string>, unmatchedSDK: seq<string>)
    requires Elements(arns) == sdk.Keys && NoDuplicates(arns)
    requires forall arn <- arns :: arn in sdk
    ensures ok <==> forall arn <- sdk :: tag(sdk[arn]).Some?
    ensures ok ==> forall p <- matched :: p.resourceID in res && p.arn in sdk && tag(sdk[p.arn]) == Some(p.resourceID)
    ensures ok ==> forall p <- matched, q <- matched :: p.resourceID == q.resourceID ==> p == q
    ensures ok ==> forall id :: id in unmatchedRes <==> id in res && forall arn <- sdk :: tag(sdk[arn]) != Some(id)
    ensures ok ==> forall id <- res :: id in unmatchedRes || exists p <- matched :: p.resourceID == id
    ensures ok ==> forall arn :: arn in unmatchedSDK <==> arn in sdk && forall p <- matched :: p.arn != arn
    ensures NoDuplicates(unmatchedRes)
  {
    hide Grouped;
    var byID;
    matched, unmatchedRes, unmatchedSDK := [], [], [];
    ok, byID := GroupByResourceID(sdk, arns, tag);
    if !ok { return; }
    var both := SortedIDs(res * byID.Keys);
    matched, unmatchedSDK := KeepFirst(sdk, arns, tag, byID, both);
    unmatchedRes := SortedIDs(res - byID.Keys);
    var onlySDK := SortedIDs(byID.Keys - res);
    var rest := AppendAll(byID, onlySDK);
    unmatchedSDK := unmatchedSDK + rest;
    GroupedFacts(byID, sdk, arns, tag);
    FirstKept(res, sdk, tag, byID, matched, unmatchedRes, unmatchedSDK);
  }

  lemma FirstKept<S>(res: set<string>, sdk: map<string, S>, tag: S -> Option<string>, byID: map<string, seq<string>>,
                     matched: seq<Pair>, unmatchedRes: seq<string>, unmatchedSDK: seq<string>)
    requires forall arn <- sdk :: tag(sdk[arn]).Some? && tag(sdk[arn]).value in byID && arn in byID[tag(sdk[arn]).value]
    requires forall id <- byID :: byID[id] != [] && forall arn <- byID[id] :: arn in sdk && tag(sdk[arn]) == Some(id)
    requires forall p :: p in matched <==> p.resourceID in res && p.resourceID in byID && p.arn == byID[p.resourceID][0]
    requires forall id :: id in unmatchedRes <==> id in res && id !in byID
    requires forall arn :: arn in unmatchedSDK <==>
      (exists id <- byID :: id in res && arn in byID[id] && arn != byID[id][0])
        || (exists id <- byID :: id !in res && arn in byID[id])
    ensures forall p <- matched :: p.resourceID in res && p.arn in sdk && tag(sdk[p.arn]) == Some(p.resourceID)
    ensures forall id <- res :: id in unmatchedRes || exists p <- matched :: p.resourceID == id
    ensures forall arn :: arn in unmatchedSDK <==> arn in sdk && forall p <- matched :: p.arn != arn
  {
    forall p | p in matched ensures p.arn in sdk && tag(sdk[p.arn]) == Some(p.resourceID) {
      assert p.arn in byID[p.resourceID];
    }
    forall id | id in res && id in byID ensures exists p <- matched :: p.resourceID == id {
      assert Pair(id, byID[id][0]) in matched;
    }
    forall arn | arn in sdk ensures arn in unmatchedSDK <==> forall p <- matched :: p.arn != arn {
      var id := tag(sdk[arn]).value;
      assert id in res ==> Pair(id, byID[id][0]) in matched;
    }
  }

  lemma GroupedFacts<S>(byID: map<string, seq<string>>, sdk: map<string, S>, arns: seq<string>,
      tag: S -> Option<string>)
    requires Elements(arns) == sdk.Keys
    requires forall arn <- arns :: arn in sdk
    requires Grouped(byID, sdk, arns, tag)
    ensures forall arn <- sdk :: tag(sdk[arn]).Some? && tag(sdk[arn]).value in byID && arn in byID[tag(sdk[arn]).value]
    ensures forall id <- byID, arn <- byID[id] :: arn in sdk && tag(sdk[arn]) == Some(id)
    ensures forall id :: id in byID <==> exists arn <- sdk :: tag(sdk[arn]) == Some(id)
  {
    assert forall arn <- sdk :: arn in Elements(arns);
    forall id | id in byID ensures exists arn <- sdk :: tag(sdk[arn]) == Some(id) {
      var first := byID[id][0];
      assert first in byID[id];
      assert first in arns && first in sdk && tag(sdk[first]) == Some(id);
    }
  }

  method KeepFirst<S>(ghost sdk: map<string, S>, ghost arns: seq<string>, ghost tag: S -> Option<string>,
      byID: map<string, seq<string>>, ids: seq<string>)
    returns (matched: seq<Pair>, surplus: seq<string>)
    requires Elements(arns) == sdk.Keys
    requires forall arn <- arns :: arn in sdk
    requires Grouped(byID, sdk, arns, tag) && forall id <- ids :: id in byID
    ensures forall p :: p in matched <==> p.resourceID in ids && p.arn == byID[p.resourceID][0]
    ensures forall arn :: arn in surplus <==> exists id <- ids :: arn in byID[id] && arn != byID[id][0]
  {
    matched, surplus := [], [];
    for i := 0 to |ids|
      invariant forall p :: p in matched <==> p.resourceID in ids[..i] && p.arn == byID[p.resourceID][0]
      invariant forall arn :: arn in surplus <==> exists id <- ids[..i] :: arn in byID[id] && arn != byID[id][0]
    {
      var id := ids[i];
      assert ids[..i + 1] == ids[..i] + [id];
      forall arn ensures arn in byID[id][1..] <==> arn in byID[id] && arn != byID[id][0] { }
      matched := matched + [Pair(id, byID[id][0])];
      surplus := surplus + byID[id][1..];
    }
    assert ids[..|ids|] == ids;
  }

}
