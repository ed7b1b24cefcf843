/**
 * From an Ingress path to the conditions of a listener rule, and from a rule list to
 * numbered listener rules (pkg/ingress/model_build_listener_rules.go).
 */
module RuleBuilding {
  import opened Text
  import opened ListenerRules
  import Globs
  import PathPatterns

  datatype Conditions = Built(conditions: seq<Condition>) | Rejected

  // ---------------------------------------------------------------- specification

  /** The backend's conditions of one kind, values concatenated in order. */
  function HostList(cs: seq<Condition>): seq<string> {
    if cs == [] then []
    else
      var n := |cs| - 1;
      if cs[n].HostHeader? && cs[n].values.Some? then HostList(cs[..n]) + cs[n].values.value else HostList(cs[..n])
  }

  function PathList(cs: seq<Condition>): seq<string> {
    if cs == [] then []
    else
      var n := |cs| - 1;
      if cs[n].PathPattern? && cs[n].values.Some? then PathList(cs[..n]) + cs[n].values.value else PathList(cs[..n])
  }

  function OtherList(cs: seq<Condition>): seq<Condition> {
    if cs == [] then []
    else
      var n := |cs| - 1;
      if cs[n].Other? then OtherList(cs[..n]) + [cs[n]] else OtherList(cs[..n])
  }

  predicate Configured(c: Condition) {
    if c.Other? then c.config.Some? else c.values.Some?
  }

  /** The path is allowed for its type, and no condition of the backend lacks its configuration. */
  predicate Buildable(path: string, pathType: Option<PathPatterns.PathType>, backend: seq<Condition>) {
    && (path != "" ==> PathPatterns.PathAllowed(path, pathType))
    && forall c <- backend :: Configured(c)
  }

  function Hosts(host: string, backend: seq<Condition>): seq<string> {
    (if host != "" then [host] else []) + HostList(backend)
  }

  function Paths(path: string, pathType: Option<PathPatterns.PathType>, backend: seq<Condition>): seq<string> {
    var patterns := PathPatterns.BuildPathPatterns(path, pathType);
    (if path != "" && patterns.Built? then patterns.values else []) + PathList(backend)
  }

  function Assemble(others: seq<Condition>, hosts: seq<string>, paths: seq<string>): seq<Condition> {
    var cs := others
              + (if hosts != [] then [HostHeader(Some(hosts))] else [])
              + (if paths != [] then [PathPattern(Some(paths))] else []);
    if cs == [] then [PathPattern(Some(["/*"]))] else cs
  }

  // ---------------------------------------------------------------- the loop of the source

  lemma ListsSnoc(cs: seq<Condition>, i: nat)
    requires i < |cs|
    ensures cs[..i + 1] == cs[..i] + [cs[i]]
    ensures Configured(cs[i]) && cs[i].HostHeader? ==> HostList(cs[..i + 1]) == HostList(cs[..i]) + cs[i].values.value
    ensures Configured(cs[i]) && cs[i].PathPattern? ==> PathList(cs[..i + 1]) == PathList(cs[..i]) + cs[i].values.value
    ensures !cs[i].HostHeader? ==> HostList(cs[..i + 1]) == HostList(cs[..i])
    ensures !cs[i].PathPattern? ==> PathList(cs[..i + 1]) == PathList(cs[..i])
    ensures OtherList(cs[..i + 1]) == if cs[i].Other? then OtherList(cs[..i]) + [cs[i]] else OtherList(cs[..i])
  {
    assert cs[..i + 1][..i] == cs[..i];
  }

  method Gather(backend: seq<Condition>) returns (ok: bool, hosts: seq<string>, paths: seq<string>,
      others: seq<Condition>)
    ensures ok <==> forall c <- backend :: Configured(c)
    ensures ok ==> hosts == HostList(backend) && paths == PathList(backend) && others == OtherList(backend)
  {
    hosts, paths, others := [], [], [];
    for i := 0 to |backend|
      invariant forall c <- backend[..i] :: Configured(c)
      invariant hosts == HostList(backend[..i]) && paths == PathList(backend[..i]) && others == OtherList(backend[..i])
    {
      var c := backend[i];
      ListsSnoc(backend, i);
      if !Configured(c) { return false, hosts, paths, others; }
      match c {
        case HostHeader(values) => hosts := hosts + values.value;
        case PathPattern(values) => paths := paths + values.value;
        case Other(_, _) => others := others + [c];
      }
    }
    assert backend[..|backend|] == backend;
    ok := true;
  }

  method BuildRuleConditions(host: string, path: string, pathType: Option<PathPatterns.PathType>,
      backend: seq<Condition>)
    returns (r: Conditions)
    ensures r.Built? <==> Buildable(path, pathType, backend)
    ensures r.Built? ==>
      r.conditions == Assemble(OtherList(backend), Hosts(host, backend), Paths(path, pathType, backend))
  {
    var hosts: seq<string> := if host != "" then [host] else [];
    var paths: seq<string> := [];
    PathPatterns.PathFaithful(path, pathType, "/");
    if path != "" {
      var patterns := PathPatterns.BuildPathPatterns(path, pathType);
      if patterns.Rejected? { return Rejected; }
      paths := patterns.values;
    }
    var ok, moreHosts, morePaths, conditions := Gather(backend);
    if !ok { return Rejected; }
    hosts, paths := hosts + moreHosts, paths + morePaths;
    if |hosts| != 0 { conditions := conditions + [HostHeader(Some(hosts))]; }
    if |paths| != 0 { conditions := conditions + [PathPattern(Some(paths))]; }
    if |conditions| == 0 { conditions := [PathPattern(Some(["/*"]))]; }
    return Built(conditions);
  }

  lemma {:induction false} HostListMembers(cs: seq<Condition>, v: string)
    ensures v in HostList(cs) <==>
      exists c: Condition :: c in cs && c.HostHeader? && c.values.Some? && v in c.values.value
  {
    if cs != [] {
      var n := |cs| - 1;
      assert cs == cs[..n] + [cs[n]];
      HostListMembers(cs[..n], v);
    }
  }

  lemma {:induction false} PathListMembers(cs: seq<Condition>, v: string)
    ensures v in PathList(cs) <==>
      exists c: Condition :: c in cs && c.PathPattern? && c.values.Some? && v in c.values.value
  {
    if cs != [] {
      var n := |cs| - 1;
      assert cs == cs[..n] + [cs[n]];
      PathListMembers(cs[..n], v);
    }
  }

  lemma {:induction false} OtherListOthers(cs: seq<Condition>)
    ensures forall c <- OtherList(cs) :: c.Other? && c in cs
    ensures forall c <- cs :: c.Other? ==> c in OtherList(cs)
  {
    if cs != [] {
      var n := |cs| - 1;
      OtherListOthers(cs[..n]);
      assert cs == cs[..n] + [cs[n]];
    }
  }

  /** Whatever is built has the shape that the rule optimizer relies on. */
  lemma AssembledWellShaped(others: seq<Condition>, hosts: seq<string>, paths: seq<string>)
    requires forall c <- others :: c.Other?
    ensures WellShaped(Assemble(others, hosts, paths))
    ensures Assemble(others, hosts, paths) != []
  {
    var cs := Assemble(others, hosts, paths);
    assert forall i :: 0 <= i < |others| ==> cs[i] == others[i] && others[i] in others;
    assert forall i :: |others| < i < |cs| ==> cs[i].PathPattern? && i == |others| + 1 && cs[|others|].HostHeader?;
  }

  /**
   * The meaning of the built conditions: a request matches exactly when some host (if any
   * is stated), some path pattern (if any is stated) and every other condition match it.
   */
  lemma AssembledMeaning(sem: OtherSemantics, others: seq<Condition>, hosts: seq<string>, paths: seq<string>,
      req: Request)
    requires forall c <- others :: c.Other?
    requires PathPatterns.OriginForm(req.path)
    ensures ConditionsMatch(sem, Assemble(others, hosts, paths), req)
       <==> && (hosts != [] ==> HostMatches(hosts, req.host))
            && (paths != [] ==> PathMatches(paths, req.path))
            && (forall c <- others :: sem(c, req.attributes))
  {
    var cs := Assemble(others, hosts, paths);
    Globs.LiteralStarMatches("/", req.path);
    assert "/" + "*" == "/*" && ["/*"][0] == "/*";
    assert PathMatches(["/*"], req.path);
    if ConditionsMatch(sem, cs, req) {
      forall c | c in others ensures sem(c, req.attributes) { assert c in cs && ConditionMatches(sem, c, req); }
      if hosts != [] { assert HostHeader(Some(hosts)) in cs && ConditionMatches(sem, HostHeader(Some(hosts)), req); }
      if paths != [] { assert PathPattern(Some(paths)) in cs && ConditionMatches(sem, PathPattern(Some(paths)), req); }
    }
  }

  // ---------------------------------------------------------------- numbering

  datatype ListenerRule = ListenerRule(priority: int, rule: Rule)

  predicate Numbered(lrs: seq<ListenerRule>, rules: seq<Rule>) {
    |lrs| == |rules| && forall i :: 0 <= i < |rules| ==> lrs[i] == ListenerRule(i + 1, rules[i])
  }

  /** Priorities 1, 2, ... in list order; an HTTP listener of a group with SSL redirect gets no rules. */
  method NumberRules(sslRedirect: bool, protocol: string, optimized: seq<Rule>) returns (lrs: seq<ListenerRule>)
    ensures sslRedirect && protocol == "HTTP" ==> lrs == []
    ensures !(sslRedirect && protocol == "HTTP") ==> Numbered(lrs, optimized)
  {
    lrs := [];
    if sslRedirect && protocol == "HTTP" { return; }
    var priority := 1;
    for i := 0 to |optimized|
      invariant priority == i + 1 && Numbered(lrs, optimized[..i])
    {
      lrs := lrs + [ListenerRule(priority, optimized[i])];
      priority := priority + 1;
    }
  }
}
