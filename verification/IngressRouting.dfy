/** Routing from the Ingresses to the listener. */
module IngressRouting {
  import opened Text
  import opened ListenerRules
  import opened RuleOptimizer
  import opened RuleBuilding
  import opened RuleSynthesis
  import Globs
  import RedirectLoops
  import PathPatterns

  // The rules built for the paths of a port's Ingresses, optimized, numbered and synchronised, route
  // as the paths say (pkg/ingress/model_build_listener_rules.go:16-73).

  /** One HTTP path of an Ingress rule with its backend's conditions, actions and tags. */
  datatype IngressPath = IngressPath(
    host: string,
    path: string,
    pathType: Option<PathPatterns.PathType>,
    conditions: seq<Condition>,
    actions: seq<Action>,
    tags: map<string, string>)

  predicate PathBuildable(p: IngressPath) { Buildable(p.path, p.pathType, p.conditions) }

  /** The hosts and path patterns that a path states, with those of its backend. */
  function StatedHosts(p: IngressPath): seq<string> { Hosts(p.host, p.conditions) }

  function StatedPaths(p: IngressPath): seq<string> { Paths(p.path, p.pathType, p.conditions) }

  function RuleFor(p: IngressPath): Rule {
    Rule(Assemble(OtherList(p.conditions), StatedHosts(p), StatedPaths(p)), p.actions, p.tags)
  }

  // ---------------------------------------------------------------- what a path asks for

  ghost predicate BackendHost(p: IngressPath, v: string) {
    exists c: Condition :: c in p.conditions && c.HostHeader? && c.values.Some? && v in c.values.value
  }

  ghost predicate BackendPath(p: IngressPath, v: string) {
    exists c: Condition :: c in p.conditions && c.PathPattern? && c.values.Some? && v in c.values.value
  }

  /** The Ingress rule's host or one of the backend's matches, if there are any. */
  ghost predicate AsksHost(p: IngressPath, host: string) {
    || (p.host == "" && forall v :: !BackendHost(p, v))
    || (p.host != "" && Globs.Matches(Lower(p.host), Lower(host)))
    || exists v :: BackendHost(p, v) && Globs.Matches(Lower(v), Lower(host))
  }

  /** The path, by its type, or one of the backend's patterns matches, if there are any. */
  ghost predicate AsksPath(p: IngressPath, path: string) {
    || (p.path == "" && forall v :: !BackendPath(p, v))
    || (p.path != "" && PathPatterns.PathMeans(p.path, p.pathType, path))
    || exists v :: BackendPath(p, v) && Globs.Matches(v, path)
  }

  /** A request is for a path: its host, its path and every other condition match. */
  ghost predicate Asks(sem: OtherSemantics, p: IngressPath, req: Request) {
    && AsksHost(p, req.host) && AsksPath(p, req.path)
    && (forall c <- p.conditions :: c.Other? ==> sem(c, req.attributes))
  }

  lemma StatedHostsMean(p: IngressPath, host: string)
    ensures (StatedHosts(p) != [] ==> HostMatches(StatedHosts(p), host)) <==> AsksHost(p, host)
  {
    hide Globs.Matches, HostList;
    var hosts := StatedHosts(p);
    forall v ensures v in HostList(p.conditions) <==> BackendHost(p, v) { HostListMembers(p.conditions, v); }
    hide BackendHost;
    assert forall v :: v in hosts <==> (p.host != "" && v == p.host) || BackendHost(p, v);
    if hosts != [] { assert hosts[0] in hosts; }
    if i :| 0 <= i < |hosts| && Globs.Matches(Lower(hosts[i]), Lower(host)) { assert hosts[i] in hosts; }
    if v :| v in hosts && Globs.Matches(Lower(v), Lower(host)) {
      var i :| 0 <= i < |hosts| && hosts[i] == v;
      assert HostMatches(hosts, host);
    }
  }

  lemma StatedPathsMean(p: IngressPath, path: string)
    requires PathBuildable(p) && PathPatterns.OriginForm(path)
    ensures (StatedPaths(p) != [] ==> PathMatches(StatedPaths(p), path)) <==> AsksPath(p, path)
  {
    hide Globs.Matches, PathList, PathPatterns.PathMeans, PathPatterns.BuildPathPatterns, PathPatterns.PathAllowed;
    PathPatterns.PathFaithful(p.path, p.pathType, path);
    var own := PathPatterns.BuildPathPatterns(p.path, p.pathType);
    var paths, backend := StatedPaths(p), PathList(p.conditions);
    forall v ensures v in backend <==> BackendPath(p, v) { PathListMembers(p.conditions, v); }
    hide BackendPath;
    AnyOf(backend, path);
    if p.path == "" {
      assert paths == backend;
    } else {
      PathPatterns.BuiltSome(p.path, p.pathType);
      AnyOfBoth(own.values, backend, path);
      assert paths == own.values + backend;
      assert PathMatches(own.values, path) <==> PathPatterns.PathMeans(p.path, p.pathType, path);
    }
  }

  lemma AnyOf(patterns: seq<string>, path: string)
    ensures PathMatches(patterns, path) <==> exists v :: v in patterns && Globs.Matches(v, path)
    ensures patterns == [] <==> forall v :: v !in patterns
  {
    if patterns != [] { assert patterns[0] in patterns; }
    if i :| 0 <= i < |patterns| && Globs.Matches(patterns[i], path) { assert patterns[i] in patterns; }
    if v :| v in patterns && Globs.Matches(v, path) {
      var i :| 0 <= i < |patterns| && patterns[i] == v;
    }
  }

  lemma AnyOfBoth(a: seq<string>, b: seq<string>, path: string)
    ensures PathMatches(a + b, path) <==> PathMatches(a, path) || PathMatches(b, path)
  {
    var both := a + b;
    if i :| 0 <= i < |a| && Globs.Matches(a[i], path) { assert both[i] == a[i]; }
    if i :| 0 <= i < |b| && Globs.Matches(b[i], path) { assert both[|a| + i] == b[i]; }
  }

  // ---------------------------------------------------------------- building

  /** The loop over all paths; one path that cannot be built fails it. */
  method BuildRule(p: IngressPath) returns (rule: Option<Rule>)
    ensures rule.Some? <==> PathBuildable(p)
    ensures rule.Some? ==> rule.value == RuleFor(p)
  {
    var conditions := BuildRuleConditions(p.host, p.path, p.pathType, p.conditions);
    if conditions.Rejected? { return None; }
    return Some(Rule(conditions.conditions, p.actions, p.tags));
  }

  method BuildRules(paths: seq<IngressPath>) returns (rules: Option<seq<Rule>>)
    ensures rules.Some? <==> forall p <- paths :: PathBuildable(p)
    ensures rules.Some? ==> BuiltFrom(paths, rules.value)
  {
    hide PathBuildable, RuleFor;
    var built: seq<Rule> := [];
    for i := 0 to |paths|
      invariant forall p <- paths[..i] :: PathBuildable(p)
      invariant |built| == i && forall k :: 0 <= k < i ==> PathBuildable(paths[k]) && built[k] == RuleFor(paths[k])
    {
      var p := paths[i];
      assert paths[..i + 1] == paths[..i] + [p];
      var rule := BuildRule(p);
      if rule.None? { assert p in paths; return None; }
      built := built + [rule.value];
    }
    assert paths[..|paths|] == paths;
    return Some(built);
  }

  ghost predicate BuiltFrom(paths: seq<IngressPath>, rules: seq<Rule>) {
    |rules| == |paths| && forall i :: 0 <= i < |paths| ==> PathBuildable(paths[i]) && rules[i] == RuleFor(paths[i])
  }

  /** Build, optimize and number. */
  method BuildListenerRules(sslRedirect: bool, port: int, protocol: string, paths: seq<IngressPath>)
    returns (ok: bool, lrs: seq<ListenerRule>, ghost built: seq<Rule>)
    ensures sslRedirect && protocol == "HTTP" ==> ok && lrs == []
    ensures !(sslRedirect && protocol == "HTTP") ==> (ok <==> forall p <- paths :: PathBuildable(p))
    ensures !(sslRedirect && protocol == "HTTP") && ok ==>
      BuiltFrom(paths, built) && Numbered(lrs, Visible(Finite(port, protocol, built)))
  {
    built := [];
    if sslRedirect && protocol == "HTTP" { return true, [], built; }
    var rules := BuildRules(paths);
    if rules.None? { return false, [], built; }
    built := rules.value;
    var optimized := Optimize(port, protocol, rules.value);
    lrs := NumberRules(sslRedirect, protocol, optimized);
    ok := true;
  }

  // ---------------------------------------------------------------- what is built

  lemma BuiltWellShaped(p: IngressPath)
    ensures WellShaped(RuleFor(p).conditions)
  {
    OtherListOthers(p.conditions);
    AssembledWellShaped(OtherList(p.conditions), StatedHosts(p), StatedPaths(p));
  }

  lemma BuiltMeaning(sem: OtherSemantics, p: IngressPath, req: Request)
    requires PathBuildable(p) && PathPatterns.OriginForm(req.path)
    ensures ConditionsMatch(sem, RuleFor(p).conditions, req) <==> Asks(sem, p, req)
  {
    hide AsksHost, AsksPath, Assemble, StatedHosts, StatedPaths;
    StatedHostsMean(p, req.host);
    StatedPathsMean(p, req.path);
    OtherListOthers(p.conditions);
    AssembledMeaning(sem, OtherList(p.conditions), StatedHosts(p), StatedPaths(p), req);
  }

  // ---------------------------------------------------------------- which path serves a request

  /** The path's rule is no infinite redirect, and the request is for it. */
  ghost predicate Candidate(sem: OtherSemantics, port: int, protocol: string, p: IngressPath, req: Request) {
    PathBuildable(p) && !Infinite(port, protocol, RuleFor(p)) && Asks(sem, p, req)
  }

  /** Path i serves: it is a candidate, and no path before it is. */
  ghost predicate Serves(sem: OtherSemantics, port: int, protocol: string, paths: seq<IngressPath>, req: Request,
      i: nat) {
    && i < |paths| && Candidate(sem, port, protocol, paths[i], req)
    && forall k :: 0 <= k < i ==> !Candidate(sem, port, protocol, paths[k], req)
  }

  ghost function Serving(sem: OtherSemantics, port: int, protocol: string, paths: seq<IngressPath>,
      req: Request): (r: Option<nat>)
    ensures r.Some? ==> r.value < |paths|
  {
    First(paths, p => Candidate(sem, port, protocol, p, req))
  }

  lemma ServesIsServing(sem: OtherSemantics, port: int, protocol: string, paths: seq<IngressPath>, req: Request, i: nat)
    ensures Serves(sem, port, protocol, paths, req, i) <==> Serving(sem, port, protocol, paths, req) == Some(i)
  {
    var r := Serving(sem, port, protocol, paths, req);
    if Serves(sem, port, protocol, paths, req, i) {
      assert r.Some? && !(r.value < i) && !(i < r.value);
    }
  }

  /** First match on the finite rules is the serving path's rule. */
  lemma {:induction false} FiniteRouting(
    sem: OtherSemantics, port: int, protocol: string, paths: seq<IngressPath>, rules: seq<Rule>, req: Request)
    requires BuiltFrom(paths, rules) && PathPatterns.OriginForm(req.path)
    requires forall p <- paths :: PathBuildable(p)
    ensures var serving := Serving(sem, port, protocol, paths, req);
      && (serving.Some? ==> PathBuildable(paths[serving.value]))
      && Routed(sem, Finite(port, protocol, rules), req) == if serving.Some?
        then Some(RuleFor(paths[serving.value])) else None
  {
    if paths != [] {
      var n := |paths| - 1;
      assert forall p <- paths[..n] :: p in paths;
      assert BuiltFrom(paths[..n], rules[..n]);
      FiniteRouting(sem, port, protocol, paths[..n], rules[..n], req);
      assert rules[n] == RuleFor(paths[n]);
      BuiltMeaning(sem, paths[n], req);
      RoutedFinite(sem, port, protocol, rules, req);
      ServingSnoc(sem, port, protocol, paths, req);
    }
  }

  lemma RoutedFinite(sem: OtherSemantics, port: int, protocol: string, rules: seq<Rule>, req: Request)
    ensures rules != [] ==>
      var n := |rules| - 1;
      var earlier := Routed(sem, Finite(port, protocol, rules[..n]), req);
      Routed(sem, Finite(port, protocol, rules), req) ==
        if earlier.Some? then earlier
        else if !Infinite(port, protocol, rules[n]) && ConditionsMatch(sem, rules[n].conditions, req)
          then Some(rules[n])
        else None
  {
    if rules != [] {
      var n := |rules| - 1;
      RoutedSnoc(sem, Finite(port, protocol, rules[..n]), rules[n], req);
    }
  }

  lemma ServingSnoc(sem: OtherSemantics, port: int, protocol: string, paths: seq<IngressPath>, req: Request)
    ensures paths != [] ==>
      var n := |paths| - 1;
      var earlier := Serving(sem, port, protocol, paths[..n], req);
      Serving(sem, port, protocol, paths, req) ==
        if earlier.Some? then earlier else if Candidate(sem, port, protocol, paths[n], req) then Some(n) else None
  {
  }

  /**
   * End to end, from the Ingresses: once the listener is synchronised with what is built for
   * the paths, every origin-form request is handled by a rule that does what the actions of the
   * path that serves it say, and by none exactly if no path serves it.
   */
  lemma IngressEndToEnd(
    sem: OtherSemantics, port: int, protocol: string, paths: seq<IngressPath>, built: seq<Rule>,
    lrs: seq<ListenerRule>, rules: map<string, SdkRule>, req: Request)
    requires forall p <- paths :: PathBuildable(p)
    requires BuiltFrom(paths, built) && Numbered(lrs, Visible(Finite(port, protocol, built)))
    requires InSync(rules, ByPriority(lrs)) && UniquePriorities(rules)
    requires PathPatterns.OriginForm(req.path)
    ensures (exists a :: Handles(sem, rules, req, a)) <==> exists i: nat :: Serves(sem, port, protocol, paths, req, i)
    ensures forall a, i: nat :: Handles(sem, rules, req, a) && Serves(sem, port, protocol, paths, req, i) ==>
      AllFulfilled(paths[i].actions, rules[a].actions)
  {
    forall r | r in built ensures WellShaped(r.conditions) {
      var i :| 0 <= i < |built| && built[i] == r;
      BuiltWellShaped(paths[i]);
    }
    FiniteRouting(sem, port, protocol, paths, built, req);
    var serving := Serving(sem, port, protocol, paths, req);
    forall i: nat ensures Serves(sem, port, protocol, paths, req, i) <==> serving == Some(i) {
      ServesIsServing(sem, port, protocol, paths, req, i);
    }
    forall a ensures Handles(sem, rules, req, a) ==>
      var picked := Routed(sem, Finite(port, protocol, built), req);
      picked.Some? && AllFulfilled(picked.value.actions, rules[a].actions)
    {
      EndToEndRouting(sem, port, protocol, built, lrs, rules, req, a);
    }
    EndToEndRouting(sem, port, protocol, built, lrs, rules, req, "");
  }

  /** A redirect that passes the drift test leads every request to the same place. */
  lemma NormalRedirectsAlike(want: Action, have: Action, req: Request)
    requires SameAction(want, have) && want.Redirect? && want.config.Some?
    ensures have.Redirect? && have.config.Some? && have.config.value.statusCode == want.config.value.statusCode
      && RedirectLoops.Follow(want.config.value, req) == RedirectLoops.Follow(have.config.value, req)
  {
    SameActionIff(want, have);
    hide RedirectLoops.Expand;
  }
}
