/**
 * The rule optimizer (pkg/ingress/rule_optimizer.go): rules that would redirect to
 * themselves are dropped, then rules that an earlier redirect always takes precedence over.
 */
module RuleOptimizer {
  import opened Text
  import opened ListenerRules
  import Globs
  import PathPatterns

  // ---------------------------------------------------------------- specifications

  function RedirectOf(actions: seq<Action>): Option<RedirectConfig> {
    if actions == [] then None
    else if actions[0].Redirect? then actions[0].config
    else RedirectOf(actions[1..])
  }

  ghost predicate FirstRedirect(actions: seq<Action>, i: nat)
    requires i < |actions|
  {
    actions[i].Redirect? && forall k :: 0 <= k < i ==> !actions[k].Redirect?
  }

  predicate IsRedirect(rule: Rule) { RedirectOf(rule.actions).Some? }

  /** A condition that the superset test does not understand. */
  predicate Opaque(c: Condition) { c.Other? || c.values.None? }

  predicate HostsCover(l: set<string>, r: set<string>) {
    l == {} || (r != {} && r <= l)
  }

  predicate PathsCover(l: set<string>, r: set<string>) {
    l == {} || "/*" in l || (r != {} && r <= l)
  }

  predicate Superset(l: seq<Condition>, r: seq<Condition>) {
    && (forall c <- l :: !Opaque(c))
    && HostsCover(HostValues(l), HostValues(r))
    && PathsCover(PathValues(l), PathValues(r))
  }

  predicate FieldLoops(redirect: Option<string>, placeholder: string, own: set<string>) {
    redirect.Some? ==> redirect.value == placeholder || redirect.value in own
  }

  predicate Infinite(port: int, protocol: string, rule: Rule) {
    var cfg := RedirectOf(rule.actions);
    && cfg.Some?
    && FieldLoops(cfg.value.host, "#{host}", HostValues(rule.conditions))
    && FieldLoops(cfg.value.path, "/#{path}", PathValues(rule.conditions))
    && FieldLoops(cfg.value.port, "#{port}", {IntToString(port)})
    && FieldLoops(cfg.value.protocol, "#{protocol}", {protocol})
    && FieldLoops(cfg.value.query, "#{query}", {})
  }

  ghost predicate Covers(x: Rule, cs: seq<Condition>) {
    IsRedirect(x) && Superset(x.conditions, cs)
  }

  ghost predicate CoveredByAny(rules: seq<Rule>, cs: seq<Condition>) {
    exists x <- rules :: Covers(x, cs)
  }

  /** Declaratively: some earlier redirect rule of the original list covers this one. */
  ghost predicate Overshadowed(rules: seq<Rule>, j: nat) {
    j < |rules| && CoveredByAny(rules[..j], rules[j].conditions)
  }

  ghost function Visible(rules: seq<Rule>): seq<Rule> {
    if rules == [] then []
    else
      var n := |rules| - 1;
      if Overshadowed(rules, n) then Visible(rules[..n]) else Visible(rules[..n]) + [rules[n]]
  }

  function Finite(port: int, protocol: string, rules: seq<Rule>): seq<Rule> {
    if rules == [] then []
    else
      var n := |rules| - 1;
      var earlier := Finite(port, protocol, rules[..n]);
      if Infinite(port, protocol, rules[n]) then earlier else earlier + [rules[n]]
  }

  // ---------------------------------------------------------------- the loops of the source

  method FindRedirectActionConfig(actions: seq<Action>) returns (cfg: Option<RedirectConfig>)
    ensures cfg == RedirectOf(actions)
    ensures forall i :: 0 <= i < |actions| && FirstRedirect(actions, i) ==> cfg == actions[i].config
    ensures (forall a <- actions :: !a.Redirect?) ==> cfg == None
  {
    cfg := None;
    for i := 0 to |actions|
      invariant cfg == None && forall k :: 0 <= k < i ==> !actions[k].Redirect?
      invariant RedirectOf(actions) == RedirectOf(actions[i..])
    {
      if actions[i].Redirect? {
        return actions[i].config;
      }
    }
  }

  method CollectValues(conditions: seq<Condition>) returns (hosts: set<string>, paths: set<string>, opaqueSeen: bool)
    ensures hosts == HostValues(conditions)
    ensures paths == PathValues(conditions)
    ensures opaqueSeen <==> exists c <- conditions :: Opaque(c)
  {
    hosts, paths, opaqueSeen := {}, {}, false;
    for i := 0 to |conditions|
      invariant hosts == HostValues(conditions[..i])
      invariant paths == PathValues(conditions[..i])
      invariant opaqueSeen <==> exists c <- conditions[..i] :: Opaque(c)
    {
      var c := conditions[i];
      assert conditions[..i + 1] == conditions[..i] + [c];
      assert Opaque(c) ==> c in conditions[..i + 1];
      match c {
        case HostHeader(Some(values)) =>
          assert HostValues([c]) == Elements(values);
          hosts := hosts + Elements(values);
        case PathPattern(Some(values)) =>
          assert PathValues([c]) == Elements(values);
          paths := paths + Elements(values);
        case _ =>
          opaqueSeen := true;
      }
    }
    assert conditions[..|conditions|] == conditions;
  }

  method IsSupersetConditions(lhs: seq<Condition>, rhs: seq<Condition>) returns (b: bool)
    ensures b == Superset(lhs, rhs)
  {
    var lhsHosts, lhsPaths, lhsOpaque := CollectValues(lhs);
    if lhsOpaque {
      return false;
    }
    var rhsHosts, rhsPaths, _ := CollectValues(rhs);
    var hostIsSuperset := |lhsHosts| == 0 || (|rhsHosts| != 0 && lhsHosts >= rhsHosts);
    var pathIsSuperset := |lhsPaths| == 0 || "/*" in lhsPaths || (|rhsPaths| != 0 && lhsPaths >= rhsPaths);
    b := hostIsSuperset && pathIsSuperset;
  }

  method IsInfiniteRedirectRule(port: int, protocol: string, rule: Rule) returns (b: bool)
    ensures b == Infinite(port, protocol, rule)
  {
    var cfg := FindRedirectActionConfig(rule.actions);
    if cfg.None? { return false; }
    var ruleHosts, rulePaths, _ := CollectValues(rule.conditions);
    var redirect := cfg.value;
    if redirect.host.Some? && redirect.host.value != "#{host}" && redirect.host.value !in ruleHosts { return false; }
    if redirect.path.Some? && redirect.path.value != "/#{path}" && redirect.path.value !in rulePaths { return false; }
    if redirect.port.Some? {
      var rulePort := IntToString(port);
      if redirect.port.value != "#{port}" && redirect.port.value != rulePort { return false; }
    }
    if redirect.protocol.Some? && redirect.protocol.value != "#{protocol}" && redirect.protocol.value != protocol {
      return false;
    }
    if redirect.query.Some? && redirect.query.value != "#{query}" { return false; }
    return true;
  }

  method OmitInfiniteRedirectRules(port: int, protocol: string, rules: seq<Rule>) returns (optimized: seq<Rule>)
    ensures optimized == Finite(port, protocol, rules)
  {
    optimized := [];
    for i := 0 to |rules|
      invariant optimized == Finite(port, protocol, rules[..i])
    {
      assert rules[..i + 1][..i] == rules[..i];
      var infinite := IsInfiniteRedirectRule(port, protocol, rules[i]);
      if infinite { continue; }
      optimized := optimized + [rules[i]];
    }
    assert rules[..|rules|] == rules;
  }

  /** The greedy pass of the source computes the declarative result. */
  method OmitOvershadowedRulesAfterRedirectRules(rules: seq<Rule>) returns (optimized: seq<Rule>)
    ensures optimized == Visible(rules)
  {
    optimized := [];
    for i := 0 to |rules|
      invariant optimized == Visible(rules[..i])
    {
      var rule := rules[i];
      ghost var upTo := rules[..i + 1];
      assert upTo[..i] == rules[..i] && upTo[i] == rule;
      var overshadowed := false;
      for k := 0 to |optimized|
        invariant !overshadowed
        invariant forall j :: 0 <= j < k ==> !Covers(optimized[j], rule.conditions)
      {
        var redirect := FindRedirectActionConfig(optimized[k].actions);
        if redirect.Some? {
          var superset := IsSupersetConditions(optimized[k].conditions, rule.conditions);
          if superset {
            assert optimized[k] in optimized && Covers(optimized[k], rule.conditions);
            overshadowed := true;
            break;
          }
        }
      }
      assert overshadowed <==> CoveredByAny(optimized, rule.conditions);
      GreedySeesAll(rules[..i], rule.conditions);
      if !overshadowed {
        optimized := optimized + [rule];
      }
    }
    assert rules[..|rules|] == rules;
  }

  method Optimize(port: int, protocol: string, rules: seq<Rule>) returns (optimized: seq<Rule>)
    ensures optimized == Visible(Finite(port, protocol, rules))
  {
    optimized := OmitInfiniteRedirectRules(port, protocol, rules);
    optimized := OmitOvershadowedRulesAfterRedirectRules(optimized);
  }

  // ---------------------------------------------------------------- greedy = declarative

  lemma SupersetTransitive(a: seq<Condition>, b: seq<Condition>, c: seq<Condition>)
    requires Superset(a, b) && Superset(b, c)
    ensures Superset(a, c)
  {
  }

  lemma {:induction false} VisibleSubset(rules: seq<Rule>)
    ensures forall x <- Visible(rules) :: x in rules
  {
    if rules != [] { VisibleSubset(rules[..|rules| - 1]); }
  }

  /** Dropping rules loses no cover: whatever a dropped rule covers, the rule that covered it covers too. */
  lemma {:induction false} GreedySeesAll(rules: seq<Rule>, cs: seq<Condition>)
    ensures CoveredByAny(Visible(rules), cs) <==> CoveredByAny(rules, cs)
  {
    VisibleSubset(rules);
    if rules != [] && CoveredByAny(rules, cs) {
      var n := |rules| - 1;
      var earlier, last := rules[..n], rules[n];
      assert rules == earlier + [last];
      GreedySeesAll(earlier, cs);
      if Overshadowed(rules, n) && Covers(last, cs) {
        var x :| x in earlier && Covers(x, last.conditions);
        SupersetTransitive(x.conditions, last.conditions, cs);
        assert Covers(x, cs);
      }
      var y :| y in (if CoveredByAny(earlier, cs) then Visible(earlier) else [last]) && Covers(y, cs);
      assert y in Visible(rules);
    }
  }

  // ---------------------------------------------------------------- routing is preserved

  /** For well-shaped left-hand sides the syntactic superset test implies the semantic one. */
  lemma SupersetSound(sem: OtherSemantics, l: seq<Condition>, r: seq<Condition>, req: Request)
    requires WellShaped(l) && Superset(l, r)
    requires PathPatterns.OriginForm(req.path)
    requires ConditionsMatch(sem, r, req)
    ensures ConditionsMatch(sem, l, req)
  {
    forall c | c in l ensures ConditionMatches(sem, c, req) {
      assert !Opaque(c);
      if c.HostHeader? {
        assert c.values.value[0] in c.values.value && c.values.value[0] in HostValues(l);
        var v :| v in HostValues(r);
        var d :| d in r && d.HostHeader? && d.values.Some? && v in d.values.value;
        assert ConditionMatches(sem, d, req);
        var i :| 0 <= i < |d.values.value| && Globs.Matches(Lower(d.values.value[i]), Lower(req.host));
        assert d.values.value[i] in d.values.value && d.values.value[i] in HostValues(r);
        SoleHost(l, c, d.values.value[i]);
        var k :| 0 <= k < |c.values.value| && c.values.value[k] == d.values.value[i];
      } else if "/*" in PathValues(l) {
        SolePath(l, c, "/*");
        Globs.LiteralStarMatches("/", req.path);
        assert "/" + "*" == "/*";
        var k :| 0 <= k < |c.values.value| && c.values.value[k] == "/*";
      } else {
        assert c.values.value[0] in c.values.value && c.values.value[0] in PathValues(l);
        var v :| v in PathValues(r);
        var d :| d in r && d.PathPattern? && d.values.Some? && v in d.values.value;
        assert ConditionMatches(sem, d, req);
        var i :| 0 <= i < |d.values.value| && Globs.Matches(d.values.value[i], req.path);
        assert d.values.value[i] in d.values.value && d.values.value[i] in PathValues(r);
        SolePath(l, c, d.values.value[i]);
        var k :| 0 <= k < |c.values.value| && c.values.value[k] == d.values.value[i];
      }
    }
  }

  // ---------------------------------------------------------------- the superset test is exact on plain values

  /** A text longer than all of them. */
  lemma OutOf(prefix: string, values: set<string>) returns (s: string)
    ensures s !in values && Lower(s) !in values && prefix <= s
  {
    var n := LongerThanAll(values);
    s := prefix + seq(n + 1, _ => 'x');
    assert |Lower(s)| == |s| > n;
  }

  /** A host that r's values allow and, unless they are covered, l's do not. */
  lemma HostBetween(l: set<string>, r: set<string>) returns (host: string)
    requires forall v <- r :: Lower(v) == v
    ensures r != {} ==> host in r
    ensures !HostsCover(l, r) ==> Lower(host) !in l
  {
    if r == {} {
      host := OutOf("", l);
    } else if v :| v in r && v !in l {
      host := v;
    } else {
      host :| host in r;
    }
  }

  lemma PathBetween(l: set<string>, r: set<string>) returns (path: string)
    requires forall v <- r :: PathPatterns.OriginForm(v)
    ensures (r != {} ==> path in r) && PathPatterns.OriginForm(path)
    ensures !PathsCover(l, r) ==> path !in l && "/*" !in l
  {
    if r == {} {
      path := OutOf("/", l);
      assert path[0] == "/"[0];
    } else if v :| v in r && v !in l {
      path := v;
    } else {
      path :| path in r;
    }
  }

  lemma HasValue(cs: seq<Condition>, v: string)
    ensures v in HostValues(cs) <==>
      exists c: Condition :: c in cs && c.HostHeader? && c.values.Some? && v in c.values.value
    ensures v in PathValues(cs) <==>
      exists c: Condition :: c in cs && c.PathPattern? && c.values.Some? && v in c.values.value
  {
  }

  /** A request with a host and a path out of the values, for which the other conditions hold, is matched. */
  lemma MatchedBy(sem: OtherSemantics, cs: seq<Condition>, req: Request)
    requires WellShaped(cs) && forall c <- cs :: c.Other? ==> sem(c, req.attributes)
    requires HostValues(cs) != {} ==> req.host in HostValues(cs)
    requires PathValues(cs) != {} ==> req.path in PathValues(cs)
    ensures ConditionsMatch(sem, cs, req)
  {
    forall c | c in cs ensures ConditionMatches(sem, c, req) {
      if c.HostHeader? {
        HasValue(cs, c.values.value[0]);
        SoleHost(cs, c, req.host);
        Globs.MatchesItself(Lower(req.host));
        var k :| 0 <= k < |c.values.value| && c.values.value[k] == req.host;
      } else if c.PathPattern? {
        HasValue(cs, c.values.value[0]);
        SolePath(cs, c, req.path);
        Globs.MatchesItself(req.path);
        var k :| 0 <= k < |c.values.value| && c.values.value[k] == req.path;
      }
    }
  }

  /** Host values without wildcards and upper case, and path values without wildcards. */
  ghost predicate PlainValues(cs: seq<Condition>) {
    && (forall v <- HostValues(cs) :: Globs.WildcardFree(v) && Lower(v) == v)
    && (forall v <- PathValues(cs) :: v == "/*" || Globs.WildcardFree(v))
  }

  /** A request whose host or path is not among the values is not matched. */
  lemma NotMatchedBy(sem: OtherSemantics, cs: seq<Condition>, req: Request)
    requires PlainValues(cs) && ConditionsMatch(sem, cs, req)
    ensures HostValues(cs) != {} ==> Lower(req.host) in HostValues(cs)
    ensures PathValues(cs) != {} ==> req.path in PathValues(cs) || "/*" in PathValues(cs)
  {
    if v :| v in HostValues(cs) {
      var c :| c in cs && c.HostHeader? && c.values.Some? && v in c.values.value;
      HostAmong(sem, cs, c, req);
    }
    if v :| v in PathValues(cs) {
      var c :| c in cs && c.PathPattern? && c.values.Some? && v in c.values.value;
      PathAmong(sem, cs, c, req);
    }
  }

  lemma HostAmong(sem: OtherSemantics, cs: seq<Condition>, c: Condition, req: Request)
    requires PlainValues(cs) && c in cs && c.HostHeader? && ConditionMatches(sem, c, req)
    ensures Lower(req.host) in HostValues(cs)
  {
    var i :| 0 <= i < |c.values.value| && Globs.Matches(Lower(c.values.value[i]), Lower(req.host));
    assert c.values.value[i] in c.values.value;
    HasValue(cs, c.values.value[i]);
    Globs.LiteralMatches(c.values.value[i], Lower(req.host));
  }

  lemma PathAmong(sem: OtherSemantics, cs: seq<Condition>, c: Condition, req: Request)
    requires PlainValues(cs) && c in cs && c.PathPattern? && ConditionMatches(sem, c, req)
    ensures req.path in PathValues(cs) || "/*" in PathValues(cs)
  {
    var i :| 0 <= i < |c.values.value| && Globs.Matches(c.values.value[i], req.path);
    assert c.values.value[i] in c.values.value;
    HasValue(cs, c.values.value[i]);
    if c.values.value[i] != "/*" { Globs.LiteralMatches(c.values.value[i], req.path); }
  }

  /**
   * For host and path conditions with plain values the test drops all it can: it succeeds if
   * and only if every request that the one list matches is matched by the other.
   */
  lemma SupersetExact(sem: OtherSemantics, l: seq<Condition>, r: seq<Condition>, attributes: Attributes)
    requires WellShaped(l) && WellShaped(r) && PlainValues(l) && forall c: Condition :: c in l ==> !c.Other?
    requires forall c <- r :: c.Other? ==> sem(c, attributes)
    requires forall v <- HostValues(r) :: Lower(v) == v
    requires forall v <- PathValues(r) :: PathPatterns.OriginForm(v)
    ensures Superset(l, r) <==> forall req: Request ::
      PathPatterns.OriginForm(req.path) && ConditionsMatch(sem, r, req) ==> ConditionsMatch(sem, l, req)
  {
    hide HostValues, PathValues, ConditionsMatch, HostsCover, PathsCover, PlainValues, Lower;
    if Superset(l, r) {
      forall req: Request | PathPatterns.OriginForm(req.path) && ConditionsMatch(sem, r, req)
        ensures ConditionsMatch(sem, l, req) { SupersetSound(sem, l, r, req); }
    } else {
      var host := HostBetween(HostValues(l), HostValues(r));
      var path := PathBetween(PathValues(l), PathValues(r));
      var req := Request("HTTP", "80", host, path, attributes);
      MatchedBy(sem, r, req);
      if ConditionsMatch(sem, l, req) {
        NotMatchedBy(sem, l, req);
        EmptyIsCovered(HostValues(r), PathValues(r));
      }
    }
  }

  lemma EmptyIsCovered(hosts: set<string>, paths: set<string>)
    ensures HostsCover({}, hosts) && PathsCover({}, paths)
  {
  }

  /** A request that a covered rule matches is taken by an earlier rule. */
  lemma CoveredIsTaken(sem: OtherSemantics, earlier: seq<Rule>, cs: seq<Condition>, req: Request)
    requires forall rule <- earlier :: WellShaped(rule.conditions)
    requires PathPatterns.OriginForm(req.path)
    requires CoveredByAny(earlier, cs) && ConditionsMatch(sem, cs, req)
    ensures Routed(sem, earlier, req).Some?
  {
    var x :| x in earlier && Covers(x, cs);
    SupersetSound(sem, x.conditions, cs, req);
    var i :| 0 <= i < |earlier| && earlier[i] == x;
    assert ConditionsMatch(sem, earlier[i].conditions, req);
  }

  /** Dropping overshadowed rules does not change which rule handles a request. */
  lemma {:induction false} OvershadowingPreservesRouting(sem: OtherSemantics, rules: seq<Rule>, req: Request)
    requires forall rule <- rules :: WellShaped(rule.conditions)
    requires PathPatterns.OriginForm(req.path)
    ensures Routed(sem, Visible(rules), req) == Routed(sem, rules, req)
  {
    if rules != [] {
      var n := |rules| - 1;
      var earlier, last := rules[..n], rules[n];
      OvershadowingPreservesRouting(sem, earlier, req);
      assert rules == earlier + [last];
      if Overshadowed(rules, n) {
        DroppedTakesNothing(sem, earlier, last, req);
      } else {
        KeptTakesTheSame(sem, earlier, last, req);
      }
    }
  }

  lemma DroppedTakesNothing(sem: OtherSemantics, earlier: seq<Rule>, last: Rule, req: Request)
    requires forall rule <- earlier + [last] :: WellShaped(rule.conditions)
    requires PathPatterns.OriginForm(req.path) && Overshadowed(earlier + [last], |earlier|)
    ensures Routed(sem, earlier + [last], req) == Routed(sem, earlier, req)
  {
    RoutedSnoc(sem, earlier, last, req);
    assert (earlier + [last])[..|earlier|] == earlier;
    if ConditionsMatch(sem, last.conditions, req) {
      assert forall rule <- earlier :: rule in earlier + [last];
      CoveredIsTaken(sem, earlier, last.conditions, req);
    }
  }

  lemma KeptTakesTheSame(sem: OtherSemantics, earlier: seq<Rule>, last: Rule, req: Request)
    requires Routed(sem, Visible(earlier), req) == Routed(sem, earlier, req)
    ensures Routed(sem, Visible(earlier) + [last], req) == Routed(sem, earlier + [last], req)
  {
    hide Routed;
    RoutedSnoc(sem, earlier, last, req);
    RoutedSnoc(sem, Visible(earlier), last, req);
  }

  // ---------------------------------------------------------------- idempotence

  lemma {:induction false} FiniteAllFinite(port: int, protocol: string, rules: seq<Rule>)
    ensures forall x <- Finite(port, protocol, rules) :: x in rules && !Infinite(port, protocol, x)
  {
    if rules != [] { FiniteAllFinite(port, protocol, rules[..|rules| - 1]); }
  }

  lemma {:induction false} FiniteIdentity(port: int, protocol: string, rules: seq<Rule>)
    requires forall x <- rules :: !Infinite(port, protocol, x)
    ensures Finite(port, protocol, rules) == rules
  {
    if rules != [] {
      FiniteIdentity(port, protocol, rules[..|rules| - 1]);
      assert rules == rules[..|rules| - 1] + [rules[|rules| - 1]];
    }
  }

  lemma {:induction false} VisibleIdempotent(rules: seq<Rule>)
    ensures Visible(Visible(rules)) == Visible(rules)
  {
    if rules != [] {
      var n := |rules| - 1;
      var earlier, last := rules[..n], rules[n];
      VisibleIdempotent(earlier);
      if !Overshadowed(rules, n) {
        var v := Visible(rules);
        assert v[..|v| - 1] == Visible(earlier) && v[|v| - 1] == last;
        GreedySeesAll(earlier, last.conditions);
      }
    }
  }

  /** Optimizing an optimized list changes nothing. */
  lemma {:induction false} OptimizeIdempotent(port: int, protocol: string, rules: seq<Rule>)
    ensures var once := Visible(Finite(port, protocol, rules));
      Visible(Finite(port, protocol, once)) == once
  {
    var finite := Finite(port, protocol, rules);
    FiniteAllFinite(port, protocol, rules);
    VisibleSubset(finite);
    FiniteIdentity(port, protocol, Visible(finite));
    VisibleIdempotent(finite);
  }
}
