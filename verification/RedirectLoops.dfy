/**
 * What an ELBv2 redirect action does to a request, and why the rules that the optimizer
 * drops as infinite redirects are loops.
 */
module RedirectLoops {
  import opened Text
  import opened ListenerRules
  import opened RuleOptimizer
  import Globs
  import PathPatterns

  function PathKeyword(path: string): string {
    if path != "" && path[0] == '/' then path[1..] else path
  }

  /** Placeholders of a redirect field are replaced by the request's own components. */
  function Expand(template: string, req: Request): string
    decreases |template|
  {
    if template == "" then ""
    else if "#{protocol}" <= template then req.protocol + Expand(template[11..], req)
    else if "#{host}" <= template then req.host + Expand(template[7..], req)
    else if "#{port}" <= template then req.port + Expand(template[7..], req)
    else if "#{path}" <= template then PathKeyword(req.path) + Expand(template[7..], req)
    else if "#{query}" <= template then req.attributes.query + Expand(template[8..], req)
    else [template[0]] + Expand(template[1..], req)
  }

  function Field(field: Option<string>, default: string, req: Request): string {
    Expand(if field.Some? then field.value else default, req)
  }

  /**
   * The request that a client sends after following the redirect (section 15.4 of RFC 9110),
   * with every other attribute repeated. An absent field keeps the request's own component.
   */
  function Follow(cfg: RedirectConfig, req: Request): Request {
    Request(
      Field(cfg.protocol, "#{protocol}", req),
      Field(cfg.port, "#{port}", req),
      Field(cfg.host, "#{host}", req),
      Field(cfg.path, "/#{path}", req),
      req.attributes.(query := Field(cfg.query, "#{query}", req)))
  }

  function FollowTimes(cfg: RedirectConfig, req: Request, n: nat): Request {
    if n == 0 then req else Follow(cfg, FollowTimes(cfg, req, n - 1))
  }

  ghost predicate NoPlaceholder(s: string) {
    forall i :: 0 <= i < |s| ==> !("#{" <= s[i..])
  }

  lemma {:induction false} ExpandLiteral(s: string, req: Request)
    requires NoPlaceholder(s)
    ensures Expand(s, req) == s
  {
    if s != "" {
      assert s[0..] == s;
      assert !("#{" <= s);
      assert NoPlaceholder(s[1..]) by {
        forall i | 0 <= i < |s[1..]| ensures !("#{" <= s[1..][i..]) { assert s[1..][i..] == s[i + 1..]; }
      }
      ExpandLiteral(s[1..], req);
    }
  }

  lemma CharsWithoutHash(s: string)
    requires '#' !in s
    ensures NoPlaceholder(s)
  {
    forall i | 0 <= i < |s| ensures !("#{" <= s[i..]) { assert s[i..][0] == s[i]; }
  }

  lemma ExpandPlaceholders(req: Request)
    ensures Expand("#{protocol}", req) == req.protocol
    ensures Expand("#{host}", req) == req.host
    ensures Expand("#{port}", req) == req.port
    ensures Expand("#{query}", req) == req.attributes.query
    ensures Expand("/#{path}", req) == "/" + PathKeyword(req.path)
  {
    ExpandPortAndQuery(req);
    ExpandPath(req);
  }

  lemma ExpandPortAndQuery(req: Request)
    ensures Expand("#{port}", req) == req.port
    ensures Expand("#{query}", req) == req.attributes.query
  {
    assert "#{port}"[7..] == "" && "#{port}"[2] == 'p' && "#{port}"[3] == 'o';
    assert "#{query}"[8..] == "" && "#{query}"[2] == 'q';
  }

  lemma ExpandPath(req: Request)
    ensures Expand("/#{path}", req) == "/" + PathKeyword(req.path)
  {
    assert "/#{path}"[1..] == "#{path}" && "#{path}"[7..] == "" && "#{path}"[2] == 'p' && "#{path}"[3] == 'a';
    assert Expand("#{path}", req) == PathKeyword(req.path) + "";
  }

  /** Redirect host and path that are either the bare placeholder or plain text. */
  ghost predicate PlainTargets(cfg: RedirectConfig) {
    && (cfg.host.Some? && cfg.host.value != "#{host}" ==> NoPlaceholder(cfg.host.value))
    && (cfg.path.Some? && cfg.path.value != "/#{path}" ==>
      NoPlaceholder(cfg.path.value) && PathPatterns.OriginForm(cfg.path.value))
  }

  /** A request that arrives at the listener. */
  predicate OnListener(port: int, protocol: string, req: Request) {
    && req.port == IntToString(port)
    && req.protocol == protocol
    && PathPatterns.OriginForm(req.path)
  }

  ghost predicate Loops(port: int, protocol: string, rule: Rule) {
    && Infinite(port, protocol, rule)
    && WellShaped(rule.conditions)
    && PlainTargets(RedirectOf(rule.actions).value)
    && '#' !in protocol
  }

  /** What following an infinite redirect once yields. */
  lemma FollowInfinite(port: int, protocol: string, rule: Rule, req: Request)
    requires Loops(port, protocol, rule) && OnListener(port, protocol, req)
    ensures var cfg := RedirectOf(rule.actions).value;
      var next := Follow(cfg, req);
      && next.port == req.port && next.protocol == req.protocol && next.attributes == req.attributes
      && next.host == (if cfg.host.None? || cfg.host.value == "#{host}" then req.host else cfg.host.value)
      && next.path == (if cfg.path.None? || cfg.path.value == "/#{path}" then req.path else cfg.path.value)
  {
    var cfg := RedirectOf(rule.actions).value;
    hide Expand, Field, Follow, NoPlaceholder, HostValues, PathValues;
    if cfg.port.Some? && cfg.port.value != "#{port}" { CharsWithoutHash(cfg.port.value); }
    if cfg.protocol.Some? && cfg.protocol.value != "#{protocol}" { CharsWithoutHash(cfg.protocol.value); }
    assert PlainRedirect(cfg);
    FollowPlain(cfg, req);
  }

  lemma PlainField(field: Option<string>, default: string, req: Request, own: string)
    requires Expand(default, req) == own
    requires field.Some? && field.value != default ==> NoPlaceholder(field.value)
    ensures Field(field, default, req) == if field.None? || field.value == default then own else field.value
  {
    if field.Some? && field.value != default { ExpandLiteral(field.value, req); }
  }

  // ---------------------------------------------------------------- what the test is exact for

  /** The field is absent, the request's own component, or plain text. */
  ghost predicate Plain(field: Option<string>, own: string) {
    field.None? || field.value == own || NoPlaceholder(field.value)
  }

  ghost predicate PlainRedirect(cfg: RedirectConfig) {
    && Plain(cfg.host, "#{host}") && Plain(cfg.path, "/#{path}") && Plain(cfg.port, "#{port}")
    && Plain(cfg.protocol, "#{protocol}") && Plain(cfg.query, "#{query}")
  }

  /** A redirect leads back to the listener, to the request's own host and path or ones that the rule states. */
  ghost predicate Returns(rule: Rule, cfg: RedirectConfig, req: Request) {
    var next := Follow(cfg, req);
    && next.protocol == req.protocol && next.port == req.port && next.attributes == req.attributes
    && (next.host == req.host || next.host in HostValues(rule.conditions))
    && (next.path == req.path || next.path in PathValues(rule.conditions))
  }

  ghost predicate AlwaysReturns(port: int, protocol: string, rule: Rule, cfg: RedirectConfig) {
    forall req :: OnListener(port, protocol, req) ==> Returns(rule, cfg, req)
  }

  lemma FollowPlain(cfg: RedirectConfig, req: Request)
    requires PlainRedirect(cfg) && PathPatterns.OriginForm(req.path)
    ensures var next := Follow(cfg, req);
      && next.protocol == (if cfg.protocol.None? || cfg.protocol.value == "#{protocol}" then req.protocol
        else cfg.protocol.value)
      && next.port == (if cfg.port.None? || cfg.port.value == "#{port}" then req.port else cfg.port.value)
      && next.host == (if cfg.host.None? || cfg.host.value == "#{host}" then req.host else cfg.host.value)
      && next.path == (if cfg.path.None? || cfg.path.value == "/#{path}" then req.path else cfg.path.value)
      && next.attributes == req.attributes.(query := if cfg.query.None? || cfg.query.value == "#{query}"
        then req.attributes.query else cfg.query.value)
  {
    hide Expand, Field, NoPlaceholder;
    ExpandPlaceholders(req);
    assert req.path == "/" + PathKeyword(req.path);
    PlainField(cfg.host, "#{host}", req, req.host);
    PlainField(cfg.path, "/#{path}", req, req.path);
    PlainField(cfg.port, "#{port}", req, req.port);
    PlainField(cfg.protocol, "#{protocol}", req, req.protocol);
    PlainField(cfg.query, "#{query}", req, req.attributes.query);
  }

  /**
   * On redirects with plain fields the optimizer's test is exact: a redirect is dropped if and
   * only if it leads every request on the listener back to it, to a host and path that are the
   * request's own or among the values of the rule's conditions.
   */
  lemma InfiniteIffReturns(port: int, protocol: string, rule: Rule, cfg: RedirectConfig)
    requires RedirectOf(rule.actions) == Some(cfg) && PlainRedirect(cfg)
    ensures Infinite(port, protocol, rule) <==> AlwaysReturns(port, protocol, rule, cfg)
  {
    hide Expand, Field, NoPlaceholder, Follow, HostValues, PathValues, RedirectOf, IntToString;
    if Infinite(port, protocol, rule) {
      forall req | OnListener(port, protocol, req) ensures Returns(rule, cfg, req) { FollowPlain(cfg, req); }
    } else {
      var req := Elsewhere(port, protocol, cfg);
      FollowPlain(cfg, req);
      assert !Returns(rule, cfg, req);
    }
  }

  /** A request whose host, path and query are none that the redirect names. */
  function Elsewhere(port: int, protocol: string, cfg: RedirectConfig): (req: Request)
    ensures OnListener(port, protocol, req)
    ensures Some(req.host) != cfg.host && Some(req.path) != cfg.path && Some(req.attributes.query) != cfg.query
  {
    Request(protocol, IntToString(port), Longer(cfg.host), Longer(cfg.path),
      Attributes(map[], "GET", Longer(cfg.query), ""))
  }

  function Longer(field: Option<string>): (s: string)
    ensures Some(s) != field && PathPatterns.OriginForm(s)
  {
    if field.Some? then "/" + field.value else "/"
  }

  /** The test does not expand templates: a redirect that spells its own host with a placeholder is kept. */
  lemma MixedTemplateIsKept(port: int, protocol: string)
    ensures var cfg := RedirectConfig(Some("a#{port}"), None, None, None, None, "HTTP_301");
      var rule := Rule([HostHeader(Some(["a" + IntToString(port)]))], [Redirect(Some(cfg))], map[]);
      AlwaysReturns(port, protocol, rule, cfg) && !Infinite(port, protocol, rule)
  {
    var cfg := RedirectConfig(Some("a#{port}"), None, None, None, None, "HTTP_301");
    var own := "a" + IntToString(port);
    var rule := Rule([HostHeader(Some([own]))], [Redirect(Some(cfg))], map[]);
    assert HostValues(rule.conditions) == {own} by { assert own in rule.conditions[0].values.value; }
    assert "a#{port}"[1] == '#' && '#' !in IntToString(port);
    forall req | OnListener(port, protocol, req) ensures Returns(rule, cfg, req) {
      hide Expand;
      ExpandPlaceholders(req);
      ExpandMixed(req);
      assert req.path == "/" + PathKeyword(req.path);
    }
  }

  lemma ExpandMixed(req: Request)
    ensures Expand("a#{port}", req) == "a" + req.port
  {
    ExpandPortAndQuery(req);
    assert "a#{port}"[1..] == "#{port}" && "a#{port}"[0] == 'a';
  }

  /** The field is absent, the request's own component, or one of the rule's own plain values. */
  ghost predicate OwnOrPlain(field: Option<string>, own: string, values: set<string>) {
    field.None? || field.value == own || (NoPlaceholder(field.value) && field.value in values)
  }

  /**
   * No optimized rule redirects a request on the listener back to the listener's own port and
   * protocol, if its host, path and query stay or are its own plain values and its port and
   * protocol are absent, the request's own, or plain text.
   */
  lemma NoReturningRedirectIsKept(port: int, protocol: string, rules: seq<Rule>, rule: Rule, cfg: RedirectConfig,
      req: Request)
    requires rule in Visible(Finite(port, protocol, rules)) && RedirectOf(rule.actions) == Some(cfg)
    requires OwnOrPlain(cfg.host, "#{host}", HostValues(rule.conditions))
    requires OwnOrPlain(cfg.path, "/#{path}", PathValues(rule.conditions))
    requires OwnOrPlain(cfg.query, "#{query}", {})
    requires Plain(cfg.port, "#{port}") && Plain(cfg.protocol, "#{protocol}")
    requires OnListener(port, protocol, req)
    ensures Follow(cfg, req).port != IntToString(port) || Follow(cfg, req).protocol != protocol
  {
    hide Expand, Field, NoPlaceholder, Follow, HostValues, PathValues, RedirectOf, IntToString;
    VisibleSubset(Finite(port, protocol, rules));
    FiniteAllFinite(port, protocol, rules);
    FollowPlain(cfg, req);
  }

  // ---------------------------------------------------------------- why dropped rules are loops

  /** One redirect leads back to the same listener, to a request that matches the rule again. */
  lemma LoopStep(sem: OtherSemantics, port: int, protocol: string, rule: Rule, req: Request)
    requires Loops(port, protocol, rule) && OnListener(port, protocol, req)
    requires ConditionsMatch(sem, rule.conditions, req)
    ensures var next := Follow(RedirectOf(rule.actions).value, req);
      OnListener(port, protocol, next) && ConditionsMatch(sem, rule.conditions, next)
  {
    var cfg := RedirectOf(rule.actions).value;
    var next := Follow(cfg, req);
    FollowInfinite(port, protocol, rule, req);
    forall c | c in rule.conditions ensures ConditionMatches(sem, c, next) {
      assert ConditionMatches(sem, c, req);
      if c.HostHeader? && next.host != req.host {
        SoleHost(rule.conditions, c, next.host);
        Globs.MatchesItself(Lower(next.host));
        var k :| 0 <= k < |c.values.value| && c.values.value[k] == next.host;
      } else if c.PathPattern? && next.path != req.path {
        SolePath(rule.conditions, c, next.path);
        Globs.MatchesItself(next.path);
        var k :| 0 <= k < |c.values.value| && c.values.value[k] == next.path;
      }
    }
  }

  /**
   * Every rule dropped as an infinite redirect is one: however often the redirect is
   * followed, the request stays on the listener and matches the rule again.
   */
  lemma InfiniteRedirectLoops(sem: OtherSemantics, port: int, protocol: string, rule: Rule, req: Request, n: nat)
    requires Loops(port, protocol, rule) && OnListener(port, protocol, req)
    requires ConditionsMatch(sem, rule.conditions, req)
    ensures var r := FollowTimes(RedirectOf(rule.actions).value, req, n);
      OnListener(port, protocol, r) && ConditionsMatch(sem, rule.conditions, r)
  {
    var stays := (r: Request) => OnListener(port, protocol, r) && ConditionsMatch(sem, rule.conditions, r);
    forall r | stays(r) ensures stays(Follow(RedirectOf(rule.actions).value, r)) {
      LoopStep(sem, port, protocol, rule, r);
    }
    FollowKeeps(RedirectOf(rule.actions).value, req, n, stays);
  }

  lemma {:induction false} FollowKeeps(cfg: RedirectConfig, req: Request, n: nat, p: Request -> bool)
    requires p(req) && forall r :: p(r) ==> p(Follow(cfg, r))
    ensures p(FollowTimes(cfg, req, n))
  {
    if n > 0 { FollowKeeps(cfg, req, n - 1, p); }
  }

  /** After one redirect the request no longer changes. */
  lemma {:induction false} FollowStabilises(port: int, protocol: string, rule: Rule, req: Request, n: nat)
    requires Loops(port, protocol, rule) && OnListener(port, protocol, req) && n >= 1
    ensures var cfg := RedirectOf(rule.actions).value;
      FollowTimes(cfg, req, n) == Follow(cfg, req) && OnListener(port, protocol, Follow(cfg, req))
  {
    var cfg := RedirectOf(rule.actions).value;
    FollowInfinite(port, protocol, rule, req);
    assert FollowTimes(cfg, req, 0) == req;
    if n > 1 {
      FollowStabilises(port, protocol, rule, req, n - 1);
      FollowInfinite(port, protocol, rule, Follow(cfg, req));
    }
  }

  /**
   * Within a whole rule list the loop is only closed when no earlier rule catches the
   * redirected request: exactly then the same rule handles it for ever.
   */
  lemma {:induction false} ListLoopIff(sem: OtherSemantics, port: int, protocol: string, rules: seq<Rule>, i: nat,
      req: Request)
    requires i < |rules| && Loops(port, protocol, rules[i]) && OnListener(port, protocol, req)
    requires FirstMatch(sem, rules, req) == Some(i)
    ensures var cfg := RedirectOf(rules[i].actions).value;
      (forall n: nat :: FirstMatch(sem, rules, FollowTimes(cfg, req, n)) == Some(i))
      <==> (forall k :: 0 <= k < i ==> !ConditionsMatch(sem, rules[k].conditions, Follow(cfg, req)))
  {
    var cfg := RedirectOf(rules[i].actions).value;
    LoopStep(sem, port, protocol, rules[i], req);
    forall n: nat | n >= 1 ensures FollowTimes(cfg, req, n) == Follow(cfg, req) {
      FollowStabilises(port, protocol, rules[i], req, n);
    }
    var handled := (r: Request) => FirstMatch(sem, rules, r) == Some(i);
    Settles(cfg, req, handled);
    assert forall n: nat :: handled(FollowTimes(cfg, req, n)) <==>
      FirstMatch(sem, rules, FollowTimes(cfg, req, n)) == Some(i);
    FirstAt(sem, rules, i, Follow(cfg, req));
  }

  /** Once a request settles, what holds of it for ever holds of it and of the first redirect. */
  lemma Settles(cfg: RedirectConfig, req: Request, p: Request -> bool)
    requires forall n: nat :: n >= 1 ==> FollowTimes(cfg, req, n) == Follow(cfg, req)
    ensures (forall n: nat :: p(FollowTimes(cfg, req, n))) <==> p(req) && p(Follow(cfg, req))
  {
    assert FollowTimes(cfg, req, 0) == req;
    assert FollowTimes(cfg, req, 1) == Follow(cfg, req);
    if p(req) && p(Follow(cfg, req)) {
      forall n: nat ensures p(FollowTimes(cfg, req, n)) {
        if n >= 1 { assert FollowTimes(cfg, req, n) == Follow(cfg, req); }
      }
    }
  }

  lemma FirstAt(sem: OtherSemantics, rules: seq<Rule>, i: nat, req: Request)
    requires i < |rules| && ConditionsMatch(sem, rules[i].conditions, req)
    ensures FirstMatch(sem, rules, req) == Some(i) <==>
      forall k :: 0 <= k < i ==> !ConditionsMatch(sem, rules[k].conditions, req)
  {
    var first := FirstMatch(sem, rules, req);
    assert first.Some? && first.value <= i;
  }

  /** A redirect that keeps host and path is therefore a loop in every rule list. */
  lemma {:induction false} UnchangedTargetsLoop(sem: OtherSemantics, port: int, protocol: string, rules: seq<Rule>,
      i: nat, req: Request,
      n: nat)
    requires i < |rules| && Loops(port, protocol, rules[i]) && OnListener(port, protocol, req)
    requires FirstMatch(sem, rules, req) == Some(i)
    requires var cfg := RedirectOf(rules[i].actions).value;
      (cfg.host.None? || cfg.host.value == "#{host}") && (cfg.path.None? || cfg.path.value == "/#{path}")
    ensures FirstMatch(sem, rules, FollowTimes(RedirectOf(rules[i].actions).value, req, n)) == Some(i)
  {
    FollowInfinite(port, protocol, rules[i], req);
    ListLoopIff(sem, port, protocol, rules, i, req);
  }

  const ANSWER: Rule := Rule([PathPattern(Some(["/b"]))], [OtherAction("fixed-response")], map[])
  const TO_B: RedirectConfig := RedirectConfig(None, Some("/b"), None, None, None, "HTTP_301")
  const REDIRECT: Rule := Rule([PathPattern(Some(["/a", "/b"]))], [Redirect(Some(TO_B))], map[])

  lemma RedirectIsDropped()
    ensures Infinite(80, "HTTP", REDIRECT) && Finite(80, "HTTP", [ANSWER, REDIRECT]) == [ANSWER]
  {
    assert REDIRECT.conditions[0] in REDIRECT.conditions && "/b" in REDIRECT.conditions[0].values.value;
    assert "/b" in PathValues(REDIRECT.conditions);
    assert !Infinite(80, "HTTP", ANSWER) by { assert RedirectOf(ANSWER.actions[1..]) == None; }
    assert [ANSWER, REDIRECT][..1] == [ANSWER] && [ANSWER][..0] == [];
    assert Finite(80, "HTTP", [ANSWER]) == [ANSWER];
  }

  /** Of the two rules, the first answers "/b" and the second redirects "/a". */
  lemma TwoRules(sem: OtherSemantics, req: Request)
    ensures Routed(sem, [ANSWER], req) == if req.path == "/b" then Some(ANSWER) else None
    ensures Routed(sem, [ANSWER, REDIRECT], req) == if req.path == "/b" then Some(ANSWER) else if req.path == "/a"
      then Some(REDIRECT) else None
  {
    Globs.LiteralMatches("/a", req.path);
    Globs.LiteralMatches("/b", req.path);
    var a, r := ANSWER.conditions[0], REDIRECT.conditions[0];
    assert a.values.value[0] == "/b" && r.values.value[0] == "/a" && r.values.value[1] == "/b";
    assert a in ANSWER.conditions && r in REDIRECT.conditions;
    assert ConditionMatches(sem, a, req) <==> req.path == "/b";
    assert ConditionMatches(sem, r, req) <==> req.path == "/a" || req.path == "/b";
    RoutedSnoc(sem, [], ANSWER, req);
    RoutedSnoc(sem, [ANSWER], REDIRECT, req);
    assert [] + [ANSWER] == [ANSWER] && [ANSWER] + [REDIRECT] == [ANSWER, REDIRECT];
  }

  /**
   * The optimizer looks at one rule at a time, so it can drop a redirect that is no loop:
   * here "/a" is redirected to "/b", which an earlier rule answers.
   */
  lemma DroppedRedirectNeedNotLoop(sem: OtherSemantics, attributes: Attributes)
    ensures Infinite(80, "HTTP", REDIRECT) && Finite(80, "HTTP", [ANSWER, REDIRECT]) == [ANSWER]
    ensures var req := Request("HTTP", "80", "example.com", "/a", attributes);
      && Routed(sem, [ANSWER, REDIRECT], req) == Some(REDIRECT)
      && Routed(sem, [ANSWER, REDIRECT], Follow(TO_B, req)) == Some(ANSWER)
      && Routed(sem, [ANSWER], req) == None
  {
    var req := Request("HTTP", "80", "example.com", "/a", attributes);
    RedirectIsDropped();
    TwoRules(sem, req);
    CharsWithoutHash("/b");
    ExpandLiteral("/b", req);
    TwoRules(sem, Follow(TO_B, req));
  }
}
