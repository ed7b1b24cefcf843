/**
 * Listener rules and what they mean: a rule matches a request when all of its conditions
 * do, and a condition matches when any of its values does.
 */
module ListenerRules {
  import opened Text
  import Globs
  import PathPatterns

  datatype OtherField = HttpHeader | HttpRequestMethod | QueryString | SourceIp

  /** One elbv2 rule condition; an absent configuration is a nil pointer. */
  datatype Condition =
    | HostHeader(values: Option<seq<string>>)
    | PathPattern(values: Option<seq<string>>)
    | Other(field: OtherField, config: Option<string>)

  datatype RedirectConfig = RedirectConfig(
    host: Option<string>, path: Option<string>, port: Option<string>,
    protocol: Option<string>, query: Option<string>, statusCode: string)

  datatype WeightedGroup = WeightedGroup(arn: string, weight: Option<int>)

  /** A rule's actions are listed in the order in which they are taken. */
  datatype Action =
    | Redirect(config: Option<RedirectConfig>)
    | Forward(groups: seq<WeightedGroup>, stickiness: Option<string>)
    | OtherAction(payload: string)

  datatype Rule = Rule(conditions: seq<Condition>, actions: seq<Action>, tags: map<string, string>)

  /** What the conditions other than host and path look at. */
  datatype Attributes = Attributes(headers: map<string, string>, requestMethod: string, query: string, sourceIp: string)

  datatype Request = Request(protocol: string, port: string, host: string, path: string, attributes: Attributes)

  /** The meaning of the remaining condition kinds is a parameter: nothing depends on it. */
  type OtherSemantics = (Condition, Attributes) -> bool

  function LowerChar(c: char): char {
    if 'A' <= c <= 'Z' then (c as int + 32) as char else c
  }

  function Lower(s: string): string { seq(|s|, i requires 0 <= i < |s| => LowerChar(s[i])) }

  /** Host names are compared without regard to case, paths with regard to it. */
  predicate HostMatches(values: seq<string>, host: string) {
    exists i :: 0 <= i < |values| && Globs.Matches(Lower(values[i]), Lower(host))
  }

  predicate PathMatches(values: seq<string>, path: string) {
    PathPatterns.AnyMatches(values, path)
  }

  predicate ConditionMatches(sem: OtherSemantics, c: Condition, req: Request) {
    match c
    case HostHeader(v) => v.Some? && HostMatches(v.value, req.host)
    case PathPattern(v) => v.Some? && PathMatches(v.value, req.path)
    case Other(_, _) => sem(c, req.attributes)
  }

  predicate ConditionsMatch(sem: OtherSemantics, cs: seq<Condition>, req: Request) {
    forall c <- cs :: ConditionMatches(sem, c, req)
  }

  /** Listener rules are tried in order; the first that matches decides. */
  function FirstMatch(sem: OtherSemantics, rules: seq<Rule>, req: Request): (r: Option<nat>)
    ensures r.Some? ==> r.value < |rules| && ConditionsMatch(sem, rules[r.value].conditions, req)
    ensures forall k :: 0 <= k < (if r.Some? then r.value else |rules|) ==>
      !ConditionsMatch(sem, rules[k].conditions, req)
  {
    if rules == [] then None
    else
      var n := |rules| - 1;
      var earlier := FirstMatch(sem, rules[..n], req);
      if earlier.Some? then earlier
      else if ConditionsMatch(sem, rules[n].conditions, req) then Some(n) else None
  }

  /** The rule that handles a request, if any does. */
  function Routed(sem: OtherSemantics, rules: seq<Rule>, req: Request): Option<Rule> {
    var i := FirstMatch(sem, rules, req);
    if i.Some? then Some(rules[i.value]) else None
  }

  lemma RoutedSnoc(sem: OtherSemantics, rules: seq<Rule>, last: Rule, req: Request)
    ensures Routed(sem, rules + [last], req) ==
      if Routed(sem, rules, req).Some? then Routed(sem, rules, req)
      else if ConditionsMatch(sem, last.conditions, req) then Some(last)
      else None
  {
    assert (rules + [last])[..|rules|] == rules;
  }

  // ---------------------------------------------------------------- shape of built conditions

  /** At most one host and one path condition, and no empty value list. */
  predicate WellShaped(cs: seq<Condition>) {
    && (forall i, j :: 0 <= i < j < |cs| ==> !(cs[i].HostHeader? && cs[j].HostHeader?))
    && (forall i, j :: 0 <= i < j < |cs| ==> !(cs[i].PathPattern? && cs[j].PathPattern?))
    && forall c <- cs :: !c.Other? ==> c.values.Some? && c.values.value != []
  }

  function HostValues(cs: seq<Condition>): set<string> {
    set c, v | c in cs && c.HostHeader? && c.values.Some? && v in c.values.value :: v
  }

  function PathValues(cs: seq<Condition>): set<string> {
    set c, v | c in cs && c.PathPattern? && c.values.Some? && v in c.values.value :: v
  }

  /** In a well-shaped list every host value belongs to every host condition (there is one). */
  lemma SoleHost(cs: seq<Condition>, c: Condition, v: string)
    requires WellShaped(cs) && c in cs && c.HostHeader? && v in HostValues(cs)
    ensures v in c.values.value
  {
    var d :| d in cs && d.HostHeader? && d.values.Some? && v in d.values.value;
    var i, j :| 0 <= i < |cs| && 0 <= j < |cs| && cs[i] == c && cs[j] == d;
    assert i == j;
  }

  lemma SolePath(cs: seq<Condition>, c: Condition, v: string)
    requires WellShaped(cs) && c in cs && c.PathPattern? && v in PathValues(cs)
    ensures v in c.values.value
  {
    var d :| d in cs && d.PathPattern? && d.values.Some? && v in d.values.value;
    var i, j :| 0 <= i < |cs| && 0 <= j < |cs| && cs[i] == c && cs[j] == d;
    assert i == j;
  }
}
