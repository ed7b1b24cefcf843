/**
 * Synchronising the numbered rules onto whatever rules a listener already has
 * (pkg/deploy/elbv2/listener_rule_synthesizer.go).
 */
module RuleSynthesis {
  import opened Text
  import opened ListenerRules
  import opened RuleBuilding
  import opened RuleOptimizer
  import PathPatterns

  datatype SdkRule = SdkRule(arn: string, priority: int, isDefault: bool, conditions: seq<Condition>,
      actions: seq<Action>)

  ghost predicate UniquePriorities(rules: map<string, SdkRule>) {
    forall a, b :: a in rules && b in rules && a != b && !rules[a].isDefault && !rules[b].isDefault
      ==> rules[a].priority != rules[b].priority
  }

  ghost predicate UsesPriority(rules: map<string, SdkRule>, p: int) {
    exists a :: a in rules && !rules[a].isDefault && rules[a].priority == p
  }

  /**
   * A listener's rules behind the ELBv2 API. Every call may fail without effect, and `faults`
   * counts the calls that did. CreateRule
   * is only accepted for a priority that is not in use, so its precondition is an
   * obligation of the caller, and every reachable state has unique priorities.
   */
  class ListenerApi {
    var rules: map<string, SdkRule>
    var faults: nat

    ghost predicate Valid() reads this`rules {
      UniquePriorities(rules) && forall a <- rules :: rules[a].arn == a
    }

    method ListListenerRules() returns (r: Option<seq<SdkRule>>)
      requires Valid()
      modifies this`faults
      ensures faults >= old(faults) && (r.None? ==> faults > old(faults))
      ensures r.Some? ==> forall x :: x in r.value <==> x.arn in rules && rules[x.arn] == x
    {
      if * { faults := faults + 1; return None; }
      var listed: seq<SdkRule> := [];
      var todo := rules.Keys;
      while todo != {}
        invariant todo <= rules.Keys
        invariant forall x :: x in listed <==> x.arn in rules && rules[x.arn] == x && x.arn !in todo
        modifies {}
        decreases todo
      {
        var a := Pick(todo);
        listed := listed + [rules[a]];
        todo := todo - {a};
      }
      return Some(listed);
    }

    method DeleteRule(arn: string) returns (ok: bool)
      requires Valid()
      modifies this
      ensures Valid()
      ensures rules == if ok then old(rules) - {arn} else old(rules)
      ensures faults >= old(faults) && (!ok ==> faults > old(faults))
    {
      if * { faults := faults + 1; return false; }
      rules := rules - {arn};
      ok := true;
    }

    method CreateRule(freshArn: string, spec: ListenerRule) returns (ok: bool)
      requires Valid() && !UsesPriority(rules, spec.priority) && freshArn !in rules
      modifies this
      ensures Valid()
      ensures rules == if ok
        then old(rules)[freshArn := SdkRule(freshArn, spec.priority, false, spec.rule.conditions, spec.rule.actions)]
        else old(rules)
      ensures faults >= old(faults) && (!ok ==> faults > old(faults))
    {
      if * { faults := faults + 1; return false; }
      rules := rules[freshArn := SdkRule(freshArn, spec.priority, false, spec.rule.conditions, spec.rule.actions)];
      ok := true;
    }

    method ModifyRule(arn: string, rule: Rule) returns (ok: bool)
      requires Valid() && arn in rules
      modifies this
      ensures Valid()
      ensures rules == if ok
        then old(rules)[arn := old(rules)[arn].(conditions := rule.conditions, actions := rule.actions)]
        else old(rules)
      ensures faults >= old(faults) && (!ok ==> faults > old(faults))
    {
      if * { faults := faults + 1; return false; }
      rules := rules[arn := rules[arn].(conditions := rule.conditions, actions := rule.actions)];
      ok := true;
    }

    lemma OneRulePerPriority()
      requires Valid()
      ensures UniquePriorities(rules)
    {
    }

    /** The service names a new rule. */
    method NewArn() returns (arn: string)
      ensures arn !in rules
    {
      arn := FreshName("rule", rules.Keys);
    }
  }

  // ---------------------------------------------------------------- matching by priority

  method MapResByPriority(res: seq<ListenerRule>) returns (m: map<int, ListenerRule>)
    ensures m == ByPriority(res)
  {
    m := map[];
    for i := 0 to |res|
      invariant m == ByPriority(res[..i])
    {
      ByPrioritySnoc(res[..i], res[i]);
      assert res[..i + 1] == res[..i] + [res[i]];
      m := m[res[i].priority := res[i]];
    }
    assert res[..|res|] == res;
  }

  lemma ByPrioritySnoc(res: seq<ListenerRule>, last: ListenerRule)
    ensures ByPriority(res + [last]) == ByPriority(res)[last.priority := last]
  {
    assert (res + [last])[..|res|] == res;
  }

  function ByPriority(res: seq<ListenerRule>): map<int, ListenerRule> {
    if res == [] then map[]
    else ByPriority(res[..|res| - 1])[res[|res| - 1].priority := res[|res| - 1]]
  }

  lemma {:induction false} ByPriorityKeys(res: seq<ListenerRule>)
    ensures forall p <- ByPriority(res) :: ByPriority(res)[p].priority == p
  {
    if res != [] { ByPriorityKeys(res[..|res| - 1]); }
  }

  /** The non-default rules of a listing, by priority. */
  method MapSdkByPriority(sdk: seq<SdkRule>) returns (m: map<int, SdkRule>)
    ensures forall p <- m :: m[p] in sdk && !m[p].isDefault && m[p].priority == p
    ensures forall x <- sdk :: !x.isDefault ==> x.priority in m
  {
    m := map[];
    for i := 0 to |sdk|
      invariant forall p <- m :: m[p] in sdk && !m[p].isDefault && m[p].priority == p
      invariant forall k :: 0 <= k < i && !sdk[k].isDefault ==> sdk[k].priority in m
    {
      if !sdk[i].isDefault { m := m[sdk[i].priority := sdk[i]]; }
    }
  }

  // ---------------------------------------------------------------- drift

  datatype Field = HostField | PathField | OtherKind(field: OtherField)

  function FieldOf(c: Condition): Field {
    match c
    case HostHeader(_) => HostField
    case PathPattern(_) => PathField
    case Other(field, _) => OtherKind(field)
  }

  const FIELDS: set<Field> := {
    HostField, PathField, OtherKind(HttpHeader), OtherKind(HttpRequestMethod), OtherKind(QueryString),
      OtherKind(SourceIp)
  }

  function OfField(cs: seq<Condition>, f: Field): seq<Condition> {
    if cs == [] then []
    else
      var n := |cs| - 1;
      if FieldOf(cs[n]) == f then OfField(cs[..n], f) + [cs[n]] else OfField(cs[..n], f)
  }

  lemma {:induction false} OfFieldMembers(cs: seq<Condition>, c: Condition)
    ensures c in OfField(cs, FieldOf(c)) <==> c in cs
  {
    if cs != [] {
      var n := |cs| - 1;
      assert cs == cs[..n] + [cs[n]];
      OfFieldMembers(cs[..n], c);
    }
  }

  /** Conditions are compared sorted by field, so the order of different fields does not count. */
  predicate SameConditions(a: seq<Condition>,
      b: seq<Condition>) { forall f <- FIELDS :: OfField(a, f) == OfField(b, f) }

  lemma SameConditionsMatch(sem: OtherSemantics, a: seq<Condition>, b: seq<Condition>, req: Request)
    requires SameConditions(a, b)
    ensures ConditionsMatch(sem, a, req) <==> ConditionsMatch(sem, b, req)
  {
    forall c ensures c in a <==> c in b {
      assert c.Other? ==>
        c.field == HttpHeader || c.field == HttpRequestMethod || c.field == QueryString || c.field == SourceIp;
      assert FieldOf(c) in FIELDS;
      OfFieldMembers(a, c);
      OfFieldMembers(b, c);
    }
  }

  function Normal(field: Option<string>, placeholder: string): Option<string> {
    if field.None? then Some(placeholder) else field
  }

  /** An absent redirect field stands for its placeholder, and the weight of a lone target group is ignored. */
  function NormalAction(a: Action): Action {
    match a
    case Redirect(Some(c)) =>
      Redirect(Some(RedirectConfig(Normal(c.host, "#{host}"), Normal(c.path, "/#{path}"), Normal(c.port, "#{port}"),
                                   Normal(c.protocol, "#{protocol}"), Normal(c.query, "#{query}"), c.statusCode)))
    case Forward(groups, stickiness) =>
      Forward(if |groups| == 1 then [groups[0].(weight := None)] else groups, stickiness)
    case _ => a
  }

  /** The comparison with what is desired; stickiness counts only if it is desired. */
  predicate SameAction(want: Action, have: Action) {
    var w, h := NormalAction(want), NormalAction(have);
    if w.Forward? && w.stickiness.None? && h.Forward? then w.groups == h.groups else w == h
  }

  predicate SameActions(want: seq<Action>, have: seq<Action>) {
    |want| == |have| && forall i :: 0 <= i < |want| ==> SameAction(want[i], have[i])
  }

  // ---------------------------------------------------------------- what the comparison means

  /** The same target groups with the same weights, where a lone group's weight decides nothing. */
  ghost predicate SameShares(want: seq<WeightedGroup>, have: seq<WeightedGroup>) {
    && |have| == |want|
    && (forall i :: 0 <= i < |want| ==> have[i].arn == want[i].arn)
    && (|want| >= 2 ==> forall i :: 0 <= i < |want| ==> have[i].weight == want[i].weight)
  }

  /** The fields agree, where being absent and being the request's own component are one. */
  ghost predicate SameField(want: Option<string>, have: Option<string>, own: string) {
    || have == want
    || (want.None? && have == Some(own))
    || (want == Some(own) && have.None?)
  }

  ghost predicate SameRedirect(want: RedirectConfig, have: RedirectConfig) {
    && SameField(want.host, have.host, "#{host}")
    && SameField(want.path, have.path, "/#{path}")
    && SameField(want.port, have.port, "#{port}")
    && SameField(want.protocol, have.protocol, "#{protocol}")
    && SameField(want.query, have.query, "#{query}")
    && have.statusCode == want.statusCode
  }

  /** The action that a listener has does what is wanted. */
  ghost predicate Fulfils(want: Action, have: Action) {
    match want
    case Forward(groups, stickiness) =>
      have.Forward? && SameShares(groups, have.groups) && (stickiness.Some? ==> have.stickiness == stickiness)
    case Redirect(Some(config)) => have.Redirect? && have.config.Some? && SameRedirect(config, have.config.value)
    case _ => have == want
  }

  ghost predicate AllFulfilled(want: seq<Action>, have: seq<Action>) {
    |have| == |want| && forall i :: 0 <= i < |want| ==> Fulfils(want[i], have[i])
  }

  /** The drift test passes exactly when what is wanted is done. */
  lemma SameActionIff(want: Action, have: Action)
    ensures SameAction(want, have) <==> Fulfils(want, have)
  {
    if want.Forward? && have.Forward? {
      var w, h := NormalAction(want), NormalAction(have);
      if SameShares(want.groups, have.groups) { assert w.groups == h.groups; }
    }
  }

  lemma SameActionsIff(want: seq<Action>, have: seq<Action>)
    ensures SameActions(want, have) <==> AllFulfilled(want, have)
  {
    hide SameAction, Fulfils;
    forall i | 0 <= i < |want| && i < |have| ensures SameAction(want[i], have[i]) <==> Fulfils(want[i], have[i]) {
      SameActionIff(want[i], have[i]);
    }
  }

  // ---------------------------------------------------------------- synthesis

  ghost predicate Correct(r: SdkRule, want: map<int, ListenerRule>) {
    && r.priority in want
    && SameConditions(r.conditions, want[r.priority].rule.conditions)
    && AllFulfilled(want[r.priority].rule.actions, r.actions)
  }

  /** The listener's non-default rules are exactly the wanted ones. */
  ghost predicate InSync(rules: map<string, SdkRule>, want: map<int, ListenerRule>) {
    && (forall a <- rules :: !rules[a].isDefault ==> Correct(rules[a], want))
    && (forall p <- want :: UsesPriority(rules, p))
  }

  ghost predicate SameDefaults(before: map<string, SdkRule>, after: map<string, SdkRule>) {
    && (forall a <- before :: before[a].isDefault ==> a in after && after[a] == before[a])
    && (forall a <- after :: after[a].isDefault ==> a in before && before[a] == after[a])
  }

  /** The default rule and every rule that is as wanted are left alone. */
  ghost predicate Undisturbed(before: map<string, SdkRule>, after: map<string, SdkRule>,
      want: map<int, ListenerRule>) {
    && SameDefaults(before, after)
    && forall a <- before :: !before[a].isDefault && Correct(before[a], want) ==> a in after && after[a] == before[a]
  }

  lemma UndisturbedReflexive(rules: map<string, SdkRule>, want: map<int, ListenerRule>)
    ensures Undisturbed(rules, rules, want)
  {
  }

  lemma UndisturbedTransitive(a: map<string, SdkRule>, b: map<string, SdkRule>, c: map<string, SdkRule>,
      want: map<int, ListenerRule>)
    requires Undisturbed(a, b, want) && Undisturbed(b, c, want)
    ensures Undisturbed(a, c, want)
  {
  }

  /** A listener that is in sync already is not changed. */
  lemma InSyncStays(before: map<string, SdkRule>, after: map<string, SdkRule>, want: map<int, ListenerRule>)
    requires InSync(before, want) && InSync(after, want) && UniquePriorities(after) && Undisturbed(before, after, want)
    ensures after == before
  {
    forall a | a in after && !after[a].isDefault ensures a in before {
      assert Correct(after[a], want);
      assert UsesPriority(before, after[a].priority);
      var b :| b in before && !before[b].isDefault && before[b].priority == after[a].priority;
      assert after[b] == before[b];
    }
  }

  ghost predicate ListedByPriority(sdk: map<int, SdkRule>) {
    && (forall p <- sdk :: sdk[p].priority == p && !sdk[p].isDefault)
    && (forall p <- sdk, q <- sdk :: sdk[p].arn == sdk[q].arn ==> p == q)
  }

  /** The listed rules with a priority in `left` are there as listed, and no other non-default ones. */
  ghost predicate Left(rules: map<string, SdkRule>, sdk: map<int, SdkRule>, left: set<int>) {
    && (forall p <- left :: p in sdk && sdk[p].arn in rules && rules[sdk[p].arn] == sdk[p])
    && (forall a <- rules :: !rules[a].isDefault ==> rules[a].priority in left)
  }

  lemma DeleteStep(rules: map<string, SdkRule>, want: map<int, ListenerRule>, sdk: map<int, SdkRule>,
      left: set<int>, p: int)
    requires ListedByPriority(sdk) && UniquePriorities(rules) && Left(rules, sdk, left) && p in left && p !in want
    ensures var after := rules - {sdk[p].arn}; Left(after, sdk, left - {p}) && Undisturbed(rules, after, want)
  {
    var after := rules - {sdk[p].arn};
    assert rules[sdk[p].arn] == sdk[p];
    forall a | a in after && !after[a].isDefault ensures after[a].priority in left - {p} {
      assert rules[a].priority != rules[sdk[p].arn].priority;
    }
  }

  method DeleteUnmatched(api: ListenerApi, ghost want: map<int, ListenerRule>, sdk: map<int, SdkRule>,
      priorities: set<int>) returns (ok: bool)
    requires priorities !! want.Keys
    requires api.Valid() && priorities <= sdk.Keys && ListedByPriority(sdk) && Left(api.rules, sdk, sdk.Keys)
    modifies api
    ensures api.Valid() && Undisturbed(old(api.rules), api.rules, want)
    ensures api.faults >= old(api.faults) && (!ok ==> api.faults > old(api.faults))
    ensures ok ==> Left(api.rules, sdk, sdk.Keys - priorities)
  {
    var todo := priorities;
    ghost var left := sdk.Keys;
    while todo != {}
      invariant todo <= priorities && left == sdk.Keys - (priorities - todo) && api.faults >= old(api.faults)
      invariant api.Valid() && Undisturbed(old(api.rules), api.rules, want) && Left(api.rules, sdk, left)
      decreases todo
    {
      var p := Pick(todo);
      DeleteStep(api.rules, want, sdk, left, p);
      UndisturbedTransitive(old(api.rules), api.rules, api.rules - {sdk[p].arn}, want);
      ok := api.DeleteRule(sdk[p].arn);
      if !ok { return; }
      todo, left := todo - {p}, left - {p};
    }
    ok := true;
  }

  /** Beside the kept rules there are exactly the ones created so far, as wanted. */
  ghost predicate Creating(rules: map<string, SdkRule>, want: map<int, ListenerRule>, kept: map<int, SdkRule>,
      done: set<int>) {
    && (forall p <- kept :: kept[p].arn in rules && rules[kept[p].arn] == kept[p])
    && (forall p <- done :: UsesPriority(rules, p))
    && (forall a <- rules :: !rules[a].isDefault ==>
      rules[a].priority in kept || (rules[a].priority in done && Correct(rules[a], want)))
  }

  lemma CreateStep(rules: map<string, SdkRule>, want: map<int, ListenerRule>, kept: map<int, SdkRule>, done: set<int>,
      arn: string, p: int)
    requires Creating(rules, want, kept, done) && arn !in rules && p in want && want[p].priority == p && p !in kept
      && p !in done
    ensures !UsesPriority(rules, p)
    ensures var after := rules[arn := SdkRule(arn, p, false, want[p].rule.conditions, want[p].rule.actions)];
      Creating(after, want, kept, done + {p}) && Undisturbed(rules, after, want)
  {
    var after := rules[arn := SdkRule(arn, p, false, want[p].rule.conditions, want[p].rule.actions)];
    forall q | q in done ensures UsesPriority(after, q) {
      var a :| a in rules && !rules[a].isDefault && rules[a].priority == q;
      assert a in after && after[a] == rules[a];
    }
    assert arn in after && after[arn].priority == p;
  }

  method CreateUnmatched(api: ListenerApi, want: map<int, ListenerRule>, kept: map<int, SdkRule>,
      priorities: set<int>) returns (ok: bool)
    requires api.Valid() && priorities <= want.Keys && kept.Keys !! priorities
    requires forall p <- want :: want[p].priority == p
    requires Creating(api.rules, want, kept, {})
    modifies api
    ensures api.Valid() && Undisturbed(old(api.rules), api.rules, want)
    ensures api.faults >= old(api.faults) && (!ok ==> api.faults > old(api.faults))
    ensures ok ==> Creating(api.rules, want, kept, priorities)
  {
    var todo := priorities;
    ghost var done: set<int> := {};
    while todo != {}
      invariant todo <= priorities && done == priorities - todo && api.faults >= old(api.faults)
      invariant api.Valid() && Undisturbed(old(api.rules), api.rules, want) && Creating(api.rules, want, kept, done)
      decreases todo
    {
      var p := Pick(todo);
      var arn := api.NewArn();
      CreateStep(api.rules, want, kept, done, arn, p);
      UndisturbedTransitive(old(api.rules), api.rules,
        api.rules[arn := SdkRule(arn, p, false, want[p].rule.conditions, want[p].rule.actions)], want);
      ok := api.CreateRule(arn, want[p]);
      if !ok { return; }
      todo, done := todo - {p}, done + {p};
    }
    ok := true;
  }

  lemma AllDeleted(rules: map<string, SdkRule>, want: map<int, ListenerRule>, sdk: map<int, SdkRule>,
      kept: map<int, SdkRule>)
    requires ListedByPriority(sdk) && Left(rules, sdk, sdk.Keys - (sdk.Keys - want.Keys))
    requires kept == map p | p in sdk.Keys * want.Keys :: sdk[p]
    ensures Creating(rules, want, kept, {}) && ListedByPriority(kept)
  {
    assert kept.Keys == sdk.Keys - (sdk.Keys - want.Keys);
  }

  lemma AllCreated(rules: map<string, SdkRule>, want: map<int, ListenerRule>, kept: map<int, SdkRule>)
    requires Creating(rules, want, kept, want.Keys - kept.Keys) && ListedByPriority(kept)
    ensures Updating(rules, want, kept, kept.Keys)
  {
    forall p | p in want ensures UsesPriority(rules, p) {
      if p in kept { assert rules[kept[p].arn].priority == p; }
    }
  }

  /** Every wanted priority is in use; rules are as wanted, or as listed if still to be updated. */
  ghost predicate Updating(rules: map<string, SdkRule>, want: map<int, ListenerRule>, kept: map<int, SdkRule>,
      todo: set<int>) {
    && (forall p <- todo :: p in kept && kept[p].arn in rules && rules[kept[p].arn] == kept[p])
    && (forall a <- rules :: !rules[a].isDefault ==> rules[a].priority in todo || Correct(rules[a], want))
    && (forall p <- want :: UsesPriority(rules, p))
  }

  lemma UpdateStep(rules: map<string, SdkRule>, want: map<int, ListenerRule>, kept: map<int, SdkRule>, todo: set<int>,
      p: int,
                   updated: SdkRule)
    requires UniquePriorities(rules) && ListedByPriority(kept) && Updating(rules, want, kept, todo) && p in todo
      && p in want
    requires updated == kept[p].(conditions := updated.conditions, actions := updated.actions)
    requires Correct(kept[p], want) ==> updated == kept[p]
    requires SameConditions(updated.conditions, want[p].rule.conditions)
      && AllFulfilled(want[p].rule.actions, updated.actions)
    ensures var after := rules[kept[p].arn := updated];
      Updating(after, want, kept, todo - {p}) && Undisturbed(rules, after, want)
  {
    var arn := kept[p].arn;
    var after := rules[arn := updated];
    assert rules[arn] == kept[p] && Correct(after[arn], want);
    forall q | q in want ensures UsesPriority(after, q) {
      var a :| a in rules && !rules[a].isDefault && rules[a].priority == q;
      assert a in after && !after[a].isDefault && after[a].priority == q;
    }
    forall a | a in after && !after[a].isDefault && a != arn
      ensures after[a].priority in todo - {p} || Correct(after[a], want) {
      assert rules[a].priority != rules[arn].priority;
    }
  }

  lemma AllUpdated(rules: map<string, SdkRule>, want: map<int, ListenerRule>, kept: map<int, SdkRule>)
    requires Updating(rules, want, kept, {})
    ensures InSync(rules, want)
  {
  }

  lemma DriftStep(rules: map<string, SdkRule>, want: map<int, ListenerRule>, kept: map<int, SdkRule>, todo: set<int>,
      p: int, drifted: bool)
    requires UniquePriorities(rules) && ListedByPriority(kept) && Updating(rules, want, kept, todo) && p in todo
      && p in want
    requires !drifted <==> (SameActions(want[p].rule.actions, kept[p].actions)
      && SameConditions(want[p].rule.conditions, kept[p].conditions))
    ensures kept[p].arn in rules && rules[kept[p].arn] == kept[p]
    ensures var rule := want[p].rule;
      var updated := if drifted then kept[p].(conditions := rule.conditions, actions := rule.actions) else kept[p];
      var after := rules[kept[p].arn := updated];
      Updating(after, want, kept, todo - {p}) && Undisturbed(rules, after, want)
  {
    var rule := want[p].rule;
    SameActionsIff(rule.actions, kept[p].actions);
    SameActionsIff(rule.actions, rule.actions);
    UpdateStep(rules, want, kept, todo, p,
      if drifted then kept[p].(conditions := rule.conditions, actions := rule.actions) else kept[p]);
  }

  /** Rules that have not drifted are left alone. */
  method UpdateMatched(api: ListenerApi, want: map<int, ListenerRule>, kept: map<int, SdkRule>) returns (ok: bool)
    requires api.Valid() && kept.Keys <= want.Keys && ListedByPriority(kept)
      && Updating(api.rules, want, kept, kept.Keys)
    modifies api
    ensures api.Valid() && Undisturbed(old(api.rules), api.rules, want)
    ensures api.faults >= old(api.faults) && (!ok ==> api.faults > old(api.faults))
    ensures ok ==> InSync(api.rules, want)
  {
    hide *;
    UndisturbedReflexive(api.rules, want);
    var todo := kept.Keys;
    while todo != {}
      invariant todo <= kept.Keys && api.Valid() && Undisturbed(old(api.rules), api.rules, want)
      invariant Updating(api.rules, want, kept, todo) && api.faults >= old(api.faults)
      decreases todo
    {
      var p := Pick(todo);
      var arn, rule := kept[p].arn, want[p].rule;
      var drifted := !SameActions(rule.actions, kept[p].actions)
        || !SameConditions(rule.conditions, kept[p].conditions);
      var updated := if drifted then kept[p].(conditions := rule.conditions, actions := rule.actions) else kept[p];
      ghost var after := api.rules[arn := updated];
      api.OneRulePerPriority();
      DriftStep(api.rules, want, kept, todo, p, drifted);
      UndisturbedTransitive(old(api.rules), api.rules, after, want);
      if drifted {
        ok := api.ModifyRule(arn, rule);
        if !ok { return; }
      }
      assert api.rules == after;
      todo := todo - {p};
    }
    AllUpdated(api.rules, want, kept);
    ok := true;
  }

  /**
   * Delete, create, update, in that order. Whatever rules with unique priorities the
   * listener starts with, no two rules ever share a priority (the API's Valid after every
   * call), the default rule and rules that are as wanted are left alone, an error-free pass ends in
   * sync and changes nothing if the listener was, and without a failed call the pass is error-free.
   */
  method SynthesizeListenerRulesOnListener(api: ListenerApi, res: seq<ListenerRule>) returns (ok: bool)
    requires api.Valid()
    modifies api
    ensures api.Valid() && Undisturbed(old(api.rules), api.rules, ByPriority(res))
    ensures api.faults >= old(api.faults) && (!ok ==> api.faults > old(api.faults))
    ensures ok ==> InSync(api.rules, ByPriority(res))
    ensures ok && InSync(old(api.rules), ByPriority(res)) ==> api.rules == old(api.rules)
  {
    hide InSync, Left, Creating, Updating, SameDefaults, Undisturbed, ByPriority, UniquePriorities, ListedByPriority;
    var listed := api.ListListenerRules();
    if listed.None? {
      UndisturbedReflexive(api.rules, ByPriority(res));
      return false;
    }
    var want := MapResByPriority(res);
    ByPriorityKeys(res);
    var sdk := MapSdkByPriority(listed.value);
    ListingIsLeft(api.rules, listed.value, sdk);
    ok := DeleteUnmatched(api, want, sdk, sdk.Keys - want.Keys);
    if !ok { return; }
    var kept := map p | p in sdk.Keys * want.Keys :: sdk[p];
    AllDeleted(api.rules, want, sdk, kept);
    ghost var before := api.rules;
    ok := CreateUnmatched(api, want, kept, want.Keys - sdk.Keys);
    UndisturbedTransitive(old(api.rules), before, api.rules, want);
    if !ok { return; }
    assert want.Keys - kept.Keys == want.Keys - sdk.Keys;
    AllCreated(api.rules, want, kept);
    before := api.rules;
    ok := UpdateMatched(api, want, kept);
    UndisturbedTransitive(old(api.rules), before, api.rules, want);
    if ok && InSync(old(api.rules), want) {
      api.OneRulePerPriority();
      InSyncStays(old(api.rules), api.rules, want);
    }
  }

  lemma ListingIsLeft(rules: map<string, SdkRule>, listed: seq<SdkRule>, sdk: map<int, SdkRule>)
    requires forall x :: x in listed <==> x.arn in rules && rules[x.arn] == x
    requires forall a <- rules :: rules[a].arn == a
    requires forall p <- sdk :: sdk[p] in listed && !sdk[p].isDefault && sdk[p].priority == p
    requires forall x <- listed :: !x.isDefault ==> x.priority in sdk
    ensures ListedByPriority(sdk) && Left(rules, sdk, sdk.Keys)
  {
    forall a | a in rules && !rules[a].isDefault ensures rules[a].priority in sdk { assert rules[a] in listed; }
  }

  // ---------------------------------------------------------------- evaluation by priority

  /** The listener hands the request to the matching rule of lowest priority. */
  ghost predicate Handles(sem: OtherSemantics, rules: map<string, SdkRule>, req: Request, a: string) {
    && a in rules && !rules[a].isDefault
    && ConditionsMatch(sem, rules[a].conditions, req)
    && forall b <- rules :: !rules[b].isDefault && ConditionsMatch(sem, rules[b].conditions, req) ==>
      rules[a].priority <= rules[b].priority
  }

  lemma {:induction false} NumberedByPriority(lrs: seq<ListenerRule>, rules: seq<Rule>)
    requires Numbered(lrs, rules)
    ensures forall p :: p in ByPriority(lrs) <==> 1 <= p <= |rules|
    ensures forall p :: 1 <= p <= |rules| ==> ByPriority(lrs)[p] == lrs[p - 1]
  {
    if lrs != [] {
      var n := |lrs| - 1;
      assert Numbered(lrs[..n], rules[..n]);
      NumberedByPriority(lrs[..n], rules[..n]);
      assert lrs == lrs[..n] + [lrs[n]] && lrs[n].priority == n + 1;
      ByPrioritySnoc(lrs[..n], lrs[n]);
      assert forall p :: 1 <= p <= n ==> ByPriority(lrs)[p] == lrs[..n][p - 1];
    }
  }

  lemma SyncedMatch(sem: OtherSemantics, rules: map<string, SdkRule>, lrs: seq<ListenerRule>, list: seq<Rule>,
      req: Request, a: string)
    requires Numbered(lrs, list) && InSync(rules, ByPriority(lrs))
    requires a in rules && !rules[a].isDefault
    ensures 1 <= rules[a].priority <= |list|
    ensures SameConditions(rules[a].conditions, list[rules[a].priority - 1].conditions)
    ensures AllFulfilled(list[rules[a].priority - 1].actions, rules[a].actions)
    ensures ConditionsMatch(sem, rules[a].conditions, req) <==>
      ConditionsMatch(sem, list[rules[a].priority - 1].conditions, req)
  {
    NumberedByPriority(lrs, list);
    assert Correct(rules[a], ByPriority(lrs));
    SameConditionsMatch(sem, rules[a].conditions, list[rules[a].priority - 1].conditions, req);
  }

  lemma RuleAtPriority(rules: map<string, SdkRule>, lrs: seq<ListenerRule>, list: seq<Rule>, i: nat) returns (a: string)
    requires Numbered(lrs, list) && InSync(rules, ByPriority(lrs)) && i < |list|
    ensures a in rules && !rules[a].isDefault && rules[a].priority == i + 1
  {
    NumberedByPriority(lrs, list);
    assert UsesPriority(rules, i + 1);
    a :| a in rules && !rules[a].isDefault && rules[a].priority == i + 1;
  }

  /** Lowest-priority-first evaluation of a synchronised listener is first-match on the list. */
  lemma PriorityIsFirstMatch(sem: OtherSemantics, rules: map<string, SdkRule>, lrs: seq<ListenerRule>,
      list: seq<Rule>, req: Request, a: string)
    requires Numbered(lrs, list) && InSync(rules, ByPriority(lrs)) && UniquePriorities(rules)
    ensures Handles(sem, rules, req, a) <==>
      && a in rules && !rules[a].isDefault
      && FirstMatch(sem, list, req) == Some(rules[a].priority - 1)
  {
    if Handles(sem, rules, req, a) { HandlerIsFirst(sem, rules, lrs, list, req, a); }
    if a in rules && !rules[a].isDefault && FirstMatch(sem, list, req) == Some(rules[a].priority - 1) {
      FirstIsHandler(sem, rules, lrs, list, req, a);
    }
  }

  lemma HandlerIsFirst(sem: OtherSemantics, rules: map<string, SdkRule>, lrs: seq<ListenerRule>, list: seq<Rule>,
      req: Request, a: string)
    requires Numbered(lrs, list) && InSync(rules, ByPriority(lrs)) && Handles(sem, rules, req, a)
    ensures FirstMatch(sem, list, req) == Some(rules[a].priority - 1)
  {
    var first := FirstMatch(sem, list, req);
    SyncedMatch(sem, rules, lrs, list, req, a);
    assert first.Some? && first.value <= rules[a].priority - 1;
    var w := RuleAtPriority(rules, lrs, list, first.value);
    SyncedMatch(sem, rules, lrs, list, req, w);
  }

  lemma FirstIsHandler(sem: OtherSemantics, rules: map<string, SdkRule>, lrs: seq<ListenerRule>, list: seq<Rule>,
      req: Request, a: string)
    requires Numbered(lrs, list) && InSync(rules, ByPriority(lrs))
    requires a in rules && !rules[a].isDefault && FirstMatch(sem, list, req) == Some(rules[a].priority - 1)
    ensures Handles(sem, rules, req, a)
  {
    SyncedMatch(sem, rules, lrs, list, req, a);
    forall b | b in rules && !rules[b].isDefault && ConditionsMatch(sem, rules[b].conditions, req)
      ensures rules[a].priority <= rules[b].priority
    {
      SyncedMatch(sem, rules, lrs, list, req, b);
    }
  }

  /**
   * End to end: after an error-free synthesis of the optimized list, a request is handled
   * by a rule whose conditions are those of the rule that the unoptimized list (without its
   * infinite redirects) picks and whose actions do what that rule's are to do, and by none exactly
   * when that list picks none.
   */
  lemma EndToEndRouting(
    sem: OtherSemantics, port: int, protocol: string, built: seq<Rule>,
    lrs: seq<ListenerRule>, rules: map<string, SdkRule>, req: Request, a: string)
    requires forall r <- built :: WellShaped(r.conditions)
    requires Numbered(lrs, Visible(Finite(port, protocol, built)))
    requires InSync(rules, ByPriority(lrs)) && UniquePriorities(rules)
    requires PathPatterns.OriginForm(req.path)
    ensures Handles(sem, rules, req, a) ==>
      var picked := Routed(sem, Finite(port, protocol, built), req);
      && picked.Some? && SameConditions(rules[a].conditions, picked.value.conditions)
      && AllFulfilled(picked.value.actions, rules[a].actions)
    ensures Routed(sem, Finite(port, protocol, built), req).Some? <==> exists b :: Handles(sem, rules, req, b)
  {
    var finite := Finite(port, protocol, built);
    FiniteAllFinite(port, protocol, built);
    OvershadowingPreservesRouting(sem, finite, req);
    HandledAsListed(sem, rules, lrs, Visible(finite), req, a);
  }

  lemma HandledAsListed(sem: OtherSemantics, rules: map<string, SdkRule>, lrs: seq<ListenerRule>, list: seq<Rule>,
      req: Request, a: string)
    requires Numbered(lrs, list) && InSync(rules, ByPriority(lrs)) && UniquePriorities(rules)
    ensures Handles(sem, rules, req, a) ==>
      var picked := Routed(sem, list, req);
      && picked.Some? && SameConditions(rules[a].conditions, picked.value.conditions)
      && AllFulfilled(picked.value.actions, rules[a].actions)
    ensures Routed(sem, list, req).Some? <==> exists b :: Handles(sem, rules, req, b)
  {
    if Handles(sem, rules, req, a) {
      HandlerIsFirst(sem, rules, lrs, list, req, a);
      SyncedMatch(sem, rules, lrs, list, req, a);
    }
    if b :| Handles(sem, rules, req, b) { HandlerIsFirst(sem, rules, lrs, list, req, b); }
    SomeoneHandles(sem, rules, lrs, list, req);
  }

  lemma SomeoneHandles(sem: OtherSemantics, rules: map<string, SdkRule>, lrs: seq<ListenerRule>, list: seq<Rule>,
      req: Request)
    requires Numbered(lrs, list) && InSync(rules, ByPriority(lrs))
    ensures Routed(sem, list, req).Some? ==> exists b :: Handles(sem, rules, req, b)
  {
    var first := FirstMatch(sem, list, req);
    if first.Some? {
      var w := RuleAtPriority(rules, lrs, list, first.value);
      FirstIsHandler(sem, rules, lrs, list, req, w);
    }
  }
}
