/** All runs of the shared-security-group protocol. */
module NetworkingRuns {
  import opened Text
  import opened Permissions
  import opened SecurityGroups
  import opened NetworkingManagers

  // Reconciles of any bindings start with any listing of the bindings (the client that lists
  // them reads a cache), send calls one by one and stop anywhere, the controller restarts, and
  // other actors change security groups, in any order. Snapshots do not appear: what a reconcile
  // may send does not depend on how stale they are.

  datatype Inflight = Inflight(plan: Plan, listed: set<Key>)

  datatype State = State(entries: Entries, inflight: Option<Inflight>, groups: map<string, Rules>)

  datatype Step =
    | Begin(tgb: Key, perGroup: PerGroup, listing: Option<set<Key>>)
    | Issue(call: Call)
    | Finish
    | Restart
    | External(groups: map<string, Rules>)

  ghost predicate Next(s: State, step: Step, t: State) {
    match step
    case Begin(tgb, perGroup, None) =>
      s.inflight.None? && t == s.(entries := s.entries[tgb := perGroup])
    case Begin(tgb, perGroup, Some(listed)) =>
      var plan := PlanFor(s.entries[tgb := perGroup], listed);
      s.inflight.None? && t == s.(entries := plan.entries, inflight := Some(Inflight(plan, listed)))
    case Issue(call) =>
      && s.inflight.Some? && Allowed(s.inflight.value.plan, call)
      && t == s.(groups := Apply(s.groups, call))
    case Finish => t == s.(inflight := None)
    case Restart => t == s.(entries := map[], inflight := None)
    case External(groups) => t == s.(groups := groups)
  }

  ghost predicate Run(states: seq<State>, steps: seq<Step>) {
    |states| == |steps| + 1 && forall i :: 0 <= i < |steps| ==> Next(states[i], steps[i], states[i + 1])
  }

  ghost predicate Initial(s: State) { s.entries == map[] && s.inflight.None? }

  // ---------------------------------------------------------------- what the history says

  /** What each binding last asked for since the controller started. */
  function Latest(steps: seq<Step>): Entries {
    if steps == [] then map[]
    else
      NextLatest(Latest(steps[..|steps| - 1]), steps[|steps| - 1])
  }

  /** The bindings with networking that the reconcile in progress has listed. */
  function LastListed(steps: seq<Step>): set<Key> {
    if steps == [] then {}
    else
      NextListed(LastListed(steps[..|steps| - 1]), steps[|steps| - 1])
  }

  function NextListed(listed: set<Key>, step: Step): set<Key> {
    if step.Begin? && step.listing.Some? then step.listing.value else listed
  }

  ghost predicate Explained(s: State, latest: Entries, listed: set<Key>) {
    && (forall k <- s.entries :: k in latest && latest[k] == s.entries[k])
    && (s.inflight.Some? ==>
          && s.inflight.value.plan.entries == s.entries
          && s.inflight.value.listed == listed
          && (s.inflight.value.plan.complete ==> s.entries.Keys == listed))
  }

  function NextLatest(latest: Entries, step: Step): Entries {
    match step
    case Begin(tgb, perGroup, _) => latest[tgb := perGroup]
    case Restart => map[]
    case _ => latest
  }

  lemma RunPrefix(states: seq<State>, steps: seq<Step>, i: nat)
    ensures Run(states, steps) && i <= |steps| ==> Run(states[..i + 1], steps[..i])
  {
    if !Run(states, steps) || i > |steps| { return; }
    forall j | 0 <= j < i ensures Next(states[..i + 1][j], steps[..i][j], states[..i + 1][j + 1]) {
      assert Next(states[j], steps[j], states[j + 1]);
    }
  }

  lemma {:induction false} RunExplained(states: seq<State>, steps: seq<Step>)
    requires Run(states, steps) && Initial(states[0])
    ensures Explained(states[|steps|], Latest(steps), LastListed(steps))
  {
    if steps != [] {
      var n := |steps| - 1;
      RunPrefix(states, steps, n);
      RunExplained(states[..n + 1], steps[..n]);
    }
  }

  /**
   * Safety of revocation, over every run: whenever a revoke is sent, every binding with
   * networking that the reconcile listed has been reconciled since the controller started,
   * and no revoked permission shares a hash code with what any of them last asked for.
   */
  lemma RevokeIsSafe(
    states: seq<State>, steps: seq<Step>, i: nat, g: string, infos: seq<IPPermissionInfo>, accepted: bool)
    requires Run(states, steps) && Initial(states[0])
    requires i < |steps| && steps[i].Issue? && steps[i].call == Revoke(g, infos, accepted)
    ensures var latest, listed := Latest(steps[..i]), LastListed(steps[..i]);
      && (forall k <- listed :: k in latest)
      && (forall k, x, y :: k in listed && g in latest[k] && x in latest[k][g] && y in infos ==>
            HashCode(x.permission) != HashCode(y.permission))
  {
    RunPrefix(states, steps, i);
    RunExplained(states[..i + 1], steps[..i]);
    var s := states[i];
    assert Next(s, steps[i], states[i + 1]);
    var latest, listed := Latest(steps[..i]), LastListed(steps[..i]);
    assert s.entries.Keys == listed;
    forall k, x: IPPermissionInfo, y | k in listed && g in latest[k] && x in latest[k][g] && y in infos
      ensures HashCode(x.permission) != HashCode(y.permission)
    {
      assert k in s.entries && x in s.entries[k][g];
      assert HashCode(x.permission) in Needed(s.entries, g);
    }
  }

  // ---------------------------------------------------------------- needed rules survive

  predicate Asks(perGroup: PerGroup, g: string, h: string) {
    g in perGroup && h in Hashes(perGroup[g])
  }

  predicate HasRule(groups: map<string, Rules>, g: string, h: string) {
    g in groups && h in groups[g]
  }

  /** Binding t is listed, a reconcile of it asks for h on g, and others do not take h off g. */
  predicate KeepsAskingAt(step: Step, t: Key, g: string, h: string) {
    match step
    case Begin(tgb, perGroup, listing) =>
      (listing.Some? ==> t in listing.value) && (tgb == t ==> Asks(perGroup, g, h))
    case External(groups) => HasRule(groups, g, h)
    case _ => true
  }

  ghost predicate KeepsAsking(steps: seq<Step>, t: Key, g: string, h: string) {
    forall step <- steps :: KeepsAskingAt(step, t, g, h)
  }

  ghost predicate Protected(s: State, t: Key, g: string, h: string) {
    && (t in s.entries ==> Asks(s.entries[t], g, h))
    && (s.inflight.Some? ==>
          && s.inflight.value.plan.entries == s.entries
          && (s.inflight.value.plan.complete ==> t in s.entries))
  }

  lemma StepProtects(s: State, step: Step, s': State, t: Key, g: string, h: string)
    requires Next(s, step, s') && KeepsAskingAt(step, t, g, h)
    requires Protected(s, t, g, h) && HasRule(s.groups, g, h)
    ensures Protected(s', t, g, h) && HasRule(s'.groups, g, h)
  {
    if step.Issue? && step.call.Revoke? && step.call.groupId == g {
      var entries: Entries := s.entries;
      assert t in entries && Asks(entries[t], g, h);
      var x: IPPermissionInfo :| x in entries[t][g] && HashCode(x.permission) == h;
      assert h in Needed(entries, g);
      assert h !in Hashes(step.call.infos);
    }
  }

  /**
   * A rule that a binding keeps asking for survives every run: other bindings coming and
   * going, failed calls, stale snapshots, listings that fail, and any number of restarts.
   */
  lemma {:induction false} NeededRuleSurvives(states: seq<State>, steps: seq<Step>, t: Key, g: string, h: string)
    requires Run(states, steps) && KeepsAsking(steps, t, g, h)
    requires Protected(states[0], t, g, h) && HasRule(states[0].groups, g, h)
    ensures Protected(states[|steps|], t, g, h)
    ensures forall s <- states :: HasRule(s.groups, g, h)
  {
    if steps != [] {
      var n := |steps| - 1;
      RunPrefix(states, steps, n);
      assert forall s <- states[..n + 1] :: s in states;
      assert forall step <- steps[..n] :: step in steps;
      NeededRuleSurvives(states[..n + 1], steps[..n], t, g, h);
      assert states[..n + 1][n] == states[n] && states[n] in states && steps[n] in steps;
      assert states[n] in states[..n + 1];
      StepProtects(states[n], steps[n], states[n + 1], t, g, h);
      assert states == states[..n + 1] + [states[n + 1]];
    }
  }

  // ---------------------------------------------------------------- the code produces such runs

  function Issues(calls: seq<Call>): seq<Step> {
    seq(|calls|, i requires 0 <= i < |calls| => Issue(calls[i]))
  }

  lemma RunConcat(a: seq<State>, first: seq<Step>, b: seq<State>, second: seq<Step>)
    requires Run(a, first) && Run(b, second) && a[|first|] == b[0]
    ensures Run(a + b[1..], first + second)
    ensures (a + b[1..])[0] == a[0] && (a + b[1..])[|first| + |second|] == b[|second|]
  {
    var states, steps := a + b[1..], first + second;
    forall i | |first| <= i <= |steps| ensures states[i] == b[i - |first|] { }
    forall i | 0 <= i < |steps| ensures Next(states[i], steps[i], states[i + 1]) {
      if i < |first| {
        assert Next(a[i], first[i], a[i + 1]);
      } else {
        assert Next(b[i - |first|], second[i - |first|], b[i - |first| + 1]);
      }
    }
  }

  /** One step is a run. */
  lemma StepRun(s: State, step: Step, t: State)
    requires Next(s, step, t)
    ensures Run([s, t], [step])
  {
  }

  lemma {:induction false} IssuesRun(s: State, calls: seq<Call>) returns (states: seq<State>)
    requires s.inflight.Some?
    requires forall c <- calls :: Allowed(s.inflight.value.plan, c)
    ensures Run(states, Issues(calls)) && states[0] == s
    ensures states[|calls|] == s.(groups := Replay(s.groups, calls))
  {
    if calls == [] {
      states := [s];
    } else {
      var n := |calls| - 1;
      assert forall c <- calls[..n] :: c in calls;
      var earlier := IssuesRun(s, calls[..n]);
      var next := earlier[n].(groups := Apply(earlier[n].groups, calls[n]));
      assert calls[n] in calls;
      StepRun(earlier[n], Issue(calls[n]), next);
      RunConcat(earlier, Issues(calls[..n]), [earlier[n], next], [Issue(calls[n])]);
      states := earlier + [earlier[n], next][1..];
      assert Issues(calls) == Issues(calls[..n]) + [Issue(calls[n])];
    }
  }

  lemma {:induction false} ReplayConcat(groups: map<string, Rules>, a: seq<Call>, b: seq<Call>)
    ensures Replay(groups, a + b) == Replay(Replay(groups, a), b)
  {
    if b == [] {
      assert a + b == a;
    } else {
      var n := |b| - 1;
      ReplayConcat(groups, a, b[..n]);
      assert (a + b)[..|a| + n] == a + b[..n];
    }
  }

  lemma NewCallsAllowed(plan: Plan, before: seq<Call>, after: seq<Call>)
    requires AllAllowed(plan, before, after)
    ensures forall c <- after[|before|..] :: Allowed(plan, c)
  {
    var calls := after[|before|..];
    forall c | c in calls ensures Allowed(plan, c) {
      var i :| 0 <= i < |calls| && calls[i] == c;
      assert after[|before| + i] == c;
    }
  }

  function ReconcileSteps(tgb: Key, perGroup: PerGroup, listed: set<Key>, calls: seq<Call>): seq<Step> {
    [Begin(tgb, perGroup, Some(listed))] + (Issues(calls) + [Finish])
  }

  /**
   * A reconcile of the manager is a run that ends in EC2's real rules: its contract (AllAllowed
   * for the plan of its entries) is what the steps of a run demand, and EC2's own validity
   * says that its groups are the replay of its log.
   */
  lemma ReconcileIsRun(s: State, tgb: Key, perGroup: PerGroup, listed: set<Key>, initial: map<string, Rules>,
      before: seq<Call>, after: seq<Call>)
      returns (states: seq<State>)
    requires s.inflight.None? && s.groups == Replay(initial, before)
    requires AllAllowed(PlanFor(s.entries[tgb := perGroup], listed), before, after)
    ensures var steps := ReconcileSteps(tgb, perGroup, listed, after[|before|..]);
      && Run(states, steps) && states[0] == s
      && states[|steps|] ==
        State(PlanFor(s.entries[tgb := perGroup], listed).entries, None, Replay(initial, after))
  {
    var calls := after[|before|..];
    var plan := PlanFor(s.entries[tgb := perGroup], listed);
    var begun := s.(entries := plan.entries, inflight := Some(Inflight(plan, listed)));
    NewCallsAllowed(plan, before, after);
    var sent := IssuesRun(begun, calls);
    assert after == before + calls;
    ReplayConcat(initial, before, calls);
    var last := sent[|calls|];
    StepRun(last, Finish, last.(inflight := None));
    RunConcat(sent, Issues(calls), [last, last.(inflight := None)], [Finish]);
    var rest := sent + [last, last.(inflight := None)][1..];
    StepRun(s, Begin(tgb, perGroup, Some(listed)), begun);
    RunConcat([s, begun], [Begin(tgb, perGroup, Some(listed))], rest, Issues(calls) + [Finish]);
    states := [s, begun] + rest[1..];
  }
}
