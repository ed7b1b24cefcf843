/** The controller's worker over any history. */
module NetworkingHistories {
  import opened Text
  import opened Permissions
  import opened SecurityGroups
  import opened NetworkingManagers
  import opened NetworkingRuns

  // Reconciles of any bindings one after the other, cache entries that expire, changes by other
  // actors and restarts. Every history is a run of the step system, so what is proved over runs
  // holds of the code from start to end.

  datatype Event =
    | Reconcile(tgb: Key, perGroup: PerGroup, listed: Option<set<Key>>, tagged: set<string>)
    | Expiry(groupId: string)
    | ByOthers(after: map<string, Rules>)
    | NewProcess

  ghost predicate ValidEvent(e: Event) { e.ByOthers? ==> forall g <- e.after :: ValidRules(e.after[g]) }

  /** The step of a run that an event is; caches do not appear in runs. */
  function Trigger(e: Event): seq<Step> {
    match e
    case Reconcile(tgb, perGroup, listed, _) => [Begin(tgb, perGroup, listed)]
    case Expiry(_) => []
    case ByOthers(after) => [External(after)]
    case NewProcess => [Restart]
  }

  function Triggers(events: seq<Event>): seq<Step> {
    if events == [] then [] else Triggers(events[..|events| - 1]) + Trigger(events[|events| - 1])
  }

  function Own(step: Step): seq<Step> { if step.Issue? || step.Finish? then [] else [step] }

  /** The steps of a run that do not belong to a reconcile in progress. */
  function Begun(steps: seq<Step>): seq<Step> {
    if steps == [] then [] else Begun(steps[..|steps| - 1]) + Own(steps[|steps| - 1])
  }

  function SentBy(step: Step): seq<Call> {
    match step
    case Issue(call) => [call]
    case External(after) => [Foreign(after)]
    case _ => []
  }

  /** The calls of a run, foreign changes included. */
  function Sent(steps: seq<Step>): seq<Call> {
    if steps == [] then [] else Sent(steps[..|steps| - 1]) + SentBy(steps[|steps| - 1])
  }

  lemma BegunSnoc(steps: seq<Step>, last: Step)
    ensures Begun(steps + [last]) == Begun(steps) + Own(last)
  {
    assert (steps + [last])[..|steps|] == steps;
  }

  lemma SentSnoc(steps: seq<Step>, last: Step)
    ensures Sent(steps + [last]) == Sent(steps) + SentBy(last)
  {
    assert (steps + [last])[..|steps|] == steps;
  }

  lemma {:induction false} BegunConcat(a: seq<Step>, b: seq<Step>)
    ensures Begun(a + b) == Begun(a) + Begun(b)
  {
    if b == [] {
      assert a + b == a;
    } else {
      var n := |b| - 1;
      var front, last := b[..n], b[n];
      assert b == front + [last];
      calc {
        Begun(a + b);
        { assert a + b == a + front + [last]; }
        Begun(a + front + [last]);
        { BegunSnoc(a + front, last); }
        Begun(a + front) + Own(last);
        { BegunConcat(a, front); }
        Begun(a) + Begun(front) + Own(last);
        Begun(a) + (Begun(front) + Own(last));
        { BegunSnoc(front, last); }
        Begun(a) + Begun(b);
      }
    }
  }

  lemma {:induction false} SentConcat(a: seq<Step>, b: seq<Step>)
    ensures Sent(a + b) == Sent(a) + Sent(b)
  {
    if b == [] {
      assert a + b == a;
    } else {
      var n := |b| - 1;
      var front, last := b[..n], b[n];
      assert b == front + [last];
      calc {
        Sent(a + b);
        { assert a + b == a + front + [last]; }
        Sent(a + front + [last]);
        { SentSnoc(a + front, last); }
        Sent(a + front) + SentBy(last);
        { SentConcat(a, front); }
        Sent(a) + Sent(front) + SentBy(last);
        Sent(a) + (Sent(front) + SentBy(last));
        { SentSnoc(front, last); }
        Sent(a) + Sent(b);
      }
    }
  }

  lemma HistoryConcat(a: seq<Step>, b: seq<Step>)
    ensures Begun(a + b) == Begun(a) + Begun(b) && Sent(a + b) == Sent(a) + Sent(b)
  {
    BegunConcat(a, b);
    SentConcat(a, b);
  }

  lemma {:induction false} IssuesHistory(calls: seq<Call>)
    requires forall c <- calls :: !c.Foreign?
    ensures Begun(Issues(calls)) == [] && Sent(Issues(calls)) == calls
  {
    if calls != [] {
      var n := |calls| - 1;
      assert Issues(calls)[..n] == Issues(calls[..n]);
      IssuesHistory(calls[..n]);
      assert calls == calls[..n] + [calls[n]];
    }
  }

  lemma OneStep(step: Step)
    ensures Begun([step]) == Own(step) && Sent([step]) == SentBy(step)
  {
    BegunSnoc([], step);
    SentSnoc([], step);
    assert [] + [step] == [step];
  }

  lemma ReconcileHistory(tgb: Key, perGroup: PerGroup, listed: set<Key>, plan: Plan, calls: seq<Call>)
    requires forall c <- calls :: Allowed(plan, c)
    ensures var steps := ReconcileSteps(tgb, perGroup, listed, calls);
      Begun(steps) == [Begin(tgb, perGroup, Some(listed))] && Sent(steps) == calls
  {
    var begin := Begin(tgb, perGroup, Some(listed));
    var rest := Issues(calls) + [Finish];
    assert Begun(rest) == [] && Sent(rest) == calls by {
      IssuesHistory(calls);
      BegunSnoc(Issues(calls), Finish);
      SentSnoc(Issues(calls), Finish);
    }
    HistoryConcat([begin], rest);
    OneStep(begin);
  }

  /** A run from one state at rest to another, with what it began and what it sent. */
  ghost predicate Covers(states: seq<State>, steps: seq<Step>, from: State, to: State, begun: seq<Step>,
      calls: seq<Call>) {
    Run(states, steps) && states[0] == from && states[|steps|] == to && Begun(steps) == begun && Sent(steps) == calls
  }

  lemma CoversConcat(a: seq<State>, first: seq<Step>, b: seq<State>, second: seq<Step>, from: State, mid: State,
      to: State, begun: seq<Step>, more: seq<Step>, calls: seq<Call>, later: seq<Call>)
    requires Covers(a, first, from, mid, begun, calls) && Covers(b, second, mid, to, more, later)
    ensures Covers(a + b[1..], first + second, from, to, begun + more, calls + later)
  {
    RunConcat(a, first, b, second);
    HistoryConcat(first, second);
  }

  lemma StepCovers(s: State, step: Step, t: State)
    requires Next(s, step, t) && !step.Issue? && !step.Finish?
    ensures Covers([s, t], [step], s, t, [step], SentBy(step))
  {
    StepRun(s, step, t);
    OneStep(step);
  }

  lemma IdleCovers(s: State)
    ensures Covers([s], [], s, s, [], [])
  {
  }

  function AtRest(m: NetworkingManager): State
    reads m, m.ec2
  {
    State(m.ingressPermissionsPerSGByTGB, None, m.ec2.groups)
  }

  method NewManager(ec2: Ec2) returns (m: NetworkingManager)
    requires ec2.Valid()
    ensures fresh(m) && fresh(m.sgManager) && m.Valid() && m.ec2 == ec2 && m.ingressPermissionsPerSGByTGB == map[]
  {
    var sgManager := new SecurityGroupManager(ec2);
    var sgReconciler := new SecurityGroupReconciler(sgManager);
    m := new NetworkingManager(sgReconciler);
  }

  lemma ReconcileCovers(s: State, t: State, e: Event, plan: Plan, initial: map<string, Rules>, before: seq<Call>,
      after: seq<Call>) returns (states: seq<State>, steps: seq<Step>)
    requires e.Reconcile? && e.listed.Some? && s.inflight.None? && s.groups == Replay(initial, before)
    requires plan == PlanFor(s.entries[e.tgb := e.perGroup], e.listed.value) && AllAllowed(plan, before, after)
    requires t == State(plan.entries, None, Replay(initial, after))
    ensures Covers(states, steps, s, t, Trigger(e), after[|before|..])
  {
    var calls := after[|before|..];
    NewCallsAllowed(plan, before, after);
    ReconcileHistory(e.tgb, e.perGroup, e.listed.value, plan, calls);
    states := ReconcileIsRun(s, e.tgb, e.perGroup, e.listed.value, initial, before, after);
    steps := ReconcileSteps(e.tgb, e.perGroup, e.listed.value, calls);
  }

  method HandleReconcile(m: NetworkingManager, e: Event) returns (ghost states: seq<State>, ghost steps: seq<Step>)
    requires m.Valid() && e.Reconcile?
    modifies m, m.sgManager, m.ec2
    ensures m.Valid() && old(m.ec2.calls) <= m.ec2.calls
    ensures Covers(states, steps, old(AtRest(m)), AtRest(m), Trigger(e), m.ec2.calls[|old(m.ec2.calls)|..])
  {
    hide Covers, Allowed;
    ghost var before, s := m.ec2.calls, AtRest(m);
    var err := m.ReconcileWithIngressPermissionsPerSG(e.tgb, e.perGroup, e.listed, e.tagged);
    ghost var plan := PlanFor(s.entries[e.tgb := e.perGroup], if e.listed.Some? then e.listed.value else {});
    if e.listed.None? {
      StepCovers(s, Begin(e.tgb, e.perGroup, None), AtRest(m));
      assert m.ec2.calls[|before|..] == [];
      states, steps := [s, AtRest(m)], [Begin(e.tgb, e.perGroup, None)];
    } else {
      states, steps := ReconcileCovers(s, AtRest(m), e, plan, m.ec2.initial, before, m.ec2.calls);
    }
  }

  /** One event; after a restart another manager goes on. */
  method Handle(m: NetworkingManager, e: Event)
      returns (next: NetworkingManager, ghost states: seq<State>, ghost steps: seq<Step>)
    requires m.Valid() && ValidEvent(e)
    modifies m, m.sgManager, m.ec2
    ensures next.Valid() && next.ec2 == m.ec2 && old(m.ec2.calls) <= m.ec2.calls
    ensures (next == m || fresh(next)) && (next.sgManager == m.sgManager || fresh(next.sgManager))
    ensures Covers(states, steps, old(AtRest(m)), AtRest(next), Trigger(e), m.ec2.calls[|old(m.ec2.calls)|..])
  {
    hide Covers, Allowed;
    ghost var s, before := AtRest(m), m.ec2.calls;
    next := m;
    match e
    case Reconcile(_, _, _, _) =>
      states, steps := HandleReconcile(m, e);
    case Expiry(id) =>
      m.sgManager.Expire(id);
      IdleCovers(s);
      assert m.ec2.calls[|before|..] == [];
      states, steps := [s], [];
    case ByOthers(after) =>
      m.sgManager.Disturb(after);
      StepCovers(s, External(after), AtRest(m));
      assert m.ec2.calls[|before|..] == [Foreign(after)];
      states, steps := [s, AtRest(m)], [External(after)];
    case NewProcess =>
      next := NewManager(m.ec2);
      StepCovers(s, Restart, AtRest(next));
      assert m.ec2.calls[|before|..] == [];
      states, steps := [s, AtRest(next)], [Restart];
  }

  // ---------------------------------------------------------------- whole histories

  /** Throughout the history binding t is listed, asks for h on g, and others do not take it off. */
  ghost predicate KeptAskedFor(events: seq<Event>, t: Key, g: string, h: string) {
    forall e <- events, step <- Trigger(e) :: KeepsAskingAt(step, t, g, h)
  }

  lemma {:induction false} TriggersOf(events: seq<Event>, t: Key, g: string, h: string)
    requires KeptAskedFor(events, t, g, h)
    ensures KeepsAsking(Triggers(events), t, g, h)
  {
    if events != [] {
      var n := |events| - 1;
      assert forall e <- events[..n] :: e in events;
      TriggersOf(events[..n], t, g, h);
      assert events[n] in events;
    }
  }

  lemma {:induction false} BegunDecides(steps: seq<Step>, t: Key, g: string, h: string)
    requires KeepsAsking(Begun(steps), t, g, h)
    ensures KeepsAsking(steps, t, g, h)
  {
    if steps != [] {
      var n := |steps| - 1;
      assert forall step <- Begun(steps[..n]) :: step in Begun(steps);
      BegunDecides(steps[..n], t, g, h);
      assert steps == steps[..n] + [steps[n]];
      assert !steps[n].Issue? && !steps[n].Finish? ==> steps[n] in Begun(steps);
    }
  }

  lemma {:induction false} AskedForSurvives(states: seq<State>, steps: seq<Step>, events: seq<Event>, t: Key,
      g: string, h: string)
    requires Run(states, steps) && Initial(states[0]) && Begun(steps) == Triggers(events)
    requires KeptAskedFor(events, t, g, h) && HasRule(states[0].groups, g, h)
    ensures HasRule(states[|steps|].groups, g, h)
  {
    TriggersOf(events, t, g, h);
    BegunDecides(steps, t, g, h);
    NeededRuleSurvives(states, steps, t, g, h);
    assert states[|steps|] in states;
  }

  lemma EveryRuleSurvives(states: seq<State>, steps: seq<Step>, events: seq<Event>)
    requires Run(states, steps) && Initial(states[0]) && Begun(steps) == Triggers(events)
    ensures forall t, g, h :: KeptAskedFor(events, t, g, h) && HasRule(states[0].groups, g, h) ==>
      HasRule(states[|steps|].groups, g, h)
  {
    forall t, g, h | KeptAskedFor(events, t, g, h) && HasRule(states[0].groups, g, h)
      ensures HasRule(states[|steps|].groups, g, h) {
      AskedForSurvives(states, steps, events, t, g, h);
    }
  }

  lemma TriggersNext(events: seq<Event>, i: nat)
    requires i < |events|
    ensures Triggers(events[..i + 1]) == Triggers(events[..i]) + Trigger(events[i])
  {
    assert events[..i + 1][..i] == events[..i];
  }

  lemma EventCovered(a: seq<State>, first: seq<Step>, b: seq<State>, second: seq<Step>, from: State, mid: State,
      to: State, events: seq<Event>, i: nat, log: seq<Call>, before: seq<Call>, after: seq<Call>)
    requires i < |events| && log <= before <= after
    requires Covers(a, first, from, mid, Triggers(events[..i]), before[|log|..])
    requires Covers(b, second, mid, to, Trigger(events[i]), after[|before|..])
    ensures Covers(a + b[1..], first + second, from, to, Triggers(events[..i + 1]), after[|log|..])
  {
    assert after[|log|..] == before[|log|..] + after[|before|..];
    TriggersNext(events, i);
    CoversConcat(a, first, b, second, from, mid, to, Triggers(events[..i]), Trigger(events[i]), before[|log|..],
      after[|before|..]);
  }

  /**
   * Any history, from any rules in EC2. It is a run that begins what the events say, sends what
   * EC2 has logged and ends in EC2's real rules, so RevokeIsSafe is about every revoke in the
   * log. A rule that some binding keeps asking for is there at the end if it was at the start.
   */
  method Serve(ec2: Ec2, events: seq<Event>) returns (ghost states: seq<State>, ghost steps: seq<Step>)
    requires ec2.Valid() && forall e <- events :: ValidEvent(e)
    modifies ec2
    ensures ec2.Valid() && old(ec2.calls) <= ec2.calls
    ensures Run(states, steps) && Initial(states[0])
    ensures states[0].groups == old(ec2.groups) && states[|steps|].groups == ec2.groups
    ensures Begun(steps) == Triggers(events) && Sent(steps) == ec2.calls[|old(ec2.calls)|..]
    ensures forall t, g, h :: KeptAskedFor(events, t, g, h) && HasRule(old(ec2.groups), g, h) ==>
      HasRule(ec2.groups, g, h)
  {
    var m := NewManager(ec2);
    ghost var start, first := AtRest(m), ec2.calls;
    states, steps := [start], [];
    for i := 0 to |events|
      invariant fresh(m) && fresh(m.sgManager) && m.Valid() && m.ec2 == ec2 && first <= ec2.calls
      invariant Covers(states, steps, start, AtRest(m), Triggers(events[..i]), ec2.calls[|first|..])
    {
      ghost var s, calls := AtRest(m), ec2.calls;
      ghost var more, next;
      m, more, next := Handle(m, events[i]);
      EventCovered(states, steps, more, next, start, s, AtRest(m), events, i, first, calls, ec2.calls);
      states, steps := states + more[1..], steps + next;
    }
    assert events[..|events|] == events;
    EveryRuleSurvives(states, steps, events);
  }
}
