/**
 * A run of the finalizer protocol in which a stale read leaves a deployed Ingress without its
 * finalizer.
 */
module FinalizerRace {
  import opened Text
  import opened IngressGroups
  import opened FinalizerProtocol

  const WEB: Key := GroupID("default", "web")
  const SHOP: GroupID := GroupID("", "shop")

  function Web(group: Option<string>, finalizers: seq<string>): Ingress {
    Ingress("default", "web", finalizers, false, None, None, group, NoOrder)
  }

  const MARK: string := EXPLICIT_PREFIX + "shop"
  const LEFT: Ingress := Web(None, [MARK])
  const BACK: Ingress := Web(Some("shop"), [MARK])
  const BARE: Ingress := Web(Some("shop"), [])
  const LEAVING: Worker := Worker({}, {WEB}, Adding, {}, None)
  const JOINING: Worker := Worker({WEB}, {}, Adding, {}, None)

  function Scene(history: History, worker: Option<Worker>, deployed: map<GroupID, set<Key>>): State {
    State(map[WEB := history], if worker.Some? then map[SHOP := worker.value] else map[], deployed,
          if |history| == 3 then map[Author(SHOP, WEB) := 2] else map[])
  }

  const H0: History := [Some(LEFT)]
  const H1: History := H0 + [Some(BACK)]
  const H2: History := H1 + [Some(BARE)]

  const S0: State := Scene(H0, None, map[])
  const S1: State := Scene(H0, Some(LEAVING), map[])
  const S2: State := Scene(H0, Some(LEAVING.(phase := Deploying)), map[])
  const S3: State := Scene(H0, Some(LEAVING.(phase := Removing)), map[SHOP := {}])
  const S4: State := Scene(H1, Some(LEAVING.(phase := Removing)), map[SHOP := {}])
  const S5: State := Scene(H1, Some(LEAVING.(phase := Removing, reading := Some(Reading(WEB, 1)))), map[SHOP := {}])
  const S6: State := Scene(H2, Some(LEAVING.(phase := Removing, done := {WEB})), map[SHOP := {}])
  const S7: State := Scene(H2, None, map[SHOP := {}])
  const S8: State := Scene(H2, Some(JOINING), map[SHOP := {}])
  const S9: State := Scene(H2, Some(JOINING.(done := {WEB})), map[SHOP := {}])
  const S10: State := Scene(H2, Some(JOINING.(phase := Deploying)), map[SHOP := {}])
  const S11: State := Scene(H2, Some(JOINING.(phase := Removing)), map[SHOP := {WEB}])

  /** Loading the group yields the Ingress as inactive before it comes back and as a member after. */
  lemma LoadOne(cfg: Config)
    ensures cfg.manageWithoutClass ==>
      LoadedFrom(cfg, SHOP, {LEFT}, Group([], [LEFT])) && LoadedFrom(cfg, SHOP, {BACK}, Group([BACK], []))
  {
    if cfg.manageWithoutClass {
      assert !MemberOf(cfg, SHOP, LEFT) && ContainsGroupFinalizer(SHOP, LEFT) && MemberOf(cfg, SHOP, BACK);
      assert Members(cfg, SHOP, {LEFT}) == {} && Inactive(cfg, SHOP, {LEFT}) == {LEFT};
      assert Members(cfg, SHOP, {BACK}) == {BACK} && Inactive(cfg, SHOP, {BACK}) == {};
    }
  }

  lemma SceneLoad(cfg: Config, s: State, v: nat, x: Ingress, s': State)
    requires cfg.manageWithoutClass && s.objects.Keys == {WEB} && s.workers == map[]
    requires v < |s.objects[WEB]| && s.objects[WEB][v] == Some(x) && (x == LEFT || x == BACK)
    requires s' == s.(workers := map[SHOP := if x == BACK then JOINING else LEAVING])
    ensures Next(s, Act(SHOP, Load(map[WEB := v], cfg, if x == BACK then Group([x], []) else Group([], [x]))), s')
  {
    LoadOne(cfg);
    assert Snapshot(s, map[WEB := v]) == {x};
    assert x in [x];
    assert Keys([x]) == {WEB};
    var none: seq<Ingress> := [];
    assert Keys(none) == {};
  }

  lemma SceneLoads(cfg: Config)
    requires cfg.manageWithoutClass
    ensures Next(S0, Act(SHOP, Load(map[WEB := 0], cfg, Group([], [LEFT]))), S1)
    ensures Next(S7, Act(SHOP, Load(map[WEB := 1], cfg, Group([BACK], []))), S8)
  {
    hide Next;
    SceneLoad(cfg, S0, 0, LEFT, S1);
    SceneLoad(cfg, S7, 1, BACK, S8);
  }

  lemma SceneRemoval()
    ensures Next(S4, Act(SHOP, Get(WEB, 1)), S5)
    ensures Next(S5, Act(SHOP, Patch), S6)
    ensures Next(S6, Act(SHOP, Stop), S7)
  {
    assert Without([MARK], MARK) == [] by { assert forall x :: x !in Without([MARK], MARK); }
    var w := S5.workers[SHOP];
    assert w.done + {WEB} == {WEB};
    assert map[WEB := H1][WEB := H2] == map[WEB := H2];
    assert S6 == Push(SetWorker(S5, SHOP, w.(done := w.done + {WEB}, reading := None)), WEB, Some(BARE))
      .(writes := S5.writes[Author(SHOP, WEB) := 2]);
  }

  lemma SceneLeaving()
    ensures Quiet(S0)
    ensures Next(S1, Act(SHOP, BeginDeploy), S2)
    ensures Next(S2, Act(SHOP, EndDeploy), S3)
    ensures Next(S3, Edit(WEB, BACK), S4)
  {
    assert map[WEB := H0][WEB := H1] == map[WEB := H1];
    assert S4 == Push(S3, WEB, Some(BACK));
  }

  lemma SceneStaleRead()
    ensures Next(S8, Act(SHOP, Get(WEB, 1)), S9)
  {
    var w := S8.workers[SHOP];
    assert w.done + {WEB} == {WEB};
  }

  lemma SceneJoining()
    ensures Next(S9, Act(SHOP, BeginDeploy), S10)
    ensures Next(S10, Act(SHOP, EndDeploy), S11)
    ensures WEB in DeployedBy(S11, SHOP) && !Held(S11, SHOP, WEB)
  {
  }

  /**
   * Such a read can happen. An Ingress rejoins its group after the group was loaded and before
   * its finalizer is taken off; the next reconcile reads the version in between, finds the
   * finalizer, adds nothing and deploys.
   */
  lemma StaleReadIsReachable(cfg: Config) returns (states: seq<State>, steps: seq<Step>)
    requires cfg.manageWithoutClass
    ensures Run(states, steps) && Quiet(states[0])
    ensures WEB in DeployedBy(states[|steps|], SHOP) && !Held(states[|steps|], SHOP, WEB)
  {
    assert Run([S0], []);
    hide *;
    var first := Act(SHOP, Load(map[WEB := 0], cfg, Group([], [LEFT])));
    var second := Act(SHOP, Load(map[WEB := 1], cfg, Group([BACK], [])));
    SceneLoads(cfg);
    SceneLeaving();
    SceneRemoval();
    SceneStaleRead();
    SceneJoining();
    states, steps := [S0], [];
    states, steps := RunSnoc(states, steps, first, S1);
    states, steps := RunSnoc(states, steps, Act(SHOP, BeginDeploy), S2);
    states, steps := RunSnoc(states, steps, Act(SHOP, EndDeploy), S3);
    states, steps := RunSnoc(states, steps, Edit(WEB, BACK), S4);
    states, steps := RunSnoc(states, steps, Act(SHOP, Get(WEB, 1)), S5);
    states, steps := RunSnoc(states, steps, Act(SHOP, Patch), S6);
    states, steps := RunSnoc(states, steps, Act(SHOP, Stop), S7);
    states, steps := RunSnoc(states, steps, second, S8);
    states, steps := RunSnoc(states, steps, Act(SHOP, Get(WEB, 1)), S9);
    states, steps := RunSnoc(states, steps, Act(SHOP, BeginDeploy), S10);
    states, steps := RunSnoc(states, steps, Act(SHOP, EndDeploy), S11);
  }

  /** One more step of a run. */
  lemma RunSnoc(states: seq<State>, steps: seq<Step>, step: Step, s: State)
      returns (states': seq<State>, steps': seq<Step>)
    ensures Run(states, steps) && Next(states[|steps|], step, s) ==>
      Run(states', steps') && states'[0] == states[0] && states'[|steps'|] == s
  {
    states', steps' := states + [s], steps + [step];
    if Run(states, steps) && Next(states[|steps|], step, s) {
      forall i | 0 <= i < |steps'| ensures Next(states'[i], steps'[i], states'[i + 1]) {
        if i < |steps| { assert Next(states[i], steps[i], states[i + 1]); }
      }
    }
  }
}
