/** What a finished pass says about all readiness gates. */
module ReadinessGates {
  import opened Text
  import opened Targets
  import opened EndpointResolver
  import opened TargetReconcile

  // Matching keeps one endpoint per address and port, the last, so a pod that another one speaks for
  // is not probed (pkg/targetgroupbinding/resource_manager.go:355-387).

  /** What one would expect of a finished pass: it holds for every gated endpoint pod. */
  ghost predicate AllReady(endpoints: seq<PodEndpoint>, listed: seq<TargetInfo>, gone: set<string>, gate: string) {
    forall e <- endpoints :: Gated(e.pod, gate) ==> e.pod.uid in gone || HealthyIn(listed, TargetOf(e))
  }

  /** Every gated pod speaks for its endpoints itself. */
  ghost predicate SpeakForThemselves(endpoints: seq<PodEndpoint>, gate: string) {
    forall e <- endpoints :: Gated(e.pod, gate) ==>
      exists s :: Speaks(endpoints, s) && TargetOf(s) == TargetOf(e) && Gated(s.pod, gate) && s.pod.uid == e.pod.uid
  }

  lemma OneSpeaker(endpoints: seq<PodEndpoint>, a: PodEndpoint, b: PodEndpoint)
    requires Speaks(endpoints, a) && Speaks(endpoints, b) && TargetOf(a) == TargetOf(b)
    ensures a == b
  {
    var i :| 0 <= i < |endpoints| && endpoints[i] == a && forall j :: i < j < |endpoints| ==>
      TargetOf(endpoints[j]) != TargetOf(a);
    var k :| 0 <= k < |endpoints| && endpoints[k] == b && forall j :: k < j < |endpoints| ==>
      TargetOf(endpoints[j]) != TargetOf(b);
    assert i == k;
  }

  /** A listing in which exactly these targets are healthy. */
  lemma {:induction false} HealthyListing(ts: set<Target>) returns (listed: seq<TargetInfo>)
    ensures UniqueTargets(listed) && TargetsOf(listed) == ts
    ensures forall t :: HealthyIn(listed, t) <==> t in ts
  {
    if ts == {} {
      listed := [];
    } else {
      var t :| t in ts;
      var rest := HealthyListing(ts - {t});
      var x := TargetInfo(t, Some(Health(Healthy, OtherReason(""), "")));
      assert forall y <- rest :: y.target in TargetsOf(rest);
      listed := rest + [x];
      forall u ensures HealthyIn(listed, u) <==> u in ts {
        if HealthyIn(rest, u) {
          var y :| y in rest && y.target == u && y.IsHealthy();
          assert y in listed;
        }
        assert x in listed;
      }
      assert TargetsOf(listed) == ts by {
        assert x in listed;
        assert forall y <- rest :: y in listed;
      }
    }
  }

  /**
   * A pass that may finish means that all gated pods are ready, whatever is listed and whichever
   * pods are gone, if and only if every gated pod speaks for its endpoints itself. A pass is done
   * exactly if it may finish and no endpoint is still to come (ProbePods).
   */
  lemma FinishMeansReadyIff(endpoints: seq<PodEndpoint>, gate: string)
    ensures (forall listed, gone :: UniqueTargets(listed) && MayFinish(endpoints, listed, gone, gate) ==>
      AllReady(endpoints, listed, gone, gate))
      <==> SpeakForThemselves(endpoints, gate)
  {
    if SpeakForThemselves(endpoints, gate) {
      forall listed, gone | UniqueTargets(listed) && MayFinish(endpoints, listed, gone, gate)
        ensures AllReady(endpoints, listed, gone, gate) {
        forall e | e in endpoints && Gated(e.pod, gate) ensures e.pod.uid in gone || HealthyIn(listed, TargetOf(e)) {
          var s :| Speaks(endpoints, s) && TargetOf(s) == TargetOf(e) && Gated(s.pod, gate) && s.pod.uid == e.pod.uid;
          assert MayRest(s, listed, gone, gate);
        }
      }
    } else {
      var e :| e in endpoints && Gated(e.pod, gate) &&
        !exists s :: Speaks(endpoints, s) && TargetOf(s) == TargetOf(e) && Gated(s.pod, gate) && s.pod.uid == e.pod.uid;
      var listed, gone := SpokenOver(endpoints, gate, e);
      assert UniqueTargets(listed) && MayFinish(endpoints, listed, gone, gate)
        && !AllReady(endpoints, listed, gone, gate);
    }
  }

  /** A health that calls for a condition other than the one that the pod has. */
  function News(pod: Pod, gate: string): (h: Health)
    ensures h.state == Unhealthy && !Aware(pod, gate, Some(h))
  {
    var known := if gate in pod.conditions then pod.conditions[gate].message else "";
    Health(Unhealthy, OtherReason(""), known + "!")
  }

  /**
   * If another pod speaks for a gated one, there is a listing with which the pass finishes while
   * the gated one is not ready: its target is unhealthy for a new reason, and if the other pod is
   * gated too, that pod is gone.
   */
  lemma SpokenOver(endpoints: seq<PodEndpoint>, gate: string, e: PodEndpoint)
      returns (listed: seq<TargetInfo>, gone: set<string>)
    requires e in endpoints && Gated(e.pod, gate)
    requires !exists s ::
      Speaks(endpoints, s) && TargetOf(s) == TargetOf(e) && Gated(s.pod, gate) && s.pod.uid == e.pod.uid
    ensures UniqueTargets(listed) && MayFinish(endpoints, listed, gone, gate)
    ensures !AllReady(endpoints, listed, gone, gate)
  {
    var s := SomeSpeaker(endpoints, TargetOf(e));
    var others := HealthyListing(Wanted(endpoints) - {TargetOf(e)});
    var sick := TargetInfo(TargetOf(e), Some(News(s.pod, gate)));
    listed := others + [sick];
    gone := if Gated(s.pod, gate) then {s.pod.uid} else {};
    OneSick(others, sick);
    forall f | Speaks(endpoints, f) ensures MayRest(f, listed, gone, gate) {
      assert f in endpoints;
      if TargetOf(f) == TargetOf(e) { OneSpeaker(endpoints, f, s); }
    }
  }

  lemma OneSick(others: seq<TargetInfo>, sick: TargetInfo)
    requires UniqueTargets(others) && sick.target !in TargetsOf(others) && !sick.IsHealthy() && !sick.IsDraining()
    ensures var listed := others + [sick];
      && UniqueTargets(listed)
      && (forall t :: HealthyIn(listed, t) <==> HealthyIn(others, t))
      && (forall x <- listed :: x.target == sick.target ==> x == sick)
      && sick in listed && !HealthyIn(listed, sick.target)
  {
    var listed := others + [sick];
    assert forall x <- others :: x.target in TargetsOf(others);
    forall t | HealthyIn(others, t) ensures HealthyIn(listed, t) {
      var x :| x in others && x.target == t && x.IsHealthy();
      assert x in listed;
    }
  }

  function Endpoint(uid: string, gates: seq<string>): PodEndpoint {
    PodEndpoint("10.0.0.1", 80, Pod(uid, uid, gates, true, map[]))
  }

  const TARGET: Target := Target("10.0.0.1", 80)

  /**
   * The smallest case: a gated pod and, after it, one without the gate share an address and
   * port whose target is unhealthy. No gated pod speaks, so the pass may finish, whoever is gone.
   */
  lemma UngatedSpeaker(gate: string)
    ensures var endpoints := [Endpoint("a", [gate]), Endpoint("b", [])];
      var listed := [TargetInfo(TARGET, Some(Health(Unhealthy, OtherReason(""), "")))];
      && (forall gone :: MayFinish(endpoints, listed, gone, gate))
      && !AllReady(endpoints, listed, {}, gate)
  {
    var a, b := Endpoint("a", [gate]), Endpoint("b", []);
    forall e | Speaks([a, b], e) ensures !Gated(e.pod, gate) {
      assert Speaks([a, b], b) by { assert [a, b][1] == b; }
      assert TargetOf(e) == TargetOf(b) by { assert e in [a, b]; }
      OneSpeaker([a, b], e, b);
    }
    assert a in [a, b];
  }

  /** The other case: both are gated, and the second pod is gone. */
  lemma GoneSpeaker(gate: string)
    ensures var endpoints := [Endpoint("a", [gate]), Endpoint("b", [gate])];
      var listed := [TargetInfo(TARGET, Some(Health(Unhealthy, OtherReason(""), "")))];
      MayFinish(endpoints, listed, {"b"}, gate) && !AllReady(endpoints, listed, {"b"}, gate)
  {
    var a, b := Endpoint("a", [gate]), Endpoint("b", [gate]);
    forall e | Speaks([a, b], e) ensures e == b {
      assert Speaks([a, b], b) by { assert [a, b][1] == b; }
      assert TargetOf(e) == TargetOf(b) by { assert e in [a, b]; }
      OneSpeaker([a, b], e, b);
    }
    assert a in [a, b];
  }
}
