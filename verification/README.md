# Verified model of the AWS Load Balancer Controller's core

The controller turns Kubernetes Ingresses, Services and TargetGroupBindings into AWS load
balancers. This project models its hardest parts in Dafny 4.11 and proves what they keep: over all
inputs, over all runs of the protocols, and with calls that fail anywhere. Where a result needs a
coherent cache or a fresh read, its contract says so. `dafny verify dfyconfig.toml` checks all of it.

- **Shared endpoint security groups** (`PermissionLabels`, `Permissions`, `SecurityGroups`,
  `TgbPermissions`, `NetworkingManager`, `NetworkingRuns`, `NetworkingHistories`): which EC2 rules
  the controller owns, the snapshot cache and its reload retry, the merge of what all bindings
  need, a step system over reconciles with any listing that stop anywhere, restarts and foreign
  changes, and the code over any history as runs of it.
- **Listener rules** (`Globs`, `PathPatterns`, `ListenerRules`, `RuleOptimizer`, `RedirectLoops`,
  `RuleBuilding`, `RuleSynthesis`, `IngressRouting`): compiling paths to patterns, dropping rules without changing
  what a request is routed to, and synchronising the numbered list onto an existing listener.
- **Cached targets** (`Targets`, `TargetsManager`, `TargetRuns`, `EndpointResolver`,
  `TargetReconcile`, `ReadinessGates`): a cache that asks only about targets not known to be healthy, against the
  service it stands for, and the reconcile pass on top of it.
- **Ingress groups** (`IngressGroups`, `FinalizerProtocol`, `FinalizerRace`): membership, finalizers, loading, and
  the distributed protocol of adding finalizers, deploying and removing them.
- **Stack deployment** (`DeployMatching`, `Deploy`, `StackDeployer`): matching and the order of
  synthesis and deletion.
- **Smaller cores** (`ListenPorts`, `PodEni`, `HealthCheckNetworking`) and shared text and
  listing functions (`Text`).

Loops, mutable fields and call sequences of the source are methods and classes; each is tied by
its `ensures` to a specification that lemmas then reason about. Protocols with concurrency or
restarts are also step systems, with theorems over all runs.

## Environment

Services appear as classes whose calls may fail without effect at any point: `Ec2`,
`ListenerApi`, `TargetApi`, `PodApi`, `Network` and `Cloud`, where a failed creation may also leave
the resource behind. Counters named `faults` count the
failures that the state does not explain, so that convergence can be stated as what happens
without them. Wall-clock expiry is an entry disappearing at any step. Iteration over Go maps and
sets is in an arbitrary order. CIDR parsing, pod lookup, class lookup and the meaning of
conditions other than host and path are parameters. Other actors may change what they like, with
two limits: in `FinalizerProtocol` they do not take the controller's own finalizers off an Ingress
(`KeepsOurs`), and an Ingress that is being deleted stays so.

## Where code and documentation differ, and where a property is false

- A networking rule without `ports` is documented to mean all TCP ports
  (apis/elbv2/v1beta1/targetgroupbinding_types.go:103-105). The code computes those permissions
  into a variable that shadows the result and loses them (pkg/targetgroupbinding/networking_manager.go:270).
  The model follows the code; `EmptyPortsIff` says exactly when the two agree.
- A rule dropped as an infinite redirect loops when the rule is taken alone. In a list, an earlier
  rule may answer the redirected request; `ListLoopIff` says exactly when the loop is closed.
- The test for infinite redirects compares fields as text and expands no template.
  `InfiniteIffReturns` says that it is exact where every field is absent, the request's own
  component or free of placeholders; `MixedTemplateIsKept` is a family outside of that.
- The deployed-implies-finalizer property fails if a worker that adds finalizers reads a version
  older than its own removal: the client reads from a cache. `DeployedIsHeld` assumes that it reads
  no version older than its group's last own write, `BadReadIsStale` shows that every bad read is
  such a one, `StaleReadBreaks` that every bad read breaks the property, `StaleReadIsReachable` is a run.
- Deletions can hit something in use. A target group is deleted while a TargetGroupBinding names it
  if two bindings of the stack named it: the map by ARN sees one of them. It is deleted while a
  listener names it if two load balancers carry one resource ID, or if a desired one has no
  listeners: listeners are synthesized on recorded load balancers that have some. What the user
  supplies may be the stack's own. `Deploy` states the exact conditions, `UsuallySafe` when the
  latter cannot happen; `SharedUnwantedIsPossible`, `StrayListenerIsPossible` and
  `OwnGroupSupplied` are inputs.
- The interface cache assumes that a pod's interface is fixed by its key and UID
  (pkg/networking/pod_eni_info_resolver.go:92-98), but stores one answer for all requested pods of a key.
  `ReplacedPod` is an input where an entry gets another pod's interface; `SavedByUIDIff` says
  exactly when that cannot happen.
- A health check on port zero of a named target port is taken for one on the traffic port, since a
  port name counts as zero. `HealthChecksAdmitted` states the equivalence.
- A finished pass does not mean that every gated endpoint pod has a healthy target or is gone: of
  several endpoints on one address and port only the last is matched and probed.
  `UngatedSpeaker` and `GoneSpeaker` are inputs where it fails; `FinishMeansReadyIff` says exactly
  when it holds.

## Model

| member | source | states |
|---|---|---|
| `NetworkingRuns.RevokeIsSafe` | pkg/targetgroupbinding/networking_manager.go:179-249 | over every run of reconciles that start from any listing and stop anywhere, restarts and foreign changes: when a revoke is sent, every binding with networking that the reconcile listed has a computed entry, and no revoked permission shares a hash code with what any of them last asked for on that group, however stale the snapshot is |
| `NetworkingRuns.NeededRuleSurvives` | pkg/targetgroupbinding/networking_manager.go:179-211 | a rule that a binding keeps asking for, and that is in every listing, stays on its group through every run, restarts included |
| `NetworkingRuns.RunExplained` | pkg/targetgroupbinding/networking_manager.go:179-225 | the in-memory entries and the completeness of the plan in progress always agree with the history of the run |
| `NetworkingRuns.StepProtects` | pkg/targetgroupbinding/networking_manager.go:179-211 | each single step keeps a protected rule and its protection |
| `NetworkingRuns.ReconcileIsRun` | pkg/targetgroupbinding/networking_manager.go:179-211 | the calls that one reconcile of the manager sends form a run of the step system that ends in EC2's real rules, so the theorems over runs are about that code |
| `NetworkingHistories.Serve` | pkg/targetgroupbinding/networking_manager.go:179-211 | any history of reconciles, expiring snapshots, changes by others and restarts of the process is a run of the step system that begins what the history says, sends exactly what EC2 logs and ends in EC2's rules; a rule that some binding keeps asking for is there at the end if it was at the start |
| `NetworkingHistories.HandleReconcile` | pkg/targetgroupbinding/networking_manager.go:179-211 | one reconcile, failing anywhere, is such a run between two states at rest |
| `NetworkingHistories.AskedForSurvives` | pkg/targetgroupbinding/networking_manager.go:179-225 | from what the history asks for to the rule in EC2 at its end |
| `NetworkingManagers.LengthTestIsKeyEquality` | pkg/targetgroupbinding/networking_manager.go:215-225 | comparing the two lengths is the same as comparing the key sets |
| `NetworkingManagers.NetworkingManager.ConsolidateIngressPermissionsPerSGByTGB` | pkg/targetgroupbinding/networking_manager.go:215-225 | entries of bindings no longer listed are dropped in place, the others stay, and completeness means that every listed binding has one |
| `NetworkingManagers.ComputeAggregatedIngressPermissionsPerSG` | pkg/targetgroupbinding/networking_manager.go:228-249 | per group, one permission for each hash code that any entry asks for and no other, whatever order the maps are walked in |
| `NetworkingManagers.NetworkingManager.ReconcileUsedGroups` | pkg/targetgroupbinding/networking_manager.go:179-211 | only allowed calls are sent, needed rules stay, with coherent snapshots an error-free pass leaves every used group in sync, and without failed calls it errs only if some used group does not exist |
| `NetworkingManagers.NetworkingManager.CleanUnusedGroups` | pkg/targetgroupbinding/networking_manager.go:382-392 | only the unused groups change; each that stays tracked has no owned rule left, and one is forgotten only when EC2 does not know it |
| `NetworkingManagers.NetworkingManager.DriveGroup` | pkg/targetgroupbinding/networking_manager.go:194-203 | one group is driven to what the entries need on it, by allowed calls only |
| `NetworkingManagers.NetworkingManager.FetchEndpointSGs` | pkg/targetgroupbinding/networking_manager.go:441-485 | on first use the existing groups with the cluster tag join the tracked ones; afterwards the tracked ones are returned as they are |
| `NetworkingManagers.NetworkingManager.GcIngressPermissionsFromUnusedEndpointSGs` | pkg/targetgroupbinding/networking_manager.go:373-394 | only groups that no entry uses change; each other tracked one loses what the controller owns, one is forgotten only when EC2 does not know it, and it errs only if a call failed |
| `NetworkingManagers.NetworkingManager.ReconcileWithIngressPermissionsPerSG` | pkg/targetgroupbinding/networking_manager.go:179-211 | the new entries, that every call is allowed by them, that needed rules stay, what an error-free reconcile leaves in EC2, that a tracked group is forgotten only when EC2 does not know it, and that it succeeds if the listing does, no call fails and every group in use exists |
| `TgbPermissions.ComputeIngressPermissionsForTGBNetworking` | pkg/targetgroupbinding/networking_manager.go:253-279 | fails exactly if some peer or port cannot be resolved; otherwise the permissions are, one by one, those that the code as written grants |
| `TgbPermissions.ComputePermissionsForPeerPort` | pkg/targetgroupbinding/networking_manager.go:288-349 | for one peer and port: exactly the wanted protocol, port ranges and source, described by the shared label |
| `TgbPermissions.ComputeNumericalPorts` | pkg/targetgroupbinding/networking_manager.go:353-370 | a named port resolves to the set of numbers that the pods give it, and fails if a pod lacks it or there is no pod |
| `TgbPermissions.AdmittedTraffic` | pkg/targetgroupbinding/networking_manager.go:253-370 | EC2 lets a packet through for the permissions computed for a binding if and only if some rule lists a peer that sent it (by its group, or else by a block that has its address) and a port that speaks of its protocol and number (all ports without one, for a name the first container port of that name of some pod) |
| `TgbPermissions.FailsIff` | pkg/targetgroupbinding/networking_manager.go:253-370 | computing them fails if and only if a peer or port that is looked at is malformed: no source or one that does not parse, or a port name that some pod lacks or without pods |
| `TgbPermissions.EmptyPortsIff` | apis/elbv2/v1beta1/targetgroupbinding_types.go:103-105 | the code grants what the API documents for rules without ports if and only if every peer of such a rule is granted all TCP ports by a rule that states them |
| `TgbPermissions.EmptyPortsGrantNothing` | pkg/targetgroupbinding/networking_manager.go:253-279 | the concrete case that shows the difference: one rule, one peer, no ports, nothing granted |
| `TgbPermissions.AllTcpGrantedIff` | pkg/targetgroupbinding/networking_manager.go:288-349 | when the all-TCP permission for a peer is granted |
| `TgbPermissions.GrantedIsOwned` | pkg/targetgroupbinding/networking_manager.go:318-346 | every permission granted with the shared label is selected as managed when EC2 reports it back |
| `TgbPermissions.BuiltKeepsLabels` | pkg/networking/security_group_info.go:86-192 | a permission described by clean labels carries them again when it is read back |
| `SecurityGroups.SecurityGroupReconciler.ReconcileIngress` | pkg/networking/security_group_reconciler.go:69-94 | sends safe calls only, never removes a desired rule, keeps snapshots coherent; without faults it errs only if the group does not exist; success means convergence, unless a cached snapshot was used and EC2 accepted exactly the pass that follows from it, so a refused pass is always repaired by the single reload |
| `SecurityGroups.SecurityGroupReconciler.ReloadAndReconcile` | pkg/networking/security_group_reconciler.go:81-92 | the retry from a fresh snapshot converges |
| `SecurityGroups.SecurityGroupReconciler.ReconcileIngressWithSGInfo` | pkg/networking/security_group_reconciler.go:96-116 | one pass from any snapshot: its exact effect on the group, that a refusal without a fault proves the snapshot inaccurate, and that only safe calls are sent |
| `SecurityGroups.PassConvergesIff` | pkg/networking/security_group_reconciler.go:96-116 | an error-free pass from any snapshot converges if and only if every desired rule that the snapshot shows really exists and every owned rule that is not desired was in the snapshot's revocations |
| `SecurityGroups.AccuratePassConverges` | pkg/networking/security_group_reconciler.go:96-116 | from an accurate snapshot it always does |
| `SecurityGroups.AccuratePassAccepted` | pkg/networking/security_group_reconciler.go:96-116 | from an accurate snapshot EC2 has no reason to answer Duplicate or NotFound |
| `SecurityGroups.StaleOnlyByOthers` | pkg/networking/security_group_manager.go:128-166 | over every log of calls: a cached snapshot was accurate when it was taken and the controller has not changed the group since, so it is out of date only by what others did |
| `SecurityGroups.SecurityGroupManager.Disturb` | pkg/networking/security_group_manager.go:81-117 | changes by others keep that invariant |
| `SecurityGroups.SecurityGroupManager.Expire` | pkg/networking/security_group_manager.go:81-117 | expiring entries keep it too |
| `SecurityGroups.SecurityGroupManager.FetchSGInfosByID` | pkg/networking/security_group_manager.go:81-117 | exactly the requested groups, cached or accurate; what is cached was cached before or is accurate; without a failed call it fails only if a group does not exist |
| `SecurityGroups.SecurityGroupManager.FetchSGInfosByRequest` | pkg/networking/security_group_manager.go:119-126 | only matching existing groups are found, and snapshots stay coherent |
| `SecurityGroups.SecurityGroupManager.AuthorizeSGIngress` | pkg/networking/security_group_manager.go:128-146 | adds exactly the given rules or nothing, and forgets the snapshot on success |
| `SecurityGroups.SecurityGroupManager.RevokeSGIngress` | pkg/networking/security_group_manager.go:148-166 | removes exactly the given rules or nothing, and forgets the snapshot on success |
| `Permissions.HashCodeIdentifies` | pkg/networking/security_group_info.go:41-66 | two permissions have one hash code if and only if protocol, ports and source agree |
| `Permissions.ExpandSDKIPPermission` | pkg/networking/security_group_info.go:210-246 | a rule is in the expansion if and only if the reported permission has its protocol and ports and an entry with its id and description among the sources of its kind, or no entry at all and its payload |
| `Permissions.ExpandedAsReported` | pkg/networking/security_group_info.go:210-246 | the specified expansion, in the source's order of kinds, has exactly the rules that the permission reports |
| `Permissions.LastWins` | pkg/networking/security_group_reconciler.go:128-145 | of several permissions with one hash code the last counts |
| `Permissions.ExpansionIsAccurate` | pkg/networking/security_group_info.go:210-246 | however EC2 groups rules that share protocol and ports into permissions with several sources, expanding them gives a snapshot with exactly the stored rules |
| `Permissions.NewRawSecurityGroupInfo` | pkg/networking/security_group_info.go:69-83 | a snapshot is the expansion of all reported permissions with their parsed labels |
| `Permissions.NewIPPermission` | pkg/networking/security_group_info.go:86-159 | a built permission has the given parts and a description printed from its labels |
| `Permissions.DiffIPPermissionInfos` | pkg/networking/security_group_reconciler.go:128-145 | lists, once each, the permissions whose hash code only the first list has |
| `PermissionLabels.FindAllLeftmost` | pkg/networking/security_group_info.go:251-257 | the scanner finds the successive leftmost matches of the pattern, stated by position: a token, an equals sign, a token, then a comma or the end |
| `PermissionLabels.LabelsAreMatches` | pkg/networking/security_group_info.go:251-257 | a rule's labels are its description, overridden key by key by the last of those matches |
| `PermissionLabels.LabelRoundTrip` | pkg/networking/security_group_info.go:251-272 | parsing a printed description returns the labels and the raw description if and only if every key and value is non-empty and free of whitespace, comma and equals sign |
| `PermissionLabels.CleanLabelsSurvive` | pkg/networking/security_group_info.go:251-272 | clean labels survive printing and parsing, for any number of them |
| `PermissionLabels.SurvivingLabelsAreClean` | pkg/networking/security_group_info.go:251-257 | whatever survives was clean |
| `PermissionLabels.BuildIPPermissionLabelsForDescription` | pkg/networking/security_group_info.go:251-257 | the parsing loop yields the raw description overridden by the successive leftmost matches |
| `PermissionLabels.BuildIPPermissionDescriptionForLabels` | pkg/networking/security_group_info.go:260-272 | the printing loop yields the raw description or the pairs in ascending key order |
| `RuleSynthesis.EndToEndRouting` | pkg/ingress/model_build_listener_rules.go:59-70 | after an error-free synthesis, lowest-priority-first evaluation hands every origin-form request (section 3.2.1 of RFC 9112) to a rule whose conditions are those of the rule, and whose actions do what those are to do, that first-match on the built list without infinite redirects picks, and to none exactly if that picks none |
| `IngressRouting.IngressEndToEnd` | pkg/ingress/model_build_listener_rules.go:16-73 | from the Ingresses' hosts, paths and backend conditions to the listener: a request is handled by a rule that does what the actions of the first path it is for say, infinite redirects left out, and by none exactly if there is no such path; a path is for a request by host, by its type (element prefix, equality or pattern) and by its backend's conditions |
| `IngressRouting.BuildListenerRules` | pkg/ingress/model_build_listener_rules.go:16-73 | fails exactly if some path cannot be built; otherwise the built rules, optimized and numbered; nothing on an HTTP listener under SSL redirect |
| `IngressRouting.BuildRules` | pkg/ingress/model_build_listener_rules.go:21-53 | one rule per path in order, or failure exactly if some path cannot be built |
| `IngressRouting.BuiltMeaning` | pkg/ingress/model_build_listener_rules.go:75-138 | a path's rule matches an origin-form request if and only if the Ingress rule's host or one of the backend's does, the path by the meaning of its type or one of the backend's patterns does (where any is stated), and every other condition does |
| `IngressRouting.BuiltWellShaped` | pkg/ingress/model_build_listener_rules.go:128-137 | every built rule has the shape that the optimizer relies on |
| `IngressRouting.FiniteRouting` | pkg/ingress/model_build_listener_rules.go:21-53 | first-match on the finite rules is the rule of the first candidate path |
| `IngressRouting.NormalRedirectsAlike` | pkg/equality/elbv2/compare_option_for_actions.go:34-58 | a redirect that passes the drift test leads every request to the same place with the same status code |
| `RuleSynthesis.SameActionIff` | pkg/equality/elbv2/compare_option_for_actions.go:11-66 | the drift test passes if and only if the existing action does what is wanted: forwards to the same target groups, with the same weights if there are two or more and with the stickiness that is asked for; redirects with the same status code and fields, where an absent one is the request's own component; or is the same |
| `RuleSynthesis.InSyncStays` | pkg/deploy/elbv2/listener_rule_synthesizer.go:63-90 | if a listener is in sync before and after a pass that leaves correct rules alone, nothing has changed |
| `RuleSynthesis.SameConditionsMatch` | pkg/equality/elbv2/compare_option_for_rule_conditions.go:17-25 | conditions that the drift test takes for equal match the same requests |
| `RuleSynthesis.PriorityIsFirstMatch` | pkg/deploy/elbv2/listener_rule_synthesizer.go:63-138 | on a synchronised listener, lowest priority first is first-match on the list |
| `RuleSynthesis.SynthesizeListenerRulesOnListener` | pkg/deploy/elbv2/listener_rule_synthesizer.go:63-90 | from any rules with unique priorities: no two rules ever share a priority between calls, the default rule and every rule that is as wanted are untouched, an error-free pass leaves rules with the wanted conditions that do exactly what is wanted, it changes nothing on a listener in sync, and it fails only if a call failed |
| `RuleSynthesis.DeleteUnmatched` | pkg/deploy/elbv2/listener_rule_synthesizer.go:70-74 | afterwards the rules with kept priorities are as listed and no other non-default one is left |
| `RuleSynthesis.CreateUnmatched` | pkg/deploy/elbv2/listener_rule_synthesizer.go:75-81 | every creation is on a free priority; afterwards the kept rules and exactly the created ones are there |
| `RuleSynthesis.UpdateMatched` | pkg/deploy/elbv2/listener_rule_synthesizer.go:82-88 | afterwards every rule has the wanted conditions, up to the order of different fields, and does what is wanted, and those that did before are left alone |
| `RuleSynthesis.MapResByPriority` | pkg/deploy/elbv2/listener_rule_synthesizer.go:140-146 | the last desired rule of a priority wins |
| `RuleSynthesis.MapSdkByPriority` | pkg/deploy/elbv2/listener_rule_synthesizer.go:93-106 | every non-default rule is found under its priority |
| `RuleOptimizer.OvershadowingPreservesRouting` | pkg/ingress/rule_optimizer.go:63-84 | dropping overshadowed rules changes for no origin-form request which rule handles it, for every list of the shape that is built |
| `RuleOptimizer.SupersetSound` | pkg/ingress/rule_optimizer.go:140-169 | the superset test on condition values implies matching more requests |
| `RuleOptimizer.SupersetExact` | pkg/ingress/rule_optimizer.go:140-169 | for host and path conditions without wildcards and upper case on the left (or /*) the test succeeds if and only if every origin-form request that the right list matches is matched by the left one |
| `RuleOptimizer.SupersetTransitive` | pkg/ingress/rule_optimizer.go:140-169 | the superset test is transitive |
| `RuleOptimizer.GreedySeesAll` | pkg/ingress/rule_optimizer.go:63-84 | comparing with the kept rules only covers exactly what comparing with all earlier rules would |
| `RuleOptimizer.OmitOvershadowedRulesAfterRedirectRules` | pkg/ingress/rule_optimizer.go:63-84 | the greedy loop drops a rule if and only if some earlier redirect rule of the original list is a superset of it |
| `RuleOptimizer.OmitInfiniteRedirectRules` | pkg/ingress/rule_optimizer.go:52-61 | keeps, in order, exactly the rules that are not infinite redirects |
| `RuleOptimizer.IsInfiniteRedirectRule` | pkg/ingress/rule_optimizer.go:87-137 | each redirect field is absent, its own placeholder or one of the rule's own values; InfiniteIffReturns says what that means |
| `RuleOptimizer.IsSupersetConditions` | pkg/ingress/rule_optimizer.go:140-169 | the value-set comparison, with /* covering every path and unknown conditions refused on the left |
| `RuleOptimizer.FindRedirectActionConfig` | pkg/ingress/rule_optimizer.go:172-181 | the configuration of the first redirect action, by position, and none without one |
| `RuleOptimizer.Optimize` | pkg/ingress/rule_optimizer.go:46-50 | both passes in order |
| `RuleOptimizer.OptimizeIdempotent` | pkg/ingress/rule_optimizer.go:46-50 | optimizing twice is optimizing once |
| `RedirectLoops.InfiniteIffReturns` | pkg/ingress/rule_optimizer.go:87-137 | for redirects whose fields are absent, the request's own component or plain text, the test succeeds if and only if following the redirect leads every request on the listener back to its protocol, port and query, to the same host or one of the rule's and to the same path or one of the rule's |
| `RedirectLoops.NoReturningRedirectIsKept` | pkg/ingress/rule_optimizer.go:46-61 | no optimized rule leads any request on the listener back to the listener's own port and protocol if its host, path and query stay or are the rule's own plain values and its port and protocol are absent, the request's own or plain text |
| `RedirectLoops.MixedTemplateIsKept` | pkg/ingress/rule_optimizer.go:103-108 | a family of rules where the test fails: a host that is spelled with the port's placeholder always leads back, and the rule is kept |
| `RedirectLoops.InfiniteRedirectLoops` | pkg/ingress/rule_optimizer.go:52-61 | a request that a dropped rule matches stays on the port and protocol and matches the rule again after any number of redirects (section 15.4 of RFC 9110) |
| `RedirectLoops.LoopStep` | pkg/ingress/rule_optimizer.go:87-137 | one redirect leads back to the rule |
| `RedirectLoops.FollowStabilises` | pkg/ingress/rule_optimizer.go:87-137 | after the first redirect the request no longer changes |
| `RedirectLoops.ListLoopIff` | pkg/ingress/rule_optimizer.go:52-61 | within a whole list the same rule handles the request for ever if and only if no earlier rule matches the redirected request |
| `RedirectLoops.UnchangedTargetsLoop` | pkg/ingress/rule_optimizer.go:87-137 | a redirect that keeps host and path loops in every list |
| `RedirectLoops.DroppedRedirectNeedNotLoop` | pkg/ingress/rule_optimizer.go:52-61 | a concrete list where a dropped redirect was no loop, because an earlier rule answers its target |
| `Globs.MatchesItself` | pkg/ingress/rule_optimizer.go:87-137 | every pattern, read as text, matches itself |
| `PathPatterns.PrefixFaithful` | pkg/ingress/model_build_listener_rules.go:172-187 | pathType Prefix: the patterns of a wildcard-free path match a request path if and only if its elements are an element-wise prefix of the request's, where a trailing slash does not count |
| `PathPatterns.ExactFaithful` | pkg/ingress/model_build_listener_rules.go:165-170 | pathType Exact: wildcards are rejected, and otherwise exactly the path matches |
| `PathPatterns.PatternFaithful` | pkg/ingress/model_build_listener_rules.go:157-161 | pathType ImplementationSpecific, or none: every path is built, wildcards included, and matches exactly what it matches as a pattern |
| `PathPatterns.PathFaithful` | pkg/ingress/model_build_listener_rules.go:140-187 | for every type: patterns are built if and only if the path is allowed for it (no wildcards for Exact and Prefix, never for an unsupported one), and they match a request path if and only if the type says so |
| `RuleBuilding.BuildRuleConditions` | pkg/ingress/model_build_listener_rules.go:75-138 | fails exactly on a path that its type does not allow or an unconfigured condition; otherwise other conditions, then hosts, then paths, and /* if there is nothing; BuiltMeaning says which requests they match |
| `RuleBuilding.AssembledWellShaped` | pkg/ingress/model_build_listener_rules.go:128-137 | at most one host and one path condition, no empty value list, never no condition |
| `RuleBuilding.AssembledMeaning` | pkg/ingress/model_build_listener_rules.go:128-137 | a request matches if and only if some stated host, some stated path and every other condition do |
| `RuleBuilding.NumberRules` | pkg/ingress/model_build_listener_rules.go:59-70 | priorities 1 to n in list order, none on an HTTP listener under SSL redirect |
| `TargetRuns.ListingRefinesService` | pkg/targetgroupbinding/targets_manager.go:120-185 | over every run with interleaved changes, time, expiry and restarts, and with records that land on an item already replaced, a listing has each target once, misses only pending registrations, invents only pending deregistrations, and with none pending lists exactly the service's targets and which of them drain |
| `TargetRuns.InvariantHolds` | pkg/targetgroupbinding/targets_manager.go:78-146 | in every state each target cached as healthy is registered, cached targets are unique and they cover the group, up to pending changes |
| `TargetRuns.InvariantStep` | pkg/targetgroupbinding/targets_manager.go:78-267 | each step keeps that invariant |
| `Targets.RefreshAgrees` | pkg/targetgroupbinding/targets_manager.go:160-185 | asking only about targets not known to be healthy is enough |
| `Targets.RegisterAgrees` | pkg/targetgroupbinding/targets_manager.go:211-241 | recording a registration discharges it |
| `Targets.DeregisterAgrees` | pkg/targetgroupbinding/targets_manager.go:244-267 | recording a deregistration discharges it |
| `Targets.UniqueIDInjective` | pkg/targetgroupbinding/targets_manager_types.go:53-55 | id:port identifies a target, also for ids with colons |
| `TargetsManagers.ChunkTargetDescriptions` | pkg/targetgroupbinding/targets_manager.go:270-280 | chunks concatenate to the input, are non-empty, at most the chunk size, and all full but the last |
| `TargetsManagers.CachedTargetsManager.ListTargets` | pkg/targetgroupbinding/targets_manager.go:120-146 | from a coherent cache: exactly the group's targets, telling live from draining, each with the service's current health unless it was cached as healthy, and a coherent cache |
| `TargetsManagers.CachedTargetsManager.RefreshUnhealthyTargets` | pkg/targetgroupbinding/targets_manager.go:160-185 | known-healthy targets are kept and the answer for the others is appended without unregistered ones |
| `TargetsManagers.CachedTargetsManager.RegisterTargets` | pkg/targetgroupbinding/targets_manager.go:78-97 | live targets grow by exactly the chunks sent, all of them on success, and the cache stays coherent |
| `TargetsManagers.CachedTargetsManager.DeregisterTargets` | pkg/targetgroupbinding/targets_manager.go:99-118 | live targets shrink by exactly the chunks sent, all of them on success, and the cache stays coherent |
| `TargetsManagers.CachedTargetsManager.RecordSuccessfulRegister` | pkg/targetgroupbinding/targets_manager.go:211-241 | cached targets of the chunk become unknown in place, the others of the chunk are appended once, nothing else changes |
| `TargetsManagers.CachedTargetsManager.RecordSuccessfulDeregister` | pkg/targetgroupbinding/targets_manager.go:244-267 | cached targets of the chunk become unknown in place, nothing else changes |
| `TargetReconcile.ResourceManager.ReconcileWithIPTargetType` | pkg/targetgroupbinding/resource_manager.go:92-144 | every outcome keeps wanted targets and adds no unwanted one; unless a call failed the live targets are exactly the endpoints' and every gated pod that speaks is informed or gone; done only if nothing not-ready can become ready and the pass may finish, requeued only if some endpoint is to come or it may not, and after the delay only if some target is starting; the listing is of the group's state at some moment of the pass |
| `TargetReconcile.ResourceManager.ConvergeTargets` | pkg/targetgroupbinding/resource_manager.go:108-124 | the live targets become the endpoints'; the listing is of the group's state at some moment of the pass, and the matching that the probe phase works on is against it |
| `TargetReconcile.ResourceManager.ProbePods` | pkg/targetgroupbinding/resource_manager.go:126-143 | without failed calls and pods that vanish meanwhile, a pass is done if and only if no endpoint is to come and it may finish: every gated pod that speaks for an endpoint has a healthy target, or is gone and its condition is out of date; with vanishing pods the condition holds for those gone by the end, and fails for those gone at the start if it is requeued |
| `TargetReconcile.MayFinishIff` | pkg/targetgroupbinding/resource_manager.go:202-234 | a pass may finish if and only if every matched pair and every new endpoint is settled, so the loop's flag decides it |
| `ReadinessGates.FinishMeansReadyIff` | pkg/targetgroupbinding/resource_manager.go:355-387 | a pass that may finish means that every gated endpoint pod has a healthy target or is gone, whatever is listed and whoever is gone, if and only if every gated pod speaks for its own address and port |
| `ReadinessGates.SpokenOver` | pkg/targetgroupbinding/resource_manager.go:355-387 | for every gated pod that another speaks for, a listing and a set of gone pods with which the pass finishes while that pod is not ready |
| `ReadinessGates.UngatedSpeaker` | pkg/targetgroupbinding/resource_manager.go:238-242 | a concrete input: a later pod without the gate on the same address and port, and an unhealthy target; the pass may finish whoever is gone |
| `ReadinessGates.GoneSpeaker` | pkg/targetgroupbinding/resource_manager.go:288-291 | another: the later pod is gated and gone, so that its patch ends the probing |
| `TargetReconcile.LeavingAndJoining` | pkg/targetgroupbinding/resource_manager.go:355-387 | what is deregistered is unwanted, what is registered is missing, and together they are the whole difference |
| `TargetReconcile.MatchPodEndpointWithTargets` | pkg/targetgroupbinding/resource_manager.go:355-387 | pairs, new endpoints and leftover targets by address and port, each exactly and without repetition; of several endpoints on one address and port the last speaks |
| `TargetReconcile.PartitionTargetsByDrainingStatus` | pkg/targetgroupbinding/resource_manager.go:333-344 | splits by draining status, losing and repeating nothing |
| `TargetReconcile.UpdateTargetHealthPodCondition` | pkg/targetgroupbinding/resource_manager.go:202-234 | every gated pod is informed of its target's health or gone; no further probe only if all are settled counting pods gone by the end, and one only if not all are settled counting those gone at the start |
| `TargetReconcile.UpdateTargetHealthPodConditionForPod` | pkg/targetgroupbinding/resource_manager.go:238-296 | every patch is of the pod and tells its target's health (true, false or unknown); a gated pod has or is given that condition, or is gone; it needs no further probing exactly if the target is healthy, or a patch was due and the pod is gone, up to pods that vanish meanwhile |
| `TargetReconcile.ConditionTells` | pkg/targetgroupbinding/resource_manager.go:244-256 | the condition for a health is true if and only if it is known and healthy, false if and only if it is known and not, unknown if and only if it is unknown, with its reason and description, or without any |
| `TargetReconcile.ContainsTargetsInInitialState` | pkg/targetgroupbinding/resource_manager.go:346-353 | whether some pair's target is in the initial state |
| `TargetReconcile.ResourceManager.CleanupTargets` | pkg/targetgroupbinding/resource_manager.go:183-198 | no target stays live, and a missing group is no error |
| `EndpointResolver.ResolvePodEndpoints` | pkg/backend/endpoint_resolver.go:53-122 | exactly the pods behind ready addresses and behind not-ready ones held back only by the gate; potential endpoints and failures exactly when some address says so |
| `EndpointResolver.PotentialIff` | pkg/backend/endpoint_resolver.go:96-114 | an address is potentially ready if and only if it gives no endpoint now and does once its pod is found or the containers of its gated pod are ready |
| `EndpointResolver.ResolveSubset` | pkg/backend/endpoint_resolver.go:74-118 | the same for one subset and the selected ports |
| `FinalizerProtocol.DeployedIsHeld` | controllers/ingress/group_controller.go:116-153 | in every state of every run with interleaved workers, failures, edits and restarts, an Ingress deployed for a group exists and holds the group's finalizer, provided that no worker that adds finalizers reads a version older than its group's last own write |
| `FinalizerProtocol.VanishedIsNotDeployed` | controllers/ingress/group_controller.go:116-153 | so an Ingress vanishes only when no group has it deployed |
| `FinalizerProtocol.InvariantStep` | controllers/ingress/group_controller.go:116-153 | each read, patch, deploy step, edit, removal and restart keeps the invariant |
| `FinalizerProtocol.ShapeStep` | pkg/k8s/finalizer.go:30-70 | whatever is read, nobody but the group's own worker takes its finalizer off, since its last own write |
| `FinalizerProtocol.BadReadIsStale` | pkg/k8s/finalizer.go:30-49 | a read that shows a finalizer no longer held is of a version older than the group's last own write |
| `FinalizerProtocol.SeenIsHeldIff` | pkg/k8s/finalizer.go:30-49 | a finalizer seen in some version is still there if and only if every later removal was followed by adding it again |
| `FinalizerProtocol.StaleReadBreaks` | pkg/k8s/finalizer.go:30-49 | whenever any read of an adding worker shows a finalizer that is no longer held and the worker gets to the end of deploying, whatever else happens on the way short of someone else adding it, the Ingress is deployed without it |
| `FinalizerRace.StaleReadIsReachable` | controllers/ingress/group_controller.go:116-153 | a concrete run that gets there: the Ingress rejoins between loading and removing, and the next reconcile reads the version in between |
| `FinalizerProtocol.PatchLosesNothing` | pkg/k8s/finalizer.go:47-68 | an accepted patch changes the worker's own finalizer and nothing else, so concurrent adds and removes lose no update |
| `FinalizerProtocol.FinalizersDiffer` | pkg/ingress/finalizer.go:63-68 | two groups that deal with one Ingress have different finalizers |
| `IngressGroups.MemberIff` | pkg/ingress/group_loader.go:150-236 | which group an Ingress that is not being deleted and is taken care of belongs to: the one that its class names, else the one that its annotation names, if the name is valid, else its own; the class annotation outranks the class name |
| `IngressGroups.ClassMembers` | pkg/ingress/group_loader.go:214-224 | all Ingresses of a class that sets a valid group name are members of that group and of no other, whatever their annotations say |
| `IngressGroups.FinalizerRoundTrip` | pkg/ingress/group_loader.go:118-129 | decoding a finalizer inverts encoding a group |
| `IngressGroups.LoadGroupIDsPendingFinalization` | pkg/ingress/group_loader.go:118-129 | exactly the groups whose finalizer the Ingress holds |
| `IngressGroups.EnqueueIfBelongsToGroup` | controllers/ingress/eventhandlers/ingress_events.go:67-90 | an event wakes up exactly the groups that would list the Ingress, as member or as inactive |
| `IngressGroups.Load` | pkg/ingress/group_loader.go:79-111 | fails exactly on a failed lookup or bad orders; otherwise the sorted members and the inactive holders of the finalizer, each once |
| `IngressGroups.LoadCoversFinalizers` | pkg/ingress/group_loader.go:79-111 | members and inactive members are disjoint and cover every holder of the finalizer |
| `IngressGroups.SortGroupMembers` | pkg/ingress/group_loader.go:257-301 | fails exactly on malformed, out-of-range or repeated explicit orders; otherwise sorts by order and full name |
| `IngressGroups.SortedMeans` | pkg/ingress/group_loader.go:284-294 | members without an order come first and are sorted by full name, where a prefix or the smaller character at the first difference comes first; the others follow by ascending order |
| `Text.LexLeIff` | pkg/ingress/group_loader.go:291-293 | the order on strings is that of a prefix or of the first difference |
| `IngressGroups.SortedUnique` | pkg/ingress/group_loader.go:284-294 | there is one sorted list per set of Ingresses |
| `IngressGroups.LoadOrderIndependent` | pkg/ingress/group_loader.go:79-111 | the sorted member list and failure are the same for every permutation of the listing |
| `StackDeployer.Deployer.Deploy` | pkg/deploy/stack_deployer.go:85-121 | for any closed stack and any existing resources, exactly when a deletion hits something in use: a security group while attached, if and only if a group given up is supplied to a load balancer; a target group while a listener or rule names it, if and only if an unwanted one is supplied to a listener or named on a kept load balancer that is not synthesized; a target group while a binding names it, if and only if two bindings named an unwanted one or one is to be supplied with it; the safe direction on every outcome; on success, told by the resource IDs in the tags and the stack alone: exactly the desired security groups are left, one each; every target group and load balancer is of its desired ID, type, protocol, scheme, health check and security groups, none is missing; recorded listeners and rules name exactly target groups of the desired IDs; what is desired to be bound is, as the stack says; and what could be used was kept, target groups that were as desired as they were |
| `StackDeployer.UsuallySafe` | pkg/deploy/stack_deployer.go:85-121 | if nothing of the stack's own is supplied, every desired load balancer has a listener and no two existing ones have one resource ID, then no security group is deleted while attached and no target group while a listener or rule names it |
| `StackDeployer.StrayListenerIsPossible` | pkg/deploy/elbv2/load_balancer_synthesizer.go:111-130 | a family of clouds where it fails: two load balancers with one resource ID name an unwanted target group, and one of them is not synthesized, whichever is recorded |
| `StackDeployer.OwnGroupSupplied` | pkg/deploy/ec2/security_group_synthesizer.go:97-150 | another: the user supplies the group that the stack had managed so far |
| `StackDeployer.SharedUnwantedIsPossible` | pkg/deploy/elbv2/target_group_binding_synthesizer.go:142-149 | a concrete cloud with such bindings |
| `StackDeployer.BindingsLeft` | pkg/deploy/elbv2/target_group_binding_synthesizer.go:98-149 | a binding is left for an unwanted target group exactly if there were two, or if one is to be supplied with it |
| `StackDeployer.ListenersReleased` | pkg/deploy/elbv2/listener_synthesizer.go:33-80 | after synthesis a listener or rule names an unwanted target group exactly if a desired one supplies it or a kept load balancer that is not synthesized names it |
| `StackDeployer.GroupsDetached` | pkg/deploy/elbv2/load_balancer_synthesizer.go:39-76 | after synthesis a group given up is attached exactly if it is supplied to a load balancer |
| `StackDeployer.Deployer.SynthesizeSecurityGroups` | pkg/deploy/ec2/security_group_synthesizer.go:42-72 | every desired group has an ID that is tagged with it, an existing one if there is one, and the deletion list has exactly the other existing ones |
| `StackDeployer.Deployer.PostSynthesizeSecurityGroups` | pkg/deploy/ec2/security_group_synthesizer.go:74-81 | deletes the list, all detached if and only if no load balancer has any of it |
| `StackDeployer.Deployer.SynthesizeTargetGroups` | pkg/deploy/elbv2/target_group_synthesizer.go:41-72 | the deletion list is exactly the unwanted target groups; every desired one has the ARN of one tagged with its ID, and every target group off the list has the type, protocol, stated version and stated health check of the desired one of its ID; those that had are as they were |
| `StackDeployer.Deployer.CreateTargetGroups` | pkg/deploy/elbv2/target_group_synthesizer.go:57-63 | each missing one is created with its own ID and spec and recorded, and the existing ones are untouched |
| `StackDeployer.Deployer.UpdateTargetGroups` | pkg/deploy/elbv2/target_group_synthesizer.go:64-70 | only health checks change, each pair's target group becomes as desired, those that were stay, and each ID records one of its own |
| `StackDeployer.Deployer.UpdateTargetGroup` | pkg/deploy/elbv2/target_group_manager.go:126-187 | a drifted health check is modified to what is stated, and nothing is done otherwise |
| `StackDeployer.ReusedTargets` | pkg/deploy/elbv2/target_group_synthesizer.go:160-201 | an existing target group is left if and only if ID, type, protocol, stated version and, with an NLB's protocol, most of the stated health check are those of a desired one |
| `StackDeployer.DeployedLbs` | pkg/deploy/elbv2/load_balancer_synthesizer.go:39-76 | what is recorded means, in the tags: security groups, listeners and rules name exactly what the stack refers to |
| `StackDeployer.DeployedBindings` | pkg/deploy/elbv2/target_group_binding_synthesizer.go:38-76 | after deletion every desired target group is bound as the last desired binding for it says, and any other binding was one of several |
| `StackDeployer.Deployer.PostSynthesizeTargetGroups` | pkg/deploy/elbv2/target_group_synthesizer.go:74-81 | deletes the list, all released if and only if no listener names any of it, all unbound if and only if no binding does |
| `StackDeployer.Deployer.SynthesizeLoadBalancers` | pkg/deploy/elbv2/load_balancer_synthesizer.go:39-76 | every load balancer that is left is for a desired one, of its type and stated scheme, and has the desired security groups; of several existing ones for one ID all are kept and one is recorded; listeners stay as they are |
| `StackDeployer.Deployer.SynthesizeListeners` | pkg/deploy/elbv2/listener_synthesizer.go:33-47 | every recorded load balancer with desired listeners gets exactly those ports and targets, and no other is touched |
| `StackDeployer.Deployer.SynthesizeListenersOnLB` | pkg/deploy/elbv2/listener_synthesizer.go:54-80 | the same for one load balancer, touching no other |
| `StackDeployer.Deployer.SynthesizeListenerRules` | pkg/deploy/elbv2/listener_rule_synthesizer.go:35-56 | every desired listener gets exactly the desired rules |
| `StackDeployer.Deployer.SynthesizeBindings` | pkg/deploy/elbv2/target_group_binding_synthesizer.go:38-67 | existing bindings keep their target groups; those that differ or are new are as the last desired one for their target group says, new ones with its name; every desired target group has such a binding, and one binding per undesired target group is put on the deletion list |
| `StackDeployer.Deployer.UpdateBindings` | pkg/deploy/elbv2/target_group_binding_manager.go:94-120 | the binding seen for a desired target group is patched to what is desired, and no binding changes its target group |
| `StackDeployer.Deployer.PostSynthesizeBindings` | pkg/deploy/elbv2/target_group_binding_synthesizer.go:69-76 | removes exactly the listed bindings |
| `DeployMatching.MatchByResourceID` | pkg/deploy/elbv2/target_group_synthesizer.go:97-158 | conserves: each existing resource is paired or unmatched by whether it serves a desired one, each desired one that nothing serves is unmatched; fails exactly on a missing resource ID |
| `DeployMatching.MatchOne` | pkg/deploy/elbv2/load_balancer_synthesizer.go:111-130 | all existing resources of one ID that need no replacement are paired |
| `DeployMatching.MatchSecurityGroups` | pkg/deploy/ec2/security_group_synthesizer.go:97-150 | at most one security group per ID is kept and all others are unmatched |
| `ListenPorts.MergeByPort` | pkg/ingress/model_builder.go:186-210 | every port's configurations are merged; fails exactly if some port's disagree |
| `ListenPorts.GroupByPort` | pkg/ingress/model_builder.go:186-201 | whatever the map iteration order, each port's list is the member sequence filtered by the port |
| `ListenPorts.OnInOrder` | pkg/ingress/model_builder.go:186-201 | that is: by strictly increasing positions, exactly those of the members that listen on the port |
| `ListenPorts.MergeListenPortConfigs` | pkg/ingress/model_builder.go:238-308 | succeeds if and only if protocols, stated CIDR sets and stated policies agree; the result and its defaults |
| `ListenPorts.MergeOrderIndependent` | pkg/ingress/model_builder.go:238-308 | permuting or repeating the configurations changes nothing but the order of certificates |
| `ListenPorts.FirstOccurrencesOrder` | pkg/ingress/model_builder.go:284-290 | certificates come without duplicates in order of first occurrence |
| `PodEni.PodENIInfoResolver.Resolve` | pkg/networking/pod_eni_info_resolver.go:67-90 | the answer's keys are exactly the requested pods' keys and each answer belongs to a requested pod and was cached or is an interface as it is; it fails only if a call failed or some pod is not cached, has no address of any interface and no annotation naming one; what is cached belonged to a pod of that key when it was asked about, and of that UID too if requests are alike per key |
| `PodEni.NoMoreThanPods` | pkg/networking/pod_eni_info_resolver.go:252-261 | the capacity is never negative at any call, duplicates included |
| `PodEni.ComputePodsWithoutENIInfo` | pkg/networking/pod_eni_info_resolver.go:252-261 | exactly the pods without an answer |
| `PodEni.ResolveViaCascadedLookup` | pkg/networking/pod_eni_info_resolver.go:129-152 | answers with interfaces as they are, by annotation or address of requested pods, for every pod whose address some interface has and, by annotation, for every key of a pod whose annotation names one |
| `PodEni.ResolveViaPodENIAnnotation` | pkg/networking/pod_eni_info_resolver.go:155-192 | every answer is the interface that a requested pod's annotation names for its address, and every pod whose annotation names one is answered |
| `PodEni.AnnotatedIff` | pkg/networking/pod_eni_info_resolver.go:158-163 | of several entries of an annotation for the pod's address the last counts |
| `PodEni.ResolveViaVPCIPAddress` | pkg/networking/pod_eni_info_resolver.go:195-241 | every pod whose address some interface has is answered with such an interface, chunks losing none |
| `PodEni.PodENIInfoResolver.FetchENIInfosFromCache` | pkg/networking/pod_eni_info_resolver.go:100-114 | every cached pod is answered, from its own key and UID |
| `PodEni.PodENIInfoResolver.SaveENIInfosToCache` | pkg/networking/pod_eni_info_resolver.go:116-127 | one answer is stored for every requested pod of its key, whatever its UID, and nothing else changes |
| `PodEni.SavedByUIDIff` | pkg/networking/pod_eni_info_resolver.go:92-98 | what is stored for a key and UID belongs to a pod of that UID, whatever the answer, if and only if requested pods of one key cannot be told apart by address and annotation |
| `PodEni.ReplacedPod` | pkg/networking/pod_eni_info_resolver.go:116-127 | an input where it fails: a pod that was replaced under its name while the request was put together |
| `PodEni.Serve` | pkg/networking/pod_eni_info_resolver.go:67-90 | over any history of requests, expiring entries and changing interfaces every answer belonged to a pod of its key when looked up |
| `PodEni.AnsweredAt` | pkg/networking/pod_eni_info_resolver.go:92-98 | and at every point of it belongs to the requested pod itself if pods of one key and UID keep address and annotation, as the source assumes, and earlier requests were alike per key |
| `PodEni.PodENIInfoResolver.Expire` | pkg/networking/pod_eni_info_resolver.go:100-114 | expiring entries keep the cache invariants |
| `HealthCheckNetworking.AdmittedExactly` | pkg/service/model_build_target_group.go:427-513 | the rules admit a packet if and only if it is for the Service's protocol and port and from an effective range (the Service's, else its annotation's, else the defaults where client addresses arrive or over UDP, and the subnets otherwise), or for TCP and the probed port from the subnets where probes have a rule of their own |
| `HealthCheckNetworking.HealthChecksAdmitted` | pkg/service/model_build_target_group.go:427-513 | for every protocol, client address setting, source ranges and ports, a TCP health check from the load balancer's subnets is admitted by the rules built if and only if it is not on port zero of a named target port in a branch that relies on the traffic rule |

## Left out

- AWS SDK and Kubernetes client internals, pagination, throttling, metrics, webhooks, logging and events.
- Resource names from SHA-256 and their truncation; tags and attributes and their diffing; WAF, Shield and certificate discovery.
- Instance-type targets: the same matching on instance ids, without readiness gates.
- Choosing the endpoint security group of an interface by its cluster tag (pkg/targetgroupbinding/networking_manager.go:415-438): the chosen groups are an input.
- Cross-group source accounts, and EC2 permissions with several kinds of unknown sources: one unknown source is kept as a payload.
- Requests delayed in the network past a restart of the controller: every call takes effect at once or not at all.
- Concurrent use of one security-group snapshot by two reconciles: the networking manager's mutex excludes it for endpoint groups.
- Unicode case folding of host names: ASCII letters only.
- Regular-expression engine: the one pattern for labels is written out as a scanner.
- Stack internals: the stack is a finite set of desired resources whose references name each other or user-supplied ones; listeners are nested in their load balancer, rules in their listener.
- StackDeployer.Deployer.Deploy: which of several security groups or load balancers with one resource ID is kept or recorded depends on the order in which they are listed, so the first two conditions speak of the recorded ones; what a failed run leaves is only stated for deletions.
- StackDeployer.Deployer.SynthesizeTargetGroups: the attributes and tags other than the resource ID of a target group are not tracked, because no other stage depends on them.
- StackDeployer.Deployer.SynthesizeSecurityGroups: the ingress rules of a security group are not tracked here; reconciling them is in SecurityGroups.
- StackDeployer.Deployer.SynthesizeListenerRules: follows only which target groups rules name; priorities, conditions and drift are in RuleSynthesis.
- TargetReconcile.ResourceManager.ProbePods: pods that vanish during a pass may be found gone or not, at any of their patches; the exact condition is stated for passes without them.
- FinalizerProtocol.DeployedIsHeld: deployment is tracked per Ingress, not per version of its content.
- Building the load balancer, its listeners' default actions, authentication and SSL redirect configuration: they only add easy members.
