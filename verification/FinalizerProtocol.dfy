/** The finalizer protocol of Ingress groups as a state machine. */
module FinalizerProtocol {
  import opened Text
  import opened IngressGroups

  // Workers of different groups interleave at every read and every patch, and stop anywhere;
  // users edit Ingresses, and Kubernetes removes an object that is being deleted once it has no
  // finalizers (controllers/ingress/group_controller.go, pkg/ingress/finalizer.go,
  // pkg/k8s/finalizer.go).

  /** An Ingress's namespace and name, which are also its implicit group. */
  type Key = GroupID

  /** All versions of an object, the current one last. Readers may see any of them. */
  type History = seq<Option<Ingress>>

  datatype Phase = Adding | Deploying | Removing

  datatype Reading = Reading(key: Key, version: nat)

  /** A reconcile of one group; a group has at most one at a time. */
  datatype Worker = Worker(members: set<Key>, inactive: set<Key>, phase: Phase, done: set<Key>,
      reading: Option<Reading>)

  datatype Author = Author(group: GroupID, key: Key)

  /**
   * `deployed` has, per group, the Ingresses whose content is in the group's AWS resources, and
   * `writes` the version that a group's last accepted patch of an Ingress made.
   */
  datatype State = State(
    objects: map<Key, History>,
    workers: map<GroupID, Worker>,
    deployed: map<GroupID, set<Key>>,
    writes: map<Author, nat>)

  datatype Action =
    | Load(view: map<Key, nat>, cfg: Config, result: LoadResult)
    | Get(key: Key, version: nat)
    | Patch
    | BeginDeploy
    | DeploySome(now: set<Key>)
    | EndDeploy
    | Stop

  datatype Step =
    | Act(group: GroupID, action: Action)
    | Edit(key: Key, object: Ingress)
    | Vanish(key: Key)
    | Restart

  function DeployedBy(s: State, g: GroupID): set<Key> { if g in s.deployed then s.deployed[g] else {} }

  function LastWrite(writes: map<Author, nat>, g: GroupID, k: Key): nat {
    if Author(g, k) in writes then writes[Author(g, k)] else 0
  }

  predicate Has(o: Option<Ingress>, f: string) { o.Some? && f in o.value.finalizers }

  predicate Held(s: State, g: GroupID, k: Key) {
    k in s.objects && s.objects[k] != [] && Has(s.objects[k][|s.objects[k]| - 1], BuildGroupFinalizer(g))
  }

  /** Group g may deal with the Ingress at k. */
  predicate Concerns(g: GroupID, k: Key) { g.IsExplicit() || g == k }

  /** Two groups that deal with one Ingress have different finalizers. */
  lemma FinalizersDiffer(g: GroupID, h: GroupID, k: Key)
    requires Concerns(g, k) && Concerns(h, k) && !k.IsExplicit()
    ensures BuildGroupFinalizer(g) == BuildGroupFinalizer(h) <==> g == h
  {
    assert IMPLICIT_FINALIZER[0] != EXPLICIT_PREFIX[0];
    if g.IsExplicit() && h.IsExplicit() && BuildGroupFinalizer(g) == BuildGroupFinalizer(h) {
      CommonPrefix(EXPLICIT_PREFIX, g.name, h.name);
    } else if g.IsExplicit() {
      assert BuildGroupFinalizer(g)[0] == EXPLICIT_PREFIX[0];
    } else if h.IsExplicit() {
      assert BuildGroupFinalizer(h)[0] == EXPLICIT_PREFIX[0];
    }
  }

  // ---------------------------------------------------------------- the steps

  function Without(s: seq<string>, f: string): (r: seq<string>)
    ensures forall x :: x in r <==> x in s && x != f
  {
    if s == [] then []
    else
      var n := |s| - 1;
      assert s == s[..n] + [s[n]];
      if s[n] == f then Without(s[..n], f) else Without(s[..n], f) + [s[n]]
  }

  /** The finalizers that a worker writes, computed from the version it has read. */
  function Patched(phase: Phase, finalizers: seq<string>, f: string): seq<string> {
    if phase.Adding? then finalizers + [f] else Without(finalizers, f)
  }

  function Snapshot(s: State, view: map<Key, nat>): set<Ingress> {
    set k | k in s.objects && k in view && view[k] < |s.objects[k]| && s.objects[k][view[k]].Some? ::
      s.objects[k][view[k]].value
  }

  function Keys(ings: seq<Ingress>): set<Key> { set x | x in ings :: ImplicitID(x) }

  function SetWorker(s: State, g: GroupID, w: Worker): State { s.(workers := s.workers[g := w]) }

  function Push(s: State, k: Key, o: Option<Ingress>): State {
    if k in s.objects then s.(objects := s.objects[k := s.objects[k] + [o]]) else s
  }

  ghost predicate NextAct(s: State, g: GroupID, a: Action, s': State) {
    if a.Load? then
      && g !in s.workers && a.result.Group?
      && a.view.Keys == s.objects.Keys
      && (forall k <- a.view :: a.view[k] < |s.objects[k]|)
      && LoadedFrom(a.cfg, g, Snapshot(s, a.view), a.result)
      && s' == SetWorker(s, g, Worker(Keys(a.result.members), Keys(a.result.inactive), Adding, {}, None))
    else
      g in s.workers && NextWork(s, g, s.workers[g], a, s')
  }

  ghost predicate NextWork(s: State, g: GroupID, w: Worker, a: Action, s': State) {
    match a
    case Load(_, _, _) => false
    case Get(k, v) =>
      && w.reading.None? && !w.phase.Deploying?
      && k in (if w.phase.Adding? then w.members else w.inactive) - w.done
      && k in s.objects && v < |s.objects[k]| && s.objects[k][v].Some?
      && s' == SetWorker(s, g,
           if Has(s.objects[k][v], BuildGroupFinalizer(g)) == w.phase.Adding? then w.(done := w.done + {k})
           else w.(reading := Some(Reading(k, v))))
    case Patch =>
      && w.reading.Some?
      && NextPatch(s, g, w, w.reading.value.key, w.reading.value.version, s')
    case BeginDeploy =>
      && w.phase.Adding? && w.done == w.members
      && s' == SetWorker(s, g, w.(phase := Deploying, done := {}, reading := None))
    case DeploySome(now) =>
      && w.phase.Deploying? && now <= DeployedBy(s, g) + w.members
      && s' == s.(deployed := s.deployed[g := now])
    case EndDeploy =>
      && w.phase.Deploying?
      && s' == SetWorker(s, g, w.(phase := Removing, done := {}, reading := None)).(deployed :=
        s.deployed[g := w.members])
    case Stop =>
      s' == s.(workers := s.workers - {g})
  }

  /**
   * The patch carries the version that was read: it replaces the finalizers if the object is
   * still at that version, and is refused, to be tried again, if it is not.
   */
  ghost predicate NextPatch(s: State, g: GroupID, w: Worker, k: Key, v: nat, s': State) {
    && k in s.objects && v < |s.objects[k]| && s.objects[k][v].Some?
    && var read := s.objects[k][v].value;
       if v == |s.objects[k]| - 1 then
         s' == Push(SetWorker(s, g, w.(done := w.done + {k}, reading := None)), k,
                    Some(read.(finalizers := Patched(w.phase, read.finalizers, BuildGroupFinalizer(g)))))
                 .(writes := s.writes[Author(g, k) := |s.objects[k]|])
       else
         s' == SetWorker(s, g, w.(reading := None))
  }

  ghost predicate Next(s: State, step: Step, s': State) {
    match step
    case Act(g, a) => NextAct(s, g, a, s')
    case Edit(k, o) =>
      && k in s.objects && s.objects[k] != [] && ImplicitID(o) == k
      && s' == Push(s, k, Some(o))
      && var last := s.objects[k][|s.objects[k]| - 1];
         last.Some? ==> (last.value.deleting ==> o.deleting) && KeepsOurs(last.value.finalizers, o.finalizers)
    case Vanish(k) =>
      && k in s.objects && s.objects[k] != []
      && s' == Push(s, k, None)
      && var last := s.objects[k][|s.objects[k]| - 1];
         last.Some? && last.value.deleting && last.value.finalizers == []
    case Restart =>
      s' == s.(workers := map[])
  }

  /** Others manage their own finalizers and leave this controller's alone. */
  ghost predicate KeepsOurs(a: seq<string>, b: seq<string>) {
    forall g: GroupID :: BuildGroupFinalizer(g) in a ==> BuildGroupFinalizer(g) in b
  }

  ghost predicate Run(states: seq<State>, steps: seq<Step>) {
    |states| == |steps| + 1 && forall i :: 0 <= i < |steps| ==> Next(states[i], steps[i], states[i + 1])
  }

  // ---------------------------------------------------------------- reads that may be stale

  predicate RemovedAt(h: History, f: string, w: nat) { 0 < w < |h| && Has(h[w - 1], f) && !Has(h[w], f) }
  predicate AddedAt(h: History, f: string, w: nat) { 0 < w < |h| && !Has(h[w - 1], f) && Has(h[w], f) }

  /** Every removal of the finalizer after version v has been followed by adding it again. */
  ghost predicate Unrevoked(h: History, f: string, v: nat) {
    forall w :: v < w < |h| && RemovedAt(h, f, w) ==> exists u :: w < u < |h| && AddedAt(h, f, u)
  }

  /** Without a removal that is not made up for, a finalizer seen once is still there, and conversely. */
  lemma {:induction false} SeenIsHeldIff(h: History, f: string, v: nat)
    requires v < |h| && Has(h[v], f)
    ensures Has(h[|h| - 1], f) <==> Unrevoked(h, f, v)
  {
    if Has(h[|h| - 1], f) {
      forall w | v < w < |h| && RemovedAt(h, f, w) ensures exists u :: w < u < |h| && AddedAt(h, f, u) {
        var u := LastChange(h, f, w);
      }
    } else {
      var w := LastLoss(h, f, v);
    }
  }

  lemma LastChange(h: History, f: string, w: nat) returns (u: nat)
    requires w < |h| && !Has(h[w], f) && Has(h[|h| - 1], f)
    ensures w < u < |h| && AddedAt(h, f, u)
    decreases |h| - w
  {
    if Has(h[w + 1], f) { u := w + 1; } else { u := LastChange(h, f, w + 1); }
  }

  /** The removal after which the finalizer never came back. */
  lemma LastLoss(h: History, f: string, v: nat) returns (w: nat)
    requires v < |h| && Has(h[v], f) && !Has(h[|h| - 1], f)
    ensures v < w < |h| && RemovedAt(h, f, w)
    ensures forall u :: w < u < |h| ==> !AddedAt(h, f, u)
    decreases |h| - v
  {
    if n :| v < n < |h| && Has(h[n], f) {
      w := LastLoss(h, f, n);
    } else {
      w := v + 1;
      assert !Has(h[v + 1], f);
    }
  }

  /** A worker that adds finalizers reads no version older than its group's last own write. */
  ghost predicate ReadsOwnWrites(s: State, step: Step) {
    step.Act? && step.action.Get? && step.group in s.workers && s.workers[step.group].phase.Adding? ==>
      LastWrite(s.writes, step.group, step.action.key) <= step.action.version
  }

  // ---------------------------------------------------------------- what holds whatever is read

  ghost predicate WellFormed(objects: map<Key, History>) {
    forall k <- objects ::
      && objects[k] != [] && !k.IsExplicit()
      && forall v :: 0 <= v < |objects[k]| && objects[k][v].Some? ==> ImplicitID(objects[k][v].value) == k
  }

  /** The keys that a worker still has to read. */
  function Remaining(w: Worker): set<Key> { (if w.phase.Adding? then w.members else w.inactive) - w.done }

  ghost predicate WorkerShape(g: GroupID, w: Worker) {
    && w.members !! w.inactive
    && (forall k <- w.members + w.inactive :: Concerns(g, k))
    && (w.phase.Adding? ==> w.done <= w.members)
    && (w.phase.Deploying? ==> w.reading.None?)
    && (w.reading.Some? ==> w.reading.value.key in Remaining(w))
  }

  /** Since its last own write, nobody has taken a group's finalizer off an Ingress. */
  ghost predicate OnlyOwnRemovals(objects: map<Key, History>, writes: map<Author, nat>) {
    forall g: GroupID, k <- objects, w: nat :: Concerns(g, k) && RemovedAt(objects[k], BuildGroupFinalizer(g), w) ==>
      w <= LastWrite(writes, g, k)
  }

  ghost predicate Shape(s: State) {
    && WellFormed(s.objects) && OnlyOwnRemovals(s.objects, s.writes)
    && (forall g <- s.workers :: WorkerShape(g, s.workers[g]))
  }

  /** A read that shows a finalizer no longer held is older than the group's last own write. */
  lemma BadReadIsStale(s: State, g: GroupID, k: Key, v: nat)
    requires Shape(s) && Concerns(g, k) && k in s.objects && v < |s.objects[k]|
    requires Has(s.objects[k][v], BuildGroupFinalizer(g)) && !Held(s, g, k)
    ensures v < LastWrite(s.writes, g, k)
  {
    var h, f := s.objects[k], BuildGroupFinalizer(g);
    SeenIsHeldIff(h, f, v);
    var w :| v < w < |h| && RemovedAt(h, f, w) && !exists u :: w < u < |h| && AddedAt(h, f, u);
  }

  // ---------------------------------------------------------------- the invariant

  ghost predicate WorkerOk(s: State, g: GroupID, w: Worker) {
    && (w.phase.Adding? ==> forall k <- w.done :: Held(s, g, k))
    && (w.phase.Deploying? ==> forall k <- w.members :: Held(s, g, k))
    && (w.phase.Removing? ==> DeployedBy(s, g) == w.members)
  }

  ghost predicate GroupOk(s: State, g: GroupID) {
    && (forall k <- DeployedBy(s, g) :: Concerns(g, k) && Held(s, g, k))
    && (g in s.workers ==> WorkerOk(s, g, s.workers[g]))
  }

  ghost predicate Invariant(s: State) { Shape(s) && forall g: GroupID :: GroupOk(s, g) }

  /** A cluster in which no reconcile is under way. */
  ghost predicate Quiet(s: State) { Invariant(s) && s.workers == map[] }

  ghost predicate StillHeld(s: State, s': State, g: GroupID) {
    forall k :: Concerns(g, k) && Held(s, g, k) ==> Held(s', g, k)
  }

  lemma Undisturbed(s: State, s': State, g: GroupID)
    requires Shape(s) && GroupOk(s, g) && StillHeld(s, s', g)
    requires DeployedBy(s', g) == DeployedBy(s, g)
    requires g in s'.workers ==> g in s.workers && s'.workers[g] == s.workers[g]
    ensures GroupOk(s', g)
  {
  }

  lemma LoadShape(s: State, g: GroupID, a: Action, s': State)
    requires Shape(s) && a.Load? && NextAct(s, g, a, s')
    ensures WorkerShape(g, s'.workers[g])
  {
    var r, snap := a.result, Snapshot(s, a.view);
    LoadCoversFinalizers(a.cfg, g, snap, r);
    forall x | x in r.members ensures x in snap && Concerns(g, ImplicitID(x)) {
      assert x in Elements(r.members);
      assert MemberOf(a.cfg, g, x);
    }
    forall x | x in r.inactive ensures x in snap && Concerns(g, ImplicitID(x)) { assert x in Elements(r.inactive); }
    forall x, y | x in r.members && y in r.inactive ensures ImplicitID(x) != ImplicitID(y) {
      assert x in Elements(r.members) && y in Elements(r.inactive);
    }
    var w := s'.workers[g];
    assert forall k <- w.members :: exists x <- r.members :: ImplicitID(x) == k;
    assert forall k <- w.inactive :: exists x <- r.inactive :: ImplicitID(x) == k;
    assert w.members !! w.inactive;
  }

  /** A new version in which the finalizers of the other groups are kept. */
  lemma PushShape(objects: map<Key, History>, writes: map<Author, nat>, k: Key, o: Option<Ingress>,
      author: Option<GroupID>)
    requires WellFormed(objects) && OnlyOwnRemovals(objects, writes)
    requires k in objects && (o.Some? ==> ImplicitID(o.value) == k)
    requires forall g: GroupID ::
      Concerns(g, k) && Some(g) != author && Has(objects[k][|objects[k]| - 1], BuildGroupFinalizer(g)) ==>
      Has(o, BuildGroupFinalizer(g))
    ensures WellFormed(objects[k := objects[k] + [o]])
    ensures OnlyOwnRemovals(objects[k := objects[k] + [o]],
      if author.Some? then writes[Author(author.value, k) := |objects[k]|] else writes)
  {
    var h := objects[k] + [o];
    var writes' := if author.Some? then writes[Author(author.value, k) := |objects[k]|] else writes;
    forall g: GroupID, w: nat | Concerns(g, k) && RemovedAt(h, BuildGroupFinalizer(g), w)
      ensures w <= LastWrite(writes', g, k) {
      if w < |objects[k]| { assert RemovedAt(objects[k], BuildGroupFinalizer(g), w); }
    }
    forall v | 0 <= v < |h| && h[v].Some? ensures ImplicitID(h[v].value) == k {
      if v < |objects[k]| { assert h[v] == objects[k][v]; }
    }
  }

  lemma PatchShape(s: State, g: GroupID, s': State)
    requires Shape(s) && NextAct(s, g, Patch, s')
    ensures Shape(s')
  {
    hide OnlyOwnRemovals;
    var w := s.workers[g];
    var k, v := w.reading.value.key, w.reading.value.version;
    if s'.objects != s.objects {
      PatchLosesNothing(s, g, w, k, v, s');
      forall h: GroupID | Concerns(h, k) && h != g ensures BuildGroupFinalizer(h) != BuildGroupFinalizer(g) {
        FinalizersDiffer(g, h, k);
      }
      PushShape(s.objects, s.writes, k, s'.objects[k][|s.objects[k]|], Some(g));
    }
  }

  /** Every step keeps the shape, also with stale reads. */
  lemma ShapeStep(s: State, step: Step, s': State)
    requires Shape(s) && Next(s, step, s')
    ensures Shape(s')
  {
    hide WellFormed, OnlyOwnRemovals;
    match step
    case Act(g, a) =>
      if a.Patch? { PatchShape(s, g, s'); } else if a.Load? { LoadShape(s, g, a, s'); }
    case Edit(k, o) => PushShape(s.objects, s.writes, k, Some(o), None);
    case Vanish(k) => PushShape(s.objects, s.writes, k, None, None);
    case Restart =>
  }

  lemma GetKeeps(s: State, g: GroupID, k: Key, v: nat, s': State)
    requires Invariant(s) && NextAct(s, g, Get(k, v), s') && ReadsOwnWrites(s, Act(g, Get(k, v)))
    ensures GroupOk(s', g)
  {
    var w := s.workers[g];
    assert GroupOk(s, g);
    if w.phase.Adding? && Has(s.objects[k][v], BuildGroupFinalizer(g)) && !Held(s, g, k) {
      BadReadIsStale(s, g, k, v);
      assert false;
    }
    assert StillHeld(s, s', g);
  }

  /** An accepted patch changes the worker's own finalizer and nothing else. */
  lemma PatchLosesNothing(s: State, g: GroupID, w: Worker, k: Key, v: nat, s': State)
    requires NextPatch(s, g, w, k, v, s') && s'.objects != s.objects
    ensures k in s.objects && k in s'.objects && |s'.objects[k]| == |s.objects[k]| + 1 > 1
    ensures var before, after := s.objects[k][|s.objects[k]| - 1], s'.objects[k][|s.objects[k]|];
      && before.Some? && after.Some? && after.value.(finalizers := before.value.finalizers) == before.value
      && (forall f :: f != BuildGroupFinalizer(g) ==> (Has(after, f) <==> Has(before, f)))
      && (Has(after, BuildGroupFinalizer(g)) <==> w.phase.Adding?)
    ensures forall j <- s.objects :: j != k ==> s'.objects[j] == s.objects[j]
  {
  }

  /** A patch of one Ingress by one group changes nothing for other groups and Ingresses, and adding never takes off. */
  lemma PatchHeld(s: State, g: GroupID, w: Worker, k: Key, v: nat, s': State, h: GroupID, j: Key)
    requires WellFormed(s.objects) && Concerns(g, k) && Concerns(h, j) && NextPatch(s, g, w, k, v, s')
    ensures h != g || j != k ==> (Held(s', h, j) <==> Held(s, h, j))
    ensures w.phase.Adding? && Held(s, h, j) ==> Held(s', h, j)
  {
    if s'.objects != s.objects {
      PatchLosesNothing(s, g, w, k, v, s');
      if j == k { FinalizersDiffer(g, h, k); }
    }
  }

  lemma PatchKeeps(s: State, g: GroupID, s': State)
    requires Invariant(s) && NextAct(s, g, Patch, s')
    ensures GroupOk(s', g)
  {
    var w := s.workers[g];
    var k, v := w.reading.value.key, w.reading.value.version;
    assert GroupOk(s, g) && WorkerShape(g, w) && Concerns(g, k);
    if w.phase.Adding? {
      forall j | Concerns(g, j) && Held(s, g, j) ensures Held(s', g, j) { PatchHeld(s, g, w, k, v, s', g, j); }
    } else {
      forall j | j in w.members ensures Held(s', g, j) { PatchHeld(s, g, w, k, v, s', g, j); }
    }
  }

  lemma DeployKeeps(s: State, g: GroupID, a: Action, s': State)
    requires Invariant(s) && NextAct(s, g, a, s') && !a.Get? && !a.Patch?
    ensures GroupOk(s', g)
  {
    assert GroupOk(s, g) && StillHeld(s, s', g);
  }

  lemma ActKeeps(s: State, g: GroupID, a: Action, s': State)
    requires Invariant(s) && NextAct(s, g, a, s') && ReadsOwnWrites(s, Act(g, a))
    ensures Invariant(s')
  {
    match a {
      case Get(k, v) => GetKeeps(s, g, k, v, s');
      case Patch => PatchKeeps(s, g, s');
      case _ => DeployKeeps(s, g, a, s');
    }
    ShapeStep(s, Act(g, a), s');
    forall h: GroupID | h != g ensures GroupOk(s', h) { OtherGroupKept(s, g, a, s', h); }
  }

  lemma OtherGroupKept(s: State, g: GroupID, a: Action, s': State, h: GroupID)
    requires Invariant(s) && NextAct(s, g, a, s') && h != g
    ensures GroupOk(s', h)
  {
    assert GroupOk(s, h);
    hide GroupOk, OnlyOwnRemovals, Held;
    if a.Patch? {
      var w := s.workers[g];
      assert WorkerShape(g, w);
      forall j | Concerns(h, j) && Held(s, h, j) ensures Held(s', h, j) {
        PatchHeld(s, g, w, w.reading.value.key, w.reading.value.version, s', h, j);
      }
    } else {
      assert s'.objects == s.objects;
    }
    assert StillHeld(s, s', h);
    Undisturbed(s, s', h);
  }

  lemma InvariantStep(s: State, step: Step, s': State)
    requires Invariant(s) && Next(s, step, s') && ReadsOwnWrites(s, step)
    ensures Invariant(s')
  {
    if step.Act? {
      ActKeeps(s, step.group, step.action, s');
    } else {
      ShapeStep(s, step, s');
      forall g: GroupID ensures GroupOk(s', g) {
        assert GroupOk(s, g);
        Undisturbed(s, s', g);
      }
    }
  }

  /**
   * In every state of every run whose adding workers read their own writes, each Ingress
   * whose content is deployed for a group exists and holds that group's finalizer.
   */
  lemma {:induction false} DeployedIsHeld(states: seq<State>, steps: seq<Step>, i: nat)
    requires Run(states, steps) && Quiet(states[0]) && i <= |steps|
    requires forall j :: 0 <= j < |steps| ==> ReadsOwnWrites(states[j], steps[j])
    ensures Invariant(states[i])
    ensures forall g: GroupID, k: Key :: k in DeployedBy(states[i], g) ==> Held(states[i], g, k)
  {
    if i > 0 {
      DeployedIsHeld(states, steps, i - 1);
      assert Next(states[i - 1], steps[i - 1], states[i - 1 + 1]);
      InvariantStep(states[i - 1], steps[i - 1], states[i]);
    }
    forall g: GroupID, k: Key | k in DeployedBy(states[i], g) ensures Held(states[i], g, k) {
      assert GroupOk(states[i], g);
    }
  }

  /** An Ingress vanishes only when no group has it deployed. */
  lemma VanishedIsNotDeployed(states: seq<State>, steps: seq<Step>, i: nat, g: GroupID)
    requires Run(states, steps) && Quiet(states[0]) && i < |steps| && steps[i].Vanish?
    requires forall j :: 0 <= j < |steps| ==> ReadsOwnWrites(states[j], steps[j])
    ensures steps[i].key !in DeployedBy(states[i], g) && steps[i].key !in DeployedBy(states[i + 1], g)
  {
    DeployedIsHeld(states, steps, i);
    assert Next(states[i], steps[i], states[i + 1]);
    assert !Held(states[i], g, steps[i].key);
  }

  // ---------------------------------------------------------------- stale reads

  /** A worker on its way to deploying an Ingress whose finalizer it wrongly takes for added. */
  ghost predicate Doomed(s: State, g: GroupID, k: Key) {
    && g in s.workers && !Held(s, g, k) && Concerns(g, k)
    && k in s.workers[g].members
    && (s.workers[g].phase.Deploying? || (s.workers[g].phase.Adding? && k in s.workers[g].done))
  }

  /** Nothing but stopping the worker, or someone else adding its finalizer, gets it off that way. */
  ghost predicate LeavesAlone(step: Step, g: GroupID, k: Key) {
    match step
    case Act(h, a) => h == g ==> !a.Stop? && !a.EndDeploy?
    case Edit(j, o) => j == k ==> BuildGroupFinalizer(g) !in o.finalizers
    case Vanish(_) => true
    case Restart => false
  }

  lemma DoomedAct(s: State, h: GroupID, a: Action, s': State, g: GroupID, k: Key)
    requires Shape(s) && NextAct(s, h, a, s') && Doomed(s, g, k) && LeavesAlone(Act(h, a), g, k)
    ensures Doomed(s', g, k)
  {
    assert WorkerShape(g, s.workers[g]);
    if a.Patch? {
      var w := s.workers[h];
      assert WorkerShape(h, w);
      PatchHeld(s, h, w, w.reading.value.key, w.reading.value.version, s', g, k);
    }
  }

  lemma DoomedStep(s: State, step: Step, s': State, g: GroupID, k: Key)
    requires Shape(s) && Next(s, step, s') && Doomed(s, g, k) && LeavesAlone(step, g, k)
    ensures Doomed(s', g, k)
  {
    if step.Act? { DoomedAct(s, step.group, step.action, s', g, k); }
  }

  /**
   * Reading own writes cannot be dropped. Whenever an adding worker's read shows a finalizer that
   * is no longer held, and the worker gets to the end of deploying, whatever else happens on the
   * way short of someone else adding the finalizer, the Ingress is deployed and not held.
   */
  lemma StaleReadBreaks(states: seq<State>, steps: seq<Step>, g: GroupID, k: Key, v: nat)
    requires Run(states, steps) && Shape(states[0]) && |steps| >= 2
    requires steps[0] == Act(g, Get(k, v)) && g in states[0].workers && states[0].workers[g].phase.Adding?
    requires k in states[0].objects && v < |states[0].objects[k]|
      && Has(states[0].objects[k][v], BuildGroupFinalizer(g))
    requires !Held(states[0], g, k)
    requires forall i :: 1 <= i < |steps| - 1 ==> LeavesAlone(steps[i], g, k)
    requires steps[|steps| - 1] == Act(g, EndDeploy)
    ensures k in DeployedBy(states[|steps|], g) && !Held(states[|steps|], g, k)
    ensures v < LastWrite(states[0].writes, g, k)
  {
    var n := |steps| - 1;
    assert Next(states[0], steps[0], states[0 + 1]);
    assert WorkerShape(g, states[0].workers[g]);
    BadReadIsStale(states[0], g, k, v);
    ShapeStep(states[0], steps[0], states[1]);
    DoomedRun(states, steps, g, k, n);
    assert Next(states[n], steps[n], states[n + 1]);
  }

  lemma {:induction false} DoomedRun(states: seq<State>, steps: seq<Step>, g: GroupID, k: Key, n: nat)
    requires Run(states, steps) && 1 <= n < |steps| && Shape(states[1]) && Doomed(states[1], g, k)
    requires forall i :: 1 <= i < n ==> LeavesAlone(steps[i], g, k)
    ensures Shape(states[n]) && Doomed(states[n], g, k)
  {
    if n > 1 {
      DoomedRun(states, steps, g, k, n - 1);
      assert Next(states[n - 1], steps[n - 1], states[n - 1 + 1]);
      ShapeStep(states[n - 1], steps[n - 1], states[n]);
      DoomedStep(states[n - 1], steps[n - 1], states[n], g, k);
    }
  }
}
