/** All runs of the cached targets manager on one target group. */
module TargetRuns {
  import opened Text
  import opened Targets

  // Several reconciles may work on the group at once: a change reaches the service first;
  // recording it then fetches the cached item and later writes to it, and in between anything
  // can happen, also that the item expires and a new one takes its place. Only the controller
  // changes the group.

  /** The cache item that recording a change will write to. */
  datatype Item = NotFetched | Fetched(generation: nat)

  /** A chunk that the service has accepted and that is not recorded yet. */
  datatype Change = Change(registers: bool, targets: set<Target>, item: Item)

  /** Cache items are numbered; the cached one, if any, has the current number. */
  datatype State = State(cache: Option<seq<TargetInfo>>, generation: nat, group: Group, inflight: multiset<Change>)

  datatype Step =
    | Register(targets: set<Target>)
    | Deregister(targets: set<Target>)
    | FetchItem(change: Change)
    | Record(change: Change)
    | ListTargets(result: seq<TargetInfo>)
    | Time
    | Expire
    | Restart

  ghost predicate Next(s: State, step: Step, s': State) {
    match step
    case Register(ts) =>
      s' == s.(group := AfterRegister(s.group, ts), inflight := s.inflight + multiset{Change(true, ts, NotFetched)})
    case Deregister(ts) =>
      && AfterDeregister(s.group, ts, s'.group) && ValidGroup(s'.group)
      && s' == s.(group := s'.group, inflight := s.inflight + multiset{Change(false, ts, NotFetched)})
    case FetchItem(c) =>
      && c in s.inflight && c.item.NotFetched?
      && s' == s.(inflight :=
           if s.cache.None? then s.inflight - multiset{c}
           else s.inflight - multiset{c} + multiset{c.(item := Fetched(s.generation))})
    case Record(c) =>
      && c in s.inflight && c.item.Fetched?
      && s' == s.(cache := s'.cache, inflight := s.inflight - multiset{c})
      && if c.item.generation == s.generation then Recorded(s.cache, c, s'.cache) else s'.cache == s.cache
    case ListTargets(result) =>
      && s' == s.(cache := Some(result), generation := if s.cache.None? then s.generation + 1 else s.generation)
      && ListedFrom(s.cache, s.group, result)
    case Time =>
      Elapsed(s.group, s'.group) && s' == s.(group := s'.group)
    case Expire =>
      s' == s.(cache := None)
    case Restart =>
      s' == s.(cache := None, inflight := multiset{})
  }

  ghost predicate Recorded(cache: Option<seq<TargetInfo>>, c: Change, cache': Option<seq<TargetInfo>>) {
    if cache.None? then cache'.None?
    else if c.registers then cache'.Some? && RecordedRegister(cache.value, c.targets, cache'.value)
    else cache' == Some(MarkUnknown(cache.value, c.targets))
  }

  /** From scratch, or by refreshing what is not known to be healthy. */
  ghost predicate ListedFrom(cache: Option<seq<TargetInfo>>, g: Group, result: seq<TargetInfo>) {
    if cache.None? then Describes(g, None, result)
    else exists answer :: Describes(g, Some(Stale(cache.value)), answer) && result == Refreshed(cache.value, answer)
  }

  ghost predicate Run(states: seq<State>, steps: seq<Step>) {
    |states| == |steps| + 1 && forall i :: 0 <= i < |steps| ==> Next(states[i], steps[i], states[i + 1])
  }

  ghost predicate Initial(s: State) { s.cache.None? && s.inflight == multiset{} && ValidGroup(s.group) }

  /** A change that will still be written to the current item; any other was there when it was listed. */
  predicate Pending(c: Change, generation: nat) { c.item.NotFetched? || c.item.generation == generation }

  function BeingRegistered(s: State): set<Target> {
    set c, t | c in s.inflight && Pending(c, s.generation) && c.registers && t in c.targets :: t
  }

  function BeingDeregistered(s: State): set<Target> {
    set c, t | c in s.inflight && Pending(c, s.generation) && !c.registers && t in c.targets :: t
  }

  /**
   * Cached ids are unique, each target cached as healthy is registered, and the cache covers
   * the group, all up to the pending changes.
   */
  ghost predicate Invariant(s: State) {
    && ValidGroup(s.group)
    && (s.cache.Some? ==> Agrees(s.cache.value, s.group, BeingRegistered(s), BeingDeregistered(s)))
  }

  lemma PendingAdded(s: State, c: Change, s': State)
    requires s'.inflight == s.inflight + multiset{c} && s'.generation == s.generation
    ensures BeingRegistered(s') ==
      BeingRegistered(s) + (if Pending(c, s.generation) && c.registers then c.targets else {})
    ensures BeingDeregistered(s') ==
      BeingDeregistered(s) + (if Pending(c, s.generation) && !c.registers then c.targets else {})
  {
    assert forall d <- s.inflight :: d in s'.inflight;
    assert forall d <- s'.inflight :: d in s.inflight || d == c;
    assert c in s'.inflight;
  }

  lemma RegisterKeeps(s: State, ts: set<Target>, s': State)
    requires Invariant(s) && Next(s, Register(ts), s')
    ensures Invariant(s')
  {
    PendingAdded(s, Change(true, ts, NotFetched), s');
  }

  lemma DeregisterKeeps(s: State, ts: set<Target>, s': State)
    requires Invariant(s) && Next(s, Deregister(ts), s')
    ensures Invariant(s')
  {
    PendingAdded(s, Change(false, ts, NotFetched), s');
  }

  lemma FetchKeeps(s: State, c: Change, s': State)
    requires Invariant(s) && Next(s, FetchItem(c), s')
    ensures Invariant(s')
  {
    if s.cache.Some? {
      var without := s.(inflight := s.inflight - multiset{c});
      PendingAdded(without, c, s);
      PendingAdded(without, c.(item := Fetched(s.generation)), s');
      assert BeingRegistered(s') == BeingRegistered(s) && BeingDeregistered(s') == BeingDeregistered(s);
    }
  }

  lemma RecordKeeps(s: State, c: Change, s': State)
    requires Invariant(s) && Next(s, Record(c), s')
    ensures Invariant(s')
  {
    PendingAdded(s', c, s);
    if s.cache.Some? && c.item.generation == s.generation {
      var reg', dereg' := BeingRegistered(s'), BeingDeregistered(s');
      if c.registers {
        RegisterAgrees(s.cache.value, s.group, reg', dereg', c.targets, s'.cache.value);
      } else {
        DeregisterAgrees(s.cache.value, s.group, reg', dereg', c.targets);
      }
    }
  }

  lemma ListKeeps(s: State, result: seq<TargetInfo>, s': State)
    requires Invariant(s) && Next(s, ListTargets(result), s')
    ensures Invariant(s')
  {
    if s.cache.None? {
    } else {
      ListCorrect(s, result);
      assert BeingRegistered(s') == BeingRegistered(s) && BeingDeregistered(s') == BeingDeregistered(s);
    }
  }

  lemma InvariantStep(s: State, step: Step, s': State)
    requires Invariant(s) && Next(s, step, s')
    ensures Invariant(s')
  {
    match step
    case Register(ts) => RegisterKeeps(s, ts, s');
    case Deregister(ts) => DeregisterKeeps(s, ts, s');
    case FetchItem(c) => FetchKeeps(s, c, s');
    case Record(c) => RecordKeeps(s, c, s');
    case ListTargets(result) => ListKeeps(s, result, s');
    case Time =>
      if s.cache.Some? {
        assert BeingRegistered(s') == BeingRegistered(s) && BeingDeregistered(s') == BeingDeregistered(s);
      }
    case Expire =>
    case Restart =>
  }

  lemma ListCorrect(s: State, result: seq<TargetInfo>)
    requires Invariant(s) && ListedFrom(s.cache, s.group, result)
    ensures var reg, dereg := BeingRegistered(s), BeingDeregistered(s);
      && Agrees(result, s.group, reg, dereg)
      && s.group.Keys - reg <= TargetsOf(result) <= s.group.Keys + dereg
      && forall x <- result :: x.target in s.group && x.target !in dereg ==>
        (x.IsDraining() <==> x.target !in Live(s.group))
  {
    var reg, dereg := BeingRegistered(s), BeingDeregistered(s);
    if s.cache.None? {
    } else {
      var answer :| Describes(s.group, Some(Stale(s.cache.value)), answer)
        && result == Refreshed(s.cache.value, answer);
      RefreshAgrees(s.cache.value, s.group, reg, dereg, answer);
    }
  }

  lemma {:induction false} InvariantHolds(states: seq<State>, steps: seq<Step>, i: nat)
    requires Run(states, steps) && Initial(states[0]) && i <= |steps|
    ensures Invariant(states[i])
  {
    if i > 0 {
      InvariantHolds(states, steps, i - 1);
      assert Next(states[i - 1], steps[i - 1], states[i - 1 + 1]);
      InvariantStep(states[i - 1], steps[i - 1], states[i]);
    }
  }

  /**
   * Over every run, a listing misses only targets whose registration is pending and invents
   * only targets whose deregistration is; with none pending it has exactly the service's
   * targets, each once, and marks as draining exactly those that are. A change whose record
   * will go to an expired item is not pending: the listing that replaced the item has seen it.
   */
  lemma ListingRefinesService(states: seq<State>, steps: seq<Step>, i: nat)
    requires Run(states, steps) && Initial(states[0])
    requires i < |steps| && steps[i].ListTargets?
    ensures var s, result := states[i], steps[i].result;
      && UniqueTargets(result)
      && s.group.Keys - BeingRegistered(s) <= TargetsOf(result) <= s.group.Keys + BeingDeregistered(s)
      && (BeingRegistered(s) == {} && BeingDeregistered(s) == {} ==>
            && TargetsOf(result) == s.group.Keys
            && forall x <- result :: x.IsDraining() <==> x.target !in Live(s.group))
  {
    InvariantHolds(states, steps, i);
    assert Next(states[i], steps[i], states[i + 1]);
    ListCorrect(states[i], steps[i].result);
    var s, result := states[i], steps[i].result;
    if BeingRegistered(s) == {} && BeingDeregistered(s) == {} {
      assert s.group.Keys - {} == s.group.Keys == s.group.Keys + {};
      forall x | x in result ensures x.target in s.group { assert x.target in TargetsOf(result); }
    }
  }
}
