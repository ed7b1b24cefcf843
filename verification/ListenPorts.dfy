/**
 * Listener ports of an Ingress group: grouping the members by port and merging what they say
 * about one port (pkg/ingress/model_builder.go).
 */
module ListenPorts {
  import opened Text

  /** What an Ingress says about a port: empty CIDR lists and an absent policy state nothing. */
  datatype PortConfig = PortConfig(protocol: string, cidrV4s: seq<string>, cidrV6s: seq<string>,
      sslPolicy: Option<string>, certs: seq<string>) {
    predicate StatesCidrs() { cidrV4s != [] || cidrV6s != [] }
  }

  datatype Member = Member(name: string, ports: map<int, PortConfig>)

  datatype MergeResult = Merged(config: PortConfig) | Conflict

  // ---------------------------------------------------------------- what a merge is

  ghost predicate SameCidrs(a: PortConfig, b: PortConfig) {
    Elements(a.cidrV4s) == Elements(b.cidrV4s) && Elements(a.cidrV6s) == Elements(b.cidrV6s)
  }

  /** Protocols, stated CIDRs (as sets) and stated policies agree. */
  ghost predicate Agree(s: set<PortConfig>) {
    forall a <- s, b <- s ::
      && a.protocol == b.protocol
      && (a.StatesCidrs() && b.StatesCidrs() ==> SameCidrs(a, b))
      && (a.sslPolicy.Some? && b.sslPolicy.Some? ==> a.sslPolicy == b.sslPolicy)
  }

  /** All certificates in order, the first occurrence of each. */
  function FirstOccurrences(s: seq<string>): (r: seq<string>)
    ensures forall x :: x in r <==> x in s
  {
    if s == [] then []
    else
      var n := |s| - 1;
      assert s == s[..n] + [s[n]];
      if s[n] in s[..n] then FirstOccurrences(s[..n]) else FirstOccurrences(s[..n]) + [s[n]]
  }

  function AllCerts(cfgs: seq<PortConfig>): seq<string> {
    if cfgs == [] then [] else AllCerts(cfgs[..|cfgs| - 1]) + cfgs[|cfgs| - 1].certs
  }

  ghost predicate Listing(l: seq<string>, s: set<string>) { Elements(l) == s && NoDuplicates(l) && LexSorted(l) }

  /** Everything but the certificates: a function of the set of configurations. */
  ghost predicate MergedSettings(s: set<PortConfig>, r: PortConfig, defaultSSLPolicy: string) {
    && (forall c <- s :: r.protocol == c.protocol)
    && (forall c <- s :: c.StatesCidrs() ==>
      Listing(r.cidrV4s, Elements(c.cidrV4s)) && Listing(r.cidrV6s, Elements(c.cidrV6s)))
    && ((forall c <- s :: !c.StatesCidrs()) ==> r.cidrV4s == ["0.0.0.0/0"] && r.cidrV6s == ["::/0"])
    && (forall c <- s :: c.sslPolicy.Some? ==> r.sslPolicy == c.sslPolicy)
    && ((forall c <- s :: c.sslPolicy.None?) ==>
      r.sslPolicy == if r.protocol == "HTTPS" then Some(defaultSSLPolicy) else None)
  }

  // ---------------------------------------------------------------- the merge loop

  /** The merge variables. */
  datatype Merging = Merging(protocol: Option<string>, cidrs: Option<(set<string>, set<string>)>,
      sslPolicy: Option<string>)

  ghost predicate Gathered(m: Merging, cfgs: seq<PortConfig>) {
    && (m.protocol.None? <==> cfgs == [])
    && (forall c <- cfgs :: m.protocol == Some(c.protocol))
    && (forall c <- cfgs :: c.StatesCidrs() ==> m.cidrs == Some((Elements(c.cidrV4s), Elements(c.cidrV6s))))
    && (m.cidrs.Some? ==> exists c <- cfgs :: c.StatesCidrs())
    && (forall c <- cfgs :: c.sslPolicy.Some? ==> m.sslPolicy == c.sslPolicy)
    && (m.sslPolicy.Some? ==> exists c <- cfgs :: c.sslPolicy.Some?)
  }

  /** One round of the loop: takes a configuration in, or finds it in conflict with an earlier one. */
  method Absorb(m: Merging, ghost before: seq<PortConfig>, cfg: PortConfig) returns (ok: bool, m': Merging)
    requires Gathered(m, before)
    ensures ok ==> Gathered(m', before + [cfg])
    ensures !ok ==> !Agree(Elements(before + [cfg]))
  {
    m' := m;
    ghost var all := before + [cfg];
    assert cfg in Elements(all) && forall c <- before :: c in Elements(all);
    if m.protocol.None? {
      m' := m'.(protocol := Some(cfg.protocol));
    } else if m.protocol.value != cfg.protocol {
      assert before[0] in before;
      return false, m';
    }
    if |cfg.cidrV4s| != 0 || |cfg.cidrV6s| != 0 {
      var stated := (Elements(cfg.cidrV4s), Elements(cfg.cidrV6s));
      if m.cidrs.None? {
        m' := m'.(cidrs := Some(stated));
      } else if m.cidrs.value != stated {
        return false, m';
      }
    }
    if cfg.sslPolicy.Some? {
      if m.sslPolicy.None? {
        m' := m'.(sslPolicy := cfg.sslPolicy);
      } else if m.sslPolicy != cfg.sslPolicy {
        return false, m';
      }
    }
    ok := true;
  }

  lemma AgreeOnPart(cfgs: seq<PortConfig>, n: nat)
    requires n <= |cfgs|
    ensures Agree(Elements(cfgs)) ==> Agree(Elements(cfgs[..n]))
  {
    assert forall c <- Elements(cfgs[..n]) :: c in Elements(cfgs);
  }

  lemma GatherStep(cfgs: seq<PortConfig>, i: nat)
    requires i < |cfgs|
    ensures cfgs[..i + 1] == cfgs[..i] + [cfgs[i]]
    ensures AllCerts(cfgs[..i + 1]) == AllCerts(cfgs[..i]) + cfgs[i].certs
  {
    assert cfgs[..i + 1][..i] == cfgs[..i];
  }

  /** Succeeds exactly if the configurations agree. */
  method MergeListenPortConfigs(cfgs: seq<PortConfig>, defaultSSLPolicy: string) returns (r: MergeResult)
    ensures r.Merged? <==> Agree(Elements(cfgs))
    ensures r.Merged? ==>
      MergedSettings(Elements(cfgs), r.config, defaultSSLPolicy) && r.config.certs == FirstOccurrences(AllCerts(cfgs))
  {
    var m, certs: seq<string> := Merging(None, None, None), [];
    for i := 0 to |cfgs|
      invariant Gathered(m, cfgs[..i])
      invariant certs == FirstOccurrences(AllCerts(cfgs[..i]))
    {
      var cfg := cfgs[i];
      GatherStep(cfgs, i);
      var ok;
      ok, m := Absorb(m, cfgs[..i], cfg);
      if !ok {
        AgreeOnPart(cfgs, i + 1);
        return Conflict;
      }
      certs := AddCerts(AllCerts(cfgs[..i]), certs, cfg.certs);
    }
    assert cfgs[..|cfgs|] == cfgs;
    var settled := Settle(m, cfgs, defaultSSLPolicy);
    return Merged(settled.(certs := certs));
  }

  method Settle(m: Merging, ghost cfgs: seq<PortConfig>, defaultSSLPolicy: string) returns (r: PortConfig)
    requires Gathered(m, cfgs)
    ensures Agree(Elements(cfgs)) && forall certs ::
      MergedSettings(Elements(cfgs), r.(certs := certs), defaultSSLPolicy)
  {
    var v4s, v6s := ["0.0.0.0/0"], ["::/0"];
    if m.cidrs.Some? && (m.cidrs.value.0 != {} || m.cidrs.value.1 != {}) {
      v4s := SortedList(m.cidrs.value.0);
      v6s := SortedList(m.cidrs.value.1);
    }
    assert forall c <- cfgs :: c.StatesCidrs() ==> Elements(c.cidrV4s) != {} || Elements(c.cidrV6s) != {} by {
      forall c | c in cfgs && c.StatesCidrs() ensures Elements(c.cidrV4s) != {} || Elements(c.cidrV6s) != {} {
        if c.cidrV4s != [] { assert c.cidrV4s[0] in Elements(c.cidrV4s); } else {
          assert c.cidrV6s[0] in Elements(c.cidrV6s);
        }
      }
    }
    var protocol := if m.protocol.Some? then m.protocol.value else "";
    var sslPolicy := m.sslPolicy;
    if protocol == "HTTPS" && sslPolicy.None? { sslPolicy := Some(defaultSSLPolicy); }
    r := PortConfig(protocol, v4s, v6s, sslPolicy, []);
  }

  method AddCerts(ghost before: seq<string>, certs: seq<string>, more: seq<string>) returns (r: seq<string>)
    requires certs == FirstOccurrences(before)
    ensures r == FirstOccurrences(before + more)
  {
    r := certs;
    assert before + more[..0] == before;
    for i := 0 to |more|
      invariant r == FirstOccurrences(before + more[..i])
    {
      assert before + more[..i + 1] == (before + more[..i]) + [more[i]];
      if more[i] in r { continue; }
      r := r + [more[i]];
    }
    assert more[..|more|] == more;
  }

  // ---------------------------------------------------------------- order independence

  lemma {:induction false} FirstOccurrencesOrder(s: seq<string>)
    ensures NoDuplicates(FirstOccurrences(s))
    ensures forall i, j :: 0 <= i < j < |FirstOccurrences(s)| ==>
      SeenBefore(s, FirstOccurrences(s)[i], FirstOccurrences(s)[j])
  {
    if s != [] {
      var n := |s| - 1;
      var rest := FirstOccurrences(s[..n]);
      FirstOccurrencesOrder(s[..n]);
      forall x, y | SeenBefore(s[..n], x, y) ensures SeenBefore(s, x, y) {
        var p :| 0 <= p < n && s[..n][p] == x && y !in s[..n][..p + 1];
        assert s[..p + 1] == s[..n][..p + 1];
      }
      if s[n] !in s[..n] {
        forall i | 0 <= i < |rest| ensures rest[i] != s[n] && SeenBefore(s, rest[i], s[n]) {
          assert rest[i] in rest;
          var p :| 0 <= p < n && s[..n][p] == rest[i];
          assert s[..p + 1] == s[..n][..p + 1];
          assert forall y <- s[..n][..p + 1] :: y in s[..n];
        }
      }
    }
  }

  /** The first x comes before the first y. */
  ghost predicate SeenBefore(s: seq<string>, x: string, y: string) {
    exists p :: 0 <= p < |s| && s[p] == x && y !in s[..p + 1]
  }

  lemma AllCertsMembers(cfgs: seq<PortConfig>, x: string)
    ensures x in AllCerts(cfgs) <==> exists c <- cfgs :: x in c.certs
  {
    if cfgs != [] {
      var n := |cfgs| - 1;
      assert cfgs == cfgs[..n] + [cfgs[n]];
      AllCertsMembers(cfgs[..n], x);
    }
  }

  lemma {:induction false} LexSortedUnique(a: seq<string>, b: seq<string>)
    requires LexSorted(a) && LexSorted(b) && NoDuplicates(a) && NoDuplicates(b) && Elements(a) == Elements(b)
    ensures a == b
  {
    assert b != [] ==> b[0] in Elements(b);
    if a != [] {
      assert a[0] in Elements(a) && a[0] in b && b[0] in a;
      if a[0] != b[0] {
        LexLeAntisymmetric(a[0], b[0]);
        assert false;
      }
      assert a == [a[0]] + a[1..] && b == [b[0]] + b[1..];
      assert a[0] !in a[1..] && b[0] !in b[1..];
      assert Elements(a[1..]) == Elements(a) - {a[0]} && Elements(b[1..]) == Elements(b) - {b[0]};
      LexSortedUnique(a[1..], b[1..]);
    }
  }

  /**
   * The merge does not depend on the order of the configurations, except that certificates
   * come in order of first occurrence.
   */
  lemma {:induction false} MergeOrderIndependent(a: seq<PortConfig>, b: seq<PortConfig>, r: PortConfig, q: PortConfig,
      defaultSSLPolicy: string)
    requires Elements(a) == Elements(b) && a != []
    requires MergedSettings(Elements(a), r, defaultSSLPolicy) && r.certs == FirstOccurrences(AllCerts(a))
    requires MergedSettings(Elements(b), q, defaultSSLPolicy) && q.certs == FirstOccurrences(AllCerts(b))
    ensures r.(certs := []) == q.(certs := []) && multiset(r.certs) == multiset(q.certs)
  {
    assert a[0] in Elements(a);
    if c :| c in Elements(a) && c.StatesCidrs() {
      LexSortedUnique(r.cidrV4s, q.cidrV4s);
      LexSortedUnique(r.cidrV6s, q.cidrV6s);
    }
    assert r.sslPolicy == q.sslPolicy;
    SameCerts(a, b);
  }

  lemma {:induction false} SameCerts(a: seq<PortConfig>, b: seq<PortConfig>)
    requires Elements(a) == Elements(b)
    ensures multiset(FirstOccurrences(AllCerts(a))) == multiset(FirstOccurrences(AllCerts(b)))
  {
    var x, y := FirstOccurrences(AllCerts(a)), FirstOccurrences(AllCerts(b));
    FirstOccurrencesOrder(AllCerts(a));
    FirstOccurrencesOrder(AllCerts(b));
    forall cert ensures cert in x <==> cert in y {
      AllCertsMembers(a, cert);
      AllCertsMembers(b, cert);
      assert forall c :: c in a <==> c in Elements(a);
      assert forall c :: c in b <==> c in Elements(b);
    }
    SameElementsSameMultiset(x, y);
  }

  lemma Once(s: seq<string>, x: string)
    requires NoDuplicates(s)
    ensures multiset(s)[x] == if x in s then 1 else 0
  {
    if s != [] {
      var n := |s| - 1;
      assert s == s[..n] + [s[n]];
      Once(s[..n], x);
      assert s[n] !in s[..n];
    }
  }

  lemma SameElementsSameMultiset(x: seq<string>, y: seq<string>)
    requires NoDuplicates(x) && NoDuplicates(y) && forall c :: c in x <==> c in y
    ensures multiset(x) == multiset(y)
  {
    forall c ensures multiset(x)[c] == multiset(y)[c] {
      Once(x, c);
      Once(y, c);
    }
  }

  // ---------------------------------------------------------------- grouping by port

  /** The members that listen on a port, in the group's order. */
  function MembersOn(members: seq<Member>, port: int): seq<Member> {
    if members == [] then []
    else
      var n := |members| - 1;
      if port in members[n].ports then MembersOn(members[..n], port) + [members[n]] else MembersOn(members[..n], port)
  }

  function ConfigsOn(members: seq<Member>, port: int): seq<PortConfig> {
    if members == [] then []
    else
      var n := |members| - 1;
      if port in members[n].ports
        then ConfigsOn(members[..n], port) + [members[n].ports[port]] else ConfigsOn(members[..n], port)
  }

  /** Whatever the order in which a member's ports are visited, each port gets the members on it in order. */
  method GroupByPort(members: seq<Member>) returns (ingsByPort: map<int, seq<Member>>,
      cfgsByPort: map<int, seq<PortConfig>>)
    ensures forall port :: port in ingsByPort <==> MembersOn(members, port) != []
    ensures forall port <- ingsByPort :: ingsByPort[port] == MembersOn(members, port)
    ensures cfgsByPort.Keys == ingsByPort.Keys && forall port <- cfgsByPort ::
      cfgsByPort[port] == ConfigsOn(members, port)
  {
    ingsByPort, cfgsByPort := map[], map[];
    for i := 0 to |members|
      invariant forall port :: port in ingsByPort <==> MembersOn(members[..i], port) != []
      invariant forall port <- ingsByPort :: ingsByPort[port] == MembersOn(members[..i], port)
      invariant cfgsByPort.Keys == ingsByPort.Keys && forall port <- cfgsByPort ::
        cfgsByPort[port] == ConfigsOn(members[..i], port)
    {
      assert members[..i + 1][..i] == members[..i];
      ingsByPort, cfgsByPort := AddMember(members[..i], members[i], ingsByPort, cfgsByPort);
    }
    assert members[..|members|] == members;
  }

  method AddMember(ghost before: seq<Member>, member: Member, ings: map<int, seq<Member>>,
      cfgs: map<int, seq<PortConfig>>)
    returns (ings': map<int, seq<Member>>, cfgs': map<int, seq<PortConfig>>)
    requires cfgs.Keys == ings.Keys
    requires forall port :: port in ings <==> MembersOn(before, port) != []
    requires forall port <- ings :: ings[port] == MembersOn(before, port) && cfgs[port] == ConfigsOn(before, port)
    ensures cfgs'.Keys == ings'.Keys == ings.Keys + member.ports.Keys
    ensures forall port <- ings' ::
      ings'[port] == if port in member.ports then MembersOn(before, port) + [member] else MembersOn(before, port)
    ensures forall port <- cfgs' ::
      cfgs'[port] == if port in member.ports
        then ConfigsOn(before, port) + [member.ports[port]] else ConfigsOn(before, port)
  {
    ings', cfgs' := ings, cfgs;
    var todo := member.ports.Keys;
    while todo != {}
      invariant todo <= member.ports.Keys && cfgs'.Keys == ings'.Keys == ings.Keys + (member.ports.Keys - todo)
      invariant forall port <- ings' ::
        ings'[port] == if port in member.ports.Keys - todo
          then MembersOn(before, port) + [member] else MembersOn(before, port)
      invariant forall port <- cfgs' ::
        cfgs'[port] == if port in member.ports.Keys - todo
          then ConfigsOn(before, port) + [member.ports[port]] else ConfigsOn(before, port)
      decreases todo
    {
      var port := Pick(todo);
      SameLength(before, port);
      ings' := ings'[port := (if port in ings' then ings'[port] else []) + [member]];
      cfgs' := cfgs'[port := (if port in cfgs' then cfgs'[port] else []) + [member.ports[port]]];
      todo := todo - {port};
    }
  }

  ghost predicate On(members: seq<Member>, port: int, i: nat) { i < |members| && port in members[i].ports }

  /** The members on a port and what they say about it are those of the group, each once and in the group's order. */
  ghost predicate InOrder(members: seq<Member>, port: int, on: seq<Member>, said: seq<PortConfig>, at: seq<nat>) {
    && |at| == |on| == |said|
    && (forall k :: 0 <= k < |at| ==>
      On(members, port, at[k]) && on[k] == members[at[k]] && said[k] == members[at[k]].ports[port])
    && (forall j, k :: 0 <= j < k < |at| ==> at[j] < at[k])
    && forall i: nat | On(members, port, i) :: i in at
  }

  lemma {:induction false} OnInOrder(members: seq<Member>, port: int) returns (at: seq<nat>)
    ensures InOrder(members, port, MembersOn(members, port), ConfigsOn(members, port), at)
  {
    if members == [] {
      at := [];
    } else {
      var n := |members| - 1;
      at := OnInOrder(members[..n], port);
      OneMoreOn(members, port, MembersOn(members[..n], port), ConfigsOn(members[..n], port), at);
      if port in members[n].ports { at := at + [n]; }
    }
  }

  lemma OneMoreOn(members: seq<Member>, port: int, on: seq<Member>, said: seq<PortConfig>, at: seq<nat>)
    requires members != [] && InOrder(members[..|members| - 1], port, on, said, at)
    ensures var n := |members| - 1;
      if port in members[n].ports
      then InOrder(members, port, on + [members[n]], said + [members[n].ports[port]], at + [n])
      else InOrder(members, port, on, said, at)
  {
    var n := |members| - 1;
    var all := at + [n];
    assert all[|at|] == n;
    forall i: nat | On(members, port, i) ensures i in all {
      if i < n { assert On(members[..n], port, i); }
    }
  }

  lemma SameLength(members: seq<Member>, port: int)
    ensures |MembersOn(members, port)| == |ConfigsOn(members, port)|
  {
  }

  /** Merges every port's configurations; fails exactly if some port's disagree. */
  method MergeByPort(members: seq<Member>, defaultSSLPolicy: string) returns (ok: bool, byPort: map<int, PortConfig>)
    ensures ok <==> forall port :: Agree(Elements(ConfigsOn(members, port)))
    ensures ok ==> forall port :: port in byPort <==> ConfigsOn(members, port) != []
    ensures ok ==> forall port <- byPort ::
      MergedSettings(Elements(ConfigsOn(members, port)), byPort[port], defaultSSLPolicy)
      && byPort[port].certs == FirstOccurrences(AllCerts(ConfigsOn(members, port)))
  {
    var ings, cfgs := GroupByPort(members);
    forall port ensures port in cfgs <==> ConfigsOn(members, port) != [] { SameLength(members, port); }
    byPort := map[];
    var todo := cfgs.Keys;
    while todo != {}
      invariant todo <= cfgs.Keys && byPort.Keys == cfgs.Keys - todo
      invariant forall port <- byPort ::
        Agree(Elements(cfgs[port])) && MergedSettings(Elements(cfgs[port]), byPort[port], defaultSSLPolicy)
        && byPort[port].certs == FirstOccurrences(AllCerts(cfgs[port]))
      decreases todo
    {
      var port := Pick(todo);
      var r := MergeListenPortConfigs(cfgs[port], defaultSSLPolicy);
      if r.Conflict? {
        assert !Agree(Elements(ConfigsOn(members, port)));
        return false, byPort;
      }
      byPort := byPort[port := r.config];
      todo := todo - {port};
    }
    ok := true;
  }
}
