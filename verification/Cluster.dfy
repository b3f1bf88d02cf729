/** One cluster, many hosts: each compiles the same topology for itself. */
module Cluster {
  import opened Text
  import opened Network
  import opened Firewall
  import opened Labels
  import opened Policy
  import opened Topology
  import opened Meaning

  function AtHost(s: Snapshot, host: string): Snapshot {
    s.(localHostID := host)
  }

  // ---- the policy of the whole cluster, without any locality ----

  /** The rule relates application workloads at the two addresses, on whatever hosts. */
  ghost predicate RelatesAnywhere(s: Snapshot, rule: Rule, src: Addr, dst: Addr) {
    exists w, v ::
      w in Apps(s.workloads) && v in Apps(s.workloads) && w.ip == src && v.ip == dst && Related(s, rule, w, v)
  }

  ghost predicate AppliesAnywhere(s: Snapshot, rule: Rule, pkt: Packet) {
    PortsAdmit(rule.ports, pkt) && RelatesAnywhere(s, rule, pkt.src, pkt.dst)
  }

  ghost function FirstAnywhere(s: Snapshot, rules: seq<Rule>, pkt: Packet): Option<string> {
    if rules == [] then None
    else if AppliesAnywhere(s, rules[0], pkt) then Some(rules[0].action)
    else FirstAnywhere(s, rules[1..], pkt)
  }

  ghost function ClusterVerdict(s: Snapshot, pkt: Packet): string {
    if pkt.src in Addrs(Systems(s.workloads)) then "allow"
    else
      var first := FirstAnywhere(s, s.policy.rules, pkt);
      if first.Some? then first.value
      else if pkt.dst in Addrs(Apps(s.workloads)) then s.policy.defaultAction
      else "allow"
  }

  ghost predicate PassesEverywhere(s: Snapshot, hosts: set<string>, pkt: Packet)
    requires IsPrefix4(s.subnet)
  {
    forall host :: host in hosts ==> Decide(PlanOf(AtHost(s, host)), pkt) == "allow"
  }

  // ---- one host ----

  lemma {:induction false} NothingAppliesElsewhere(s: Snapshot, rules: seq<Rule>, pkt: Packet)
    requires pkt.dst !in Addrs(LocalApps(s))
    ensures FirstApplying(s, rules, pkt) == None
  {
    hide PortsAdmit, Related;
    if rules != [] {
      assert forall v :: v in LocalApps(s) ==> v.ip in Addrs(LocalApps(s));
      NothingAppliesElsewhere(s, rules[1..], pkt);
    }
  }

  /** Only the destination's host ever drops a packet. */
  lemma OnlyTheTargetDrops(s: Snapshot, pkt: Packet)
    requires IsPrefix4(s.subnet) && IsNormalPolicy(s.policy)
    requires Decide(PlanOf(s), pkt) != "allow"
    ensures exists v :: v in LocalApps(s) && v.ip == pkt.dst
  {
    hide PlanOf, LocalApps, FirstApplying, IsNormalRule;
    CompilationPreservesMeaning(s, pkt);
    if pkt.dst !in Addrs(LocalApps(s)) {
      NothingAppliesElsewhere(s, s.policy.rules, pkt);
    }
  }

  lemma RelatedIsGlobal(s: Snapshot, host: string, rule: Rule, w: Workload, v: Workload)
    ensures Related(AtHost(s, host), rule, w, v) <==> Related(s, rule, w, v)
  {
    hide Selects;
  }

  /** What a host relates to one of its own is related in the cluster. */
  lemma LocalIsGlobal(s: Snapshot, host: string, rule: Rule, src: Addr, dst: Addr)
    requires RelatesAddresses(AtHost(s, host), rule, src, dst)
    ensures RelatesAnywhere(s, rule, src, dst)
  {
    hide Related;
    var here := AtHost(s, host);
    var w, v :| w in Apps(here.workloads) && v in LocalApps(here) && w.ip == src && v.ip == dst &&
      Related(here, rule, w, v);
    RelatedIsGlobal(s, host, rule, w, v);
  }

  // ---- when the hosts behind one address agree ----

  /** Every host that has an application workload at an address relates to it whatever
      application source the rule relates to that address anywhere. */
  ghost predicate HostsAgree(s: Snapshot, rule: Rule) {
    forall v, src ::
      v in Apps(s.workloads) && src !in Addrs(Systems(s.workloads)) && RelatesAnywhere(s, rule, src, v.ip) ==>
      RelatesAddresses(AtHost(s, v.hostID), rule, src, v.ip)
  }

  lemma {:induction false} TargetHostSeesAll(s: Snapshot, v: Workload, rules: seq<Rule>, pkt: Packet)
    requires v in Apps(s.workloads) && v.ip == pkt.dst && pkt.src !in Addrs(Systems(s.workloads))
    requires forall r :: r in rules ==> HostsAgree(s, r)
    ensures FirstApplying(AtHost(s, v.hostID), rules, pkt) == FirstAnywhere(s, rules, pkt)
  {
    hide PortsAdmit, RelatesAddresses, RelatesAnywhere, Apps, Addrs, Systems;
    if rules != [] {
      assert HostsAgree(s, rules[0]);
      if RelatesAddresses(AtHost(s, v.hostID), rules[0], pkt.src, pkt.dst) {
        LocalIsGlobal(s, v.hostID, rules[0], pkt.src, pkt.dst);
      }
      TargetHostSeesAll(s, v, rules[1..], pkt);
    }
  }

  lemma {:induction false} NothingAppliesAnywhere(s: Snapshot, rules: seq<Rule>, pkt: Packet)
    requires pkt.dst !in Addrs(Apps(s.workloads))
    ensures FirstAnywhere(s, rules, pkt) == None
  {
    hide PortsAdmit, Related;
    if rules != [] {
      assert forall v :: v in Apps(s.workloads) ==> v.ip in Addrs(Apps(s.workloads));
      NothingAppliesAnywhere(s, rules[1..], pkt);
    }
  }

  /** The host of any application workload at the destination decides as the cluster policy does. */
  lemma TargetHostDecides(s: Snapshot, v: Workload, pkt: Packet)
    requires IsPrefix4(s.subnet) && IsNormalPolicy(s.policy)
    requires forall r :: r in s.policy.rules ==> HostsAgree(s, r)
    requires v in Apps(s.workloads) && v.ip == pkt.dst
    ensures Decide(PlanOf(AtHost(s, v.hostID)), pkt) == ClusterVerdict(s, pkt)
  {
    hide PlanOf, FirstApplying, FirstAnywhere, IsNormalRule, HostsAgree;
    CompilationPreservesMeaning(AtHost(s, v.hostID), pkt);
    if pkt.src !in Addrs(Systems(s.workloads)) { TargetHostSeesAll(s, v, s.policy.rules, pkt); }
    assert v in LocalApps(AtHost(s, v.hostID));
    assert v.ip in Addrs(LocalApps(AtHost(s, v.hostID))) && v.ip in Addrs(Apps(s.workloads));
  }

  lemma OtherHostsAllow(s: Snapshot, host: string, pkt: Packet)
    requires IsPrefix4(s.subnet) && IsNormalPolicy(s.policy)
    requires forall v :: v in Apps(s.workloads) && v.ip == pkt.dst ==> v.hostID != host
    ensures Decide(PlanOf(AtHost(s, host)), pkt) == "allow"
  {
    hide PlanOf, Decide, IsNormalRule;
    if Decide(PlanOf(AtHost(s, host)), pkt) != "allow" { OnlyTheTargetDrops(AtHost(s, host), pkt); }
  }

  /** The hosts together enforce the cluster policy when the hosts behind every address agree
      on every rule: a packet passes all of them exactly when the policy without locality
      allows it. */
  lemma HostsEnforceClusterPolicy(s: Snapshot, hosts: set<string>, pkt: Packet)
    requires IsPrefix4(s.subnet) && IsNormalPolicy(s.policy)
    requires forall r :: r in s.policy.rules ==> HostsAgree(s, r)
    requires forall v :: v in Apps(s.workloads) ==> v.hostID in hosts
    ensures PassesEverywhere(s, hosts, pkt) <==> ClusterVerdict(s, pkt) == "allow"
  {
    hide PlanOf, Decide, FirstAnywhere, IsNormalRule, HostsAgree;
    forall host | host in hosts
      ensures Decide(PlanOf(AtHost(s, host)), pkt) == "allow" ||
        Decide(PlanOf(AtHost(s, host)), pkt) == ClusterVerdict(s, pkt)
    {
      if v :| v in Apps(s.workloads) && v.ip == pkt.dst && v.hostID == host {
        TargetHostDecides(s, v, pkt);
      } else {
        OtherHostsAllow(s, host, pkt);
      }
    }
    if v :| v in Apps(s.workloads) && v.ip == pkt.dst {
      TargetHostDecides(s, v, pkt);
    } else {
      NothingAppliesAnywhere(s, s.policy.rules, pkt);
    }
  }

  // ---- and only then ----

  /** Rule `r` relates what `rule` relates, with any action and any ports. */
  ghost predicate IsVariant(r: Rule, rule: Rule) {
    r.(ports := [], action := "allow") == rule.(ports := [], action := "allow")
  }

  /** The policy is normal and built from variants of the rules. */
  ghost predicate IsMadeOf(policy: Policy, rules: seq<Rule>) {
    IsNormalPolicy(policy) && forall r :: r in policy.rules ==> exists rule :: rule in rules && IsVariant(r, rule)
  }

  /** All packets fare under the hosts together as under the policy without locality. */
  ghost predicate IsEnforced(s: Snapshot, hosts: set<string>)
    requires IsPrefix4(s.subnet)
  {
    forall pkt :: PassesEverywhere(s, hosts, pkt) <==> ClusterVerdict(s, pkt) == "allow"
  }

  lemma SameRelation(s: Snapshot, policy: Policy, r: Rule, rule: Rule)
    requires IsVariant(r, rule)
    ensures HostsAgree(s.(policy := policy), r) <==> HostsAgree(s, rule)
  {
    var t := s.(policy := policy);
    assert r.within == rule.within && r.between == rule.between && r.from == rule.from && r.to == rule.to;
    forall host, w, v ensures Related(AtHost(t, host), r, w, v) <==> Related(AtHost(s, host), rule, w, v) { }
    forall w, v ensures Related(t, r, w, v) <==> Related(s, rule, w, v) { }
    hide Related, IsVariant;
    forall src, dst ensures RelatesAnywhere(t, r, src, dst) <==> RelatesAnywhere(s, rule, src, dst) { }
    forall host, src, dst
      ensures RelatesAddresses(AtHost(t, host), r, src, dst) <==> RelatesAddresses(AtHost(s, host), rule, src, dst)
    {
    }
  }

  lemma MadeOfAgrees(s: Snapshot, policy: Policy, rules: seq<Rule>)
    requires IsMadeOf(policy, rules) && forall rule :: rule in rules ==> HostsAgree(s, rule)
    ensures forall r :: r in policy.rules ==> HostsAgree(s.(policy := policy), r)
  {
    hide HostsAgree, IsNormalPolicy, IsVariant;
    forall r | r in policy.rules ensures HostsAgree(s.(policy := policy), r) {
      var rule :| rule in rules && IsVariant(r, rule);
      SameRelation(s, policy, r, rule);
    }
  }

  /** The policy that shows a disagreement: the rule allows, all else is denied. */
  function Probe(rule: Rule): Policy {
    Policy("deny", [rule.(ports := [], action := "allow")])
  }

  lemma ProbeIsMadeOf(rule: Rule, rules: seq<Rule>)
    requires IsNormalRule(rule) && rule in rules
    ensures IsMadeOf(Probe(rule), rules)
  {
    hide IsCanonicalSelector, IsCanonicalPort;
    var r := rule.(ports := [], action := "allow");
    assert IsVariant(r, rule);
    assert IsNormalRule(r);
  }

  lemma HostDenies(t: Snapshot, v: Workload, r: Rule, pkt: Packet)
    requires IsPrefix4(t.subnet) && IsNormalPolicy(t.policy) && t.policy == Policy("deny", [r])
    requires v in Apps(t.workloads) && v.ip == pkt.dst && pkt.src !in Addrs(Systems(t.workloads))
    requires !RelatesAddresses(AtHost(t, v.hostID), r, pkt.src, pkt.dst)
    ensures Decide(PlanOf(AtHost(t, v.hostID)), pkt) == "deny"
  {
    var here := AtHost(t, v.hostID);
    assert v in LocalApps(here) && v.ip in Addrs(LocalApps(here));
    hide PlanOf, Decide, RelatesAddresses, IsNormalRule, Addrs, LocalApps;
    CompilationPreservesMeaning(here, pkt);
    assert here.policy.rules[1..] == [];
    assert FirstApplying(here, here.policy.rules, pkt) == None;
  }

  lemma RelatedIsAllowed(t: Snapshot, r: Rule, pkt: Packet)
    requires t.policy == Policy("deny", [r]) && r.ports == [] && r.action == "allow"
    requires RelatesAnywhere(t, r, pkt.src, pkt.dst)
    ensures ClusterVerdict(t, pkt) == "allow"
  {
    hide RelatesAnywhere, Addrs, Systems, Apps;
  }

  lemma ProbeFails(t: Snapshot, hosts: set<string>, v: Workload, r: Rule, src: Addr)
    requires IsPrefix4(t.subnet) && IsNormalPolicy(t.policy)
    requires t.policy == Policy("deny", [r]) && r.ports == [] && r.action == "allow"
    requires v in Apps(t.workloads) && v.hostID in hosts && src !in Addrs(Systems(t.workloads))
    requires RelatesAnywhere(t, r, src, v.ip) && !RelatesAddresses(AtHost(t, v.hostID), r, src, v.ip)
    ensures !IsEnforced(t, hosts)
  {
    hide RelatesAnywhere, RelatesAddresses, PlanOf, Decide, ClusterVerdict, Apps, Addrs, Systems, IsNormalPolicy;
    var pkt := Packet(src, v.ip, "tcp", 80, false);
    HostDenies(t, v, r, pkt);
    RelatedIsAllowed(t, r, pkt);
    assert !PassesEverywhere(t, hosts, pkt);
  }

  /** A disagreement shows on a packet. */
  lemma DisagreementShows(s: Snapshot, hosts: set<string>, rule: Rule)
    requires IsPrefix4(s.subnet) && IsNormalRule(rule) && !HostsAgree(s, rule)
    requires forall v :: v in Apps(s.workloads) ==> v.hostID in hosts
    ensures !IsEnforced(s.(policy := Probe(rule)), hosts)
  {
    hide IsNormalRule, IsNormalPolicy, RelatesAnywhere, RelatesAddresses, IsEnforced, Apps, Addrs, Systems;
    var t, r := s.(policy := Probe(rule)), rule.(ports := [], action := "allow");
    ProbeIsMadeOf(rule, [rule]);
    SameRelation(s, Probe(rule), r, rule);
    var v, src :| v in Apps(t.workloads) && src !in Addrs(Systems(t.workloads)) && RelatesAnywhere(t, r, src, v.ip) &&
      !RelatesAddresses(AtHost(t, v.hostID), r, src, v.ip);
    ProbeFails(t, hosts, v, r, src);
  }

  /** The exact condition: the hosts enforce every normal policy that can be made of some
      rules, by choosing actions, ports, order and default, if and only if the hosts behind
      every address agree on each of the rules. */
  lemma HostsEnforceExactly(s: Snapshot, hosts: set<string>, rules: seq<Rule>)
    requires IsPrefix4(s.subnet) && forall rule :: rule in rules ==> IsNormalRule(rule)
    requires forall v :: v in Apps(s.workloads) ==> v.hostID in hosts
    ensures (forall rule :: rule in rules ==> HostsAgree(s, rule)) <==>
      forall policy :: IsMadeOf(policy, rules) ==> IsEnforced(s.(policy := policy), hosts)
  {
    hide HostsAgree, IsNormalRule, PassesEverywhere, ClusterVerdict, IsVariant, Apps;
    if forall rule :: rule in rules ==> HostsAgree(s, rule) {
      forall policy | IsMadeOf(policy, rules) ensures IsEnforced(s.(policy := policy), hosts) {
        MadeOfAgrees(s, policy, rules);
        forall pkt
          ensures PassesEverywhere(s.(policy := policy), hosts, pkt) <==>
            ClusterVerdict(s.(policy := policy), pkt) == "allow"
        {
          HostsEnforceClusterPolicy(s.(policy := policy), hosts, pkt);
        }
      }
    } else {
      var rule :| rule in rules && !HostsAgree(s, rule);
      ProbeIsMadeOf(rule, rules);
      DisagreementShows(s, hosts, rule);
    }
  }

  // ---- one host per address ----

  /** Application workloads that share an address run on one host. Pairwise distinct
      addresses are a special case. */
  ghost predicate OneHostPerAddress(s: Snapshot) {
    forall v1, v2 :: v1 in Apps(s.workloads) && v2 in Apps(s.workloads) && v1.ip == v2.ip ==> v1.hostID == v2.hostID
  }

  /** Then the hosts agree on every rule. */
  lemma OneHostAgrees(s: Snapshot, rule: Rule)
    requires OneHostPerAddress(s)
    ensures HostsAgree(s, rule)
  {
    hide Related;
    forall v, src | v in Apps(s.workloads) && RelatesAnywhere(s, rule, src, v.ip)
      ensures RelatesAddresses(AtHost(s, v.hostID), rule, src, v.ip)
    {
      var w, x :| w in Apps(s.workloads) && x in Apps(s.workloads) && w.ip == src && x.ip == v.ip &&
        Related(s, rule, w, x);
      RelatedIsGlobal(s, v.hostID, rule, w, x);
      assert x in LocalApps(AtHost(s, v.hostID));
    }
  }

  /** A client, and two workloads on different hosts behind one address, the second one in
      the given stack. */
  function SharedAddress(stack: string): Snapshot {
    var client := Workload("c", IPv4(1), "a", "x", "", "", false, map[]);
    var twin1 := Workload("t1", IPv4(2), "a", "x", "", "", false, map[]);
    var twin2 := Workload("t2", IPv4(2), "b", stack, "", "", false, map[]);
    Snapshot(Prefix(IPv4(0), 24), "a", [client, twin1, twin2], map[], map[], Policy("deny", [StackRule()]))
  }

  function StackRule(): Rule {
    Rule("stack", None, None, None, [], "allow")
  }

  /** Sharing an address breaks enforcement when the second workload is in another stack:
      the cluster policy lets the client reach the first, and the second one's host drops the
      packet. In the same stack it does not. */
  lemma SharedAddressesCanDisagree()
    ensures !OneHostPerAddress(SharedAddress("x")) && HostsAgree(SharedAddress("x"), StackRule())
    ensures !HostsAgree(SharedAddress("y"), StackRule()) && !IsEnforced(SharedAddress("y"), {"a", "b"})
  {
    hide HostsAgree, IsEnforced, OneHostPerAddress, IsNormalRule;
    TwinsInOneStack();
    TwinsInTwoStacks();
    var s := SharedAddress("y");
    assert s.policy == Probe(StackRule()) && s == s.(policy := Probe(StackRule()));
    StackRuleIsNormal();
    assert forall v :: v in Apps(s.workloads) ==> v.hostID in {"a", "b"};
    DisagreementShows(s, {"a", "b"}, StackRule());
  }

  lemma StackRuleIsNormal()
    ensures IsNormalRule(StackRule())
  {
  }

  lemma TwinsInOneStack()
    ensures !OneHostPerAddress(SharedAddress("x")) && HostsAgree(SharedAddress("x"), StackRule())
  {
    var s := SharedAddress("x");
    var client, twin1, twin2 := s.workloads[0], s.workloads[1], s.workloads[2];
    assert s.workloads == [client, twin1, twin2];
    assert twin1 in Apps(s.workloads) && twin2 in Apps(s.workloads);
    forall v, src | v in Apps(s.workloads) && RelatesAnywhere(s, StackRule(), src, v.ip)
      ensures RelatesAddresses(AtHost(s, v.hostID), StackRule(), src, v.ip)
    {
      var w, x :| w in Apps(s.workloads) && x in Apps(s.workloads) && w.ip == src && x.ip == v.ip &&
        Related(s, StackRule(), w, x);
      assert v in LocalApps(AtHost(s, v.hostID)) && Related(AtHost(s, v.hostID), StackRule(), w, v);
    }
  }

  lemma TwinsInTwoStacks()
    ensures !HostsAgree(SharedAddress("y"), StackRule())
  {
    var s := SharedAddress("y");
    var client, twin1, twin2 := s.workloads[0], s.workloads[1], s.workloads[2];
    assert s.workloads == [client, twin1, twin2];
    assert client in Apps(s.workloads) && twin1 in Apps(s.workloads) && twin2 in Apps(s.workloads);
    assert Related(s, StackRule(), client, twin1);
    assert RelatesAnywhere(s, StackRule(), client.ip, twin2.ip);
    assert Systems(s.workloads) == {};
    var there := AtHost(s, "b");
    forall w, v | w in Apps(there.workloads) && v in LocalApps(there) && w.ip == client.ip
      ensures !Related(there, StackRule(), w, v)
    {
      assert v == twin2 && w == client;
    }
    assert client.ip !in Addrs(Systems(s.workloads)) &&
      !RelatesAddresses(AtHost(s, twin2.hostID), StackRule(), client.ip, twin2.ip);
  }
}
