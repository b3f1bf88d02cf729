/** What the compiler promises, read off the snapshot alone: which snapshots it accepts, what the
    policy says about a packet, and what the counts of a plan count. */
module PolicyReading {
  import opened Text
  import opened Network
  import opened Firewall
  import opened Selector
  import opened Grammar
  import opened SelectorReading
  import opened Labels
  import opened Policy
  import opened Topology
  import opened Meaning
  import opened Choices

  // ---- acceptance ----

  ghost predicate Readable(expression: string) {
    exists ps :: IsReading(expression, ps)
  }

  /** A form of rule the compiler knows, with selectors that can be read wherever there is a
      workload to evaluate them on. */
  ghost predicate IsSupported(s: Snapshot, rule: Rule) {
    if rule.within != "" then rule.within == "stack" || rule.within == "service" || rule.within == "linked"
    else if rule.between.Some? then
      rule.between.value.selector != "" && (exists w :: w in s.workloads && !w.system) ==>
        Readable(rule.between.value.selector)
    else
      && rule.from.Some? && rule.to.Some?
      && ((exists w :: w in s.workloads && !w.system) ==> Readable(rule.from.value))
      && ((exists w :: w in s.workloads && !w.system && w.hostID == s.localHostID) ==> Readable(rule.to.value))
  }

  /** The host is known, workloads have identifiers of their own and addresses between the base
      of the IPv4 subnet and its end, and every rule is supported. */
  ghost predicate IsCompilable(s: Snapshot) {
    && s.subnet.addr.IPv4? && 0 <= s.subnet.bits <= 32 && s.localHostID != ""
    && (forall w :: w in s.workloads ==> w.id != "" && IsInside(w.ip, s.subnet))
    && (forall i, j :: 0 <= i < j < |s.workloads| ==> s.workloads[i].id != s.workloads[j].id)
    && forall rule :: rule in s.policy.rules ==> IsSupported(s, rule)
  }

  lemma SupportedIsAccepted(s: Snapshot, rule: Rule)
    ensures IsSupported(s, rule) <==> RuleAccepted(s, rule)
  {
    hide ParseSelector, IsReading;
    forall e ensures Readable(e) <==> ParseSelector(e).Some? { AcceptedIsReadable(e); }
    assert (exists w :: w in s.workloads && !w.system) <==> Apps(s.workloads) != {} by {
      if w :| w in s.workloads && !w.system { assert w in Apps(s.workloads); }
    }
    assert (exists w :: w in s.workloads && !w.system && w.hostID == s.localHostID) <==> LocalApps(s) != {} by {
      if w :| w in s.workloads && !w.system && w.hostID == s.localHostID { assert w in LocalApps(s); }
    }
    hide Apps, LocalApps, Readable;
  }

  lemma CompilableIsAccepted(s: Snapshot)
    ensures IsCompilable(s) <==> Accepted(s)
  {
    hide IsSupported, RuleAccepted, Contains, IsInside;
    forall rule ensures IsSupported(s, rule) <==> RuleAccepted(s, rule) { SupportedIsAccepted(s, rule); }
    if IsPrefix4(s.subnet) {
      forall a ensures Contains(s.subnet, a) <==> IsInside(a, s.subnet) { ContainsIsInside(s.subnet, a); }
    }
  }

  // ---- what the policy says about a packet ----

  /** The rule relates workload `w` to workload `v`. */
  ghost predicate Connects(s: Snapshot, rule: Rule, w: Workload, v: Workload) {
    if rule.within == "stack" then w.stackID == v.stackID
    else if rule.within == "service" then w.primaryServiceID != "" && w.primaryServiceID == v.primaryServiceID
    else if rule.within == "linked" then
      || (&& w.primaryServiceID != "" && v.primaryServiceID != ""
          && w.primaryServiceID in s.serviceLinks && v.primaryServiceID in s.serviceLinks[w.primaryServiceID])
      || (w.id in s.containerLinks && v.id in s.containerLinks[w.id])
    else if rule.between.Some? && rule.between.value.selector != "" then
      Says(rule.between.value.selector, w.labels) && Says(rule.between.value.selector, v.labels)
    else if rule.between.Some? then
      var key := rule.between.value.groupBy;
      exists value :: (key, value) in w.labels.Items && (key, value) in v.labels.Items
    else
      rule.from.Some? && rule.to.Some? && Says(rule.from.value, w.labels) && Says(rule.to.value, v.labels)
  }

  /** The rule has no ports, or one of them is the packet's, alone or with its protocol. */
  ghost predicate OnPort(rule: Rule, pkt: Packet) {
    || rule.ports == []
    || ((pkt.protocol == "tcp" || pkt.protocol == "udp") &&
        (Itoa(pkt.port) in rule.ports || Itoa(pkt.port) + ("/" + pkt.protocol) in rule.ports))
  }

  /** The rule relates an application at the source to a local one at the destination. */
  ghost predicate ConnectsAddresses(s: Snapshot, rule: Rule, src: Addr, dst: Addr) {
    exists w, v ::
      && w in s.workloads && v in s.workloads && !w.system && !v.system && v.hostID == s.localHostID
      && w.ip == src && v.ip == dst && Connects(s, rule, w, v)
  }

  ghost predicate Governs(s: Snapshot, rule: Rule, pkt: Packet) {
    ConnectsAddresses(s, rule, pkt.src, pkt.dst) && OnPort(rule, pkt)
  }

  /** Rule `i` is the first that governs the packet. */
  ghost predicate IsFirst(s: Snapshot, i: int, pkt: Packet) {
    && 0 <= i < |s.policy.rules| && Governs(s, s.policy.rules[i], pkt)
    && forall j :: 0 <= j < i ==> !Governs(s, s.policy.rules[j], pkt)
  }

  /** System sources pass; then the first rule that governs the packet decides; then the default,
      at a local application; anything else passes. */
  ghost predicate IsVerdict(s: Snapshot, pkt: Packet, verdict: string) {
    if exists w :: w in s.workloads && w.system && w.ip == pkt.src then verdict == "allow"
    else if exists i :: IsFirst(s, i, pkt) then exists i :: IsFirst(s, i, pkt) && verdict == s.policy.rules[i].action
    else if exists v :: v in s.workloads && !v.system && v.hostID == s.localHostID && v.ip == pkt.dst then
      verdict == s.policy.defaultAction
    else verdict == "allow"
  }

  lemma RelatedAsRead(s: Snapshot, rule: Rule, w: Workload, v: Workload)
    requires LabelsDetermined(s) && w in Apps(s.workloads) && v in Apps(s.workloads)
    ensures Related(s, rule, w, v) <==> Connects(s, rule, w, v)
  {
    hide Selects, Says, Unambiguous, IsAnswer;
    forall e ensures Selects(e, w.labels) <==> Says(e, w.labels) { SelectsAsRead(e, w.labels); }
    forall e ensures Selects(e, v.labels) <==> Says(e, v.labels) { SelectsAsRead(e, v.labels); }
    if rule.between.Some? { SharedValue(rule.between.value.groupBy, w.labels, v.labels); }
  }

  lemma SharedValue(key: string, a: LabelMap, b: LabelMap)
    ensures (key in a && key in b && a[key] == b[key]) <==>
      exists value :: (key, value) in a.Items && (key, value) in b.Items
  {
    if key in a && key in b && a[key] == b[key] { assert (key, a[key]) in a.Items && (key, a[key]) in b.Items; }
  }

  lemma PortsAsRead(rule: Rule, pkt: Packet)
    ensures PortsAdmit(rule.ports, pkt) <==> OnPort(rule, pkt)
  {
    hide Itoa;
    if p :| p in rule.ports && PortAdmits(p, pkt) { }
    if Itoa(pkt.port) in rule.ports && IsProtocol(pkt.protocol) { assert PortAdmits(Itoa(pkt.port), pkt); }
    var both := Itoa(pkt.port) + ("/" + pkt.protocol);
    if both in rule.ports && IsProtocol(pkt.protocol) { assert PortAdmits(both, pkt); }
  }

  lemma AddressesAsRead(s: Snapshot, rule: Rule, src: Addr, dst: Addr)
    requires LabelsDetermined(s)
    ensures RelatesAddresses(s, rule, src, dst) <==> ConnectsAddresses(s, rule, src, dst)
  {
    hide Related, Connects, LabelsDetermined;
    forall w, v | w in Apps(s.workloads) && v in Apps(s.workloads)
      ensures Related(s, rule, w, v) <==> Connects(s, rule, w, v)
    {
      RelatedAsRead(s, rule, w, v);
    }
    if RelatesAddresses(s, rule, src, dst) {
      var w, v :| w in Apps(s.workloads) && v in LocalApps(s) && w.ip == src && v.ip == dst && Related(s, rule, w, v);
      assert v in Apps(s.workloads);
    }
    if w, v :| (
        && w in s.workloads && v in s.workloads && !w.system && !v.system && v.hostID == s.localHostID
        && w.ip == src && v.ip == dst && Connects(s, rule, w, v)) {
      assert w in Apps(s.workloads) && v in LocalApps(s) && v in Apps(s.workloads);
    }
  }

  lemma AppliesAsRead(s: Snapshot, rule: Rule, pkt: Packet)
    requires LabelsDetermined(s)
    ensures Applies(s, rule, pkt) <==> Governs(s, rule, pkt)
  {
    hide RelatesAddresses, ConnectsAddresses, PortsAdmit, OnPort, LabelsDetermined;
    AddressesAsRead(s, rule, pkt.src, pkt.dst);
    PortsAsRead(rule, pkt);
  }

  lemma {:induction false} FirstOf(s: Snapshot, rules: seq<Rule>, pkt: Packet) returns (i: int)
    ensures FirstApplying(s, rules, pkt).Some? <==> 0 <= i < |rules|
    ensures 0 <= i < |rules| ==> Applies(s, rules[i], pkt) && FirstApplying(s, rules, pkt) == Some(rules[i].action)
    ensures 0 <= i <= |rules| && forall j :: 0 <= j < i ==> !Applies(s, rules[j], pkt)
  {
    hide Applies;
    i := 0;
    if rules != [] && !Applies(s, rules[0], pkt) {
      var k := FirstOf(s, rules[1..], pkt);
      i := k + 1;
      forall j | 0 <= j < i ensures !Applies(s, rules[j], pkt) { assert j == 0 || rules[j] == rules[1..][j - 1]; }
    }
  }

  /** The direct reading of the policy in Meaning is this one. */
  lemma VerdictAsRead(s: Snapshot, pkt: Packet)
    requires LabelsDetermined(s)
    ensures IsVerdict(s, pkt, Verdict(s, pkt))
  {
    hide Applies, Governs, LabelsDetermined, FirstApplying;
    var rules := s.policy.rules;
    forall rule ensures Applies(s, rule, pkt) <==> Governs(s, rule, pkt) { AppliesAsRead(s, rule, pkt); }
    var i := FirstOf(s, rules, pkt);
    if i < |rules| { assert IsFirst(s, i, pkt); }
    assert (exists w :: w in s.workloads && w.system && w.ip == pkt.src) <==> pkt.src in Addrs(Systems(s.workloads));
    assert (exists v :: v in s.workloads && !v.system && v.hostID == s.localHostID && v.ip == pkt.dst) <==>
      pkt.dst in Addrs(LocalApps(s));
    hide Addrs, Systems, LocalApps;
    assert (exists k :: IsFirst(s, k, pkt)) ==> i < |rules|;
  }

  /** The reading gives one verdict. */
  lemma OneVerdict(s: Snapshot, pkt: Packet, a: string, b: string)
    requires IsVerdict(s, pkt, a) && IsVerdict(s, pkt, b)
    ensures a == b
  {
    hide Governs;
    if i :| IsFirst(s, i, pkt) {
      forall j | IsFirst(s, j, pkt) ensures j == i {}
    }
  }

  // ---- what a plan counts ----

  /** The positions of the applications on a host. */
  ghost function LocalAt(ws: seq<Workload>, host: string): set<int> {
    set i | 0 <= i < |ws| && !ws[i].system && ws[i].hostID == host
  }

  /** The counts of a plan are those of the snapshot. */
  ghost predicate CountsAreOf(s: Snapshot, plan: FirewallPlan) {
    && plan.workloadCount == |s.workloads| && plan.policyRuleCount == |s.policy.rules|
    && plan.localWorkloadCount == |LocalAt(s.workloads, s.localHostID)|
    && plan.defaultAction == s.policy.defaultAction && !plan.failOpen
    && plan.subnet.bits == s.subnet.bits && plan.subnet.addr.IPv4? && IsBaseOf(plan.subnet.addr.word, s.subnet)
    && plan.digest == Sha(plan.(digest := Blank))
  }

  /** The rules that relate no application to a local one. */
  ghost function Unmatched(s: Snapshot, rules: seq<Rule>): set<int> {
    set i | 0 <= i < |rules| && forall src, dst :: !ConnectsAddresses(s, rules[i], src, dst)
  }

  lemma LocalAtMore(front: seq<Workload>, last: Workload, host: string)
    ensures LocalAt(front + [last], host) ==
      LocalAt(front, host) + if !last.system && last.hostID == host then {|front|} else {}
    ensures |LocalAt(front + [last], host)| ==
      |LocalAt(front, host)| + if !last.system && last.hostID == host then 1 else 0
  {
    var before, after := LocalAt(front, host), LocalAt(front + [last], host);
    assert after == before + if !last.system && last.hostID == host then {|front|} else {};
  }

  lemma LocalAppsMore(front: seq<Workload>, last: Workload, host: string)
    requires last !in front
    ensures |OnHost(Apps(front + [last]), host)| ==
      |OnHost(Apps(front), host)| + if !last.system && last.hostID == host then 1 else 0
  {
    var before, after := OnHost(Apps(front), host), OnHost(Apps(front + [last]), host);
    assert after == before + if !last.system && last.hostID == host then {last} else {};
  }

  lemma {:induction false} LocalAppsCounted(ws: seq<Workload>, host: string)
    requires UniqueIDs(ws)
    ensures |OnHost(Apps(ws), host)| == |LocalAt(ws, host)|
  {
    if ws == [] {
      assert OnHost(Apps(ws), host) == {} && LocalAt(ws, host) == {};
    } else {
      var n := |ws| - 1;
      assert ws == ws[..n] + [ws[n]];
      assert ws[n] !in ws[..n] by { assert forall i :: 0 <= i < n ==> ws[i].id != ws[n].id; }
      LocalAppsCounted(ws[..n], host);
      hide OnHost, Apps, LocalAt, UniqueIDs;
      LocalAtMore(ws[..n], ws[n], host);
      LocalAppsMore(ws[..n], ws[n], host);
    }
  }

  lemma EmitsNothing(s: Snapshot, rule: Rule)
    requires LabelsDetermined(s) && IsNormalRule(rule)
    ensures CompiledRule(s, rule) == [] <==> forall src, dst :: !ConnectsAddresses(s, rule, src, dst)
  {
    hide LabelsDetermined, ConnectsAddresses, RelatesAddresses, CompiledRule, IsNormalRule;
    forall src, dst ensures ConnectsAddresses(s, rule, src, dst) <==> RelatesAddresses(s, rule, src, dst) {
      AddressesAsRead(s, rule, src, dst);
    }
    EmptyIsUnrelated(s, rule);
  }

  lemma AdmittedPort(rule: Rule) returns (protocol: string, port: nat)
    requires IsNormalRule(rule)
    ensures forall src, dst :: PortsAdmit(rule.ports, Packet(src, dst, protocol, port, false))
  {
    protocol, port := "tcp", 1;
    if rule.ports != [] {
      var text := rule.ports[0];
      assert IsCanonicalPort(text);
      hide IsCanonicalPort, IsCanonicalSelector, IsNormalRule;
      protocol, port := AdmittedBy(text);
      forall src, dst ensures PortsAdmit(rule.ports, Packet(src, dst, protocol, port, false)) {
        assert text in rule.ports && PortAdmits(text, Packet(src, dst, protocol, port, false));
      }
    }
  }

  lemma AdmittedBy(text: string) returns (protocol: string, port: nat)
    requires IsCanonicalPort(text)
    ensures forall src, dst :: PortAdmits(text, Packet(src, dst, protocol, port, false))
  {
    hide Itoa;
    var n: nat, p: Option<string> :| IsPortText(text, n, p);
    protocol, port := if p.Some? then p.value else "tcp", n;
  }

  lemma SomeMatch(rule: FirewallRule, rules: seq<FirewallRule>) returns (pkt: Packet)
    requires rule in rules
    ensures FirstMatch(rules, pkt).Some?
  {
    var src := if rule.sources == [] then NoAddr else rule.sources[0];
    var dst := if rule.destinations == [] then NoAddr else rule.destinations[0];
    pkt := if rule.port.None? then Packet(src, dst, "tcp", 1, false)
           else Packet(src, dst, rule.port.value.protocol, rule.port.value.number, false);
    assert RuleMatches(rule, pkt);
    hide RuleMatches;
    MatchIsFound(rules, rule, pkt);
  }

  lemma {:induction false} MatchIsFound(rules: seq<FirewallRule>, rule: FirewallRule, pkt: Packet)
    requires rule in rules && RuleMatches(rule, pkt)
    ensures FirstMatch(rules, pkt).Some?
  {
    hide RuleMatches;
    if !RuleMatches(rules[0], pkt) {
      assert rules == [rules[0]] + rules[1..];
      MatchIsFound(rules[1..], rule, pkt);
    }
  }

  lemma EmptyIsUnrelated(s: Snapshot, rule: Rule)
    requires IsNormalRule(rule)
    ensures CompiledRule(s, rule) == [] <==> forall src, dst :: !RelatesAddresses(s, rule, src, dst)
  {
    hide CompiledRule, RelatesAddresses, IsNormalRule, PortsAdmit;
    forall pkt { RuleDecides(s, rule, pkt); }
    if CompiledRule(s, rule) == [] {
      var protocol, port := AdmittedPort(rule);
      forall src, dst ensures !RelatesAddresses(s, rule, src, dst) {
        assert !Applies(s, rule, Packet(src, dst, protocol, port, false));
      }
    } else {
      var pkt := SomeMatch(CompiledRule(s, rule)[0], CompiledRule(s, rule));
      assert Applies(s, rule, pkt);
    }
  }

  lemma {:induction false} ZeroMatchesCounted(s: Snapshot, rules: seq<Rule>)
    requires LabelsDetermined(s) && forall rule :: rule in rules ==> IsNormalRule(rule)
    ensures ZeroMatches(s, rules) == |Unmatched(s, rules)|
  {
    hide LabelsDetermined, IsNormalRule, CompiledRule, ConnectsAddresses;
    if rules != [] {
      var n := |rules| - 1;
      var front, last := rules[..n], rules[n];
      ZeroMatchesCounted(s, front);
      EmitsNothing(s, last);
      var before, after := Unmatched(s, front), Unmatched(s, rules);
      if CompiledRule(s, last) == [] { assert after == before + {n}; } else { assert after == before; }
    }
  }

  // ---- a compiled plan, as read ----

  /** Every plan Compile may return counts what is there. */
  lemma PossiblePlanCounts(s: Snapshot, plan: FirewallPlan)
    requires Accepted(s) && IsPossiblePlan(s, plan)
    ensures CountsAreOf(s, plan)
  {
    hide RuleAccepted, MayEmit, SystemRule, DefaultRule, EmitChosen, EmitNothing, Masked, Contains;
    var choices :| MayEmitAll(s, s.policy.rules, choices) && plan == ChosenPlan(s, choices);
    MaskedIsBase(s.subnet);
    LocalAppsCounted(s.workloads, s.localHostID);
    hide IsBaseOf, UniqueIDs;
  }

  /** And where labels are determined and the policy normal, it decides what the policy says, and
      counts the rules that relate nobody. */
  lemma PlanAsRead(s: Snapshot, plan: FirewallPlan)
    requires IsPrefix4(s.subnet) && LabelsDetermined(s) && IsNormalPolicy(s.policy) && plan == PlanOf(s)
    ensures forall pkt :: IsVerdict(s, pkt, Decide(plan, pkt))
    ensures plan.zeroMatchCount == |Unmatched(s, s.policy.rules)|
  {
    assert plan.zeroMatchCount == ZeroMatches(s, s.policy.rules);
    assert forall r :: r in s.policy.rules ==> IsNormalRule(r);
    hide PlanOf, Decide, IsVerdict, Verdict, LabelsDetermined, IsNormalRule, ZeroMatches, ConnectsAddresses;
    ZeroMatchesCounted(s, s.policy.rules);
    forall pkt ensures IsVerdict(s, pkt, Decide(plan, pkt)) {
      CompilationPreservesMeaning(s, pkt);
      VerdictAsRead(s, pkt);
    }
  }
}
