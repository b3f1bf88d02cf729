/** What a policy says about a packet, read directly off the snapshot, and the proof that
    the compiled rules say the same. */
module Meaning {
  import opened Ordering
  import opened Text
  import opened Network
  import opened Firewall
  import opened Labels
  import opened Policy
  import opened Topology

  // ---- the direct reading ----

  /** The rule relates workload `w` to workload `v`. */
  ghost predicate Related(s: Snapshot, rule: Rule, w: Workload, v: Workload) {
    if rule.within == "stack" then w.stackID == v.stackID
    else if rule.within == "service" then w.primaryServiceID == v.primaryServiceID != ""
    else if rule.within == "linked" then
      || (w.primaryServiceID != "" && v.primaryServiceID != "" &&
          HasLink(s.serviceLinks, w.primaryServiceID, v.primaryServiceID))
      || HasLink(s.containerLinks, w.id, v.id)
    else if rule.between.Some? then
      if rule.between.value.selector != "" then
        Selects(rule.between.value.selector, w.labels) && Selects(rule.between.value.selector, v.labels)
      else
        var key := rule.between.value.groupBy;
        key in w.labels && key in v.labels && w.labels[key] == v.labels[key]
    else
      rule.from.Some? && rule.to.Some? && Selects(rule.from.value, w.labels) && Selects(rule.to.value, v.labels)
  }

  /** The rule relates application workloads at the two addresses, the target a local one. */
  ghost predicate RelatesAddresses(s: Snapshot, rule: Rule, src: Addr, dst: Addr) {
    exists w, v :: w in Apps(s.workloads) && v in LocalApps(s) && w.ip == src && v.ip == dst && Related(s, rule, w, v)
  }

  /** A port entry admits a packet: its number, alone or with the packet's protocol. */
  predicate PortAdmits(port: string, pkt: Packet) {
    IsProtocol(pkt.protocol) && (port == PortText(pkt.port, None) || port == PortText(pkt.port, Some(pkt.protocol)))
  }

  predicate PortsAdmit(ports: seq<string>, pkt: Packet) {
    ports == [] || exists p :: p in ports && PortAdmits(p, pkt)
  }

  ghost predicate Applies(s: Snapshot, rule: Rule, pkt: Packet) {
    RelatesAddresses(s, rule, pkt.src, pkt.dst) && PortsAdmit(rule.ports, pkt)
  }

  /** The action of the first submitted rule that applies. */
  ghost function FirstApplying(s: Snapshot, rules: seq<Rule>, pkt: Packet): Option<string> {
    if rules == [] then None
    else if Applies(s, rules[0], pkt) then Some(rules[0].action)
    else FirstApplying(s, rules[1..], pkt)
  }

  /** System sources first, then the rules in order, then the default for local
      applications; anything else is left alone. */
  ghost function Verdict(s: Snapshot, pkt: Packet): string {
    if pkt.src in Addrs(Systems(s.workloads)) then "allow"
    else
      var first := FirstApplying(s, s.policy.rules, pkt);
      if first.Some? then first.value
      else if pkt.dst in Addrs(LocalApps(s)) then s.policy.defaultAction
      else "allow"
  }

  // ---- ports ----

  predicate SomePortMatches(ports: seq<PortMatch>, pkt: Packet) {
    exists i :: 0 <= i < |ports| && PortMatches(Some(ports[i]), pkt)
  }

  lemma OnePort(text: string, pkt: Packet)
    requires IsCanonicalPort(text)
    ensures SomePortMatches(PortsOf(text), pkt) <==> PortAdmits(text, pkt)
  {
    hide PortsOf, PortText;
    var n: nat, p: Option<string> :| IsPortText(text, n, p);
    PortsOfText(text, n, p);
    var ports := PortsOf(text);
    if p.Some? {
      assert SomePortMatches(ports, pkt) <==> PortMatches(Some(ports[0]), pkt);
    } else {
      assert SomePortMatches(ports, pkt) <==> PortMatches(Some(ports[0]), pkt) || PortMatches(Some(ports[1]), pkt);
    }
    if PortAdmits(text, pkt) {
      if text == PortText(pkt.port, None) { PortTextIsInjective(n, p, pkt.port, None); }
      else { PortTextIsInjective(n, p, pkt.port, Some(pkt.protocol)); }
    }
  }

  lemma SomePortConcat(a: seq<PortMatch>, b: seq<PortMatch>, pkt: Packet)
    ensures SomePortMatches(a + b, pkt) <==> SomePortMatches(a, pkt) || SomePortMatches(b, pkt)
  {
    if SomePortMatches(a, pkt) {
      var i :| 0 <= i < |a| && PortMatches(Some(a[i]), pkt);
      assert (a + b)[i] == a[i];
    }
    if SomePortMatches(b, pkt) {
      var i :| 0 <= i < |b| && PortMatches(Some(b[i]), pkt);
      assert (a + b)[|a| + i] == b[i];
    }
  }

  lemma {:induction false} ManyPorts(ports: seq<string>, pkt: Packet)
    requires forall p :: p in ports ==> IsCanonicalPort(p)
    ensures SomePortMatches(AllPorts(ports), pkt) <==> exists p :: p in ports && PortAdmits(p, pkt)
  {
    hide PortAdmits, PortsOf, IsCanonicalPort, PortMatches;
    if ports != [] {
      var front, last := ports[..|ports| - 1], ports[|ports| - 1];
      assert ports == front + [last];
      ManyPorts(front, pkt);
      OnePort(last, pkt);
      SomePortConcat(AllPorts(front), PortsOf(last), pkt);
    }
  }

  // ---- blocks ----

  ghost predicate InBlock(b: Block, pkt: Packet) {
    pkt.src in b.src && pkt.dst in b.dst
  }

  lemma EmitDecides(b: Block, ports: seq<string>, action: string, pkt: Packet)
    requires forall p :: p in ports ==> IsCanonicalPort(p)
    ensures FirstMatch(Emit(b, ports, action), pkt) ==
      if InBlock(b, pkt) && PortsAdmit(ports, pkt) then Some(action) else None
  {
    hide PortAdmits, IsCanonicalPort, AllPorts;
    var rules := Emit(b, ports, action);
    if b.src != {} && b.dst != {} {
      var src, dst := AddrList(b.src), AddrList(b.dst);
      assert pkt.src in src <==> pkt.src in Elems(src);
      assert pkt.dst in dst <==> pkt.dst in Elems(dst);
      FirstMatchUniform(rules, action, pkt);
      if ports == [] {
        assert rules[0] in rules;
      } else {
        ManyPorts(ports, pkt);
        var matches := AllPorts(ports);
        forall i | 0 <= i < |rules|
          ensures RuleMatches(rules[i], pkt) <==> InBlock(b, pkt) && PortMatches(Some(matches[i]), pkt)
        {
        }
        if SomePortMatches(matches, pkt) {
          var i :| 0 <= i < |matches| && PortMatches(Some(matches[i]), pkt);
          assert rules[i] in rules;
        }
      }
    }
  }

  ghost predicate Covered(blocks: seq<Block>, pkt: Packet) {
    exists i :: 0 <= i < |blocks| && InBlock(blocks[i], pkt)
  }

  lemma {:induction false} EmitAllDecides(blocks: seq<Block>, ports: seq<string>, action: string, pkt: Packet)
    requires forall p :: p in ports ==> IsCanonicalPort(p)
    ensures FirstMatch(EmitAll(blocks, ports, action), pkt) ==
      if Covered(blocks, pkt) && PortsAdmit(ports, pkt) then Some(action) else None
  {
    hide IsCanonicalPort, Emit, PortsAdmit, InBlock;
    if blocks != [] {
      var front, last := blocks[..|blocks| - 1], blocks[|blocks| - 1];
      assert forall i :: 0 <= i < |front| ==> blocks[i] == front[i];
      EmitAllDecides(front, ports, action, pkt);
      EmitDecides(last, ports, action, pkt);
      FirstMatchConcat(EmitAll(front, ports, action), Emit(last, ports, action), pkt);
    }
  }

  // ---- blocks of a rule ----

  lemma CoveredByKeys(s: Snapshot, form: Keyed, pkt: Packet)
    ensures Covered(KeyedBlocks(s, form), pkt) <==>
      exists key :: key in KeysFor(s, form) && InBlock(BlockFor(s, form, key), pkt)
  {
    hide InBlock, BlockFor, KeysFor;
    var keys := StrList(KeysFor(s, form));
    var blocks := BlocksFor(s, form, keys);
    if Covered(blocks, pkt) {
      var i :| 0 <= i < |blocks| && InBlock(blocks[i], pkt);
      assert keys[i] in Elems(keys);
    }
    if key :| key in KeysFor(s, form) && InBlock(BlockFor(s, form, key), pkt) {
      assert key in Elems(keys);
      var i :| 0 <= i < |keys| && keys[i] == key;
      assert InBlock(blocks[i], pkt);
    }
  }

  /** The key under which a keyed form relates two workloads. */
  ghost predicate LinkedBy(s: Snapshot, form: Keyed, w: Workload, v: Workload) {
    match form
    case Grouped(g) => KeyOf(g, w).Some? && KeyOf(g, w) == KeyOf(g, v)
    case ServiceLinked =>
      w.primaryServiceID != "" && v.primaryServiceID != "" &&
        HasLink(s.serviceLinks, w.primaryServiceID, v.primaryServiceID)
    case ContainerLinked => HasLink(s.containerLinks, w.id, v.id)
  }

  function KeyWith(form: Keyed, v: Workload): string {
    match form
    case Grouped(g) => if KeyOf(g, v).Some? then KeyOf(g, v).value else ""
    case ServiceLinked => v.primaryServiceID
    case ContainerLinked => v.id
  }

  lemma KeyedRelates(s: Snapshot, form: Keyed, w: Workload, v: Workload, key: string)
    requires w in SourcesFor(s, form, key) && v in TargetsFor(s, form, key)
    ensures w in Apps(s.workloads) && v in Apps(s.workloads) && LinkedBy(s, form, w, v)
  {
  }

  lemma KeyedCovers(s: Snapshot, form: Keyed, w: Workload, v: Workload)
    requires w in Apps(s.workloads) && v in Apps(s.workloads) && LinkedBy(s, form, w, v)
    ensures var key := KeyWith(form, v);
      key in KeysFor(s, form) && w in SourcesFor(s, form, key) && v in TargetsFor(s, form, key)
  {
  }

  lemma KeyedMeaning(s: Snapshot, form: Keyed, pkt: Packet)
    ensures Covered(KeyedBlocks(s, form), pkt) <==>
      exists w, v ::
        w in Apps(s.workloads) && v in LocalApps(s) && w.ip == pkt.src && v.ip == pkt.dst && LinkedBy(s, form, w, v)
  {
    CoveredByKeys(s, form, pkt);
    hide KeyedBlocks, SourcesFor, TargetsFor, LinkedBy, KeysFor, KeyWith;
    if key :| key in KeysFor(s, form) && InBlock(BlockFor(s, form, key), pkt) {
      var w :| w in SourcesFor(s, form, key) && w.ip == pkt.src;
      var v :| v in TargetsFor(s, form, key) && v.hostID == s.localHostID && v.ip == pkt.dst;
      KeyedRelates(s, form, w, v, key);
    }
    if w, v :| (
        && w in Apps(s.workloads) && v in LocalApps(s) && w.ip == pkt.src && v.ip == pkt.dst
        && LinkedBy(s, form, w, v)) {
      KeyedCovers(s, form, w, v);
      var key := KeyWith(form, v);
      assert v in OnHost(TargetsFor(s, form, key), s.localHostID);
      assert InBlock(BlockFor(s, form, key), pkt);
    }
  }

  lemma CoveredConcat(a: seq<Block>, b: seq<Block>, pkt: Packet)
    ensures Covered(a + b, pkt) <==> Covered(a, pkt) || Covered(b, pkt)
  {
    hide InBlock;
    if Covered(a, pkt) {
      var i :| 0 <= i < |a| && InBlock(a[i], pkt);
      assert (a + b)[i] == a[i];
    }
    if Covered(b, pkt) {
      var i :| 0 <= i < |b| && InBlock(b[i], pkt);
      assert (a + b)[|a| + i] == b[i];
    }
  }

  lemma SelectorMeaning(s: Snapshot, from: string, to: string, pkt: Packet)
    ensures Covered([SelectorBlock(s, from, to)], pkt) <==>
      exists w, v :: w in Apps(s.workloads) && v in LocalApps(s) && w.ip == pkt.src && v.ip == pkt.dst &&
        Selects(from, w.labels) && Selects(to, v.labels)
  {
    hide Selects;
    var b := SelectorBlock(s, from, to);
    assert Covered([b], pkt) <==> InBlock(b, pkt) by {
      if InBlock(b, pkt) { assert InBlock([b][0], pkt); }
    }
    if w, v :| (
        && w in Apps(s.workloads) && v in LocalApps(s) && w.ip == pkt.src && v.ip == pkt.dst
        && Selects(from, w.labels) && Selects(to, v.labels)) {
      assert w in Selected(s.workloads, from) && v in OnHost(Selected(s.workloads, to), s.localHostID);
    }
  }

  /** The blocks of a rule cover exactly the address pairs the rule relates. */
  lemma BlocksMeaning(s: Snapshot, rule: Rule, pkt: Packet)
    requires rule.within == "" || IsWithin(rule.within)
    requires rule.within != "" || rule.between.Some? || (rule.from.Some? && rule.to.Some?)
    ensures Covered(RuleBlocks(s, rule), pkt) <==> RelatesAddresses(s, rule, pkt.src, pkt.dst)
  {
    hide KeyedBlocks, Covered, Selects, Apps, LocalApps, SelectorBlock;
    if rule.within == "stack" { KeyedMeaning(s, Grouped(ByStack), pkt); }
    else if rule.within == "service" { KeyedMeaning(s, Grouped(ByService), pkt); }
    else if rule.within == "linked" {
      KeyedMeaning(s, ServiceLinked, pkt);
      KeyedMeaning(s, ContainerLinked, pkt);
      CoveredConcat(KeyedBlocks(s, ServiceLinked), KeyedBlocks(s, ContainerLinked), pkt);
    } else if rule.between.Some? {
      if rule.between.value.selector != "" {
        SelectorMeaning(s, rule.between.value.selector, rule.between.value.selector, pkt);
      } else {
        KeyedMeaning(s, Grouped(ByLabel(rule.between.value.groupBy)), pkt);
      }
    } else {
      SelectorMeaning(s, rule.from.value, rule.to.value, pkt);
    }
  }

  // ---- the whole plan ----

  lemma RuleDecides(s: Snapshot, rule: Rule, pkt: Packet)
    requires IsNormalRule(rule)
    ensures FirstMatch(CompiledRule(s, rule), pkt) == if Applies(s, rule, pkt) then Some(rule.action) else None
  {
    assert forall p :: p in rule.ports ==> IsCanonicalPort(p);
    hide IsCanonicalPort, RuleBlocks, EmitAll, RelatesAddresses, PortsAdmit;
    BlocksMeaning(s, rule, pkt);
    EmitAllDecides(RuleBlocks(s, rule), rule.ports, rule.action, pkt);
  }

  lemma {:induction false} FirstApplyingSnoc(s: Snapshot, rules: seq<Rule>, last: Rule, pkt: Packet)
    ensures FirstApplying(s, rules + [last], pkt) ==
      OrElse(FirstApplying(s, rules, pkt), if Applies(s, last, pkt) then Some(last.action) else None)
  {
    hide Applies;
    if rules == [] {
      assert ([] + [last])[1..] == [] && ([] + [last])[0] == last;
    } else {
      FirstApplyingSnoc(s, rules[1..], last, pkt);
      assert (rules + [last])[1..] == rules[1..] + [last];
    }
  }

  lemma {:induction false} RulesDecide(s: Snapshot, rules: seq<Rule>, pkt: Packet)
    requires forall r :: r in rules ==> IsNormalRule(r)
    ensures FirstMatch(CompiledRules(s, rules), pkt) == FirstApplying(s, rules, pkt)
  {
    hide IsNormalRule, Applies, CompiledRule;
    if rules != [] {
      var front, last := rules[..|rules| - 1], rules[|rules| - 1];
      assert rules == front + [last];
      RulesDecide(s, front, pkt);
      RuleDecides(s, last, pkt);
      FirstMatchConcat(CompiledRules(s, front), CompiledRule(s, last), pkt);
      FirstApplyingSnoc(s, front, last, pkt);
    }
  }

  lemma OuterRulesDecide(s: Snapshot, pkt: Packet)
    ensures FirstMatch(SystemRule(s), pkt) == if pkt.src in Addrs(Systems(s.workloads)) then Some("allow") else None
    ensures FirstMatch(DefaultRule(s), pkt) ==
      if pkt.dst in Addrs(LocalApps(s)) then Some(s.policy.defaultAction) else None
  {
    var systems, local := Addrs(Systems(s.workloads)), Addrs(LocalApps(s));
    hide Addrs, Systems, LocalApps;
    assert pkt.src in AddrList(systems) <==> pkt.src in Elems(AddrList(systems));
    assert pkt.dst in AddrList(local) <==> pkt.dst in Elems(AddrList(local));
  }

  /** Compilation preserves meaning: the first match of the compiled plan is the direct
      reading of the policy, for every packet. */
  lemma CompilationPreservesMeaning(s: Snapshot, pkt: Packet)
    requires IsPrefix4(s.subnet) && IsNormalPolicy(s.policy)
    ensures Decide(PlanOf(s), pkt) == Verdict(s, pkt)
  {
    hide SystemRule, DefaultRule, CompiledRules, FirstApplying, IsNormalRule, Addrs;
    OuterRulesDecide(s, pkt);
    RulesDecide(s, s.policy.rules, pkt);
    FirstMatchConcat(SystemRule(s) + CompiledRules(s, s.policy.rules), DefaultRule(s), pkt);
    FirstMatchConcat(SystemRule(s), CompiledRules(s, s.policy.rules), pkt);
  }
}
