/** From snapshot to packets: nothing in the pipeline can get stuck, and what the kernel
    does in the ready state is what the policy says. */
module Pipeline {
  import opened Ordering
  import opened Text
  import opened Network
  import opened Firewall
  import opened Labels
  import opened Policy
  import opened Topology
  import opened Meaning
  import opened Rendering
  import opened Manager
  import opened ManagerRuns

  // ---- compiled plans render ----

  ghost predicate AddressesIn(subnet: Prefix, addresses: set<Addr>)
    requires IsPrefix4(subnet)
  {
    forall a :: a in addresses ==> Contains(subnet, a)
  }

  ghost predicate WorkloadsIn(s: Snapshot)
    requires IsPrefix4(s.subnet)
  {
    forall w :: w in s.workloads ==> Contains(s.subnet, w.ip)
  }

  ghost predicate BlocksIn(subnet: Prefix, blocks: seq<Block>)
    requires IsPrefix4(subnet)
  {
    forall i :: 0 <= i < |blocks| ==> AddressesIn(subnet, blocks[i].src) && AddressesIn(subnet, blocks[i].dst)
  }

  lemma SomeAddressesIn(s: Snapshot, ws: set<Workload>)
    requires IsPrefix4(s.subnet) && WorkloadsIn(s) && forall w :: w in ws ==> w in s.workloads
    ensures AddressesIn(s.subnet, Addrs(ws))
  {
    hide Contains;
  }

  lemma KeyedBlocksIn(s: Snapshot, form: Keyed)
    requires IsPrefix4(s.subnet) && WorkloadsIn(s)
    ensures BlocksIn(s.subnet, KeyedBlocks(s, form))
  {
    hide AddressesIn, WorkloadsIn, Addrs, KeyOf, HasLink, KeysFor;
    var keys := StrList(KeysFor(s, form));
    forall i | 0 <= i < |keys|
      ensures AddressesIn(s.subnet, KeyedBlocks(s, form)[i].src) && AddressesIn(s.subnet, KeyedBlocks(s, form)[i].dst)
    {
      SomeAddressesIn(s, SourcesFor(s, form, keys[i]));
      SomeAddressesIn(s, OnHost(TargetsFor(s, form, keys[i]), s.localHostID));
    }
  }

  lemma RuleBlocksIn(s: Snapshot, rule: Rule)
    requires IsPrefix4(s.subnet) && WorkloadsIn(s)
    ensures BlocksIn(s.subnet, RuleBlocks(s, rule))
  {
    hide AddressesIn, WorkloadsIn, Addrs, KeyedBlocks, Selects;
    forall form { KeyedBlocksIn(s, form); }
    forall from, to ensures BlocksIn(s.subnet, [SelectorBlock(s, from, to)]) {
      SomeAddressesIn(s, Selected(s.workloads, from));
      SomeAddressesIn(s, OnHost(Selected(s.workloads, to), s.localHostID));
    }
  }

  ghost predicate AllRenderable(subnet: Prefix, rules: seq<FirewallRule>)
    requires IsPrefix4(subnet)
  {
    forall r :: r in rules ==> RuleRenderable(subnet, r)
  }

  lemma ListIn(subnet: Prefix, addresses: set<Addr>)
    requires IsPrefix4(subnet) && AddressesIn(subnet, addresses)
    ensures InSubnet(subnet, AddrList(addresses))
  {
    hide Contains;
    forall a | a in AddrList(addresses) ensures Contains(subnet, a) { assert a in Elems(AddrList(addresses)); }
  }

  lemma PortsAreValid(text: string)
    requires IsCanonicalPort(text)
    ensures forall m :: m in PortsOf(text) ==> IsPort(Some(m))
  {
    hide PortsOf, PortText;
    var n: nat, p: Option<string> :| IsPortText(text, n, p);
    PortsOfText(text, n, p);
  }

  lemma {:induction false} AllPortsAreValid(ports: seq<string>)
    requires forall p :: p in ports ==> IsCanonicalPort(p)
    ensures forall m :: m in AllPorts(ports) ==> IsPort(Some(m))
  {
    hide IsCanonicalPort, PortsOf, IsPort;
    if ports != [] {
      AllPortsAreValid(ports[..|ports| - 1]);
      PortsAreValid(ports[|ports| - 1]);
    }
  }

  lemma EmitIsRenderable(subnet: Prefix, b: Block, ports: seq<string>, action: string)
    requires IsPrefix4(subnet) && AddressesIn(subnet, b.src) && AddressesIn(subnet, b.dst) && IsAction(action)
    requires forall p :: p in ports ==> IsCanonicalPort(p)
    ensures AllRenderable(subnet, Emit(b, ports, action))
  {
    hide IsCanonicalPort, AllPorts, Contains, IsAction;
    ListIn(subnet, b.src);
    ListIn(subnet, b.dst);
    AllPortsAreValid(ports);
    hide InSubnet, IsPort;
    assert IsPort(None) by { NoPortIsValid(); }
  }

  lemma NoPortIsValid()
    ensures IsPort(None)
  {
  }

  lemma {:induction false} EmitAllIsRenderable(subnet: Prefix, blocks: seq<Block>, ports: seq<string>, action: string)
    requires IsPrefix4(subnet) && BlocksIn(subnet, blocks) && IsAction(action)
    requires forall p :: p in ports ==> IsCanonicalPort(p)
    ensures AllRenderable(subnet, EmitAll(blocks, ports, action))
  {
    hide IsCanonicalPort, AddressesIn, Emit, RuleRenderable, IsAction;
    if blocks != [] {
      EmitAllIsRenderable(subnet, blocks[..|blocks| - 1], ports, action);
      EmitIsRenderable(subnet, blocks[|blocks| - 1], ports, action);
    }
  }

  lemma {:induction false} RulesAreRenderable(s: Snapshot, rules: seq<Rule>)
    requires IsPrefix4(s.subnet) && WorkloadsIn(s) && forall r :: r in rules ==> IsNormalRule(r)
    ensures AllRenderable(s.subnet, CompiledRules(s, rules))
  {
    hide RuleBlocks, WorkloadsIn, RuleRenderable, BlocksIn, EmitAll;
    if rules != [] {
      var last := rules[|rules| - 1];
      RulesAreRenderable(s, rules[..|rules| - 1]);
      RuleBlocksIn(s, last);
      assert last in rules;
      NormalRuleParts(last);
      EmitAllIsRenderable(s.subnet, RuleBlocks(s, last), last.ports, last.action);
    }
  }

  lemma NormalRuleParts(rule: Rule)
    requires IsNormalRule(rule)
    ensures IsAction(rule.action) && forall p :: p in rule.ports ==> IsCanonicalPort(p)
  {
    hide IsCanonicalPort, IsCanonicalSelector;
  }

  lemma OuterRulesAreRenderable(s: Snapshot)
    requires IsPrefix4(s.subnet) && WorkloadsIn(s) && IsAction(s.policy.defaultAction)
    ensures AllRenderable(s.subnet, SystemRule(s)) && AllRenderable(s.subnet, DefaultRule(s))
  {
    hide Contains, WorkloadsIn;
    SomeAddressesIn(s, Systems(s.workloads));
    SomeAddressesIn(s, LocalApps(s));
    ListIn(s.subnet, Addrs(Systems(s.workloads)));
    ListIn(s.subnet, Addrs(LocalApps(s)));
    hide AddressesIn, Addrs;
    assert InSubnet(s.subnet, []);
  }

  lemma MaskedRenderable(subnet: Prefix, rules: seq<FirewallRule>)
    requires IsPrefix4(subnet) && AllRenderable(subnet, rules)
    ensures AllRenderable(Masked(subnet), rules)
  {
    assert forall a :: Contains(Masked(subnet), a) <==> Contains(subnet, a);
    hide Contains, Masked, IsPort, IsAction;
  }

  /** Every plan compiled from an accepted snapshot with a normal policy renders, and so
      does its fail-open form. */
  lemma CompiledPlanRenders(s: Snapshot)
    requires Accepted(s) && IsNormalPolicy(s.policy)
    ensures Renderable(PlanOf(s)) && Renderable(FailOpenPlan(PlanOf(s)))
  {
    assert WorkloadsIn(s);
    assert forall r :: r in s.policy.rules ==> IsNormalRule(r);
    hide Accepted, RuleRenderable, CompiledRules, IsNormalRule, SystemRule, DefaultRule, WorkloadsIn, Masked;
    RulesAreRenderable(s, s.policy.rules);
    OuterRulesAreRenderable(s);
    MaskedRenderable(s.subnet, PlanRules(s));
  }

  // ---- packets ----

  /** A packet the policy has a say in. */
  predicate NewInSubnet(s: Snapshot, pkt: Packet) {
    IsPrefix4(s.subnet) && Contains(s.subnet, pkt.src) && Contains(s.subnet, pkt.dst) && !pkt.established
  }

  /** The kernel, running any rendering of the compiled plan, accepts a packet exactly when
      the policy, read directly, does not deny it. */
  lemma KernelEnforcesPolicy(s: Snapshot, program: Program, pkt: Packet)
    requires Accepted(s) && IsNormalPolicy(s.policy)
    requires Renders(program, PlanOf(s)) && SetsAreInterned(program.sets)
    ensures Accepts(program, pkt) <==> (NewInSubnet(s, pkt) ==> Verdict(s, pkt) == "allow")
  {
    CompiledPlanRenders(s);
    CompilationPreservesMeaning(s, pkt);
    RenderingPreservesMeaning(program, PlanOf(s), pkt);
    var m := Masked(s.subnet);
    assert Contains(m, pkt.src) <==> Contains(s.subnet, pkt.src);
    assert Contains(m, pkt.dst) <==> Contains(s.subnet, pkt.dst);
    hide Contains, Masked, Renders, SetsAreInterned, Accepts, PlanRules, Verdict, Renderable, IsNormalPolicy;
  }

  /** While enforcement is suspended the kernel drops nothing. */
  lemma FailOpenDropsNothing(plan: FirewallPlan, program: Program, pkt: Packet)
    requires Renderable(FailOpenPlan(plan)) && Renders(program, FailOpenPlan(plan)) && SetsAreInterned(program.sets)
    ensures Accepts(program, pkt)
  {
    hide Contains, SetsAreInterned, Renders, Accepts;
    RenderingPreservesMeaning(program, FailOpenPlan(plan), pkt);
  }

  /** After any run: when "ready" is published, the last attempt succeeded, and if its snapshot
      was `s` the kernel's verdict on every packet is the policy's. */
  lemma ReadyMeansEnforced(run: seq<Attempt>, failOpenAfter: int, reply: Reply, program: Program, pkt: Packet)
    requires Genuine(run) && run != [] && Answers(reply, run[|run| - 1])
    requires After(run, failOpenAfter).status.status == "ready"
    requires reply.snapshot.Some? ==>
      IsNormalPolicy(reply.snapshot.value.policy) && LabelsDetermined(reply.snapshot.value)
    requires SetsAreInterned(program.sets)
    requires After(run, failOpenAfter).table.Some? ==> Renders(program, After(run, failOpenAfter).table.value)
    ensures reply.snapshot.Some? && Accepted(reply.snapshot.value)
    ensures After(run, failOpenAfter).table == Some(PlanOf(reply.snapshot.value))
    ensures Accepts(program, pkt) <==>
      (NewInSubnet(reply.snapshot.value, pkt) ==> Verdict(reply.snapshot.value, pkt) == "allow")
  {
    hide Accepted, IsNormalPolicy, Renders, SetsAreInterned, Accepts, PlanOf, Verdict, After, Genuine,
      LabelsDetermined, IsSuspended;
    Remembered(run, failOpenAfter);
    if run[|run| - 1].plan.Some? { ReplyDeterminesPlan(reply, run[|run| - 1]); }
    TableIsDetermined(run, failOpenAfter);
    KernelEnforcesPolicy(reply.snapshot.value, program, pkt);
  }
}
