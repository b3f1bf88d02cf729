/** The policy compiler as the source runs it: groups collected in loops over Go maps,
    addresses sorted and compacted in place, rules appended to a plan through a shared object. */
module Compiler {
  import opened Ordering
  import opened Text
  import opened Network
  import opened Firewall
  import opened Selector
  import opened Labels
  import opened Policy
  import opened Topology
  import opened Choices
  import opened PolicyReading

  // ---- addresses ----

  /** `sort.Slice` by address. The order is total, so an unstable sort has one outcome. */
  method SortAddresses(a: array<Addr>)
    modifies a
    ensures multiset(a[..]) == multiset(old(a[..])) && Sorted(AddrLess, a[..])
  {
    var sorted := Sort(AddrLess, a[..]);
    AddressesAreOrdered();
    SortSorts(AddrLess, a[..]);
    forall i | 0 <= i < a.Length { a[i] := sorted[i]; }
    assert a[..] == sorted;
  }

  /** A sequence without immediate repetitions. */
  function Compacted(s: seq<Addr>): (r: seq<Addr>)
    ensures |r| <= |s|
    ensures s != [] ==> r != [] && r[|r| - 1] == s[|s| - 1]
  {
    if s == [] then []
    else
      var front, last := Compacted(s[..|s| - 1]), s[|s| - 1];
      if front == [] || front[|front| - 1] != last then front + [last] else front
  }

  lemma CompactedNext(s: seq<Addr>, i: nat)
    requires i < |s|
    ensures var front := Compacted(s[..i]);
      Compacted(s[..i + 1]) == if front == [] || front[|front| - 1] != s[i] then front + [s[i]] else front
  {
    assert s[..i + 1][..i] == s[..i];
  }

  lemma AscendingNext(c: seq<Addr>, last: Addr)
    requires Ascending(AddrLess, c)
    requires c != [] ==> c[|c| - 1] != last && !AddrLess(last, c[|c| - 1])
    ensures Ascending(AddrLess, c + [last])
  {
    AddressesAreOrdered();
    hide AddrLess;
  }

  /** Compacting a sorted sequence lists its elements once each. */
  lemma {:induction false} CompactedIsListing(s: seq<Addr>)
    requires Sorted(AddrLess, s)
    ensures Ascending(AddrLess, Compacted(s)) && Elems(Compacted(s)) == Elems(s)
  {
    if s != [] {
      var front, last := s[..|s| - 1], s[|s| - 1];
      CompactedIsListing(front);
      var c := Compacted(front);
      assert s == front + [last];
      ElemsPlus(front, last);
      if c == [] || c[|c| - 1] != last {
        assert c != [] ==> !AddrLess(last, s[|s| - 2]);
        AscendingNext(c, last);
        ElemsPlus(c, last);
      } else {
        assert last in Elems(c);
      }
    }
  }

  /** The compaction loop of uniqueAddresses, over `copy[:0]`. */
  method Compact(copy: array<Addr>) returns (n: nat)
    modifies copy
    ensures n <= copy.Length && copy[..n] == Compacted(old(copy[..]))
  {
    hide Compacted;
    ghost var sorted := copy[..];
    n := 0;
    assert Compacted(sorted[..0]) == [] by { NothingCompacted(sorted[..0]); }
    for i := 0 to copy.Length
      invariant n <= i
      invariant forall k :: i <= k < copy.Length ==> copy[k] == sorted[k]
      invariant copy[..n] == Compacted(sorted[..i])
    {
      var address := copy[i];
      CompactedNext(sorted, i);
      ghost var front := copy[..n];
      assert n > 0 ==> front[n - 1] == copy[n - 1];
      if n == 0 || copy[n - 1] != address {
        copy[n] := address;
        n := n + 1;
        assert copy[..n] == front + [address];
      }
    }
    assert sorted[..copy.Length] == sorted;
  }

  lemma NothingCompacted(s: seq<Addr>)
    requires s == []
    ensures Compacted(s) == []
  {
  }

  /** uniqueAddresses: sorts a copy and compacts it over its own prefix. */
  method UniqueAddresses(addresses: seq<Addr>) returns (output: seq<Addr>)
    ensures output == AddrList(Elems(addresses))
  {
    if |addresses| == 0 {
      assert Elems(addresses) == {};
      return [];
    }
    var copy := new Addr[|addresses|](i requires 0 <= i < |addresses| => addresses[i]);
    assert copy[..] == addresses;
    SortAddresses(copy);
    ghost var sorted := copy[..];
    MultisetElems(sorted, addresses);
    CompactedIsListing(sorted);
    AddrListIs(Compacted(sorted));
    var n := Compact(copy);
    output := copy[..n];
  }

  // ---- rules appended to the plan ----

  /** The plan under construction, shared between the compile functions. */
  class PlanBuilder {
    var plan: FirewallPlan

    constructor (plan: FirewallPlan)
      ensures this.plan == plan
    {
      this.plan := plan;
    }

    method Append(rule: FirewallRule)
      modifies this
      ensures plan == old(plan).(rules := old(plan.rules) + [rule])
    {
      plan := plan.(rules := plan.rules + [rule]);
    }
  }

  /** The plan with more rules at the end. */
  function WithRules(plan: FirewallPlan, more: seq<FirewallRule>): FirewallPlan {
    plan.(rules := plan.rules + more)
  }

  lemma WithRulesTwice(plan: FirewallPlan, a: seq<FirewallRule>, b: seq<FirewallRule>)
    ensures WithRules(WithRules(plan, a), b) == WithRules(plan, a + b)
  {
    assert plan.rules + a + b == plan.rules + (a + b);
  }

  lemma WithNoRules(plan: FirewallPlan)
    ensures WithRules(plan, []) == plan
  {
    assert plan.rules + [] == plan.rules;
  }

  lemma AppendedNext(plan: FirewallPlan, rules: seq<FirewallRule>, i: nat)
    requires i < |rules|
    ensures WithRules(plan, rules[..i]).(rules := plan.rules + rules[..i] + [rules[i]]) ==
      WithRules(plan, rules[..i + 1])
  {
    assert plan.rules + rules[..i] + [rules[i]] == plan.rules + rules[..i + 1];
  }

  /** One encoded port of appendAddressRule. */
  method AppendPort(builder: PlanBuilder, sources: seq<Addr>, destinations: seq<Addr>, encoded: string, action: string)
    modifies builder
    ensures builder.plan == WithRules(old(builder.plan), ForPorts(sources, destinations, PortsOf(encoded), action))
  {
    hide IsDigits, NatOf;
    var parts := Split(encoded, '/');
    var number := ParseUint16(parts[0]);
    hide Split;
    if number.None? {
      WithNoRules(builder.plan);
      return;
    }
    var protocols := ["tcp", "udp"];
    if |parts| == 2 { protocols := [parts[1]]; }
    ghost var all := ForProtocols(number.value, protocols);
    ghost var rules := ForPorts(sources, destinations, all, action);
    hide ForPorts, ForProtocols;
    WithNoRules(builder.plan);
    for i := 0 to |protocols|
      invariant builder.plan == WithRules(old(builder.plan), rules[..i])
    {
      AppendedNext(old(builder.plan), rules, i);
      builder.Append(FirewallRule(sources, destinations, Some(PortMatch(number.value, protocols[i])), action));
    }
    assert rules[..|protocols|] == rules;
  }

  lemma {:induction false} ForPortsConcat(
    sources: seq<Addr>, destinations: seq<Addr>, a: seq<PortMatch>, b: seq<PortMatch>, action: string)
    ensures ForPorts(sources, destinations, a + b, action) ==
      ForPorts(sources, destinations, a, action) + ForPorts(sources, destinations, b, action)
  {
    var left := ForPorts(sources, destinations, a + b, action);
    var right := ForPorts(sources, destinations, a, action) + ForPorts(sources, destinations, b, action);
    assert forall i :: 0 <= i < |a| + |b| ==> left[i] == right[i];
  }

  /** appendAddressRule */
  method AppendAddressRule(
    builder: PlanBuilder, sources: seq<Addr>, destinations: seq<Addr>, ports: seq<string>, action: string)
    modifies builder
    ensures builder.plan ==
      WithRules(old(builder.plan), Emit(Block(Elems(sources), Elems(destinations)), ports, action))
  {
    hide PortsOf;
    var src := UniqueAddresses(sources);
    var dst := UniqueAddresses(destinations);
    WithNoRules(builder.plan);
    if |src| == 0 || |dst| == 0 { return; }
    if |ports| == 0 {
      builder.Append(FirewallRule(src, dst, None, action));
      return;
    }
    for i := 0 to |ports|
      invariant builder.plan == WithRules(old(builder.plan), ForPorts(src, dst, AllPorts(ports[..i]), action))
    {
      AppendPort(builder, src, dst, ports[i], action);
      assert ports[..i + 1][..i] == ports[..i];
      ForPortsConcat(src, dst, AllPorts(ports[..i]), PortsOf(ports[i]), action);
      WithRulesTwice(old(builder.plan), ForPorts(src, dst, AllPorts(ports[..i]), action),
                     ForPorts(src, dst, PortsOf(ports[i]), action));
    }
    assert ports[..|ports|] == ports;
  }

  // ---- groups ----

  datatype Group = Group(all: seq<Addr>, local: seq<Addr>)

  /** ensureGroup, then the two appends every grouping loop makes. */
  function AddToGroup(groups: map<string, Group>, key: string, w: Workload, host: string): map<string, Group> {
    var item := if key in groups then groups[key] else Group([], []);
    groups[key := Group(item.all + [w.ip], if w.hostID == host then item.local + [w.ip] else item.local)]
  }

  /** The groups are those of the workloads seen so far. */
  ghost predicate Tallied(groups: map<string, Group>, ws: seq<Workload>, host: string, g: Grouping) {
    && groups.Keys == GroupKeys(ws, g)
    && forall key :: key in groups ==>
      && Elems(groups[key].all) == Addrs(Members(ws, g, key))
      && Elems(groups[key].local) == Addrs(OnHost(Members(ws, g, key), host))
  }

  lemma MembersSnoc(ws: seq<Workload>, w: Workload, g: Grouping, key: string)
    ensures Members(ws + [w], g, key) ==
      Members(ws, g, key) + if !w.system && KeyOf(g, w) == Some(key) then {w} else {}
  {
    assert forall v :: v in ws + [w] <==> v in ws || v == w;
  }

  lemma GroupKeysSnoc(ws: seq<Workload>, w: Workload, g: Grouping)
    ensures GroupKeys(ws + [w], g) ==
      GroupKeys(ws, g) + if !w.system && KeyOf(g, w).Some? then {KeyOf(g, w).value} else {}
  {
    hide KeyOf;
    var both := ws + [w];
    forall k | k in GroupKeys(ws, g) ensures k in GroupKeys(both, g) {
      var v :| v in ws && !v.system && KeyOf(g, v) == Some(k);
      assert v in both;
    }
    if !w.system && KeyOf(g, w).Some? { assert w in both; }
  }

  lemma AddrsPlus(ws: set<Workload>, w: Workload)
    ensures Addrs(ws + {w}) == Addrs(ws) + {w.ip}
  {
  }

  lemma OnHostPlus(ws: set<Workload>, w: Workload, host: string)
    ensures OnHost(ws + {w}, host) == if w.hostID == host then OnHost(ws, host) + {w} else OnHost(ws, host)
  {
  }

  lemma NotAKey(ws: seq<Workload>, g: Grouping, key: string)
    requires key !in GroupKeys(ws, g)
    ensures Members(ws, g, key) == {}
  {
    hide KeyOf;
    assert forall w :: w in ws && !w.system && KeyOf(g, w).Some? ==> KeyOf(g, w).value in GroupKeys(ws, g);
  }

  lemma TalliedSkip(groups: map<string, Group>, ws: seq<Workload>, w: Workload, host: string, g: Grouping)
    requires Tallied(groups, ws, host, g) && (w.system || KeyOf(g, w).None?)
    ensures Tallied(groups, ws + [w], host, g)
  {
    hide KeyOf, Members, GroupKeys;
    GroupKeysSnoc(ws, w, g);
    forall key | key in groups ensures Members(ws + [w], g, key) == Members(ws, g, key) {
      MembersSnoc(ws, w, g, key);
    }
  }

  lemma TalliedAdd(groups: map<string, Group>, ws: seq<Workload>, w: Workload, host: string, g: Grouping, key: string)
    requires Tallied(groups, ws, host, g) && !w.system && KeyOf(g, w) == Some(key)
    ensures Tallied(AddToGroup(groups, key, w, host), ws + [w], host, g)
  {
    hide KeyOf, Members, GroupKeys, Addrs, OnHost, Elems;
    GroupKeysSnoc(ws, w, g);
    var after := AddToGroup(groups, key, w, host);
    var members := Members(ws, g, key);
    assert Elems<Addr>([]) == {} && Addrs({}) == {} && OnHost({}, host) == {} by { EmptySets(host); }
    if key !in groups { NotAKey(ws, g, key); }
    var item := if key in groups then groups[key] else Group([], []);
    AddrsPlus(members, w);
    OnHostPlus(members, w, host);
    AddrsPlus(OnHost(members, host), w);
    ElemsPlus(item.all, w.ip);
    ElemsPlus(item.local, w.ip);
    forall k | k in after
      ensures Elems(after[k].all) == Addrs(Members(ws + [w], g, k))
      ensures Elems(after[k].local) == Addrs(OnHost(Members(ws + [w], g, k), host))
    {
      MembersSnoc(ws, w, g, k);
      if k != key { assert Members(ws + [w], g, k) == Members(ws, g, k); }
    }
  }

  lemma EmptySets(host: string)
    ensures Elems<Addr>([]) == {} && Addrs({}) == {} && OnHost({}, host) == {}
  {
  }

  /** The emission loop over sorted group keys. */
  method AppendGroups(
    builder: PlanBuilder, s: Snapshot, g: Grouping, groups: map<string, Group>, ports: seq<string>, action: string)
    requires Tallied(groups, s.workloads, s.localHostID, g)
    modifies builder
    ensures builder.plan == WithRules(old(builder.plan), EmitAll(KeyedBlocks(s, Grouped(g)), ports, action))
  {
    hide Emit, GroupKeys, Members, Addrs, OnHost, Elems, KeysFor, EmitAll;
    var keys := SortedKeys(groups.Keys);
    ghost var blocks := KeyedBlocks(s, Grouped(g));
    assert groups.Keys == KeysFor(s, Grouped(g)) by { GroupedKeys(s, g); }
    NothingEmitted(builder.plan, blocks, ports, action);
    for i := 0 to |keys|
      invariant builder.plan == WithRules(old(builder.plan), EmitAll(blocks[..i], ports, action))
    {
      InElems(keys, i);
      var item := groups[keys[i]];
      assert blocks[i] == Block(Elems(item.all), Elems(item.local));
      EmittedNext(old(builder.plan), blocks, i, ports, action);
      AppendAddressRule(builder, item.all, item.local, ports, action);
    }
    assert blocks[..|keys|] == blocks;
  }

  lemma GroupedKeys(s: Snapshot, g: Grouping)
    ensures KeysFor(s, Grouped(g)) == GroupKeys(s.workloads, g)
  {
  }

  lemma NothingEmitted(plan: FirewallPlan, blocks: seq<Block>, ports: seq<string>, action: string)
    ensures WithRules(plan, EmitAll(blocks[..0], ports, action)) == plan
  {
    WithNoRules(plan);
  }

  // ---- within ----

  /** The loop of `within: stack`. */
  method GroupByStack(s: Snapshot) returns (groups: map<string, Group>)
    ensures Tallied(groups, s.workloads, s.localHostID, ByStack)
  {
    hide AddToGroup;
    groups := map[];
    for i := 0 to |s.workloads|
      invariant Tallied(groups, s.workloads[..i], s.localHostID, ByStack)
    {
      var workload := s.workloads[i];
      assert s.workloads[..i + 1] == s.workloads[..i] + [workload];
      if workload.system {
        TalliedSkip(groups, s.workloads[..i], workload, s.localHostID, ByStack);
        continue;
      }
      TalliedAdd(groups, s.workloads[..i], workload, s.localHostID, ByStack, workload.stackID);
      groups := AddToGroup(groups, workload.stackID, workload, s.localHostID);
    }
    assert s.workloads[..|s.workloads|] == s.workloads;
  }

  /** The loop of `within: service`. */
  method GroupByService(s: Snapshot) returns (groups: map<string, Group>)
    ensures Tallied(groups, s.workloads, s.localHostID, ByService)
  {
    hide AddToGroup;
    groups := map[];
    for i := 0 to |s.workloads|
      invariant Tallied(groups, s.workloads[..i], s.localHostID, ByService)
    {
      var workload := s.workloads[i];
      assert s.workloads[..i + 1] == s.workloads[..i] + [workload];
      if workload.system || workload.primaryServiceID == "" {
        TalliedSkip(groups, s.workloads[..i], workload, s.localHostID, ByService);
        continue;
      }
      TalliedAdd(groups, s.workloads[..i], workload, s.localHostID, ByService, workload.primaryServiceID);
      groups := AddToGroup(groups, workload.primaryServiceID, workload, s.localHostID);
    }
    assert s.workloads[..|s.workloads|] == s.workloads;
  }

  /** The loop of `between: group_by`. */
  method GroupByLabel(s: Snapshot, key: string) returns (groups: map<string, Group>)
    ensures Tallied(groups, s.workloads, s.localHostID, ByLabel(key))
  {
    hide AddToGroup;
    groups := map[];
    for i := 0 to |s.workloads|
      invariant Tallied(groups, s.workloads[..i], s.localHostID, ByLabel(key))
    {
      var workload := s.workloads[i];
      assert s.workloads[..i + 1] == s.workloads[..i] + [workload];
      if workload.system || key !in workload.labels {
        TalliedSkip(groups, s.workloads[..i], workload, s.localHostID, ByLabel(key));
        continue;
      }
      TalliedAdd(groups, s.workloads[..i], workload, s.localHostID, ByLabel(key), workload.labels[key]);
      groups := AddToGroup(groups, workload.labels[key], workload, s.localHostID);
    }
    assert s.workloads[..|s.workloads|] == s.workloads;
  }

  /** compileWithin */
  method CompileWithin(builder: PlanBuilder, s: Snapshot, rule: Rule) returns (ok: bool)
    requires UniqueIDs(s.workloads)
    modifies builder
    ensures ok <==> IsWithin(rule.within)
    ensures builder.plan == old(builder.plan).(rules := builder.plan.rules)
    ensures ok ==>
      builder.plan == WithRules(old(builder.plan), EmitAll(WithinBlocks(s, rule.within), rule.ports, rule.action))
  {
    hide EmitAll, KeyedBlocks, Tallied;
    match rule.within {
      case "stack" =>
        var groups := GroupByStack(s);
        AppendGroups(builder, s, ByStack, groups, rule.ports, rule.action);
      case "service" =>
        var groups := GroupByService(s);
        AppendGroups(builder, s, ByService, groups, rule.ports, rule.action);
      case "linked" =>
        CompileLinked(builder, s, rule);
      case _ =>
        return false;
    }
    return true;
  }

  // ---- linked ----

  /** The links turned around: for every target, the set of its sources. */
  ghost predicate IsReversed(reversed: map<string, set<string>>, links: Links) {
    && reversed.Keys == Targets(links)
    && forall target, source :: target in reversed ==> (source in reversed[target] <==> HasLink(links, source, target))
  }

  lemma TargetsAre(links: Links)
    ensures forall target :: target in Targets(links) <==> exists other :: HasLink(links, other, target)
  {
    forall target, other | HasLink(links, other, target) ensures target in Targets(links) {
      assert other in links && target in links[other];
    }
    forall target | target in Targets(links) ensures exists other :: HasLink(links, other, target) {
      var other :| other in links && target in links[other];
      assert HasLink(links, other, target);
    }
  }

  ghost predicate Reversing(
    reversed: map<string, set<string>>, links: Links, done: set<string>, current: seq<string>, source: string)
  {
    && (forall target :: target in reversed <==>
          target in current || exists other :: other in done && HasLink(links, other, target))
    && (forall target, other :: target in reversed ==> (other in reversed[target] <==>
          (other == source && target in current) || (other in done && HasLink(links, other, target))))
  }

  lemma ReversingStep(
    reversed: map<string, set<string>>, links: Links, done: set<string>, current: seq<string>, source: string,
    target: string)
    requires Reversing(reversed, links, done, current, source) && source !in done
    ensures Reversing(
      reversed[target := (if target in reversed then reversed[target] else {}) + {source}], links, done,
      current + [target], source)
  {
    hide HasLink;
  }

  lemma ReversingNext(reversed: map<string, set<string>>, links: Links, done: set<string>, source: string)
    requires source in links && Reversing(reversed, links, done, links[source], source)
    ensures Reversing(reversed, links, done + {source}, [], "")
  {
    assert forall target :: HasLink(links, source, target) <==> target in links[source];
    hide HasLink;
  }

  /** The two nested loops that fill targetSources and containerTargets, over a Go map. */
  method ReverseLinks(links: Links) returns (reversed: map<string, set<string>>)
    ensures IsReversed(reversed, links)
  {
    hide HasLink, Targets;
    reversed := map[];
    var todo := links.Keys;
    while todo != {}
      invariant todo <= links.Keys
      invariant Reversing(reversed, links, links.Keys - todo, [], "")
    {
      var source :| source in todo;
      var targets := links[source];
      ghost var done := links.Keys - todo;
      for i := 0 to |targets|
        invariant Reversing(reversed, links, done, targets[..i], source)
      {
        ReversingStep(reversed, links, done, targets[..i], source, targets[i]);
        assert targets[..i + 1] == targets[..i] + [targets[i]];
        reversed := reversed[targets[i] := (if targets[i] in reversed then reversed[targets[i]] else {}) + {source}];
      }
      assert targets[..|targets|] == targets;
      ReversingNext(reversed, links, done, source);
      todo := todo - {source};
      assert links.Keys - todo == done + {source};
    }
    assert links.Keys - todo == links.Keys;
    ReversedAll(reversed, links);
  }

  lemma ReversedAll(reversed: map<string, set<string>>, links: Links)
    requires Reversing(reversed, links, links.Keys, [], "")
    ensures IsReversed(reversed, links)
  {
    TargetsAre(links);
  }

  function Lookup(index: map<string, seq<Workload>>, key: string): seq<Workload> {
    if key in index then index[key] else []
  }

  /** The application workloads by service. */
  ghost predicate Indexed(index: map<string, seq<Workload>>, ws: seq<Workload>) {
    forall key :: Elems(Lookup(index, key)) == Members(ws, ByService, key)
  }

  method IndexByService(ws: seq<Workload>) returns (index: map<string, seq<Workload>>)
    ensures Indexed(index, ws)
  {
    index := map[];
    for i := 0 to |ws|
      invariant Indexed(index, ws[..i])
    {
      var workload := ws[i];
      assert ws[..i + 1] == ws[..i] + [workload];
      ghost var before := index;
      if !workload.system && workload.primaryServiceID != "" {
        index := index[workload.primaryServiceID := Lookup(index, workload.primaryServiceID) + [workload]];
        ElemsPlus(Lookup(before, workload.primaryServiceID), workload);
      }
      forall key ensures Elems(Lookup(index, key)) == Members(ws[..i + 1], ByService, key) {
        MembersSnoc(ws[..i], workload, ByService, key);
        assert Elems(Lookup(before, key)) == Members(ws[..i], ByService, key);
      }
    }
    assert ws[..|ws|] == ws;
  }

  method IndexByID(ws: seq<Workload>) returns (byID: map<string, Workload>)
    requires UniqueIDs(ws)
    ensures forall id :: id in byID ==> byID[id] in ws && byID[id].id == id
    ensures forall w :: w in ws ==> w.id in byID && byID[w.id] == w
  {
    byID := map[];
    for i := 0 to |ws|
      invariant forall id :: id in byID ==> byID[id] in ws[..i] && byID[id].id == id
      invariant forall k :: 0 <= k < i ==> ws[k].id in byID && byID[ws[k].id] == ws[k]
    {
      assert ws[..i + 1] == ws[..i] + [ws[i]];
      byID := byID[ws[i].id := ws[i]];
    }
    assert ws[..|ws|] == ws;
  }

  /** Appends the addresses of a list of workloads. */
  method AppendIPs(addresses: seq<Addr>, ws: seq<Workload>) returns (r: seq<Addr>)
    ensures Elems(r) == Elems(addresses) + Addrs(Elems(ws))
  {
    r := addresses;
    for i := 0 to |ws|
      invariant Elems(r) == Elems(addresses) + Addrs(Elems(ws[..i]))
    {
      assert ws[..i + 1] == ws[..i] + [ws[i]];
      ElemsPlus(ws[..i], ws[i]);
      ElemsPlus(r, ws[i].ip);
      AddrsPlus(Elems(ws[..i]), ws[i]);
      r := r + [ws[i].ip];
    }
    assert ws[..|ws|] == ws;
  }

  method LocalIPs(ws: seq<Workload>, host: string) returns (r: seq<Addr>)
    ensures Elems(r) == Addrs(OnHost(Elems(ws), host))
  {
    r := [];
    EmptySets(host);
    for i := 0 to |ws|
      invariant Elems(r) == Addrs(OnHost(Elems(ws[..i]), host))
    {
      assert ws[..i + 1] == ws[..i] + [ws[i]];
      ElemsPlus(ws[..i], ws[i]);
      OnHostPlus(Elems(ws[..i]), ws[i], host);
      if ws[i].hostID == host {
        ElemsPlus(r, ws[i].ip);
        AddrsPlus(OnHost(Elems(ws[..i]), host), ws[i]);
        r := r + [ws[i].ip];
      }
    }
    assert ws[..|ws|] == ws;
  }

  ghost function OfServices(ws: seq<Workload>, services: set<string>): set<Workload> {
    set w | w in ws && !w.system && w.primaryServiceID != "" && w.primaryServiceID in services
  }

  ghost function WithIDs(ws: seq<Workload>, ids: set<string>): set<Workload> {
    set w | w in ws && !w.system && w.id in ids
  }

  lemma OfServicesPlus(ws: seq<Workload>, services: set<string>, source: string)
    ensures OfServices(ws, services + {source}) == OfServices(ws, services) + Members(ws, ByService, source)
  {
  }

  /** The sources of one service-link target, its source services taken in arbitrary order. */
  method ServiceSources(
    s: Snapshot, index: map<string, seq<Workload>>, services: set<string>, target: string)
    returns (r: seq<Addr>)
    requires Indexed(index, s.workloads)
    requires forall source :: source in services <==> HasLink(s.serviceLinks, source, target)
    ensures Elems(r) == Addrs(SourcesFor(s, ServiceLinked, target))
  {
    hide HasLink;
    r := [];
    var todo := services;
    while todo != {}
      invariant todo <= services
      invariant Elems(r) == Addrs(OfServices(s.workloads, services - todo))
    {
      var source :| source in todo;
      ghost var done := services - todo;
      r := AppendIPs(r, Lookup(index, source));
      assert Elems(Lookup(index, source)) == Members(s.workloads, ByService, source);
      todo := todo - {source};
      assert services - todo == done + {source};
      AddrsSplit(OfServices(s.workloads, done), Members(s.workloads, ByService, source));
      OfServicesPlus(s.workloads, done, source);
    }
    assert services - todo == services;
    assert SourcesFor(s, ServiceLinked, target) == OfServices(s.workloads, services);
  }

  lemma AddrsSplit(a: set<Workload>, b: set<Workload>)
    ensures Addrs(a + b) == Addrs(a) + Addrs(b)
  {
  }

  /** The sources of one container-link target. */
  method ContainerSources(
    s: Snapshot, byID: map<string, Workload>, ids: set<string>, target: string)
    returns (r: seq<Addr>)
    requires forall id :: id in byID ==> byID[id] in s.workloads && byID[id].id == id
    requires forall w :: w in s.workloads ==> w.id in byID && byID[w.id] == w
    requires forall source :: source in ids <==> HasLink(s.containerLinks, source, target)
    ensures Elems(r) == Addrs(SourcesFor(s, ContainerLinked, target))
  {
    hide HasLink;
    r := [];
    var todo := ids;
    while todo != {}
      invariant todo <= ids
      invariant Elems(r) == Addrs(WithIDs(s.workloads, ids - todo))
    {
      var source :| source in todo;
      ghost var before := WithIDs(s.workloads, ids - todo);
      todo := todo - {source};
      if source in byID && !byID[source].system {
        ElemsPlus(r, byID[source].ip);
        AddrsPlus(before, byID[source]);
        assert before + {byID[source]} == WithIDs(s.workloads, ids - todo);
        r := r + [byID[source].ip];
      } else {
        assert before == WithIDs(s.workloads, ids - todo);
      }
    }
    assert SourcesFor(s, ContainerLinked, target) == WithIDs(s.workloads, ids - todo);
  }

  /** One step of an emission loop: the blocks of the first `i` keys are in the plan. */
  lemma EmittedNext(plan: FirewallPlan, blocks: seq<Block>, i: nat, ports: seq<string>, action: string)
    requires i < |blocks|
    ensures WithRules(WithRules(plan, EmitAll(blocks[..i], ports, action)), Emit(blocks[i], ports, action))
         == WithRules(plan, EmitAll(blocks[..i + 1], ports, action))
  {
    hide Emit;
    assert blocks[..i + 1][..i] == blocks[..i];
    WithRulesTwice(plan, EmitAll(blocks[..i], ports, action), Emit(blocks[i], ports, action));
  }

  method CompileServiceLinks(builder: PlanBuilder, s: Snapshot, rule: Rule)
    modifies builder
    ensures builder.plan ==
      WithRules(old(builder.plan), EmitAll(KeyedBlocks(s, ServiceLinked), rule.ports, rule.action))
  {
    hide Emit, HasLink, Targets, Elems, Addrs, OnHost, Members;
    var workloadsByService := IndexByService(s.workloads);
    var targetSources := ReverseLinks(s.serviceLinks);
    var targets := SortedKeys(targetSources.Keys);
    ghost var blocks := KeyedBlocks(s, ServiceLinked);
    WithNoRules(builder.plan);
    for i := 0 to |targets|
      invariant builder.plan == WithRules(old(builder.plan), EmitAll(blocks[..i], rule.ports, rule.action))
    {
      var target := targets[i];
      InElems(targets, i);
      var sources := ServiceSources(s, workloadsByService, targetSources[target], target);
      var destinations := LocalIPs(Lookup(workloadsByService, target), s.localHostID);
      assert blocks[i] == Block(Elems(sources), Elems(destinations));
      AppendAddressRule(builder, sources, destinations, rule.ports, rule.action);
      EmittedNext(old(builder.plan), blocks, i, rule.ports, rule.action);
    }
    assert blocks[..|targets|] == blocks;
  }

  lemma IneligibleTarget(s: Snapshot, byID: map<string, Workload>, target: string)
    requires forall w :: w in s.workloads ==> w.id in byID && byID[w.id] == w
    requires target !in byID || byID[target].system || byID[target].hostID != s.localHostID
    ensures OnHost(TargetsFor(s, ContainerLinked, target), s.localHostID) == {}
  {
  }

  lemma EligibleTarget(s: Snapshot, w: Workload)
    requires UniqueIDs(s.workloads) && w in s.workloads && !w.system && w.hostID == s.localHostID
    ensures OnHost(TargetsFor(s, ContainerLinked, w.id), s.localHostID) == {w}
  {
  }

  method CompileContainerLinks(builder: PlanBuilder, s: Snapshot, rule: Rule)
    requires UniqueIDs(s.workloads)
    modifies builder
    ensures builder.plan ==
      WithRules(old(builder.plan), EmitAll(KeyedBlocks(s, ContainerLinked), rule.ports, rule.action))
  {
    hide HasLink, Targets, Elems, OnHost, TargetsFor, SourcesFor, UniqueIDs, AllPorts, ForPorts;
    var workloadByID := IndexByID(s.workloads);
    var containerTargets := ReverseLinks(s.containerLinks);
    var targets := SortedKeys(containerTargets.Keys);
    ghost var blocks := KeyedBlocks(s, ContainerLinked);
    WithNoRules(builder.plan);
    for i := 0 to |targets|
      invariant builder.plan == WithRules(old(builder.plan), EmitAll(blocks[..i], rule.ports, rule.action))
    {
      var target := targets[i];
      InElems(targets, i);
      EmittedNext(old(builder.plan), blocks, i, rule.ports, rule.action);
      if target !in workloadByID || workloadByID[target].system || workloadByID[target].hostID != s.localHostID {
        IneligibleTarget(s, workloadByID, target);
        WithNoRules(builder.plan);
        continue;
      }
      var destination := workloadByID[target];
      EligibleTarget(s, destination);
      var sources := ContainerSources(s, workloadByID, containerTargets[target], target);
      assert Elems([destination.ip]) == Addrs({destination}) by { OneAddress(destination); }
      AppendAddressRule(builder, sources, [destination.ip], rule.ports, rule.action);
    }
    assert blocks[..|targets|] == blocks;
  }

  lemma OneAddress(w: Workload)
    ensures Elems([w.ip]) == Addrs({w})
  {
  }

  lemma {:induction false} EmitAllConcat(a: seq<Block>, b: seq<Block>, ports: seq<string>, action: string)
    ensures EmitAll(a + b, ports, action) == EmitAll(a, ports, action) + EmitAll(b, ports, action)
  {
    hide Emit;
    if b == [] {
      assert a + b == a;
    } else {
      EmitAllConcat(a, b[..|b| - 1], ports, action);
      assert (a + b)[..|a + b| - 1] == a + b[..|b| - 1];
    }
  }

  /** compileLinked: service links, then container links, both from source to target. */
  method CompileLinked(builder: PlanBuilder, s: Snapshot, rule: Rule)
    requires UniqueIDs(s.workloads)
    modifies builder
    ensures builder.plan == WithRules(old(builder.plan), EmitAll(WithinBlocks(s, "linked"), rule.ports, rule.action))
  {
    hide KeyedBlocks;
    CompileServiceLinks(builder, s, rule);
    CompileContainerLinks(builder, s, rule);
    var a, b := KeyedBlocks(s, ServiceLinked), KeyedBlocks(s, ContainerLinked);
    EmitAllConcat(a, b, rule.ports, rule.action);
    WithRulesTwice(old(builder.plan), EmitAll(a, rule.ports, rule.action), EmitAll(b, rule.ports, rule.action));
  }

  // ---- selectors ----

  lemma AppsSnoc(ws: seq<Workload>, w: Workload)
    ensures Apps(ws + [w]) == Apps(ws) + if w.system then {} else {w}
  {
    assert forall v :: v in ws + [w] <==> v in ws || v == w;
  }

  /** The addresses collected so far are those of the selected workloads. */
  ghost predicate Collected(addresses: seq<Addr>, ws: set<Workload>) {
    Elems(addresses) == Addrs(ws)
  }

  lemma CollectedNext(addresses: seq<Addr>, ws: set<Workload>, w: Workload)
    requires Collected(addresses, ws)
    ensures Collected(addresses + [w.ip], ws + {w})
  {
    ElemsPlus(addresses, w.ip);
    AddrsPlus(ws, w);
  }

  /** compileBetween */
  method CompileBetween(builder: PlanBuilder, s: Snapshot, rule: Rule) returns (ok: bool, ghost blocks: seq<Block>)
    requires rule.within == "" && rule.between.Some?
    modifies builder
    ensures ok <==> RuleAccepted(s, rule)
    ensures builder.plan == old(builder.plan).(rules := builder.plan.rules)
    ensures ok ==> MayEmit(s, rule, blocks)
    ensures ok ==> builder.plan == WithRules(old(builder.plan), EmitAll(blocks, rule.ports, rule.action))
  {
    hide EmitAll, KeyedBlocks, Tallied, Emit, ParseSelector, IsBetweenBlock;
    blocks := [];
    if rule.between.value.selector != "" {
      var all, local;
      ghost var chosen, b;
      ok, all, local, chosen, b := SelectBetween(s, rule.between.value.selector);
      if !ok { return; }
      AppendAddressRule(builder, all, local, rule.ports, rule.action);
      OneBlock(b, rule.ports, rule.action);
      blocks := [b];
      return;
    }
    var groups := GroupByLabel(s, rule.between.value.groupBy);
    AppendGroups(builder, s, ByLabel(rule.between.value.groupBy), groups, rule.ports, rule.action);
    blocks := KeyedBlocks(s, Grouped(ByLabel(rule.between.value.groupBy)));
    ok := true;
  }

  lemma OneBlock(b: Block, ports: seq<string>, action: string)
    ensures EmitAll([b], ports, action) == Emit(b, ports, action)
  {
    hide Emit;
    assert [b][..|[b]| - 1] == [];
  }

  /** The workload loop of compileBetween: one answer of MatchSelector for each application
      workload decides on both sides. */
  method SelectBetween(s: Snapshot, selector: string)
    returns (ok: bool, all: seq<Addr>, local: seq<Addr>, ghost chosen: set<Workload>, ghost b: Block)
    ensures ok <==> (Apps(s.workloads) != {} ==> ParseSelector(selector).Some?)
    ensures ok ==> IsBetweenBlock(s, selector, chosen, b) && b == Block(Elems(all), Elems(local))
  {
    hide ParseSelector, MayAnswer, MayChoose, Collected, Apps, OnHost, Elems, Addrs, IsChoice, IsAnswer, Unambiguous;
    all, local, chosen, b := [], [], {}, Block({}, {});
    NobodyChosen(selector);
    NothingCollected(s.workloads[..0], s.localHostID);
    for i := 0 to |s.workloads|
      invariant Apps(s.workloads[..i]) != {} ==> ParseSelector(selector).Some?
      invariant MayChoose(selector, Apps(s.workloads[..i]), chosen)
      invariant Collected(all, chosen) && Collected(local, OnHost(chosen, s.localHostID))
    {
      var workload := s.workloads[i];
      AppsStep(s, i);
      if workload.system { continue; }
      var matches := MatchSelector(selector, workload.labels);
      if matches.None? {
        SomeApp(s.workloads, i);
        return false, [], [], {}, b;
      }
      ChooseNext(selector, Apps(s.workloads[..i]), chosen, workload, matches.value);
      if !matches.value { continue; }
      OnHostPlus(chosen, workload, s.localHostID);
      CollectedNext(all, chosen, workload);
      all := all + [workload.ip];
      if workload.hostID == s.localHostID {
        CollectedNext(local, OnHost(chosen, s.localHostID), workload);
        local := local + [workload.ip];
      }
      chosen := chosen + {workload};
    }
    assert s.workloads[..|s.workloads|] == s.workloads;
    CollectedBlock(all, chosen, local, OnHost(chosen, s.localHostID));
    b := Block(Elems(all), Elems(local));
    ok := true;
  }

  lemma AppsStep(s: Snapshot, i: nat)
    requires i < |s.workloads|
    ensures var w := s.workloads[i];
      var before, after := Apps(s.workloads[..i]), Apps(s.workloads[..i + 1]);
      && after == (if w.system then before else before + {w})
      && OnHost(after, s.localHostID) ==
           (if !w.system && w.hostID == s.localHostID then OnHost(before, s.localHostID) + {w}
            else OnHost(before, s.localHostID))
  {
    hide Apps;
    assert s.workloads[..i + 1] == s.workloads[..i] + [s.workloads[i]];
    AppsSnoc(s.workloads[..i], s.workloads[i]);
    OnHostPlus(Apps(s.workloads[..i]), s.workloads[i], s.localHostID);
  }

  lemma SomeApp(ws: seq<Workload>, i: nat)
    requires i < |ws| && !ws[i].system
    ensures Apps(ws) != {}
  {
    assert ws[i] in Apps(ws);
  }

  lemma CollectedBlock(all: seq<Addr>, chosen: set<Workload>, local: seq<Addr>, chosenLocal: set<Workload>)
    requires Collected(all, chosen) && Collected(local, chosenLocal)
    ensures Block(Elems(all), Elems(local)) == Block(Addrs(chosen), Addrs(chosenLocal))
  {
  }

  lemma NothingCollected(ws: seq<Workload>, host: string)
    requires ws == []
    ensures Apps(ws) == {} && OnHost({}, host) == {} && Collected([], {})
  {
    EmptySets(host);
  }

  /** compileDirected */
  method CompileDirected(builder: PlanBuilder, s: Snapshot, rule: Rule) returns (ok: bool, ghost blocks: seq<Block>)
    requires IsDirected(rule)
    modifies builder
    ensures ok <==> RuleAccepted(s, rule)
    ensures builder.plan == old(builder.plan).(rules := builder.plan.rules)
    ensures ok ==> MayEmit(s, rule, blocks)
    ensures ok ==> builder.plan == WithRules(old(builder.plan), EmitAll(blocks, rule.ports, rule.action))
  {
    hide EmitAll, Emit, ParseSelector, IsDirectedBlock;
    var sources, destinations;
    ghost var from, to, b;
    blocks := [];
    ok, sources, destinations, from, to, b := SelectDirected(s, rule.from.value, rule.to.value);
    if !ok { return; }
    AppendAddressRule(builder, sources, destinations, rule.ports, rule.action);
    OneBlock(b, rule.ports, rule.action);
    blocks := [b];
  }

  /** The workload loop of compileDirected: the sides are answered independently, the target
      side for local workloads only. */
  method SelectDirected(s: Snapshot, from: string, to: string)
    returns (ok: bool, sources: seq<Addr>, destinations: seq<Addr>,
      ghost chosenFrom: set<Workload>, ghost chosenTo: set<Workload>, ghost b: Block)
    ensures ok <==>
      (Apps(s.workloads) != {} ==> ParseSelector(from).Some?) && (LocalApps(s) != {} ==> ParseSelector(to).Some?)
    ensures ok ==>
      IsDirectedBlock(s, from, to, chosenFrom, chosenTo, b) && b == Block(Elems(sources), Elems(destinations))
  {
    hide ParseSelector, MayAnswer, MayChoose, Collected, Apps, OnHost, Elems, Addrs, IsChoice, IsAnswer, Unambiguous;
    sources, destinations, chosenFrom, chosenTo, b := [], [], {}, {}, Block({}, {});
    NobodyChosen(from);
    NobodyChosen(to);
    NothingCollected(s.workloads[..0], s.localHostID);
    for i := 0 to |s.workloads|
      invariant Apps(s.workloads[..i]) != {} ==> ParseSelector(from).Some?
      invariant OnHost(Apps(s.workloads[..i]), s.localHostID) != {} ==> ParseSelector(to).Some?
      invariant MayChoose(from, Apps(s.workloads[..i]), chosenFrom) && Collected(sources, chosenFrom)
      invariant MayChoose(to, OnHost(Apps(s.workloads[..i]), s.localHostID), chosenTo) &&
        Collected(destinations, chosenTo)
    {
      var workload := s.workloads[i];
      AppsStep(s, i);
      if workload.system { continue; }
      var fromMatch := MatchSelector(from, workload.labels);
      if fromMatch.None? {
        SomeApp(s.workloads, i);
        return false, [], [], {}, {}, b;
      }
      ChooseNext(from, Apps(s.workloads[..i]), chosenFrom, workload, fromMatch.value);
      if fromMatch.value {
        CollectedNext(sources, chosenFrom, workload);
        sources := sources + [workload.ip];
        chosenFrom := chosenFrom + {workload};
      }
      if workload.hostID == s.localHostID {
        var toMatch := MatchSelector(to, workload.labels);
        if toMatch.None? {
          SomeLocalApp(s, i);
          return false, [], [], {}, {}, b;
        }
        ChooseNext(to, OnHost(Apps(s.workloads[..i]), s.localHostID), chosenTo, workload, toMatch.value);
        if toMatch.value {
          CollectedNext(destinations, chosenTo, workload);
          destinations := destinations + [workload.ip];
          chosenTo := chosenTo + {workload};
        }
      }
    }
    assert s.workloads[..|s.workloads|] == s.workloads;
    CollectedBlock(sources, chosenFrom, destinations, chosenTo);
    b := Block(Elems(sources), Elems(destinations));
    ok := true;
  }

  lemma SomeLocalApp(s: Snapshot, i: nat)
    requires i < |s.workloads| && !s.workloads[i].system && s.workloads[i].hostID == s.localHostID
    ensures LocalApps(s) != {}
  {
    assert s.workloads[i] in LocalApps(s);
  }

  // ---- Compile ----

  lemma SystemsSnoc(ws: seq<Workload>, w: Workload)
    ensures Systems(ws + [w]) == Systems(ws) + if w.system then {w} else {}
  {
    assert forall v :: v in ws + [w] <==> v in ws || v == w;
  }

  /** What the first loop of Compile has gathered from the workloads seen so far. */
  ghost predicate Gathered(ws: seq<Workload>, host: string, systems: seq<Addr>, local: seq<Addr>, count: nat) {
    && Collected(systems, Systems(ws))
    && Collected(local, OnHost(Apps(ws), host))
    && count == |OnHost(Apps(ws), host)|
  }

  lemma GatheredNext(ws: seq<Workload>, w: Workload, host: string, systems: seq<Addr>, local: seq<Addr>, count: nat)
    requires Gathered(ws, host, systems, local, count) && UniqueIDs(ws + [w])
    ensures
      var isLocal := !w.system && w.hostID == host;
      Gathered(ws + [w], host, if w.system then systems + [w.ip] else systems,
               if isLocal then local + [w.ip] else local, if isLocal then count + 1 else count)
  {
    hide Collected, Systems, Apps, OnHost;
    NewWorkload(ws, w);
    hide UniqueIDs;
    if w.system {
      SystemNext(ws, w);
      CollectedNext(systems, Systems(ws), w);
    } else {
      AppNext(ws, w);
      OnHostPlus(Apps(ws), w, host);
      CountOnHost(Apps(ws), w, host);
      if w.hostID == host { CollectedNext(local, OnHost(Apps(ws), host), w); }
    }
  }

  lemma SystemNext(ws: seq<Workload>, w: Workload)
    requires w.system
    ensures Systems(ws + [w]) == Systems(ws) + {w} && Apps(ws + [w]) == Apps(ws)
  {
    SystemsSnoc(ws, w);
    AppsSnoc(ws, w);
  }

  lemma AppNext(ws: seq<Workload>, w: Workload)
    requires !w.system
    ensures Systems(ws + [w]) == Systems(ws) && Apps(ws + [w]) == Apps(ws) + {w}
  {
    SystemsSnoc(ws, w);
    AppsSnoc(ws, w);
  }

  lemma CountOnHost(ws: set<Workload>, w: Workload, host: string)
    requires w !in ws
    ensures |OnHost(ws + {w}, host)| == |OnHost(ws, host)| + if w.hostID == host then 1 else 0
  {
    OnHostPlus(ws, w, host);
  }

  lemma NewWorkload(ws: seq<Workload>, w: Workload)
    requires UniqueIDs(ws + [w])
    ensures w !in Apps(ws)
  {
    forall i | 0 <= i < |ws| ensures ws[i].id != w.id {
      assert (ws + [w])[i].id != (ws + [w])[|ws|].id;
    }
  }

  /** The workload loop of Compile. */
  method GatherWorkloads(s: Snapshot) returns (ok: bool, systems: seq<Addr>, local: seq<Addr>, count: nat)
    requires IsPrefix4(s.subnet)
    ensures ok <==> WorkloadsAccepted(s)
    ensures ok ==> Gathered(s.workloads, s.localHostID, systems, local, count)
  {
    hide Gathered, Contains;
    systems, local, count := [], [], 0;
    assert Gathered(s.workloads[..0], s.localHostID, [], [], 0) by { NothingGathered(s.workloads[..0], s.localHostID); }
    var seen := {};
    for i := 0 to |s.workloads|
      invariant forall k :: 0 <= k < i ==> s.workloads[k].id != "" && Contains(s.subnet, s.workloads[k].ip)
      invariant forall k :: 0 <= k < i ==> s.workloads[k].id in seen
      invariant forall id :: id in seen ==> exists k :: 0 <= k < i && s.workloads[k].id == id
      invariant UniqueIDs(s.workloads[..i])
      invariant Gathered(s.workloads[..i], s.localHostID, systems, local, count)
    {
      var workload := s.workloads[i];
      ghost var before := s.workloads[..i];
      assert s.workloads[..i + 1] == before + [workload];
      if workload.id == "" || !Contains(s.subnet, workload.ip) {
        assert workload in s.workloads;
        return false, [], [], 0;
      }
      if workload.id in seen {
        return false, [], [], 0;
      }
      GatheredNext(before, workload, s.localHostID, systems, local, count);
      seen := seen + {workload.id};
      if workload.system {
        systems := systems + [workload.ip];
      } else if workload.hostID == s.localHostID {
        local := local + [workload.ip];
        count := count + 1;
      }
    }
    assert s.workloads[..|s.workloads|] == s.workloads;
    ok := true;
  }

  lemma NothingGathered(ws: seq<Workload>, host: string)
    requires ws == []
    ensures Gathered(ws, host, [], [], 0)
  {
    assert Systems(ws) == {} && Apps(ws) == {};
    EmptySets(host);
  }

  /** One turn of the rule loop of Compile. */
  method CompileRule(builder: PlanBuilder, s: Snapshot, rule: Rule) returns (ok: bool, ghost blocks: seq<Block>)
    requires UniqueIDs(s.workloads)
    modifies builder
    ensures ok <==> RuleAccepted(s, rule)
    ensures builder.plan == old(builder.plan).(rules := builder.plan.rules)
    ensures ok ==> MayEmit(s, rule, blocks)
    ensures ok ==> builder.plan == WithRules(old(builder.plan), EmitAll(blocks, rule.ports, rule.action))
  {
    hide EmitAll, WithinBlocks, KeyedBlocks, UniqueIDs, IsBetweenBlock, IsDirectedBlock;
    blocks := [];
    if rule.within != "" {
      ok := CompileWithin(builder, s, rule);
      blocks := WithinBlocks(s, rule.within);
    } else if rule.between.Some? {
      ok, blocks := CompileBetween(builder, s, rule);
    } else if rule.from.Some? && rule.to.Some? {
      ok, blocks := CompileDirected(builder, s, rule);
    } else {
      ok := false;
    }
  }

  /** What the rule loop of Compile has added after the rules seen so far. */
  ghost predicate CompiledSoFar(
    s: Snapshot, rules: seq<Rule>, choices: seq<seq<Block>>, before: FirewallPlan, plan: FirewallPlan)
  {
    MayEmitAll(s, rules, choices) &&
    plan == WithRules(before, EmitChosen(rules, choices)).(zeroMatchCount := EmitNothing(rules, choices))
  }

  /** The rule loop of Compile, counting rules that add nothing. */
  method CompileAllRules(builder: PlanBuilder, s: Snapshot) returns (ok: bool, ghost choices: seq<seq<Block>>)
    requires UniqueIDs(s.workloads) && builder.plan.zeroMatchCount == 0
    modifies builder
    ensures ok <==> forall r :: r in s.policy.rules ==> RuleAccepted(s, r)
    ensures ok ==> CompiledSoFar(s, s.policy.rules, choices, old(builder.plan), builder.plan)
  {
    hide RuleAccepted, MayEmit, UniqueIDs, EmitAll;
    var rules := s.policy.rules;
    choices := [];
    WithNoRules(builder.plan);
    for i := 0 to |rules|
      invariant forall k :: 0 <= k < i ==> RuleAccepted(s, rules[k])
      invariant CompiledSoFar(s, rules[..i], choices, old(builder.plan), builder.plan)
    {
      ghost var soFar := builder.plan;
      ghost var blocks;
      var before := |builder.plan.rules|;
      ok, blocks := CompileRule(builder, s, rules[i]);
      if !ok { return; }
      if |builder.plan.rules| == before {
        builder.plan := builder.plan.(zeroMatchCount := builder.plan.zeroMatchCount + 1);
      }
      CompiledNext(s, rules, i, choices, blocks, old(builder.plan), soFar, builder.plan);
      choices := choices + [blocks];
    }
    assert rules[..|rules|] == rules;
    ok := true;
  }

  lemma CompiledNext(
    s: Snapshot, rules: seq<Rule>, i: nat, choices: seq<seq<Block>>, blocks: seq<Block>, before: FirewallPlan,
    soFar: FirewallPlan, plan: FirewallPlan)
    requires i < |rules| && CompiledSoFar(s, rules[..i], choices, before, soFar) && MayEmit(s, rules[i], blocks)
    requires var more := EmitAll(blocks, rules[i].ports, rules[i].action);
      plan == WithRules(soFar, more).(zeroMatchCount := soFar.zeroMatchCount + if more == [] then 1 else 0)
    ensures CompiledSoFar(s, rules[..i + 1], choices + [blocks], before, plan)
  {
    hide MayEmit, EmitAll, EmitChosen, EmitNothing;
    EmitChosenNext(rules, choices, i, blocks);
    WithRulesTwice(before, EmitChosen(rules[..i], choices), EmitAll(blocks, rules[i].ports, rules[i].action));
  }

  /** A plan as Compile leaves it: it enforces, and carries its own digest. */
  predicate IsCompiled(plan: FirewallPlan) {
    !plan.failOpen && plan.digest == DigestPlan(plan)
  }

  /** The rule in front: traffic from system workloads. */
  method AppendSystems(builder: PlanBuilder, s: Snapshot, systems: seq<Addr>)
    requires Elems(systems) == Addrs(Systems(s.workloads)) && (systems == [] <==> Elems(systems) == {})
    modifies builder
    ensures builder.plan == WithRules(old(builder.plan), SystemRule(s))
  {
    WithNoRules(builder.plan);
    if |systems| > 0 {
      var sources := UniqueAddresses(systems);
      builder.Append(FirewallRule(sources, [], None, "allow"));
    }
  }

  /** The rule at the end: the default action for local applications. */
  method AppendDefault(builder: PlanBuilder, s: Snapshot, local: seq<Addr>)
    requires Elems(local) == Addrs(LocalApps(s)) && (local == [] <==> Elems(local) == {})
    modifies builder
    ensures builder.plan == WithRules(old(builder.plan), DefaultRule(s))
  {
    WithNoRules(builder.plan);
    if |local| > 0 {
      var destinations := UniqueAddresses(local);
      builder.Append(FirewallRule([], destinations, None, s.policy.defaultAction));
    }
  }

  /** Compile: accepts exactly the snapshots it should, returns one of the plans that the
      answers of MatchSelector allow, and so the one plan there is whenever the lower-cased
      labels are determined. */
  method Compile(s: Snapshot) returns (r: Option<FirewallPlan>)
    ensures r.Some? <==> IsCompilable(s)
    ensures r.Some? ==> CountsAreOf(s, r.value)
    ensures r.Some? && LabelsDetermined(s) && IsNormalPolicy(s.policy) ==>
      (forall pkt :: IsVerdict(s, pkt, Decide(r.value, pkt))) &&
      r.value.zeroMatchCount == |Unmatched(s, s.policy.rules)|
    ensures r.Some? <==> Accepted(s)
    ensures r.Some? ==> IsCompiled(r.value) && IsPossiblePlan(s, r.value)
    ensures r.Some? && LabelsDetermined(s) ==> r.value == PlanOf(s)
  {
    hide RuleAccepted, SystemRule, DefaultRule, LabelsDetermined, UniqueIDs, WorkloadsAccepted, Masked, EmitChosen,
      EmitNothing, Gathered, MayEmit, PlanOf, IsCompilable, CountsAreOf, IsVerdict, Unmatched, IsNormalPolicy, Decide;
    CompilableIsAccepted(s);
    if !IsPrefix4(s.subnet) { return None; }
    if s.localHostID == "" { return None; }
    var ok, systems, local, count := GatherWorkloads(s);
    if !ok { return None; }
    WorkloadsAreUnique(s);
    GatheredAre(s, systems, local, count);
    var builder := new PlanBuilder(
      FirewallPlan(
        Masked(s.subnet), Blank, s.policy.defaultAction, [], |s.workloads|, count, |s.policy.rules|, 0, false));
    AppendSystems(builder, s, systems);
    ghost var choices;
    ok, choices := CompileAllRules(builder, s);
    if !ok { return None; }
    AppendDefault(builder, s, local);
    assert [] + SystemRule(s) == SystemRule(s);
    builder.plan := builder.plan.(digest := DigestPlan(builder.plan));
    assert builder.plan == ChosenPlan(s, choices);
    PossiblePlanCounts(s, builder.plan);
    if LabelsDetermined(s) {
      OnePossiblePlan(s, builder.plan);
      if IsNormalPolicy(s.policy) { PlanAsRead(s, builder.plan); }
    }
    return Some(builder.plan);
  }

  lemma WorkloadsAreUnique(s: Snapshot)
    requires IsPrefix4(s.subnet) && WorkloadsAccepted(s)
    ensures UniqueIDs(s.workloads)
  {
  }

  lemma GatheredAre(s: Snapshot, systems: seq<Addr>, local: seq<Addr>, count: nat)
    requires Gathered(s.workloads, s.localHostID, systems, local, count)
    ensures Elems(systems) == Addrs(Systems(s.workloads)) && Elems(local) == Addrs(LocalApps(s)) &&
      count == |LocalApps(s)|
    ensures systems == [] <==> Elems(systems) == {}
    ensures local == [] <==> Elems(local) == {}
  {
    if systems != [] { assert systems[0] in Elems(systems); }
    if local != [] { assert local[0] in Elems(local); }
  }
}
