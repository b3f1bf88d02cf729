/** RenderNFT: the plan as an nftables program, with address lists interned as named sets. */
module Rendering {
  import opened Ordering
  import opened Text
  import opened Network
  import opened Firewall
  import opened Compiler

  // ---- programs ----

  datatype Match =
    | SourceIn(subnet: Prefix)
    | DestinationIn(subnet: Prefix)
    | SourceSet(name: string)
    | DestinationSet(name: string)
    | DestinationPort(port: PortMatch)
    | EstablishedOrRelated

  datatype Action = JumpEnforce | Return | Drop

  datatype Statement = Statement(matches: seq<Match>, action: Action)

  datatype NamedSet = NamedSet(name: string, addresses: seq<Addr>)

  /** One table: its sets, the base chain `forward` with policy accept, and `enforce`. */
  datatype Program = Program(sets: seq<NamedSet>, forward: seq<Statement>, enforce: seq<Statement>)

  // ---- what a program does to a packet ----

  datatype Outcome = Fallen | Dropped

  /** The addresses a set name stands for; a name that is not declared matches nothing. */
  function Resolve(sets: seq<NamedSet>, name: string): seq<Addr> {
    if sets == [] then []
    else if sets[0].name == name then sets[0].addresses
    else Resolve(sets[1..], name)
  }

  predicate MatchHolds(sets: seq<NamedSet>, m: Match, pkt: Packet) {
    match m
    case SourceIn(subnet) => IsPrefix4(subnet) && Contains(subnet, pkt.src)
    case DestinationIn(subnet) => IsPrefix4(subnet) && Contains(subnet, pkt.dst)
    case SourceSet(name) => pkt.src in Resolve(sets, name)
    case DestinationSet(name) => pkt.dst in Resolve(sets, name)
    case DestinationPort(port) => pkt.protocol == port.protocol && pkt.port == port.number
    case EstablishedOrRelated => pkt.established
  }

  predicate AllHold(sets: seq<NamedSet>, ms: seq<Match>, pkt: Packet) {
    forall i :: 0 <= i < |ms| ==> MatchHolds(sets, ms[i], pkt)
  }

  /** Runs a chain. `enforced` is what the enforce chain does to the packet: a drop there is
      final, a return comes back to the statement after the jump. */
  function Run(sets: seq<NamedSet>, chain: seq<Statement>, enforced: Outcome, pkt: Packet): Outcome {
    if chain == [] then Fallen
    else if !AllHold(sets, chain[0].matches, pkt) then Run(sets, chain[1..], enforced, pkt)
    else
      match chain[0].action
      case Return => Fallen
      case Drop => Dropped
      case JumpEnforce => if enforced == Dropped then Dropped else Run(sets, chain[1..], enforced, pkt)
  }

  /** The verdict of the table: its base chain accepts what is not dropped. */
  function Accepts(program: Program, pkt: Packet): bool {
    Run(program.sets, program.forward, Run(program.sets, program.enforce, Fallen, pkt), pkt) != Dropped
  }

  // ---- set names and keys ----

  /** fmt.Sprintf("s%03d", n) */
  function SetName(n: nat): (r: string)
    ensures r != ""
  {
    "s" + (if n < 10 then "00" + Itoa(n) else if n < 100 then "0" + Itoa(n) else Itoa(n))
  }

  lemma LeadingZero(s: string)
    requires IsDigits(s)
    ensures IsDigits("0" + s) && NatOf("0" + s) == NatOf(s)
    decreases |s|
  {
    var z := "0" + s;
    assert z[..|z| - 1] == "0" + s[..|s| - 1];
    if |s| > 1 {
      assert forall c :: c in s[..|s| - 1] ==> c in s;
      LeadingZero(s[..|s| - 1]);
    } else {
      assert s[..|s| - 1] == [] && NatOf("0") == 0;
    }
  }

  lemma {:induction false} Digits(n: nat)
    ensures n < 10 ==> |Itoa(n)| == 1
    ensures 10 <= n < 100 ==> |Itoa(n)| == 2
    ensures 100 <= n < 1000 ==> |Itoa(n)| == 3
    ensures n >= 1000 ==> |Itoa(n)| > 3
  {
    if n >= 10 { Digits(n / 10); }
  }

  /** An `s`, then the number in at least three digits. */
  lemma SetNameCounts(n: nat)
    ensures SetName(n)[0] == 's' && IsDigits(SetName(n)[1..]) && NatOf(SetName(n)[1..]) == n
    ensures n < 1000 ==> |SetName(n)| == 4
    ensures n >= 1000 ==> SetName(n)[1] != '0'
  {
    Digits(n);
    var digits := Itoa(n);
    if n >= 1000 { FirstDigit(n); }
    hide Itoa;
    if n < 10 {
      LeadingZero(digits);
      LeadingZero("0" + digits);
      assert "00" + digits == "0" + ("0" + digits);
      assert SetName(n)[1..] == "00" + digits;
    } else if n < 100 {
      LeadingZero(digits);
      assert SetName(n)[1..] == "0" + digits;
    } else {
      assert SetName(n)[1..] == digits;
    }
  }

  lemma SetNameIsInjective(a: nat, b: nat)
    requires SetName(a) == SetName(b)
    ensures a == b
  {
    hide SetName;
    SetNameCounts(a);
    SetNameCounts(b);
  }

  predicate InSubnet(subnet: Prefix, addresses: seq<Addr>)
    requires IsPrefix4(subnet)
  {
    forall a :: a in addresses ==> Contains(subnet, a)
  }

  predicate AllIPv4(addresses: seq<Addr>) {
    forall a :: a in addresses ==> a.IPv4?
  }

  /** The interning key: every address followed by a comma. */
  function SetKey(addresses: seq<Addr>): (r: string)
    requires AllIPv4(addresses)
    ensures r == [] <==> addresses == []
  {
    if addresses == [] then []
    else AddrText(addresses[0].word) + [','] + SetKey(addresses[1..])
  }

  /** The key determines the list. */
  lemma {:induction false} KeyIsInjective(a: seq<Addr>, b: seq<Addr>)
    requires AllIPv4(a) && AllIPv4(b) && SetKey(a) == SetKey(b)
    ensures a == b
  {
    hide AddrText;
    if a != [] && b != [] {
      FirstSeparator(AddrText(a[0].word), SetKey(a[1..]), AddrText(b[0].word), SetKey(b[1..]), ',');
      AddrTextIsInjective(a[0].word, b[0].word);
      KeyIsInjective(a[1..], b[1..]);
      assert a == [a[0]] + a[1..] && b == [b[0]] + b[1..];
    }
  }

  // ---- the interning table ----

  ghost predicate IsCanonicalSet(subnet: Prefix, addresses: seq<Addr>)
    requires IsPrefix4(subnet)
  {
    addresses != [] && Ascending(AddrLess, addresses) && AllIPv4(addresses) && InSubnet(subnet, addresses)
  }

  /** Sets are numbered in order, canonical, distinct, and indexed by their keys. */
  ghost predicate IsTable(subnet: Prefix, setByKey: map<string, string>, sets: seq<NamedSet>)
    requires IsPrefix4(subnet)
  {
    && (forall i :: 0 <= i < |sets| ==> sets[i].name == SetName(i))
    && (forall i :: 0 <= i < |sets| ==> IsCanonicalSet(subnet, sets[i].addresses))
    && (forall i :: 0 <= i < |sets| ==>
          SetKey(sets[i].addresses) in setByKey && setByKey[SetKey(sets[i].addresses)] == sets[i].name)
    && (forall key :: key in setByKey ==> exists i :: 0 <= i < |sets| && SetKey(sets[i].addresses) == key)
  }

  lemma KnownSet(subnet: Prefix, setByKey: map<string, string>, sets: seq<NamedSet>, canonical: seq<Addr>)
    requires IsPrefix4(subnet) && IsTable(subnet, setByKey, sets) && IsCanonicalSet(subnet, canonical)
    requires SetKey(canonical) in setByKey
    ensures NamedSet(setByKey[SetKey(canonical)], canonical) in sets
  {
    hide SetKey, SetName, Contains;
    var i :| 0 <= i < |sets| && SetKey(sets[i].addresses) == SetKey(canonical);
    KeyIsInjective(sets[i].addresses, canonical);
  }

  lemma CanonicalIsIPv4(subnet: Prefix, addresses: seq<Addr>)
    requires IsPrefix4(subnet) && IsCanonicalSet(subnet, addresses)
    ensures AllIPv4(addresses)
  {
  }

  lemma NewSet(subnet: Prefix, setByKey: map<string, string>, sets: seq<NamedSet>, canonical: seq<Addr>)
    requires IsPrefix4(subnet) && IsTable(subnet, setByKey, sets) && IsCanonicalSet(subnet, canonical)
    requires SetKey(canonical) !in setByKey
    ensures IsTable(
      subnet, setByKey[SetKey(canonical) := SetName(|sets|)], sets + [NamedSet(SetName(|sets|), canonical)])
  {
    hide SetKey, SetName, IsCanonicalSet, AllIPv4;
    var after := sets + [NamedSet(SetName(|sets|), canonical)];
    assert after[|sets|].addresses == canonical;
    forall i | 0 <= i < |sets| ensures AllIPv4(sets[i].addresses) {
      CanonicalIsIPv4(subnet, sets[i].addresses);
    }
    forall i | 0 <= i < |after| ensures AllIPv4(after[i].addresses) {
      CanonicalIsIPv4(subnet, after[i].addresses);
    }
    forall key | key in setByKey ensures exists i :: 0 <= i < |after| && SetKey(after[i].addresses) == key {
      var i :| 0 <= i < |sets| && SetKey(sets[i].addresses) == key;
      assert after[i] == sets[i];
    }
  }

  /** setByKey and sets: the state the getSet closure updates. */
  class SetTable {
    const subnet: Prefix
    var setByKey: map<string, string>
    var sets: seq<NamedSet>

    ghost predicate Valid()
      reads this
    {
      IsPrefix4(subnet) && IsTable(subnet, setByKey, sets)
    }

    constructor (subnet: Prefix)
      requires IsPrefix4(subnet)
      ensures Valid() && this.subnet == subnet && sets == []
    {
      this.subnet := subnet;
      setByKey := map[];
      sets := [];
    }

    /** getSet: no name for an empty list, none at all for a foreign address; otherwise the
        name of the one set with these addresses, declared now if it is new. */
    method GetSet(addresses: seq<Addr>) returns (name: Option<string>)
      requires Valid()
      modifies this
      ensures Valid() && old(sets) <= sets
      ensures name.Some? <==> InSubnet(subnet, addresses)
      ensures name == Some("") <==> addresses == []
      ensures name.None? || addresses == [] ==> sets == old(sets)
      ensures name.Some? && addresses != [] ==> NamedSet(name.value, AddrList(Elems(addresses))) in sets
    {
      hide IsTable, SetKey, Contains;
      if |addresses| == 0 { return Some(""); }
      var canonical := UniqueAddresses(addresses);
      CanonicalElems(addresses, canonical);
      var key := BuildKey(subnet, canonical);
      if key.None? { return None; }
      assert IsCanonicalSet(subnet, canonical);
      if key.value in setByKey {
        KnownSet(subnet, setByKey, sets, canonical);
        NamesAreNotEmpty(subnet, setByKey, sets, NamedSet(setByKey[key.value], canonical));
        return Some(setByKey[key.value]);
      }
      NewSet(subnet, setByKey, sets, canonical);
      var newName := SetName(|sets|);
      setByKey := setByKey[key.value := newName];
      sets := sets + [NamedSet(newName, canonical)];
      return Some(newName);
    }
  }

  lemma NamesAreNotEmpty(subnet: Prefix, setByKey: map<string, string>, sets: seq<NamedSet>, s: NamedSet)
    requires IsPrefix4(subnet) && IsTable(subnet, setByKey, sets) && s in sets
    ensures s.name != ""
  {
    hide SetKey, SetName;
  }

  /** The loop of getSet that checks every address and writes the key. */
  method BuildKey(subnet: Prefix, addresses: seq<Addr>) returns (key: Option<string>)
    requires IsPrefix4(subnet)
    ensures key.Some? <==> InSubnet(subnet, addresses)
    ensures key.Some? ==> AllIPv4(addresses) && key.value == SetKey(addresses)
  {
    var text := "";
    if InSubnet(subnet, addresses) {
      InSubnetIsIPv4(subnet, addresses);
      assert addresses[0..] == addresses && "" + SetKey(addresses) == SetKey(addresses);
    }
    hide AddrText, Contains, AllIPv4, SetKey, IsPrefix4;
    for i := 0 to |addresses|
      invariant forall k :: 0 <= k < i ==> Contains(subnet, addresses[k])
      invariant InSubnet(subnet, addresses) ==>
        AllIPv4(addresses) && AllIPv4(addresses[i..]) && text + SetKey(addresses[i..]) == SetKey(addresses)
    {
      if !Contains(subnet, addresses[i]) {
        assert addresses[i] in addresses;
        return None;
      }
      ContainsIs4(subnet, addresses[i]);
      if InSubnet(subnet, addresses) { KeyStep(text, addresses, i); }
      text := text + AddrText(addresses[i].word) + [','];
    }
    if InSubnet(subnet, addresses) { KeyDone(text, addresses); }
    return Some(text);
  }

  lemma KeyDone(text: string, addresses: seq<Addr>)
    requires AllIPv4(addresses[|addresses|..])
    ensures text + SetKey(addresses[|addresses|..]) == text
  {
  }

  lemma InSubnetIsIPv4(subnet: Prefix, addresses: seq<Addr>)
    requires IsPrefix4(subnet) && InSubnet(subnet, addresses)
    ensures AllIPv4(addresses)
  {
  }

  lemma KeyStep(text: string, addresses: seq<Addr>, i: nat)
    requires i < |addresses| && AllIPv4(addresses[i..]) && addresses[i].IPv4?
    ensures AllIPv4(addresses[i + 1..])
    ensures text + SetKey(addresses[i..]) == text + AddrText(addresses[i].word) + [','] + SetKey(addresses[i + 1..])
  {
    var rest := addresses[i..];
    assert rest[1..] == addresses[i + 1..];
    forall a | a in rest[1..] ensures a.IPv4? { assert a in rest; }
    var piece := AddrText(addresses[i].word) + [','];
    hide AddrText;
    assert text + (piece + SetKey(rest[1..])) == text + piece + SetKey(rest[1..]);
    assert text + piece == text + AddrText(addresses[i].word) + [','];
  }

  lemma ContainsIs4(subnet: Prefix, a: Addr)
    requires IsPrefix4(subnet) && Contains(subnet, a)
    ensures a.IPv4?
  {
  }

  lemma CanonicalElems(addresses: seq<Addr>, canonical: seq<Addr>)
    requires canonical == AddrList(Elems(addresses)) && addresses != []
    ensures canonical != [] && forall a :: a in canonical <==> a in addresses
  {
    assert addresses[0] in Elems(addresses);
    assert forall a :: a in canonical <==> a in Elems(canonical);
  }

  // ---- RenderNFT ----

  /** The name in a rendered rule stands for the address list of the plan's rule. */
  ghost predicate Names(sets: seq<NamedSet>, name: string, addresses: seq<Addr>) {
    && (name == "" <==> addresses == [])
    && (addresses != [] ==> NamedSet(name, AddrList(Elems(addresses))) in sets)
  }

  datatype RenderedRule = RenderedRule(source: string, destination: string, port: Option<PortMatch>, action: string)

  ghost predicate IsRendering(sets: seq<NamedSet>, rule: FirewallRule, rendered: RenderedRule) {
    && Names(sets, rendered.source, rule.sources)
    && Names(sets, rendered.destination, rule.destinations)
    && rendered.port == rule.port && rendered.action == rule.action
  }

  predicate IsPort(port: Option<PortMatch>) {
    port.Some? ==> port.value.number != 0 && (port.value.protocol == "tcp" || port.value.protocol == "udp")
  }

  predicate RuleRenderable(subnet: Prefix, rule: FirewallRule)
    requires IsPrefix4(subnet)
  {
    && IsAction(rule.action) && InSubnet(subnet, rule.sources) && InSubnet(subnet, rule.destinations)
    && (rule.sources != [] || rule.destinations != []) && IsPort(rule.port)
  }

  /** The plans RenderNFT accepts. */
  predicate Renderable(plan: FirewallPlan) {
    && IsPrefix4(plan.subnet) && IsAction(plan.defaultAction)
    && forall r :: r in plan.rules ==> RuleRenderable(plan.subnet, r)
  }

  /** The same, spelled out: an IPv4 subnet, actions that are one, addresses inside the subnet and
      some of them in every rule, and ports of one of the two protocols. */
  ghost predicate IsRenderable(plan: FirewallPlan) {
    && plan.subnet.addr.IPv4? && 0 <= plan.subnet.bits <= 32
    && (plan.defaultAction == "allow" || plan.defaultAction == "deny")
    && forall i :: 0 <= i < |plan.rules| ==> IsRenderableRule(plan.subnet, plan.rules[i])
  }

  ghost predicate IsRenderableRule(subnet: Prefix, rule: FirewallRule) {
    && (rule.action == "allow" || rule.action == "deny") && |rule.sources| + |rule.destinations| > 0
    && (forall i :: 0 <= i < |rule.sources| ==> IsInside(rule.sources[i], subnet))
    && (forall i :: 0 <= i < |rule.destinations| ==> IsInside(rule.destinations[i], subnet))
    && (rule.port.Some? ==>
          rule.port.value.number > 0 && (rule.port.value.protocol == "tcp" || rule.port.value.protocol == "udp"))
  }

  lemma InSubnetAsRead(subnet: Prefix, addresses: seq<Addr>)
    requires IsPrefix4(subnet)
    ensures InSubnet(subnet, addresses) <==> forall i :: 0 <= i < |addresses| ==> IsInside(addresses[i], subnet)
  {
    hide Contains, IsInside;
    forall a ensures Contains(subnet, a) <==> IsInside(a, subnet) { ContainsIsInside(subnet, a); }
    if forall i :: 0 <= i < |addresses| ==> IsInside(addresses[i], subnet) {
      forall a | a in addresses ensures Contains(subnet, a) {
        var i :| 0 <= i < |addresses| && addresses[i] == a;
      }
    }
  }

  lemma RenderableAsRead(plan: FirewallPlan)
    ensures Renderable(plan) <==> IsRenderable(plan)
  {
    hide InSubnet, IsInside;
    if IsPrefix4(plan.subnet) {
      forall rule ensures RuleRenderable(plan.subnet, rule) <==> IsRenderableRule(plan.subnet, rule) {
        InSubnetAsRead(plan.subnet, rule.sources);
        InSubnetAsRead(plan.subnet, rule.destinations);
      }
      hide RuleRenderable, IsRenderableRule;
      if IsRenderable(plan) {
        forall r | r in plan.rules ensures RuleRenderable(plan.subnet, r) {
          var i :| 0 <= i < |plan.rules| && plan.rules[i] == r;
        }
      }
    }
  }

  /** No name is declared twice and no address set under two names. */
  ghost predicate SetsAreInterned(sets: seq<NamedSet>) {
    forall i, j :: 0 <= i < j < |sets| ==> sets[i].name != sets[j].name && sets[i].addresses != sets[j].addresses
  }

  lemma TableIsInterned(subnet: Prefix, setByKey: map<string, string>, sets: seq<NamedSet>)
    requires IsPrefix4(subnet) && IsTable(subnet, setByKey, sets)
    ensures SetsAreInterned(sets) && forall i :: 0 <= i < |sets| ==> sets[i].name == SetName(i)
  {
    hide SetName, SetKey, IsCanonicalSet;
    forall i, j | 0 <= i < j < |sets| ensures sets[i].name != sets[j].name && sets[i].addresses != sets[j].addresses {
      CanonicalIsIPv4(subnet, sets[i].addresses);
      if sets[i].name == sets[j].name { SetNameIsInjective(i, j); }
    }
  }

  /** The line RenderNFT writes for a rule. */
  function StatementFor(r: RenderedRule): Statement {
    Statement(
      (if r.source != "" then [SourceSet(r.source)] else []) +
      (if r.destination != "" then [DestinationSet(r.destination)] else []) +
      (if r.port.Some? then [DestinationPort(r.port.value)] else []),
      if r.action == "allow" then Return else Drop)
  }

  ghost predicate IsLine(sets: seq<NamedSet>, rule: FirewallRule, line: Statement) {
    exists r :: IsRendering(sets, rule, r) && line == StatementFor(r)
  }

  function JumpLine(subnet: Prefix): Statement {
    Statement([SourceIn(subnet), DestinationIn(subnet)], JumpEnforce)
  }

  /** `program` is a rendering of `plan`. */
  ghost predicate Renders(program: Program, plan: FirewallPlan) {
    && program.forward == [JumpLine(plan.subnet)]
    && |program.enforce| == |plan.rules| + 2
    && program.enforce[0] == Statement([EstablishedOrRelated], Return)
    && program.enforce[|plan.rules| + 1] == Statement([], Return)
    && forall i :: 0 <= i < |plan.rules| ==> IsLine(program.sets, plan.rules[i], program.enforce[i + 1])
  }

  /** The rule loop of RenderNFT. */
  method RenderRules(table: SetTable, rules: seq<FirewallRule>) returns (r: Option<seq<RenderedRule>>)
    requires table.Valid() && table.sets == []
    modifies table
    ensures table.Valid()
    ensures r.Some? <==> forall rule :: rule in rules ==> RuleRenderable(table.subnet, rule)
    ensures r.Some? ==>
      |r.value| == |rules| && forall i :: 0 <= i < |rules| ==> IsRendering(table.sets, rules[i], r.value[i])
  {
    hide InSubnet, IsTable, AddrList, Elems;
    var rendered: seq<RenderedRule> := [];
    for i := 0 to |rules|
      invariant table.Valid()
      invariant forall k :: 0 <= k < i ==> RuleRenderable(table.subnet, rules[k])
      invariant |rendered| == i && forall k :: 0 <= k < i ==> IsRendering(table.sets, rules[k], rendered[k])
    {
      var rule := rules[i];
      assert rule in rules;
      if !IsAction(rule.action) { return None; }
      var source := table.GetSet(rule.sources);
      if source.None? { return None; }
      var destination := table.GetSet(rule.destinations);
      if destination.None? { return None; }
      if source.value == "" && destination.value == "" { return None; }
      if !IsPort(rule.port) { return None; }
      rendered := rendered + [RenderedRule(source.value, destination.value, rule.port, rule.action)];
    }
    return Some(rendered);
  }

  /** RenderNFT, up to the concrete syntax of the script. */
  method RenderNFT(plan: FirewallPlan) returns (r: Option<Program>)
    ensures r.Some? <==> Renderable(plan)
    ensures r.Some? <==> IsRenderable(plan)
    ensures r.Some? ==> Renders(r.value, plan) && SetsAreInterned(r.value.sets)
    ensures r.Some? ==> forall i :: 0 <= i < |r.value.sets| ==> r.value.sets[i].name == SetName(i)
  {
    RenderableAsRead(plan);
    hide RuleRenderable, IsTable, IsRendering, IsRenderable, SetName;
    if !IsPrefix4(plan.subnet) { return None; }
    if !IsAction(plan.defaultAction) { return None; }
    var table := new SetTable(plan.subnet);
    var rendered := RenderRules(table, plan.rules);
    if rendered.None? { return None; }
    TableIsInterned(table.subnet, table.setByKey, table.sets);
    var forward := [JumpLine(plan.subnet)];
    var enforce := [Statement([EstablishedOrRelated], Return)];
    for i := 0 to |rendered.value|
      invariant |enforce| == i + 1 && enforce[0] == Statement([EstablishedOrRelated], Return)
      invariant forall k :: 0 <= k < i ==> enforce[k + 1] == StatementFor(rendered.value[k])
    {
      enforce := enforce + [StatementFor(rendered.value[i])];
    }
    enforce := enforce + [Statement([], Return)];
    forall i | 0 <= i < |plan.rules| ensures IsLine(table.sets, plan.rules[i], enforce[i + 1]) {
      assert IsRendering(table.sets, plan.rules[i], rendered.value[i]);
    }
    return Some(Program(table.sets, forward, enforce));
  }

  // ---- the program decides like the plan ----

  lemma {:induction false} ResolveNamed(sets: seq<NamedSet>, s: NamedSet)
    requires SetsAreInterned(sets) && s in sets
    ensures Resolve(sets, s.name) == s.addresses
  {
    var i :| 0 <= i < |sets| && sets[i] == s;
    if i > 0 {
      assert sets[0].name != sets[i].name;
      assert sets[1..][i - 1] == s;
      forall j, k | 0 <= j < k < |sets| - 1
        ensures sets[1..][j].name != sets[1..][k].name && sets[1..][j].addresses != sets[1..][k].addresses {
        assert sets[1..][j] == sets[j + 1] && sets[1..][k] == sets[k + 1];
      }
      ResolveNamed(sets[1..], s);
    }
  }

  lemma NamedMatch(sets: seq<NamedSet>, name: string, addresses: seq<Addr>, a: Addr)
    requires SetsAreInterned(sets) && Names(sets, name, addresses) && addresses != []
    ensures a in Resolve(sets, name) <==> a in addresses
  {
    ResolveNamed(sets, NamedSet(name, AddrList(Elems(addresses))));
    assert a in AddrList(Elems(addresses)) <==> a in Elems(AddrList(Elems(addresses)));
  }

  lemma StatementMatches(sets: seq<NamedSet>, rule: FirewallRule, r: RenderedRule, pkt: Packet)
    requires SetsAreInterned(sets) && IsRendering(sets, rule, r)
    ensures AllHold(sets, StatementFor(r).matches, pkt) <==> RuleMatches(rule, pkt)
  {
    hide SetsAreInterned, Resolve, AddrList;
    if rule.sources != [] { NamedMatch(sets, r.source, rule.sources, pkt.src); }
    if rule.destinations != [] { NamedMatch(sets, r.destination, rule.destinations, pkt.dst); }
    hide Names;
    var s := if r.source != "" then [SourceSet(r.source)] else [];
    var d := if r.destination != "" then [DestinationSet(r.destination)] else [];
    var p := if r.port.Some? then [DestinationPort(r.port.value)] else [];
    AllHoldConcat(sets, s + d, p, pkt);
    AllHoldConcat(sets, s, d, pkt);
    AllHoldOptional(sets, s, pkt);
    AllHoldOptional(sets, d, pkt);
    AllHoldOptional(sets, p, pkt);
  }

  lemma AllHoldOptional(sets: seq<NamedSet>, ms: seq<Match>, pkt: Packet)
    requires |ms| <= 1
    ensures AllHold(sets, ms, pkt) <==> ms == [] || MatchHolds(sets, ms[0], pkt)
  {
    hide MatchHolds;
  }

  lemma AllHoldConcat(sets: seq<NamedSet>, a: seq<Match>, b: seq<Match>, pkt: Packet)
    ensures AllHold(sets, a + b, pkt) <==> AllHold(sets, a, pkt) && AllHold(sets, b, pkt)
  {
    hide MatchHolds;
    if AllHold(sets, a + b, pkt) {
      forall i | 0 <= i < |a| ensures MatchHolds(sets, a[i], pkt) { assert (a + b)[i] == a[i]; }
      forall i | 0 <= i < |b| ensures MatchHolds(sets, b[i], pkt) { assert (a + b)[|a| + i] == b[i]; }
    }
  }

  lemma {:induction false} RulesRun(sets: seq<NamedSet>, rules: seq<FirewallRule>, chain: seq<Statement>, pkt: Packet)
    requires SetsAreInterned(sets) && |chain| == |rules| + 1 && chain[|rules|] == Statement([], Return)
    requires forall i :: 0 <= i < |rules| ==> IsLine(sets, rules[i], chain[i])
    ensures Run(sets, chain, Fallen, pkt) ==
      var first := FirstMatch(rules, pkt); if first.Some? && first.value != "allow" then Dropped else Fallen
  {
    hide SetsAreInterned, IsRendering, RuleMatches, AllHold;
    if rules != [] {
      var r :| IsRendering(sets, rules[0], r) && chain[0] == StatementFor(r);
      StatementMatches(sets, rules[0], r, pkt);
      assert r.action == rules[0].action by { RenderedAction(sets, rules[0], r); }
      forall i | 0 <= i < |rules[1..]| ensures IsLine(sets, rules[1..][i], chain[1..][i]) {
        assert rules[1..][i] == rules[i + 1] && chain[1..][i] == chain[i + 1];
      }
      RulesRun(sets, rules[1..], chain[1..], pkt);
    } else {
      assert chain[1..] == [];
    }
  }

  lemma RenderedAction(sets: seq<NamedSet>, rule: FirewallRule, r: RenderedRule)
    requires IsRendering(sets, rule, r)
    ensures r.action == rule.action
  {
  }

  lemma EnforceRuns(program: Program, plan: FirewallPlan, pkt: Packet)
    requires Renders(program, plan) && SetsAreInterned(program.sets)
    ensures Run(program.sets, program.enforce, Fallen, pkt) ==
      if !pkt.established && Decide(plan, pkt) != "allow" then Dropped else Fallen
  {
    hide SetsAreInterned, IsLine;
    var chain := program.enforce[1..];
    forall i | 0 <= i < |plan.rules| ensures IsLine(program.sets, plan.rules[i], chain[i]) {
      assert chain[i] == program.enforce[i + 1];
    }
    assert chain[|plan.rules|] == program.enforce[|plan.rules| + 1];
    RulesRun(program.sets, plan.rules, chain, pkt);
    assert AllHold(program.sets, program.enforce[0].matches, pkt) <==> pkt.established by {
      assert AllHold(program.sets, [EstablishedOrRelated], pkt) <==>
        MatchHolds(program.sets, [EstablishedOrRelated][0], pkt);
    }
  }

  /** The packets the plan has a say in: new ones between two addresses of the subnet. */
  predicate Governed(plan: FirewallPlan, pkt: Packet) {
    IsPrefix4(plan.subnet) && Contains(plan.subnet, pkt.src) && Contains(plan.subnet, pkt.dst) && !pkt.established
  }

  /** Rendering preserves meaning: the emitted chains accept a packet exactly when it is
      outside the plan's reach or the plan's first match allows it. */
  lemma RenderingPreservesMeaning(program: Program, plan: FirewallPlan, pkt: Packet)
    requires Renderable(plan) && Renders(program, plan) && SetsAreInterned(program.sets)
    ensures Accepts(program, pkt) <==> (Governed(plan, pkt) ==> Decide(plan, pkt) == "allow")
  {
    hide SetsAreInterned, Contains, Decide;
    EnforceRuns(program, plan, pkt);
    var jump := program.forward[0];
    assert jump.matches == [SourceIn(plan.subnet)] + [DestinationIn(plan.subnet)];
    AllHoldConcat(program.sets, [SourceIn(plan.subnet)], [DestinationIn(plan.subnet)], pkt);
    AllHoldOptional(program.sets, [SourceIn(plan.subnet)], pkt);
    AllHoldOptional(program.sets, [DestinationIn(plan.subnet)], pkt);
    assert program.forward[1..] == [];
    var enforced := Run(program.sets, program.enforce, Fallen, pkt);
    assert Run(program.sets, [], enforced, pkt) == Fallen;
    var inside := Contains(plan.subnet, pkt.src) && Contains(plan.subnet, pkt.dst);
    assert AllHold(program.sets, jump.matches, pkt) <==> inside;
    assert Run(program.sets, program.forward, enforced, pkt) == if inside then enforced else Fallen;
  }
}
