/** The topology snapshot, and the address blocks a policy rule stands for on one host. */
module Topology {
  import opened Text
  import opened Network
  import opened Firewall
  import opened Selector
  import opened Labels
  import opened Policy

  datatype Workload = Workload(
    id: string, ip: Addr, hostID: string, stackID: string, serviceID: string,
    primaryServiceID: string, system: bool, labels: LabelMap)

  type Links = map<string, seq<string>>

  datatype Snapshot = Snapshot(
    subnet: Prefix, localHostID: string, workloads: seq<Workload>,
    serviceLinks: Links, containerLinks: Links, policy: Policy)

  /** Every packet from `src` to `dst` is covered. */
  datatype Block = Block(src: set<Addr>, dst: set<Addr>)

  ghost function Addrs(ws: set<Workload>): set<Addr> {
    set w | w in ws :: w.ip
  }

  ghost function OnHost(ws: set<Workload>, host: string): set<Workload> {
    set w | w in ws && w.hostID == host
  }

  ghost function Apps(ws: seq<Workload>): set<Workload> {
    set w | w in ws && !w.system
  }

  predicate HasLink(links: Links, from: string, to: string) {
    from in links && to in links[from]
  }

  // ---- rules that are compiled once per key ----

  datatype Grouping = ByStack | ByService | ByLabel(labelKey: string)

  function KeyOf(g: Grouping, w: Workload): Option<string> {
    match g
    case ByStack => Some(w.stackID)
    case ByService => if w.primaryServiceID == "" then None else Some(w.primaryServiceID)
    case ByLabel(k) => if k in w.labels then Some(w.labels[k]) else None
  }

  ghost function Members(ws: seq<Workload>, g: Grouping, key: string): set<Workload> {
    set w | w in ws && !w.system && KeyOf(g, w) == Some(key)
  }

  ghost function GroupKeys(ws: seq<Workload>, g: Grouping): set<string> {
    set w | w in ws && !w.system && KeyOf(g, w).Some? :: KeyOf(g, w).value
  }

  datatype Keyed = Grouped(g: Grouping) | ServiceLinked | ContainerLinked

  ghost function Targets(links: Links): set<string> {
    set source, target | source in links && target in links[source] :: target
  }

  ghost function KeysFor(s: Snapshot, form: Keyed): set<string> {
    match form
    case Grouped(g) => GroupKeys(s.workloads, g)
    case ServiceLinked => Targets(s.serviceLinks)
    case ContainerLinked => Targets(s.containerLinks)
  }

  ghost function SourcesFor(s: Snapshot, form: Keyed, key: string): set<Workload> {
    match form
    case Grouped(g) => Members(s.workloads, g, key)
    case ServiceLinked =>
      set w | w in s.workloads && !w.system && w.primaryServiceID != "" &&
        HasLink(s.serviceLinks, w.primaryServiceID, key)
    case ContainerLinked =>
      set w | w in s.workloads && !w.system && HasLink(s.containerLinks, w.id, key)
  }

  ghost function TargetsFor(s: Snapshot, form: Keyed, key: string): set<Workload> {
    match form
    case Grouped(g) => Members(s.workloads, g, key)
    case ServiceLinked => Members(s.workloads, ByService, key)
    case ContainerLinked => set w | w in s.workloads && !w.system && w.id == key
  }

  ghost function BlockFor(s: Snapshot, form: Keyed, key: string): Block {
    Block(Addrs(SourcesFor(s, form, key)), Addrs(OnHost(TargetsFor(s, form, key), s.localHostID)))
  }

  ghost function BlocksFor(s: Snapshot, form: Keyed, keys: seq<string>): (r: seq<Block>)
    ensures |r| == |keys| && forall i :: 0 <= i < |keys| ==> r[i] == BlockFor(s, form, keys[i])
  {
    if keys == [] then [] else BlocksFor(s, form, keys[..|keys| - 1]) + [BlockFor(s, form, keys[|keys| - 1])]
  }

  ghost function KeyedBlocks(s: Snapshot, form: Keyed): seq<Block> {
    BlocksFor(s, form, StrList(KeysFor(s, form)))
  }

  // ---- rules that are compiled once ----

  ghost function Selected(ws: seq<Workload>, selector: string): set<Workload> {
    set w | w in ws && !w.system && Selects(selector, w.labels)
  }

  ghost function SelectorBlock(s: Snapshot, from: string, to: string): Block {
    Block(Addrs(Selected(s.workloads, from)), Addrs(OnHost(Selected(s.workloads, to), s.localHostID)))
  }

  ghost function WithinBlocks(s: Snapshot, within: string): seq<Block> {
    match within
    case "stack" => KeyedBlocks(s, Grouped(ByStack))
    case "service" => KeyedBlocks(s, Grouped(ByService))
    case "linked" => KeyedBlocks(s, ServiceLinked) + KeyedBlocks(s, ContainerLinked)
    case _ => []
  }

  /** The blocks of a rule, in the order the compiler emits them. */
  ghost function RuleBlocks(s: Snapshot, rule: Rule): seq<Block> {
    if rule.within != "" then WithinBlocks(s, rule.within)
    else if rule.between.Some? then
      if rule.between.value.selector != ""
      then [SelectorBlock(s, rule.between.value.selector, rule.between.value.selector)]
      else KeyedBlocks(s, Grouped(ByLabel(rule.between.value.groupBy)))
    else if rule.from.Some? && rule.to.Some? then [SelectorBlock(s, rule.from.value, rule.to.value)]
    else []
  }

  // ---- firewall rules for a block ----

  /** strconv.ParseUint(s, 10, 16) */
  function ParseUint16(s: string): Option<nat> {
    if IsDigits(s) && NatOf(s) <= 0xFFFF then Some(NatOf(s)) else None
  }

  function ForProtocols(number: nat, protocols: seq<string>): (r: seq<PortMatch>)
    ensures |r| == |protocols| && forall i :: 0 <= i < |r| ==> r[i] == PortMatch(number, protocols[i])
  {
    if protocols == [] then []
    else ForProtocols(number, protocols[..|protocols| - 1]) + [PortMatch(number, protocols[|protocols| - 1])]
  }

  /** The port matches of one encoded port: both protocols unless it names one. */
  function PortsOf(encoded: string): seq<PortMatch> {
    var parts := Split(encoded, '/');
    var number := ParseUint16(parts[0]);
    if number.None? then []
    else ForProtocols(number.value, if |parts| == 2 then [parts[1]] else ["tcp", "udp"])
  }

  lemma NumberIsRead(number: nat)
    requires number <= 0xFFFF
    ensures ParseUint16(Itoa(number)) == Some(number)
  {
  }

  /** A canonical port stands for its number, with its protocol or with both. */
  lemma PortsOfText(text: string, number: nat, protocol: Option<string>)
    requires IsPortText(text, number, protocol)
    ensures protocol.Some? ==> PortsOf(text) == [PortMatch(number, protocol.value)]
    ensures protocol.None? ==> PortsOf(text) == [PortMatch(number, "tcp"), PortMatch(number, "udp")]
  {
    hide Itoa, Split, ParseUint16, ForProtocols;
    CanonicalPortOf(text, number, protocol);
    NumberIsRead(number);
    if protocol.Some? { assert PortsOf(text) == ForProtocols(number, [protocol.value]); }
    else { assert PortsOf(text) == ForProtocols(number, ["tcp", "udp"]); }
  }

  /** Any other text: what comes before the first slash is the number, and what comes after it
      the protocol, unless there is another slash; without a number there is nothing. */
  lemma PortsOfEncoded(head: string, tail: string)
    requires '/' !in head
    ensures var number := if IsDigits(head) && NatOf(head) <= 65535 then Some(NatOf(head)) else None;
      && (number.None? ==> PortsOf(head) == [] && PortsOf(head + ['/'] + tail) == [])
      && (number.Some? && '/' !in tail ==> PortsOf(head + ['/'] + tail) == [PortMatch(number.value, tail)])
      && (number.Some? && '/' in tail ==>
            PortsOf(head + ['/'] + tail) == [PortMatch(number.value, "tcp"), PortMatch(number.value, "udp")])
  {
    hide NatOf, ForProtocols;
    SplitNone(head, '/');
    SplitFirst(head, tail, '/');
    if '/' in tail { TwoParts(tail); } else { SplitNone(tail, '/'); }
    hide Split, IsDigits;
    forall n: nat, p: string ensures ForProtocols(n, [p]) == [PortMatch(n, p)] {}
    forall n: nat ensures ForProtocols(n, ["tcp", "udp"]) == [PortMatch(n, "tcp"), PortMatch(n, "udp")] {}
  }

  lemma TwoParts(tail: string)
    requires '/' in tail
    ensures |Split(tail, '/')| >= 2
  {
  }

  function AllPorts(ports: seq<string>): seq<PortMatch> {
    if ports == [] then [] else AllPorts(ports[..|ports| - 1]) + PortsOf(ports[|ports| - 1])
  }

  function ForPorts(
    sources: seq<Addr>, destinations: seq<Addr>, ports: seq<PortMatch>, action: string): (r: seq<FirewallRule>)
    ensures |r| == |ports|
    ensures forall i :: 0 <= i < |r| ==> r[i] == FirewallRule(sources, destinations, Some(ports[i]), action)
  {
    if ports == [] then []
    else ForPorts(sources, destinations, ports[..|ports| - 1], action) +
         [FirewallRule(sources, destinations, Some(ports[|ports| - 1]), action)]
  }

  /** What appendAddressRule adds. */
  ghost function Emit(b: Block, ports: seq<string>, action: string): seq<FirewallRule> {
    if b.src == {} || b.dst == {} then []
    else if ports == [] then [FirewallRule(AddrList(b.src), AddrList(b.dst), None, action)]
    else ForPorts(AddrList(b.src), AddrList(b.dst), AllPorts(ports), action)
  }

  ghost function EmitAll(blocks: seq<Block>, ports: seq<string>, action: string): seq<FirewallRule> {
    if blocks == [] then []
    else EmitAll(blocks[..|blocks| - 1], ports, action) + Emit(blocks[|blocks| - 1], ports, action)
  }

  // ---- the whole plan ----

  ghost function CompiledRule(s: Snapshot, rule: Rule): seq<FirewallRule> {
    EmitAll(RuleBlocks(s, rule), rule.ports, rule.action)
  }

  ghost function CompiledRules(s: Snapshot, rules: seq<Rule>): seq<FirewallRule> {
    if rules == [] then [] else CompiledRules(s, rules[..|rules| - 1]) + CompiledRule(s, rules[|rules| - 1])
  }

  ghost function ZeroMatches(s: Snapshot, rules: seq<Rule>): nat {
    if rules == [] then 0
    else ZeroMatches(s, rules[..|rules| - 1]) + if CompiledRule(s, rules[|rules| - 1]) == [] then 1 else 0
  }

  ghost function Systems(ws: seq<Workload>): set<Workload> {
    set w | w in ws && w.system
  }

  ghost function LocalApps(s: Snapshot): set<Workload> {
    OnHost(Apps(s.workloads), s.localHostID)
  }

  ghost function SystemRule(s: Snapshot): seq<FirewallRule> {
    var systems := Addrs(Systems(s.workloads));
    if systems == {} then [] else [FirewallRule(AddrList(systems), [], None, "allow")]
  }

  ghost function DefaultRule(s: Snapshot): seq<FirewallRule> {
    var local := Addrs(LocalApps(s));
    if local == {} then [] else [FirewallRule([], AddrList(local), None, s.policy.defaultAction)]
  }

  ghost function PlanRules(s: Snapshot): seq<FirewallRule> {
    SystemRule(s) + CompiledRules(s, s.policy.rules) + DefaultRule(s)
  }

  ghost function PlanOf(s: Snapshot): FirewallPlan
    requires IsPrefix4(s.subnet)
  {
    var plan := FirewallPlan(
      Masked(s.subnet), Blank, s.policy.defaultAction, PlanRules(s), |s.workloads|, |LocalApps(s)|,
      |s.policy.rules|, ZeroMatches(s, s.policy.rules), false);
    plan.(digest := DigestPlan(plan))
  }

  // ---- acceptance ----

  ghost predicate UniqueIDs(ws: seq<Workload>) {
    forall i, j :: 0 <= i < j < |ws| ==> ws[i].id != ws[j].id
  }

  ghost predicate WorkloadsAccepted(s: Snapshot)
    requires IsPrefix4(s.subnet)
  {
    && (forall w :: w in s.workloads ==> w.id != "" && Contains(s.subnet, w.ip))
    && UniqueIDs(s.workloads)
  }

  /** The rule has a supported form and every selector the compiler evaluates parses. */
  ghost predicate RuleAccepted(s: Snapshot, rule: Rule) {
    if rule.within != "" then IsWithin(rule.within)
    else if rule.between.Some? then
      rule.between.value.selector != "" && Apps(s.workloads) != {} ==> ParseSelector(rule.between.value.selector).Some?
    else
      && rule.from.Some? && rule.to.Some?
      && (Apps(s.workloads) != {} ==> ParseSelector(rule.from.value).Some?)
      && (LocalApps(s) != {} ==> ParseSelector(rule.to.value).Some?)
  }

  ghost predicate Accepted(s: Snapshot) {
    && IsPrefix4(s.subnet) && s.localHostID != "" && WorkloadsAccepted(s)
    && forall r :: r in s.policy.rules ==> RuleAccepted(s, r)
  }

  /** Lower-casing the labels of every application workload has one outcome. */
  ghost predicate LabelsDetermined(s: Snapshot) {
    forall w :: w in s.workloads && !w.system ==> Unambiguous(w.labels)
  }
}
