/** The metadata documents, and what a snapshot built from them must be. */
module Metadata {
  import opened Ordering
  import opened Text
  import opened Network
  import opened Labels
  import opened Policy
  import opened Topology
  import opened Views

  datatype Service = Service(
    uuid: string, name: string, stackUUID: string, stackName: string, system: bool, primaryServiceName: string,
    labels: LabelMap, links: map<string, string>, containers: seq<View>)

  datatype Stack = Stack(uuid: string, name: string, system: bool, services: seq<Service>)

  /** A network report, its JSON fields already decoded: the bridge subnet if the metadata
      has one, and the policy rules if they are well formed. */
  datatype NetworkReport = NetworkReport(
    uuid: string, isDefault: bool, defaultPolicyAction: string, subnet: Option<Prefix>, rules: Option<seq<Rule>>)

  const MAX_STACKS := 256
  const MAX_SERVICES := 1024
  const MAX_WORKLOADS := 4096

  // ---- small helpers of the source ----

  /** strings.EqualFold */
  predicate EqualFold(a: string, b: string) {
    Lower(a) == Lower(b)
  }

  function ServicePath(stack: string, service: string): string {
    Lower(Trim(stack) + "/" + Trim(service))
  }

  function PathOf(s: Service): string {
    ServicePath(s.stackName, s.name)
  }

  /** resolveServiceLink */
  function ResolveServiceLink(stackName: string, candidate: string, byPath: map<string, string>): Option<string> {
    var trimmed := Trim(candidate);
    if trimmed == "" then None
    else
      var path := Lower(if '/' in trimmed then trimmed else stackName + "/" + trimmed);
      if path in byPath then Some(byPath[path]) else None
  }

  function Octet(s: string): Option<nat> {
    if IsDigits(s) && |s| <= 3 && (|s| > 1 ==> s[0] != '0') && NatOf(s) <= 255 then Some(NatOf(s)) else None
  }

  /** netip.ParseAddr, when the result is an IPv4 address; anything else is skipped by the caller. */
  function ParseIPv4(s: string): Option<Addr> {
    var parts := Split(s, '.');
    if |parts| != 4 then None
    else
      var a, b, c, d := Octet(parts[0]), Octet(parts[1]), Octet(parts[2]), Octet(parts[3]);
      if a.None? || b.None? || c.None? || d.None? then None
      else Some(IPv4(((a.value * 0x100 + b.value) * 0x100 + c.value) * 0x100 + d.value))
  }

  // ---- services ----

  function Filled(stack: Stack, service: Service): Service {
    service.(
      stackUUID := if service.stackUUID == "" then stack.uuid else service.stackUUID,
      stackName := if service.stackName == "" then stack.name else service.stackName)
  }

  function FilledAll(stack: Stack, services: seq<Service>): (r: seq<Service>)
    ensures |r| == |services|
  {
    if services == [] then []
    else FilledAll(stack, services[..|services| - 1]) + [Filled(stack, services[|services| - 1])]
  }

  /** Every service variant, in the order of the document. */
  function AllVariants(stacks: seq<Stack>): seq<Service> {
    if stacks == [] then []
    else
      var last := stacks[|stacks| - 1];
      AllVariants(stacks[..|stacks| - 1]) + FilledAll(last, last.services)
  }

  function VariantsOf(all: seq<Service>, id: string): seq<Service> {
    if all == [] then []
    else
      var front, last := VariantsOf(all[..|all| - 1], id), all[|all| - 1];
      if last.uuid == id then front + [last] else front
  }

  function ServiceIDs(all: seq<Service>): set<string> {
    set s | s in all :: s.uuid
  }

  function UUIDOf(s: Service): string {
    s.uuid
  }

  /** The table that the last element with a path leaves under it. */
  function IndexBy<T>(path: T -> string, id: T -> string, all: seq<T>): map<string, string> {
    if all == [] then map[]
    else IndexBy(path, id, all[..|all| - 1])[path(all[|all| - 1]) := id(all[|all| - 1])]
  }

  function PathIndex(all: seq<Service>): map<string, string> {
    IndexBy(PathOf, UUIDOf, all)
  }

  ghost predicate OneIDPerPath<T(!new)>(path: T -> string, id: T -> string, all: seq<T>) {
    forall s, t :: s in all && t in all && path(s) == path(t) ==> id(s) == id(t)
  }

  /** Not too many, all identified, and no path shared by two. */
  ghost predicate Listed<T(!new)>(path: T -> string, id: T -> string, all: seq<T>) {
    |all| <= MAX_SERVICES && (forall s :: s in all ==> id(s) != "") && OneIDPerPath(path, id, all)
  }

  ghost predicate VariantsAccepted(stacks: seq<Stack>) {
    && |stacks| <= MAX_STACKS
    && (forall stack :: stack in stacks ==> stack.uuid != "")
    && Listed(PathOf, UUIDOf, AllVariants(stacks))
  }

  function StackSystem(stacks: seq<Stack>): map<string, bool> {
    if stacks == [] then map[]
    else StackSystem(stacks[..|stacks| - 1])[stacks[|stacks| - 1].uuid := stacks[|stacks| - 1].system]
  }

  // ---- the canonical variant of a service ----

  predicate IsPrimaryVariant(s: Service) {
    EqualFold(s.name, s.primaryServiceName)
  }

  predicate VariantLess(a: Service, b: Service) {
    if IsPrimaryVariant(a) != IsPrimaryVariant(b) then IsPrimaryVariant(a) else StrLess(PathOf(a), PathOf(b))
  }

  /** All container views of a list of variants, in order. */
  function AllViews(variants: seq<Service>): seq<View> {
    if variants == [] then [] else AllViews(variants[..|variants| - 1]) + variants[|variants| - 1].containers
  }

  function ViewsOf(views: seq<View>, id: string): seq<View> {
    if views == [] then []
    else
      var front, last := ViewsOf(views[..|views| - 1], id), views[|views| - 1];
      if last.uuid == id then front + [last] else front
  }

  ghost function ContainerIDs(views: seq<View>): set<string> {
    set v | v in views && v.uuid != "" :: v.uuid
  }

  lemma {:induction false} ViewsOfKnown(views: seq<View>, id: string)
    ensures ViewsOf(views, id) == [] <==> forall v :: v in views ==> v.uuid != id
    ensures forall v :: v in ViewsOf(views, id) <==> v in views && v.uuid == id
  {
    if views != [] {
      ViewsOfKnown(views[..|views| - 1], id);
      assert views == views[..|views| - 1] + [views[|views| - 1]];
    }
  }

  /** Every container's views merge. */
  ghost predicate ViewsMerge(views: seq<View>) {
    forall id :: id in ContainerIDs(views) ==> ViewsOf(views, id) != [] && Fold(ViewsOf(views, id)).Some?
  }

  /** The one view every container ends up with. */
  ghost function MergedViews(views: seq<View>): map<string, View>
    requires ViewsMerge(views)
  {
    hide Fold;
    map id | id in ContainerIDs(views) :: Fold(ViewsOf(views, id)).value
  }

  function ListValues(m: map<string, View>, keys: seq<string>): (r: seq<View>)
    requires forall i :: 0 <= i < |keys| ==> keys[i] in m
    ensures |r| == |keys| && forall i :: 0 <= i < |r| ==> r[i] == m[keys[i]]
  {
    if keys == [] then [] else ListValues(m, keys[..|keys| - 1]) + [m[keys[|keys| - 1]]]
  }

  /** The merged containers in the order of their ids. */
  ghost function ContainerList(merged: map<string, View>): seq<View> {
    var ids := StrList(merged.Keys);
    assert forall i :: 0 <= i < |ids| ==> ids[i] in Elems(ids);
    ListValues(merged, ids)
  }

  function AnySystem(variants: seq<Service>): bool {
    exists i :: 0 <= i < |variants| && variants[i].system
  }

  ghost predicate VariantsMerge(variants: seq<Service>) {
    && variants != []
    && (forall s, t :: s in variants && t in variants ==> s.uuid == t.uuid && s.stackUUID == t.stackUUID)
    && ViewsMerge(AllViews(Sort(VariantLess, variants)))
  }

  /** canonicalizeServiceVariants, when it accepts. */
  ghost function CanonicalService(variants: seq<Service>): Service
    requires VariantsMerge(variants)
  {
    var sorted := Sort(VariantLess, variants);
    sorted[0].(system := AnySystem(sorted), containers := ContainerList(MergedViews(AllViews(sorted))))
  }

  ghost predicate ServicesAccepted(stacks: seq<Stack>) {
    && VariantsAccepted(stacks)
    && forall id :: id in ServiceIDs(AllVariants(stacks)) ==> VariantsMerge(VariantsOf(AllVariants(stacks), id))
  }

  /** The canonical services by id. */
  ghost function ServiceIndex(stacks: seq<Stack>): map<string, Service>
    requires ServicesAccepted(stacks)
  {
    hide VariantsMerge, CanonicalService;
    map id | id in ServiceIDs(AllVariants(stacks)) :: CanonicalService(VariantsOf(AllVariants(stacks), id))
  }

  // ---- primaries and service links ----

  /** The service a service's workloads are grouped under. */
  function PrimaryOf(id: string, service: Service, byPath: map<string, string>): string {
    var path := ServicePath(service.stackName, service.primaryServiceName);
    if service.primaryServiceName != "" && !EqualFold(service.primaryServiceName, service.name) && path in byPath
    then byPath[path] else id
  }

  function Primaries(services: map<string, Service>, byPath: map<string, string>): map<string, string> {
    map id | id in services :: PrimaryOf(id, services[id], byPath)
  }

  function LinkTarget(stackName: string, key: string, value: string, byPath: map<string, string>): Option<string> {
    var target := ResolveServiceLink(stackName, key, byPath);
    if target.None? && value != "" then ResolveServiceLink(stackName, value, byPath) else target
  }

  /** Variant `v` declares a link from primary `from` to primary `to`. */
  predicate Declares(
    v: Service, key: string, byPath: map<string, string>, primaries: map<string, string>, from: string, to: string)
  {
    key in v.links &&
    var target := LinkTarget(v.stackName, key, v.links[key], byPath);
    target.Some? && v.uuid in primaries && primaries[v.uuid] == from &&
    target.value in primaries && primaries[target.value] == to
  }

  ghost predicate LinkDeclared(
    variants: seq<Service>, byPath: map<string, string>, primaries: map<string, string>, from: string, to: string)
  {
    exists v, key :: v in variants && Declares(v, key, byPath, primaries, from, to)
  }

  // ---- workloads ----

  /** The labels of a workload: the container's lowered labels over the service's. */
  ghost predicate IsCombined(service: LabelMap, container: LabelMap, labels: LabelMap) {
    exists s, c :: IsLowered(service, s) && IsLowered(container, c) && labels == s + c
  }

  /** The container takes part: it runs on the selected network with an address in its subnet. */
  predicate Eligible(c: View, network: string, subnet: Prefix)
    requires IsPrefix4(subnet)
  {
    && c.uuid != "" && c.hostUUID != "" && c.state == "running" && c.networkUUID == network
    && ParseIPv4(c.primaryIP).Some? && Contains(subnet, ParseIPv4(c.primaryIP).value)
  }

  function StackOf(service: Service, c: View): string {
    if service.stackUUID == "" then c.stackUUID else service.stackUUID
  }

  predicate IsSystem(service: Service, c: View, stackSystem: map<string, bool>) {
    var stack := StackOf(service, c);
    (stack in stackSystem && stackSystem[stack]) || service.system || c.system
  }

  /** `w` is the workload of container `c` in `service`. */
  ghost predicate IsWorkloadOf(
    w: Workload, service: Service, c: View, primary: string, stackSystem: map<string, bool>)
  {
    && ParseIPv4(c.primaryIP) == Some(w.ip)
    && w.id == c.uuid && w.hostID == c.hostUUID && w.stackID == StackOf(service, c)
    && w.serviceID == service.uuid && w.primaryServiceID == primary && w.system == IsSystem(service, c, stackSystem)
    && IsCombined(service.labels, c.labels, w.labels)
  }

  /** Everything the workload loop depends on. */
  datatype Context = Context(
    network: string, subnet: Prefix, services: map<string, Service>, primaries: map<string, string>,
    stackSystem: map<string, bool>)

  /** Container `c` of service `id` takes part. */
  ghost predicate Takes(x: Context, id: string, c: View) {
    IsPrefix4(x.subnet) && id in x.services && c in x.services[id].containers && Eligible(c, x.network, x.subnet)
  }

  ghost predicate IsWorkloadFor(w: Workload, x: Context, id: string, c: View) {
    Takes(x, id, c) && id in x.primaries && IsWorkloadOf(w, x.services[id], c, x.primaries[id], x.stackSystem)
  }

  ghost function TakenIDs(x: Context): set<string> {
    set id, c | id in x.services && c in x.services[id].containers && Takes(x, id, c) :: c.uuid
  }

  /** No container takes part under two services, and there are not too many. */
  ghost predicate WorkloadsFit(x: Context) {
    && (forall id, c, id2, c2 :: Takes(x, id, c) && Takes(x, id2, c2) && c.uuid == c2.uuid ==> id == id2)
    && |TakenIDs(x)| <= MAX_WORKLOADS
  }

  // ---- the snapshot ----

  datatype Input = Input(host: string, networks: seq<NetworkReport>, stacks: seq<Stack>)

  predicate IsCandidate(n: NetworkReport) {
    n.isDefault && n.subnet.Some? && IsPrefix4(n.subnet.value)
  }

  /** The one default network with a usable subnet. */
  ghost predicate IsSelected(networks: seq<NetworkReport>, n: NetworkReport) {
    exists i :: 0 <= i < |networks| && networks[i] == n && IsCandidate(n) &&
      forall j :: 0 <= j < |networks| && IsCandidate(networks[j]) ==> j == i
  }

  function PolicyInput(n: NetworkReport): Policy
    requires n.rules.Some?
  {
    Policy(if n.defaultPolicyAction == "" then "allow" else n.defaultPolicyAction, n.rules.value)
  }

  ghost function ContextOf(n: NetworkReport, stacks: seq<Stack>): Context
    requires IsCandidate(n) && ServicesAccepted(stacks)
  {
    var services := ServiceIndex(stacks);
    Context(n.uuid, n.subnet.value, services, Primaries(services, PathIndex(AllVariants(stacks))), StackSystem(stacks))
  }

  ghost predicate InputAccepted(input: Input) {
    exists n :: IsSelected(input.networks, n) && n.rules.Some? && PolicyAccepted(PolicyInput(n)) &&
      ServicesAccepted(input.stacks) && WorkloadsFit(ContextOf(n, input.stacks))
  }

  /** Link lists without repetitions, sorted, none empty: then the map is determined by the links. */
  ghost predicate AreSortedLinks(links: Links) {
    forall from :: from in links ==> links[from] != [] && Ascending(StrLess, links[from])
  }

  /** The workloads are those of the containers that take part, one each. */
  ghost predicate AreWorkloadsOf(ws: seq<Workload>, x: Context) {
    && UniqueIDs(ws)
    && (forall w :: w in ws ==> exists id, c :: IsWorkloadFor(w, x, id, c))
    && (forall id, c :: Takes(x, id, c) ==> exists w :: w in ws && w.id == c.uuid)
  }

  ghost predicate AreContainerLinksOf(links: Links, x: Context) {
    && AreSortedLinks(links)
    && forall from, to :: HasLink(links, from, to) <==>
         to != "" && exists id, c :: Takes(x, id, c) && c.uuid == from && to in c.links
  }

  ghost predicate AreServiceLinksOf(links: Links, stacks: seq<Stack>, primaries: map<string, string>) {
    && AreSortedLinks(links)
    && forall from, to :: HasLink(links, from, to) <==>
         LinkDeclared(AllVariants(stacks), PathIndex(AllVariants(stacks)), primaries, from, to)
  }

  /** `s` is a snapshot buildSnapshot may return for the input: the label maps depend on
      the order of a Go map, and so may the order of the workloads. */
  ghost predicate IsSnapshotOf(s: Snapshot, input: Input) {
    exists n :: IsSelected(input.networks, n) && n.rules.Some? && ServicesAccepted(input.stacks) &&
      var x := ContextOf(n, input.stacks);
      && WorkloadsFit(x)
      && s.subnet == x.subnet && s.localHostID == input.host
      && PolicyAccepted(PolicyInput(n)) && IsNormalFormOf(s.policy, PolicyInput(n)) && IsNormalPolicy(s.policy)
      && AreWorkloadsOf(s.workloads, x)
      && AreServiceLinksOf(s.serviceLinks, input.stacks, x.primaries)
      && AreContainerLinksOf(s.containerLinks, x)
  }
}
