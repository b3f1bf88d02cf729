/** One small topology: a service with a client on host "g" and a server on host "h", whose
    label map has two keys that differ only by case. The policy is one rule. */
module Example {
  import opened Ordering
  import opened Text
  import opened Network
  import opened Selector
  import opened Labels
  import opened Policy
  import opened Topology
  import opened Views
  import opened Metadata
  import opened MetadataLaws

  // ---- the input ----

  function Twins(): LabelMap {
    map["A" := "x", "a" := "y"]
  }

  function Client(): View {
    View("c", "g", "k", "v", "n", "1.2.3.4", "running", false, map["a" := "x"], [])
  }

  function Server(): View {
    View("s", "h", "k", "v", "n", "1.2.3.5", "running", false, Twins(), [])
  }

  function Web(): Service {
    Service("v", "web", "k", "shop", false, "", map[], map[], [Client(), Server()])
  }

  function Shop(): Stack {
    Stack("k", "shop", false, [Web()])
  }

  function Subnet(): Prefix {
    Prefix(IPv4(0x01020300), 24)
  }

  function Report(rule: Rule): NetworkReport {
    NetworkReport("n", true, "", Some(Subnet()), Some([rule]))
  }

  /** What host "h" reads. */
  function ShopInput(rule: Rule): Input {
    Input("h", [Report(rule)], [Shop()])
  }

  // ---- its snapshots ----

  function ClientAddress(): Addr {
    IPv4(0x01020304)
  }

  function ServerAddress(): Addr {
    IPv4(0x01020305)
  }

  function ClientWorkload(): Workload {
    Workload("c", ClientAddress(), "g", "k", "v", "v", false, map["a" := "x"])
  }

  /** The server, with the value its label `a` comes out with. */
  function ServerWorkload(value: string): Workload {
    Workload("s", ServerAddress(), "h", "k", "v", "v", false, map["a" := value])
  }

  function Outcome(value: string, rule: Rule): Snapshot {
    Snapshot(Subnet(), "h", [ClientWorkload(), ServerWorkload(value)], map[], map[], Policy("allow", [rule]))
  }

  // ---- the services of the input ----

  lemma OneVariant()
    ensures AllVariants([Shop()]) == [Web()]
    ensures VariantsOf([Web()], "v") == [Web()] && ServiceIDs([Web()]) == {"v"}
    ensures StackSystem([Shop()]) == map["k" := false]
  {
    hide Client, Server;
    assert ([Shop()])[..0] == [] && ([Web()])[..0] == [];
    assert Filled(Shop(), Web()) == Web();
    assert FilledAll(Shop(), [Web()]) == [Web()];
  }

  lemma OneServiceListed()
    ensures VariantsAccepted([Shop()])
  {
    OneVariant();
    hide AllVariants, PathOf, Client, Server;
  }

  lemma TwoIDs()
    ensures Client().uuid == "c" && Server().uuid == "s"
  {
  }

  lemma TwoViews()
    ensures AllViews([Web()]) == [Client(), Server()]
    ensures ContainerIDs([Client(), Server()]) == {"c", "s"}
  {
    TwoIDs();
    assert ([Web()])[..0] == [];
    hide Client, Server;
    var views := [Client(), Server()];
    assert views[0].uuid in ContainerIDs(views) && views[1].uuid in ContainerIDs(views);
  }

  lemma OneViewEach()
    ensures ViewsOf([Client(), Server()], "c") == [Client()] && Fold([Client()]) == Some(Client())
    ensures ViewsOf([Client(), Server()], "s") == [Server()] && Fold([Server()]) == Some(Server())
  {
    TwoIDs();
    hide Client, Server;
    var views := [Client(), Server()];
    assert views[..1] == [Client()] && views[..1][..0] == [];
    assert ViewsOf([], "c") == [] && ViewsOf([], "s") == [];
    assert ViewsOf(views[..1], "c") == [Client()] && ViewsOf(views[..1], "s") == [];
  }

  lemma TwoListed(a: View, b: View)
    ensures ContainerList(map["c" := a, "s" := b]) == [a, b]
  {
    assert StrLess("c", "s");
    assert Elems(["c", "s"]) == {"c", "s"} == map["c" := a, "s" := b].Keys;
    StrListIs(["c", "s"]);
    assert (["c", "s"])[..1] == ["c"] && (["c"])[..0] == [];
  }

  lemma ViewsMergeToThemselves()
    ensures ViewsMerge([Client(), Server()]) &&
      MergedViews([Client(), Server()]) == map["c" := Client(), "s" := Server()]
  {
    TwoViews();
    OneViewEach();
    hide Client, Server, ContainerIDs, ViewsOf, Fold;
    assert MergedViews([Client(), Server()]).Keys == {"c", "s"};
  }

  lemma OneServiceMerges()
    ensures VariantsMerge([Web()]) && CanonicalService([Web()]) == Web()
  {
    hide Client, Server, AllViews, ContainerList, MergedViews, ViewsMerge, VariantLess, Sort;
    TwoViews();
    SortFixesSorted(VariantLess, [Web()]);
    ViewsMergeToThemselves();
    TwoListed(Client(), Server());
    assert Web().(containers := [Client(), Server()]) == Web();
  }

  lemma OneService()
    ensures ServicesAccepted([Shop()]) && ServiceIndex([Shop()]) == map["v" := Web()]
  {
    OneVariant();
    OneServiceListed();
    OneServiceMerges();
    hide AllVariants, VariantsOf, VariantsAccepted, VariantsMerge, CanonicalService, Web, Shop;
    assert ServiceIndex([Shop()]) == map["v" := Web()];
  }

  function Expected(): Context {
    Context("n", Subnet(), map["v" := Web()], map["v" := "v"], map["k" := false])
  }

  lemma OwnPrimary(byPath: map<string, string>)
    ensures Primaries(map["v" := Web()], byPath) == map["v" := "v"]
  {
    assert PrimaryOf("v", Web(), byPath) == "v" by { hide ServicePath, Client, Server; }
    hide PrimaryOf, Web;
  }

  lemma ContextIs(rule: Rule)
    ensures IsCandidate(Report(rule)) && ServicesAccepted([Shop()])
    ensures ContextOf(Report(rule), [Shop()]) == Expected()
  {
    hide ServicesAccepted, ServiceIndex, AllVariants, StackSystem, Shop, PathIndex, Primaries, Web;
    OneService();
    OneVariant();
    OwnPrimary(PathIndex(AllVariants([Shop()])));
  }

  // ---- addresses ----

  lemma AddressSplits(last: string)
    requires '.' !in last
    ensures Split("1.2.3." + last, '.') == ["1", "2", "3", last]
  {
    var digits := ["1", "2", "3", last];
    hide Split, Join;
    assert Join(digits, '.') == "1.2.3." + last by { DottedText("1", "2", "3", last); }
    SplitUndoesJoin(digits, '.');
  }

  lemma DottedText(a: string, b: string, c: string, d: string)
    ensures Join([a, b, c, d], '.') == a + "." + b + "." + c + "." + d
  {
    assert ([a, b, c, d])[1..] == [b, c, d] && ([b, c, d])[1..] == [c, d] && ([c, d])[1..] == [d];
    assert Join([c, d], '.') == c + ['.'] + d;
    assert Join([b, c, d], '.') == b + ['.'] + (c + ['.'] + d);
  }

  lemma OneDigit(c: char)
    requires IsDigit(c)
    ensures Octet([c]) == Some((c as int - '0' as int) as nat)
  {
    assert ([c])[..0] == [] && NatOf([c][..0]) == 0;
    assert NatOf([c]) == c as int - '0' as int;
  }

  lemma AddressesAre()
    ensures ParseIPv4("1.2.3.4") == Some(ClientAddress()) && ParseIPv4("1.2.3.5") == Some(ServerAddress())
  {
    hide Split, Octet;
    assert "1.2.3." + "4" == "1.2.3.4" && "1.2.3." + "5" == "1.2.3.5";
    AddressSplits("4");
    AddressSplits("5");
    OneDigit('1');
    OneDigit('2');
    OneDigit('3');
    OneDigit('4');
    OneDigit('5');
  }

  lemma AddressesAreInside()
    ensures IsPrefix4(Subnet()) && Contains(Subnet(), ClientAddress()) && Contains(Subnet(), ServerAddress())
  {
    forall w: nat | 0x01020300 <= w < 0x01020400 ensures ShiftRight(w, 8) == 0x010203 { ShiftByEight(w); }
  }

  lemma ShiftByEight(w: nat)
    ensures ShiftRight(w, 8) == w / 256
  {
    assert ShiftRight(w, 8) == ShiftRight(w / 2 / 2 / 2 / 2, 4);
    assert ShiftRight(w / 16, 4) == w / 16 / 2 / 2 / 2 / 2;
  }

  // ---- its workloads ----

  lemma ContainersTakePart(id: string, c: View)
    ensures Takes(Expected(), id, c) <==> id == "v" && (c == Client() || c == Server())
  {
    AddressesAre();
    AddressesAreInside();
    hide ParseIPv4, Contains, Subnet, ClientAddress, ServerAddress, Twins;
  }

  lemma LowerSingleton(key: string, value: string)
    requires Lower(key) == key && Lower(value) == value
    ensures IsLowered(map[key := value], map[key := value]) && Unambiguous(map[key := value])
  {
    hide Lower;
    var labels := map[key := value];
    assert forall k :: k in labels ==> k == key && labels[k] == value;
    assert key in labels;
  }

  lemma CombinedWithNothing(container: LabelMap, lowered: LabelMap)
    requires IsLowered(container, lowered)
    ensures IsCombined(map[], container, lowered)
  {
    hide Lower;
    var none: LabelMap := map[];
    assert IsLowered(none, none) && none + lowered == lowered;
  }

  lemma ClientLowers()
    ensures IsCombined(map[], map["a" := "x"], map["a" := "x"])
  {
    assert Lower("a") == "a" && Lower("x") == "x";
    hide Lower, IsLowered, IsCombined;
    LowerSingleton("a", "x");
    CombinedWithNothing(map["a" := "x"], map["a" := "x"]);
  }

  lemma TwinsLower(value: string)
    requires value == "x" || value == "y"
    ensures IsCombined(map[], Twins(), map["a" := value])
  {
    assert Lower("A") == "a" && Lower("a") == "a" && Lower("x") == "x" && Lower("y") == "y";
    hide Lower, IsCombined;
    var c: LabelMap := map["a" := value];
    var key := if value == "x" then "A" else "a";
    assert key in Twins() && Lower(key) == "a" && Lower(Twins()[key]) == value;
    CombinedWithNothing(Twins(), c);
  }

  lemma TakenAreTwo()
    ensures TakenIDs(Expected()) <= {"c", "s"} && |TakenIDs(Expected())| <= 2
  {
    TwoIDs();
    forall id, c ensures Takes(Expected(), id, c) ==> c == Client() || c == Server() { ContainersTakePart(id, c); }
    hide Takes, Client, Server, Expected;
    SubsetSize(TakenIDs(Expected()), {"c", "s"});
  }

  lemma WorkloadsAre(value: string)
    requires value == "x" || value == "y"
    ensures IsWorkloadOf(ClientWorkload(), Web(), Client(), "v", map["k" := false])
    ensures IsWorkloadOf(ServerWorkload(value), Web(), Server(), "v", map["k" := false])
  {
    hide ParseIPv4, IsCombined, Twins, ClientAddress, ServerAddress;
    AddressesAre();
    ClientLowers();
    TwinsLower(value);
  }

  lemma WorkloadsFor(value: string)
    requires value == "x" || value == "y"
    ensures IsWorkloadFor(ClientWorkload(), Expected(), "v", Client())
    ensures IsWorkloadFor(ServerWorkload(value), Expected(), "v", Server())
  {
    hide Takes, IsWorkloadOf, Client, Server, ClientWorkload, ServerWorkload;
    ContainersTakePart("v", Client());
    ContainersTakePart("v", Server());
    WorkloadsAre(value);
  }

  lemma TwoParticipants(x: Context, w1: Workload, w2: Workload, id: string, c1: View, c2: View)
    requires IsWorkloadFor(w1, x, id, c1) && IsWorkloadFor(w2, x, id, c2)
    requires w1.id == c1.uuid && w2.id == c2.uuid && w1.id != w2.id
    requires forall id2, c :: Takes(x, id2, c) <==> id2 == id && (c == c1 || c == c2)
    ensures AreWorkloadsOf([w1, w2], x)
  {
    hide Takes, IsWorkloadFor;
    assert w1 in [w1, w2] && w2 in [w1, w2];
  }

  lemma TwoWorkloads(value: string)
    requires value == "x" || value == "y"
    ensures WorkloadsFit(Expected()) && AreWorkloadsOf([ClientWorkload(), ServerWorkload(value)], Expected())
  {
    TwoIDs();
    hide Takes, IsWorkloadFor, AreWorkloadsOf, TakenIDs, Expected, Web, Client, Server;
    forall id, c
      ensures Takes(Expected(), id, c) <==> id == "v" && (c == Client() || c == Server())
    {
      ContainersTakePart(id, c);
    }
    WorkloadsFor(value);
    TakenAreTwo();
    TwoParticipants(Expected(), ClientWorkload(), ServerWorkload(value), "v", Client(), Server());
  }

  // ---- its links ----

  lemma NoServiceLinks()
    ensures AreServiceLinksOf(map[], [Shop()], Expected().primaries)
  {
    OneVariant();
    hide AllVariants, PathIndex, LinkTarget, Shop, Client, Server;
    assert forall v :: v in [Web()] ==> v.links == map[];
  }

  lemma NoContainerLinks()
    ensures AreContainerLinksOf(map[], Expected())
  {
    forall id, c ensures Takes(Expected(), id, c) ==> c.links == [] {
      hide Takes, Expected;
      ContainersTakePart(id, c);
    }
    hide Takes, Expected;
  }

  // ---- the snapshot ----

  lemma PolicyIs(submitted: Rule, normal: Rule)
    requires NormalRule(submitted) == Some(normal) && IsNormalRule(normal)
    ensures PolicyAccepted(PolicyInput(Report(submitted)))
    ensures IsNormalFormOf(Policy("allow", [normal]), PolicyInput(Report(submitted))) &&
      IsNormalPolicy(Policy("allow", [normal]))
  {
    hide NormalRule, IsNormalRule;
  }

  lemma ReportIsSelected(rule: Rule)
    ensures IsSelected(ShopInput(rule).networks, Report(rule))
  {
    assert ShopInput(rule).networks[0] == Report(rule);
  }

  /** buildSnapshot may return either outcome for the label, whatever the rule. */
  lemma OutcomeIsSnapshot(value: string, submitted: Rule, normal: Rule)
    requires value == "x" || value == "y"
    requires NormalRule(submitted) == Some(normal) && IsNormalRule(normal)
    ensures IsSnapshotOf(Outcome(value, normal), ShopInput(submitted))
  {
    hide ContextOf, ServicesAccepted, WorkloadsFit, AreWorkloadsOf, AreServiceLinksOf, AreContainerLinksOf,
      IsSnapshotOf, PolicyAccepted, IsNormalFormOf, IsNormalPolicy, PolicyInput, Shop, NormalRule, IsNormalRule,
      ClientWorkload, ServerWorkload;
    ContextIs(submitted);
    TwoWorkloads(value);
    NoServiceLinks();
    NoContainerLinks();
    PolicyIs(submitted, normal);
    ReportIsSelected(submitted);
    SnapshotFrom(Outcome(value, normal), ShopInput(submitted), Report(submitted), Expected());
  }

  /** Both containers run the service, and the server is local. */
  lemma OutcomeWorkloads(value: string, rule: Rule)
    ensures var s := Outcome(value, rule);
      && Systems(s.workloads) == {} && Apps(s.workloads) == {ClientWorkload(), ServerWorkload(value)}
      && LocalApps(s) == {ServerWorkload(value)} && UniqueIDs(s.workloads)
  {
    var s := Outcome(value, rule);
    assert ClientWorkload() in s.workloads && ServerWorkload(value) in s.workloads;
  }
}
