/** What the order of stacks and of service variants in the metadata document can change. */
module MetadataOrder {
  import opened Ordering
  import opened Text
  import opened Network
  import opened Policy
  import opened Topology
  import opened Views
  import opened Metadata
  import opened SnapshotBuilder
  import opened MetadataLaws

  // ---- what later stages can tell about a merged view ----

  ghost predicate SameContainer(a: View, b: View) {
    a.uuid == b.uuid && SameView(a, b)
  }

  lemma SameContainerParts(a: View, b: View)
    requires SameContainer(a, b)
    ensures a.hostUUID == b.hostUUID && a.stackUUID == b.stackUUID && a.networkUUID == b.networkUUID
    ensures a.primaryIP == b.primaryIP && a.labels == b.labels && a.system == b.system
    ensures a.state == "running" <==> b.state == "running"
  {
    assert Fields(a)[0] == Fields(b)[0] && Fields(a)[1] == Fields(b)[1] && Fields(a)[3] == Fields(b)[3] &&
      Fields(a)[4] == Fields(b)[4];
  }

  lemma SameContainerIsSymmetric(a: View, b: View)
    requires SameContainer(a, b)
    ensures SameContainer(b, a)
  {
    hide Fields;
  }

  /** Services that differ in nothing but containers that later stages cannot tell apart. */
  ghost predicate SameCanonical(a: Service, b: Service) {
    && a.(containers := b.containers) == b && |a.containers| == |b.containers|
    && forall i :: 0 <= i < |a.containers| ==> SameContainer(a.containers[i], b.containers[i])
  }

  lemma SameCanonicalIsSymmetric(a: Service, b: Service)
    requires SameCanonical(a, b)
    ensures SameCanonical(b, a)
  {
    hide SameContainer;
    forall i | 0 <= i < |a.containers| ensures SameContainer(b.containers[i], a.containers[i]) {
      SameContainerIsSymmetric(a.containers[i], b.containers[i]);
    }
  }

  ghost predicate SameContext(x: Context, y: Context) {
    && x.network == y.network && x.subnet == y.subnet && x.primaries == y.primaries && x.stackSystem == y.stackSystem
    && x.services.Keys == y.services.Keys
    && forall id :: id in x.services ==> SameCanonical(x.services[id], y.services[id])
  }

  lemma SameContextIsSymmetric(x: Context, y: Context)
    requires SameContext(x, y)
    ensures SameContext(y, x)
  {
    hide SameCanonical;
    forall id | id in x.services { SameCanonicalIsSymmetric(x.services[id], y.services[id]); }
  }

  /** Which containers take part. */
  lemma SameTakes(x: Context, y: Context, id: string, c: View) returns (d: View)
    requires SameContext(x, y) && Takes(x, id, c)
    ensures Takes(y, id, d) && SameContainer(c, d)
  {
    hide SameContainer, ParseIPv4, Contains;
    assert SameCanonical(x.services[id], y.services[id]);
    var i :| 0 <= i < |x.services[id].containers| && x.services[id].containers[i] == c;
    d := y.services[id].containers[i];
    SameContainerParts(c, d);
    assert c.uuid == d.uuid by { SameUuid(c, d); }
  }

  lemma SameUuid(a: View, b: View)
    requires SameContainer(a, b)
    ensures a.uuid == b.uuid
  {
  }

  /** Their workloads. */
  lemma SameWorkloadOf(x: Context, y: Context, id: string, c: View, d: View, w: Workload)
    requires SameContext(x, y) && SameContainer(c, d) && Takes(y, id, d)
    requires IsWorkloadFor(w, x, id, c)
    ensures IsWorkloadFor(w, y, id, d)
  {
    assert SameCanonical(x.services[id], y.services[id]);
    SameContainerParts(c, d);
    SameUuid(c, d);
    hide SameContainer, ParseIPv4, IsCombined, Eligible;
  }

  lemma WorkloadsCarryOver(x: Context, y: Context, ws: seq<Workload>)
    requires SameContext(x, y) && AreWorkloadsOf(ws, x)
    ensures AreWorkloadsOf(ws, y)
  {
    hide SameContext, SameContainer, Takes, IsWorkloadFor, UniqueIDs;
    SameContextIsSymmetric(x, y);
    forall w | w in ws ensures exists id, c :: IsWorkloadFor(w, y, id, c) {
      var id, c :| IsWorkloadFor(w, x, id, c);
      WorkloadForParts(w, x, id, c);
      var d := SameTakes(x, y, id, c);
      SameWorkloadOf(x, y, id, c, d, w);
    }
    forall id, d | Takes(y, id, d) ensures exists w :: w in ws && w.id == d.uuid {
      var c := SameTakes(y, x, id, d);
      SameUuid(d, c);
    }
  }

  lemma FitCarriesOver(x: Context, y: Context)
    requires SameContext(x, y) && WorkloadsFit(x)
    ensures WorkloadsFit(y)
  {
    hide SameContext, SameContainer, Takes;
    SameContextIsSymmetric(x, y);
    forall id, c, id2, c2 | Takes(y, id, c) && Takes(y, id2, c2) && c.uuid == c2.uuid ensures id == id2 {
      var d := SameTakes(y, x, id, c);
      var d2 := SameTakes(y, x, id2, c2);
      SameUuid(c, d);
      SameUuid(c2, d2);
    }
    forall k | k in TakenIDs(y) ensures k in TakenIDs(x) {
      var id, c :| id in y.services && c in y.services[id].containers && Takes(y, id, c) && c.uuid == k;
      var d := SameTakes(y, x, id, c);
      SameUuid(c, d);
      TakenIsListed(x, id, d);
    }
    SubsetSize(TakenIDs(y), TakenIDs(x));
  }

  lemma TakenIsListed(x: Context, id: string, c: View)
    requires Takes(x, id, c)
    ensures c.uuid in TakenIDs(x)
  {
    hide Eligible;
  }

  /** And their links. */
  lemma LinksCarryOver(x: Context, y: Context, links: Links)
    requires SameContext(x, y) && AreContainerLinksOf(links, x)
    ensures AreContainerLinksOf(links, y)
  {
    hide SameContext, SameContainer, Takes, AreSortedLinks, HasLink;
    SameContextIsSymmetric(x, y);
    forall from, to
      ensures HasLink(links, from, to) <==>
        to != "" && exists id, c :: Takes(y, id, c) && c.uuid == from && to in c.links
    {
      if HasLink(links, from, to) {
        var id, c :| Takes(x, id, c) && c.uuid == from && to in c.links;
        var d := SameTakes(x, y, id, c);
        SameLink(c, d, to);
      }
      if to != "" && exists id, c :: Takes(y, id, c) && c.uuid == from && to in c.links {
        var id, c :| Takes(y, id, c) && c.uuid == from && to in c.links;
        var d := SameTakes(y, x, id, c);
        SameLink(c, d, to);
      }
    }
  }

  lemma SameLink(c: View, d: View, to: string)
    requires SameContainer(c, d) && to != ""
    ensures c.uuid == d.uuid && (to in c.links <==> to in d.links)
  {
  }

  /** Everything buildSnapshot makes of the canonical services depends on their containers only
      up to what SameContainer compares. */
  lemma SameContextSameWorkloads(x: Context, y: Context, ws: seq<Workload>, links: Links)
    requires SameContext(x, y)
    ensures WorkloadsFit(x) <==> WorkloadsFit(y)
    ensures AreWorkloadsOf(ws, x) <==> AreWorkloadsOf(ws, y)
    ensures AreContainerLinksOf(links, x) <==> AreContainerLinksOf(links, y)
  {
    hide SameContext, WorkloadsFit, AreWorkloadsOf, AreContainerLinksOf;
    SameContextIsSymmetric(x, y);
    if WorkloadsFit(x) { FitCarriesOver(x, y); }
    if WorkloadsFit(y) { FitCarriesOver(y, x); }
    if AreWorkloadsOf(ws, x) { WorkloadsCarryOver(x, y, ws); }
    if AreWorkloadsOf(ws, y) { WorkloadsCarryOver(y, x, ws); }
    if AreContainerLinksOf(links, x) { LinksCarryOver(x, y, links); }
    if AreContainerLinksOf(links, y) { LinksCarryOver(y, x, links); }
  }

  // ---- the order of the variants of a service ----

  lemma VariantsAreOrdered()
    ensures StrictOrder(VariantLess)
  {
    hide PathOf, IsPrimaryVariant, StrLess;
    StringsAreOrdered();
  }

  /** A variant that sorts before no other. */
  ghost predicate IsMinimal(variants: seq<Service>, v: Service) {
    v in variants && forall w :: w in variants ==> !VariantLess(w, v)
  }

  /** What of the first variant goes into the canonical service. */
  function Rest(v: Service): Service {
    v.(system := false, containers := [])
  }

  /** The variants that may come first agree on everything but containers and system. */
  ghost predicate MinimalAgree(variants: seq<Service>) {
    forall v, w :: IsMinimal(variants, v) && IsMinimal(variants, w) ==> Rest(v) == Rest(w)
  }

  lemma FirstIsMinimal(variants: seq<Service>)
    requires variants != []
    ensures IsMinimal(variants, Sort(VariantLess, variants)[0])
  {
    hide VariantLess;
    VariantsAreOrdered();
    var sorted := Sort(VariantLess, variants);
    SortSorts(VariantLess, variants);
    SameMembers(sorted, variants);
    hide Sort;
    assert sorted[0] in sorted;
    forall w | w in variants ensures !VariantLess(w, sorted[0]) {
      var i :| 0 <= i < |sorted| && sorted[i] == w;
    }
  }

  lemma {:induction false} FirstStays(v: Service, others: seq<Service>)
    requires !VariantLess(v, v) && forall w :: w in others ==> !VariantLess(w, v)
    ensures Sort(VariantLess, [v] + others)[0] == v
  {
    hide VariantLess;
    var s := [v] + others;
    if others == [] {
      assert s == [v] && s[..0] == [];
    } else {
      var n := |others| - 1;
      FirstStays(v, others[..n]);
      assert s[..|s| - 1] == [v] + others[..n] && s[|s| - 1] == others[n];
      var front := Sort(VariantLess, s[..|s| - 1]);
      assert Insert(VariantLess, others[n], front)[0] == v;
    }
  }

  /** Every minimal variant comes first in some order of the document. */
  lemma AnyMinimalCanBeFirst(variants: seq<Service>, v: Service) returns (p: seq<Service>)
    requires IsMinimal(variants, v)
    ensures multiset(p) == multiset(variants) && p != [] && Sort(VariantLess, p)[0] == v
  {
    hide VariantLess, Sort;
    var i :| 0 <= i < |variants| && variants[i] == v;
    var others := variants[..i] + variants[i + 1..];
    assert variants == variants[..i] + ([v] + variants[i + 1..]);
    assert forall w :: w in others ==> w in variants;
    p := [v] + others;
    FirstStays(v, others);
  }

  // ---- containers do not depend on the order ----

  lemma {:induction false} AllViewsAre(variants: seq<Service>)
    ensures forall c :: c in AllViews(variants) <==> exists v :: v in variants && c in v.containers
  {
    if variants != [] {
      var n := |variants| - 1;
      AllViewsAre(variants[..n]);
      assert variants == variants[..n] + [variants[n]];
    }
  }

  lemma SameViewsOf(a: seq<View>, b: seq<View>, id: string)
    requires forall c :: c in a <==> c in b
    ensures Elems(ViewsOf(a, id)) == Elems(ViewsOf(b, id)) && (ViewsOf(a, id) == [] <==> ViewsOf(b, id) == [])
  {
    ViewsOfKnown(a, id);
    ViewsOfKnown(b, id);
    hide ViewsOf;
  }

  lemma {:induction false} FoldKeepsUuid(views: seq<View>)
    requires views != [] && Fold(views).Some?
    ensures Fold(views).value.uuid == views[0].uuid
  {
    hide Agree, JoinedFields, JoinedLinks;
    if |views| > 1 { FoldKeepsUuid(views[..|views| - 1]); }
  }

  lemma SameMerge(a: seq<View>, b: seq<View>)
    requires forall c :: c in a <==> c in b
    ensures ViewsMerge(a) <==> ViewsMerge(b)
    ensures ContainerIDs(a) == ContainerIDs(b)
  {
    hide ViewsOf, Fold;
    forall id { SameViewsOf(a, b, id); }
    forall id | ViewsOf(a, id) != [] ensures Fold(ViewsOf(a, id)).Some? <==> Fold(ViewsOf(b, id)).Some? {
      MergeIsOrderIndependent(ViewsOf(a, id), ViewsOf(b, id));
    }
  }

  lemma SameMerged(a: seq<View>, b: seq<View>, id: string)
    requires (forall c :: c in a <==> c in b) && ViewsMerge(a) && ViewsMerge(b) && id in ContainerIDs(a)
    ensures id in MergedViews(a) && id in MergedViews(b) && SameContainer(MergedViews(a)[id], MergedViews(b)[id])
  {
    SameMerge(a, b);
    SameViewsOf(a, b, id);
    var va, vb := ViewsOf(a, id), ViewsOf(b, id);
    ViewsOfKnown(a, id);
    ViewsOfKnown(b, id);
    hide ViewsOf, Fold, SameView, ContainerIDs;
    assert va[0] in va && vb[0] in vb;
    MergeIsOrderIndependent(va, vb);
    FoldKeepsUuid(va);
    FoldKeepsUuid(vb);
  }

  lemma SameLists(a: seq<View>, b: seq<View>)
    requires (forall c :: c in a <==> c in b) && ViewsMerge(a) && ViewsMerge(b)
    ensures var la, lb := ContainerList(MergedViews(a)), ContainerList(MergedViews(b));
      |la| == |lb| && forall i :: 0 <= i < |la| ==> SameContainer(la[i], lb[i])
  {
    SameMerge(a, b);
    hide ViewsMerge, SameContainer, ContainerIDs;
    MergedKeys(a);
    MergedKeys(b);
    var ids := StrList(ContainerIDs(a));
    forall i | 0 <= i < |ids| ensures SameContainer(MergedViews(a)[ids[i]], MergedViews(b)[ids[i]]) {
      assert ids[i] in Elems(ids);
      SameMerged(a, b, ids[i]);
    }
    hide MergedViews;
    ListedContainers(MergedViews(a));
    ListedContainers(MergedViews(b));
    hide ContainerList;
  }

  lemma MergedKeys(views: seq<View>)
    requires ViewsMerge(views)
    ensures MergedViews(views).Keys == ContainerIDs(views)
  {
    hide Fold, ViewsOf, ContainerIDs;
  }

  // ---- the canonical service ----

  /** Whether variants merge depends on neither their order nor that of their containers. */
  lemma MergingIgnoresOrder(a: seq<Service>, b: seq<Service>)
    requires multiset(a) == multiset(b)
    ensures VariantsMerge(a) <==> VariantsMerge(b)
    ensures forall c :: c in AllViews(Sort(VariantLess, a)) <==> c in AllViews(Sort(VariantLess, b))
  {
    hide VariantLess, Sort, AllViews, ViewsMerge;
    SameMembers(a, b);
    SameMembers(Sort(VariantLess, a), a);
    SameMembers(Sort(VariantLess, b), b);
    AllViewsAre(Sort(VariantLess, a));
    AllViewsAre(Sort(VariantLess, b));
    SameMerge(AllViews(Sort(VariantLess, a)), AllViews(Sort(VariantLess, b)));
    assert a == [] <==> b == [] by { assert |a| == |multiset(a)| == |multiset(b)| == |b|; }
  }

  lemma SameSystem(a: seq<Service>, b: seq<Service>)
    requires multiset(a) == multiset(b)
    ensures AnySystem(Sort(VariantLess, a)) == AnySystem(Sort(VariantLess, b))
  {
    hide VariantLess, Sort;
    SomeSystem(Sort(VariantLess, a));
    SomeSystem(Sort(VariantLess, b));
    SameMembers(Sort(VariantLess, a), Sort(VariantLess, b));
    hide AnySystem;
  }

  lemma SomeSystem(variants: seq<Service>)
    ensures AnySystem(variants) <==> exists v :: v in variants && v.system
  {
  }

  /** Two orders give the same canonical service, up to what later stages can tell, exactly when
      the variants they put first agree on everything but containers and system. */
  lemma CanonicalServicesCompare(a: seq<Service>, b: seq<Service>)
    requires VariantsMerge(a) && VariantsMerge(b) && multiset(a) == multiset(b)
    ensures SameCanonical(CanonicalService(a), CanonicalService(b)) <==>
      Rest(Sort(VariantLess, a)[0]) == Rest(Sort(VariantLess, b)[0])
  {
    hide VariantLess, Sort, AllViews, ViewsMerge, MergedViews, ContainerList, AnySystem, SameContainer;
    MergingIgnoresOrder(a, b);
    SameSystem(a, b);
    SameLists(AllViews(Sort(VariantLess, a)), AllViews(Sort(VariantLess, b)));
  }

  /** The order in which the metadata lists the variants of a service never changes whether they
      merge; and it does not change the canonical service, up to what later stages can tell, if
      and only if the variants that may come first agree on everything but containers and system. */
  lemma VariantOrderIsIrrelevant(variants: seq<Service>)
    requires VariantsMerge(variants)
    ensures forall p :: multiset(p) == multiset(variants) ==> VariantsMerge(p)
    ensures MinimalAgree(variants) <==>
      forall p :: multiset(p) == multiset(variants) && VariantsMerge(p) ==>
        SameCanonical(CanonicalService(p), CanonicalService(variants))
  {
    hide VariantLess, Sort, VariantsMerge, CanonicalService, SameCanonical, Rest, IsMinimal;
    assert variants != [] by { MergedIsSome(variants); }
    forall p | multiset(p) == multiset(variants) ensures VariantsMerge(p) { MergingIgnoresOrder(p, variants); }
    if MinimalAgree(variants) {
      forall p | multiset(p) == multiset(variants) && VariantsMerge(p)
        ensures SameCanonical(CanonicalService(p), CanonicalService(variants))
      {
        AgreedFirst(p, variants);
        CanonicalServicesCompare(p, variants);
      }
    } else {
      var v, w :| IsMinimal(variants, v) && IsMinimal(variants, w) && Rest(v) != Rest(w);
      var p := AnyMinimalCanBeFirst(variants, v);
      var q := AnyMinimalCanBeFirst(variants, w);
      CanonicalServicesCompare(p, variants);
      CanonicalServicesCompare(q, variants);
    }
  }

  lemma MergedIsSome(variants: seq<Service>)
    requires VariantsMerge(variants)
    ensures variants != []
  {
  }

  lemma AgreedFirst(p: seq<Service>, variants: seq<Service>)
    requires multiset(p) == multiset(variants) && variants != [] && MinimalAgree(variants)
    ensures p != [] && Rest(Sort(VariantLess, p)[0]) == Rest(Sort(VariantLess, variants)[0])
  {
    hide VariantLess, Sort, Rest;
    assert |p| == |multiset(p)| == |multiset(variants)| == |variants|;
    SameMembers(p, variants);
    FirstIsMinimal(p);
    FirstIsMinimal(variants);
    assert IsMinimal(variants, Sort(VariantLess, p)[0]);
  }

  // ---- the whole document ----

  /** The same variants in another order, and the same stacks. */
  ghost predicate Relisted(a: seq<Stack>, b: seq<Stack>) {
    |a| == |b| && multiset(AllVariants(a)) == multiset(AllVariants(b)) && StackSystem(a) == StackSystem(b)
  }

  ghost predicate MinimalAgreeAll(stacks: seq<Stack>) {
    forall id :: id in ServiceIDs(AllVariants(stacks)) ==> MinimalAgree(VariantsOf(AllVariants(stacks), id))
  }

  lemma {:induction false} StackIDsAre(stacks: seq<Stack>)
    ensures forall id :: id in StackSystem(stacks) <==> exists s :: s in stacks && s.uuid == id
  {
    if stacks != [] {
      var n := |stacks| - 1;
      StackIDsAre(stacks[..n]);
      assert stacks == stacks[..n] + [stacks[n]];
    }
  }

  lemma {:induction false} VariantsOfCounts(all: seq<Service>, id: string, v: Service)
    ensures multiset(VariantsOf(all, id))[v] == if v.uuid == id then multiset(all)[v] else 0
  {
    if all != [] {
      var n := |all| - 1;
      VariantsOfCounts(all[..n], id, v);
      assert all == all[..n] + [all[n]];
    }
  }

  lemma VariantsOfPermuted(a: seq<Service>, b: seq<Service>, id: string)
    requires multiset(a) == multiset(b)
    ensures multiset(VariantsOf(a, id)) == multiset(VariantsOf(b, id))
  {
    hide VariantsOf;
    forall v ensures multiset(VariantsOf(a, id))[v] == multiset(VariantsOf(b, id))[v] {
      VariantsOfCounts(a, id, v);
      VariantsOfCounts(b, id, v);
    }
  }

  lemma SameTable(a: seq<Service>, b: seq<Service>)
    requires multiset(a) == multiset(b) && OneIDPerPath(PathOf, UUIDOf, a)
    ensures OneIDPerPath(PathOf, UUIDOf, b) && PathIndex(a) == PathIndex(b)
  {
    hide PathOf, IndexBy;
    SameMembers(a, b);
    IndexByIs(PathOf, UUIDOf, a);
    IndexByIs(PathOf, UUIDOf, b);
    forall p | p in PathIndex(a) ensures p in PathIndex(b) && PathIndex(a)[p] == PathIndex(b)[p] {
      var s :| s in a && PathOf(s) == p;
      SamePathSameIndex(PathOf, UUIDOf, a, s);
      SamePathSameIndex(PathOf, UUIDOf, b, s);
    }
    forall p | p in PathIndex(b) ensures p in PathIndex(a) {
      var s :| s in b && PathOf(s) == p;
    }
  }

  lemma VariantsStayAccepted(a: seq<Stack>, b: seq<Stack>)
    requires Relisted(a, b) && VariantsAccepted(a)
    ensures VariantsAccepted(b) && PathIndex(AllVariants(a)) == PathIndex(AllVariants(b))
  {
    hide AllVariants, PathOf, PathIndex, OneIDPerPath, StackSystem;
    var va, vb := AllVariants(a), AllVariants(b);
    assert |va| == |multiset(va)| == |multiset(vb)| == |vb|;
    SameMembers(va, vb);
    SameTable(va, vb);
    StackIDsAre(a);
    StackIDsAre(b);
    assert "" !in StackSystem(a);
    forall stack | stack in b ensures stack.uuid != "" { assert stack.uuid in StackSystem(b); }
  }

  lemma ServicesStayAccepted(a: seq<Stack>, b: seq<Stack>)
    requires Relisted(a, b) && ServicesAccepted(a)
    ensures ServicesAccepted(b) && ServiceIDs(AllVariants(a)) == ServiceIDs(AllVariants(b))
  {
    hide AllVariants, VariantsAccepted, VariantsMerge, VariantsOf, StackSystem;
    SameMembers(AllVariants(a), AllVariants(b));
    VariantsStayAccepted(a, b);
    forall id | id in ServiceIDs(AllVariants(b)) ensures VariantsMerge(VariantsOf(AllVariants(b), id)) {
      VariantsOfPermuted(AllVariants(a), AllVariants(b), id);
      MergingIgnoresOrder(VariantsOf(AllVariants(a), id), VariantsOf(AllVariants(b), id));
    }
  }

  lemma SameServiceOf(a: seq<Stack>, b: seq<Stack>, id: string)
    requires Relisted(a, b) && ServicesAccepted(a) && ServicesAccepted(b) && id in ServiceIDs(AllVariants(a))
    requires id in ServiceIDs(AllVariants(b)) && MinimalAgree(VariantsOf(AllVariants(a), id))
    ensures SameCanonical(ServiceIndex(a)[id], ServiceIndex(b)[id])
  {
    hide AllVariants, VariantsAccepted, VariantsMerge, VariantsOf, StackSystem, SameCanonical, CanonicalService,
      MinimalAgree;
    var va, vb := VariantsOf(AllVariants(a), id), VariantsOf(AllVariants(b), id);
    VariantsOfPermuted(AllVariants(a), AllVariants(b), id);
    VariantOrderIsIrrelevant(va);
    SameCanonicalIsSymmetric(CanonicalService(vb), CanonicalService(va));
  }

  lemma SamePrimary(id: string, a: Service, b: Service, byPath: map<string, string>)
    requires SameCanonical(a, b)
    ensures PrimaryOf(id, a, byPath) == PrimaryOf(id, b, byPath)
  {
    hide ServicePath, SameContainer, Lower;
  }

  lemma SamePrimaries(a: map<string, Service>, b: map<string, Service>, byPath: map<string, string>)
    requires a.Keys == b.Keys && forall id :: id in a ==> SameCanonical(a[id], b[id])
    ensures Primaries(a, byPath) == Primaries(b, byPath)
  {
    hide PrimaryOf, SameCanonical;
    forall id | id in a { SamePrimary(id, a[id], b[id], byPath); }
  }

  lemma SameServices(a: seq<Stack>, b: seq<Stack>)
    requires Relisted(a, b) && ServicesAccepted(a) && ServicesAccepted(b) && MinimalAgreeAll(a)
    ensures ServiceIndex(a).Keys == ServiceIndex(b).Keys
    ensures forall id :: id in ServiceIndex(a) ==> SameCanonical(ServiceIndex(a)[id], ServiceIndex(b)[id])
  {
    hide AllVariants, VariantsAccepted, VariantsMerge, VariantsOf, StackSystem, SameCanonical, MinimalAgree,
      CanonicalService, ServiceIDs;
    ServicesStayAccepted(a, b);
    IndexKeys(a);
    IndexKeys(b);
    hide ServiceIndex;
    forall id | id in ServiceIndex(a) { SameServiceOf(a, b, id); }
  }

  lemma IndexKeys(stacks: seq<Stack>)
    requires ServicesAccepted(stacks)
    ensures ServiceIndex(stacks).Keys == ServiceIDs(AllVariants(stacks))
  {
    hide AllVariants, VariantsMerge, VariantsAccepted, VariantsOf, CanonicalService, ServiceIDs;
  }

  lemma SameContextOf(n: NetworkReport, a: seq<Stack>, b: seq<Stack>)
    requires IsCandidate(n) && Relisted(a, b) && ServicesAccepted(a) && ServicesAccepted(b) && MinimalAgreeAll(a)
    ensures SameContext(ContextOf(n, a), ContextOf(n, b))
  {
    hide AllVariants, VariantsMerge, VariantsOf, StackSystem, SameCanonical, MinimalAgreeAll, PathIndex, Primaries,
      ServiceIndex, Listed, ServiceIDs;
    VariantsStayAccepted(a, b);
    SameServices(a, b);
    SamePrimaries(ServiceIndex(a), ServiceIndex(b), PathIndex(AllVariants(a)));
  }

  lemma SameServiceLinks(a: seq<Stack>, b: seq<Stack>, links: Links, primaries: map<string, string>)
    requires Relisted(a, b) && VariantsAccepted(a)
    ensures AreServiceLinksOf(links, a, primaries) <==> AreServiceLinksOf(links, b, primaries)
  {
    hide AllVariants, VariantsAccepted, StackSystem, PathIndex, LinkDeclared, AreSortedLinks, HasLink;
    VariantsStayAccepted(a, b);
    SameMembers(AllVariants(a), AllVariants(b));
    SameVariantsSameLinks(AllVariants(a), AllVariants(b), PathIndex(AllVariants(a)), primaries);
  }

  lemma MinimalStaysAgreed(a: seq<Stack>, b: seq<Stack>)
    requires Relisted(a, b) && MinimalAgreeAll(a)
    ensures MinimalAgreeAll(b)
  {
    hide AllVariants, VariantsOf, StackSystem, VariantLess, Rest;
    SameMembers(AllVariants(a), AllVariants(b));
    forall id | id in ServiceIDs(AllVariants(b)) ensures MinimalAgree(VariantsOf(AllVariants(b), id)) {
      VariantsOfPermuted(AllVariants(a), AllVariants(b), id);
      SameMembers(VariantsOf(AllVariants(a), id), VariantsOf(AllVariants(b), id));
      assert MinimalAgree(VariantsOf(AllVariants(a), id));
    }
  }

  lemma SnapshotCarriesOver(s: Snapshot, input: Input, other: Input)
    requires IsSnapshotOf(s, input) && other == input.(stacks := other.stacks)
    requires Relisted(input.stacks, other.stacks) && MinimalAgreeAll(input.stacks)
    ensures IsSnapshotOf(s, other)
  {
    hide IsSnapshotOf, IsSelected, ContextOf, WellFormed, VariantsAccepted, VariantsMerge, WorkloadsFit,
      PolicyAccepted, IsNormalFormOf, IsNormalPolicy, AreWorkloadsOf, AreServiceLinksOf, AreContainerLinksOf,
      Relisted, MinimalAgreeAll, SameContext;
    var n := SelectionOf(s, input);
    SnapshotParts(s, input, n);
    ServicesStayAccepted(input.stacks, other.stacks);
    SameContextOf(n, input.stacks, other.stacks);
    var x, y := ContextOf(n, input.stacks), ContextOf(n, other.stacks);
    SameContextParts(x, y);
    SameContextSameWorkloads(x, y, s.workloads, s.containerLinks);
    SameServiceLinks(input.stacks, other.stacks, s.serviceLinks, x.primaries);
    SnapshotFrom(s, other, n, y);
  }

  lemma SameContextParts(x: Context, y: Context)
    requires SameContext(x, y)
    ensures x.subnet == y.subnet && x.primaries == y.primaries
  {
    hide SameCanonical;
  }

  lemma RelistedIsSymmetric(a: seq<Stack>, b: seq<Stack>)
    requires Relisted(a, b)
    ensures Relisted(b, a)
  {
  }

  /** The order in which the metadata lists stacks and variants changes nothing, when for every
      service the variants that may come first agree on everything but containers and system:
      both documents have the same snapshots. */
  lemma DocumentOrderIsIrrelevant(input: Input, other: Input)
    requires other == input.(stacks := other.stacks) && Relisted(input.stacks, other.stacks) &&
      MinimalAgreeAll(input.stacks)
    ensures forall s :: IsSnapshotOf(s, input) <==> IsSnapshotOf(s, other)
  {
    hide IsSnapshotOf, Relisted, MinimalAgreeAll;
    RelistedIsSymmetric(input.stacks, other.stacks);
    MinimalStaysAgreed(input.stacks, other.stacks);
    forall s ensures IsSnapshotOf(s, input) <==> IsSnapshotOf(s, other) {
      if IsSnapshotOf(s, input) { SnapshotCarriesOver(s, input, other); }
      if IsSnapshotOf(s, other) { SnapshotCarriesOver(s, other, input); }
    }
  }

  // ---- and it can matter ----

  /** A variant of the service "v" without containers. */
  predicate IsPlain(v: Service) {
    && v.uuid == "v" && v.name == "web" && v.stackUUID == "k" && v.stackName == "shop" && v.primaryServiceName == ""
    && !v.system && v.containers == []
  }

  function Labelled(value: string): Service {
    Service("v", "web", "k", "shop", false, "", map["a" := value], map[], [])
  }

  function TwoVariants(v: Service, w: Service): seq<Stack> {
    [Stack("k", "shop", false, [v, w])]
  }

  lemma TwoFilled(stack: Stack, v: Service, w: Service)
    requires Filled(stack, v) == v && Filled(stack, w) == w
    ensures FilledAll(stack, [v, w]) == [v, w]
  {
    hide Filled;
    assert [v, w][..1] == [v] && [v][..0] == [];
    assert FilledAll(stack, [v]) == [v];
  }

  lemma ListedVariants(v: Service, w: Service)
    requires IsPlain(v) && IsPlain(w)
    ensures AllVariants(TwoVariants(v, w)) == [v, w] && StackSystem(TwoVariants(v, w)) == map["k" := false]
  {
    var stack := TwoVariants(v, w)[0];
    assert TwoVariants(v, w)[..0] == [];
    assert Filled(stack, v) == v && Filled(stack, w) == w;
    hide Filled, IsPlain, FilledAll;
    TwoFilled(stack, v, w);
  }

  lemma ListedUnder(v: Service, w: Service, id: string)
    requires v.uuid == id && w.uuid == id
    ensures VariantsOf([v, w], id) == [v, w] && ServiceIDs([v, w]) == {id}
  {
    assert [v, w][..1] == [v] && [v][..0] == [];
    assert VariantsOf([v], id) == [v];
    assert v in [v, w];
  }

  lemma NothingToMerge(v: Service, w: Service)
    requires IsPlain(v) && IsPlain(w)
    ensures VariantsMerge([v, w])
  {
    hide VariantLess, Sort, AllViews;
    var sorted := Sort(VariantLess, [v, w]);
    SameMembers(sorted, [v, w]);
    AllViewsAre(sorted);
    assert ContainerIDs(AllViews(sorted)) == {};
  }

  lemma PlainPaths(v: Service, w: Service)
    requires IsPlain(v) && IsPlain(w)
    ensures PathOf(v) == PathOf(w) && IsPrimaryVariant(v) == IsPrimaryVariant(w)
  {
  }

  lemma {:induction false} TwoAccepted(stacks: seq<Stack>, v: Service, w: Service)
    requires |stacks| == 1 && stacks[0].uuid != "" && AllVariants(stacks) == [v, w] && PathOf(v) == PathOf(w)
    requires v.uuid == w.uuid != "" && VariantsMerge([v, w])
    ensures ServicesAccepted(stacks) && v.uuid in ServiceIndex(stacks)
    ensures ServiceIndex(stacks)[v.uuid] == CanonicalService([v, w])
  {
    hide AllVariants, VariantsOf, VariantsMerge, PathOf, CanonicalService, ServiceIDs;
    ListedUnder(v, w, v.uuid);
  }

  lemma ListingIsAccepted(v: Service, w: Service)
    requires IsPlain(v) && IsPlain(w)
    ensures VariantsMerge([v, w]) && ServicesAccepted(TwoVariants(v, w)) && "v" in ServiceIndex(TwoVariants(v, w))
    ensures ServiceIndex(TwoVariants(v, w))["v"] == CanonicalService([v, w])
  {
    hide AllVariants, VariantsMerge, PathOf, CanonicalService, ServiceIndex, ServicesAccepted, StackSystem;
    ListedVariants(v, w);
    PlainPaths(v, w);
    NothingToMerge(v, w);
    TwoAccepted(TwoVariants(v, w), v, w);
  }

  lemma PlainComesFirst(v: Service, w: Service)
    requires IsPlain(v) && IsPlain(w)
    ensures Sort(VariantLess, [v, w])[0] == v
  {
    PlainPaths(v, w);
    StrLessIrreflexive(PathOf(v));
    hide PathOf, IsPrimaryVariant, StrLess, IsPlain, Sort;
    assert !VariantLess(v, v) && !VariantLess(w, v);
    hide VariantLess;
    FirstStays(v, [w]);
    assert [v] + [w] == [v, w];
  }

  ghost predicate Diverge(a: seq<Stack>, b: seq<Stack>, id: string)
    requires ServicesAccepted(a) && ServicesAccepted(b)
  {
    id in ServiceIndex(a) && id in ServiceIndex(b) && !SameCanonical(ServiceIndex(a)[id], ServiceIndex(b)[id])
  }

  lemma ListingIsRelisted(v: Service, w: Service)
    requires IsPlain(v) && IsPlain(w)
    ensures Relisted(TwoVariants(v, w), TwoVariants(w, v))
  {
    assert |TwoVariants(v, w)| == |TwoVariants(w, v)|;
    hide AllVariants, StackSystem, TwoVariants, IsPlain;
    ListedVariants(v, w);
    ListedVariants(w, v);
    assert multiset([v, w]) == multiset([w, v]);
  }

  lemma PlainCompare(v: Service, w: Service)
    requires IsPlain(v) && IsPlain(w) && Rest(v) != Rest(w) && VariantsMerge([v, w]) && VariantsMerge([w, v])
    ensures !SameCanonical(CanonicalService([v, w]), CanonicalService([w, v]))
  {
    hide VariantsMerge, CanonicalService, SameCanonical, Rest, IsPlain, Sort, VariantLess;
    assert multiset([v, w]) == multiset([w, v]);
    PlainComesFirst(v, w);
    PlainComesFirst(w, v);
    CanonicalServicesCompare([v, w], [w, v]);
  }

  lemma PlainDiverge(v: Service, w: Service)
    requires IsPlain(v) && IsPlain(w) && Rest(v) != Rest(w)
    ensures var a, b := TwoVariants(v, w), TwoVariants(w, v);
      Relisted(a, b) && ServicesAccepted(a) && ServicesAccepted(b) && Diverge(a, b, "v")
  {
    hide Relisted, ServicesAccepted, ServiceIndex, VariantsMerge, CanonicalService, SameCanonical, TwoVariants, IsPlain,
      Rest;
    ListingIsRelisted(v, w);
    ListingIsAccepted(v, w);
    ListingIsAccepted(w, v);
    PlainCompare(v, w);
  }

  /** Two accepted documents that list the same two variants in different order and make
      different services of them. */
  lemma VariantOrderCanMatter()
    ensures exists a, b, id :: Relisted(a, b) && ServicesAccepted(a) && ServicesAccepted(b) && Diverge(a, b, id)
  {
    var v, w := Labelled("x"), Labelled("y");
    assert IsPlain(v) && IsPlain(w);
    assert Rest(v).labels["a"] != Rest(w).labels["a"];
    hide Relisted, ServicesAccepted, Diverge, IsPlain, Rest;
    PlainDiverge(v, w);
  }

  // ---- reordered stacks ----

  ghost predicate DistinctStacks(stacks: seq<Stack>) {
    forall s, t :: s in stacks && t in stacks && s.uuid == t.uuid ==> s.system == t.system
  }

  lemma {:induction false} StackSystemIs(stacks: seq<Stack>, s: Stack)
    requires DistinctStacks(stacks) && s in stacks
    ensures s.uuid in StackSystem(stacks) && StackSystem(stacks)[s.uuid] == s.system
  {
    var n := |stacks| - 1;
    assert stacks == stacks[..n] + [stacks[n]];
    if s in stacks[..n] { StackSystemIs(stacks[..n], s); }
  }

  lemma {:induction false} AllVariantsConcat(a: seq<Stack>, b: seq<Stack>)
    ensures AllVariants(a + b) == AllVariants(a) + AllVariants(b)
  {
    hide FilledAll;
    if b == [] {
      assert a + b == a;
    } else {
      var n := |b| - 1;
      AllVariantsConcat(a, b[..n]);
      assert (a + b)[..|a + b| - 1] == a + b[..n];
    }
  }

  lemma {:induction false} AllVariantsPermuted(a: seq<Stack>, b: seq<Stack>)
    requires multiset(a) == multiset(b)
    ensures multiset(AllVariants(a)) == multiset(AllVariants(b))
  {
    hide AllVariants;
    assert |a| == |multiset(a)| == |multiset(b)| == |b|;
    if a == [] {
      assert a == b;
    } else {
      var i := Without(a, b);
      AllVariantsPermuted(a[1..], b[..i] + b[i + 1..]);
      assert a == [a[0]] + a[1..] && b == b[..i] + ([b[i]] + b[i + 1..]);
      AllVariantsConcat([a[0]], a[1..]);
      AllVariantsConcat(b[..i], [b[i]] + b[i + 1..]);
      AllVariantsConcat([b[i]], b[i + 1..]);
      AllVariantsConcat(b[..i], b[i + 1..]);
    }
  }

  /** A document whose stacks are listed in another order is such a document, unless two stacks
      with one identifier differ in their system flag. */
  lemma ReorderedIsRelisted(a: seq<Stack>, b: seq<Stack>)
    requires multiset(a) == multiset(b) && DistinctStacks(a)
    ensures Relisted(a, b)
  {
    hide AllVariants, StackSystem;
    assert |a| == |multiset(a)| == |multiset(b)| == |b|;
    AllVariantsPermuted(a, b);
    SameMembers(a, b);
    StackIDsAre(a);
    StackIDsAre(b);
    forall id | id in StackSystem(a) ensures StackSystem(a)[id] == StackSystem(b)[id] {
      var s :| s in a && s.uuid == id;
      StackSystemIs(a, s);
      StackSystemIs(b, s);
    }
  }
}
