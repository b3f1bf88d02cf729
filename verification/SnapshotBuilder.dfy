/** buildSnapshot as the source runs it, with every `range` over a Go map in arbitrary order. */
module SnapshotBuilder {
  import opened Ordering
  import opened Text
  import opened Network
  import opened Labels
  import opened Policy
  import opened Topology
  import opened Views
  import opened Metadata
  import Canonical

  // ---- networks ----

  /** selectDefaultNetwork */
  method SelectDefaultNetwork(networks: seq<NetworkReport>) returns (r: Option<NetworkReport>)
    ensures r.Some? <==> exists n :: IsSelected(networks, n)
    ensures r.Some? ==> IsSelected(networks, r.value)
  {
    var selected: Option<nat> := None;
    for i := 0 to |networks|
      invariant selected.None? ==> forall j :: 0 <= j < i ==> !IsCandidate(networks[j])
      invariant selected.Some? ==> selected.value < i && IsCandidate(networks[selected.value])
      invariant selected.Some? ==> forall j :: 0 <= j < i && IsCandidate(networks[j]) ==> j == selected.value
    {
      if !IsCandidate(networks[i]) { continue; }
      if selected.Some? { return None; }
      selected := Some(i);
    }
    if selected.None? { return None; }
    r := Some(networks[selected.value]);
    assert IsSelected(networks, r.value);
  }

  // ---- collecting the variants ----

  function ByID(all: seq<Service>): map<string, seq<Service>> {
    if all == [] then map[]
    else
      var front, last := ByID(all[..|all| - 1]), all[|all| - 1];
      front[last.uuid := (if last.uuid in front then front[last.uuid] else []) + [last]]
  }

  lemma {:induction false} ByIDIs(all: seq<Service>)
    ensures ByID(all).Keys == ServiceIDs(all)
    ensures forall id :: id in ByID(all) ==> ByID(all)[id] == VariantsOf(all, id)
    ensures forall id :: id !in ByID(all) ==> VariantsOf(all, id) == []
  {
    if all != [] {
      var front, last := all[..|all| - 1], all[|all| - 1];
      ByIDIs(front);
      assert all == front + [last];
      assert ServiceIDs(all) == ServiceIDs(front) + {last.uuid};
    }
  }

  lemma {:induction false} IndexByIs<T(!new)>(path: T -> string, id: T -> string, all: seq<T>)
    ensures forall p :: p in IndexBy(path, id, all) <==> exists s :: s in all && path(s) == p
    ensures forall p :: p in IndexBy(path, id, all) ==>
      exists s :: s in all && path(s) == p && IndexBy(path, id, all)[p] == id(s)
  {
    if all != [] {
      IndexByIs(path, id, all[..|all| - 1]);
      assert all == all[..|all| - 1] + [all[|all| - 1]];
    }
  }

  /** The state of the collecting loops after the variants `all`. */
  ghost predicate CollectedServices(
    all: seq<Service>, byID: map<string, seq<Service>>, byPath: map<string, string>, count: nat)
  {
    && byID == ByID(all) && byPath == PathIndex(all) && count == |all|
    && Listed(PathOf, UUIDOf, all)
  }

  /** One element more agrees with the others unless the table has another under its path. */
  lemma AgreeMore<T(!new)>(path: T -> string, id: T -> string, all: seq<T>, s: T)
    requires OneIDPerPath(path, id, all)
    ensures OneIDPerPath(path, id, all + [s]) <==>
      (path(s) in IndexBy(path, id, all) ==> IndexBy(path, id, all)[path(s)] == id(s))
  {
    IndexByIs(path, id, all);
    var index := IndexBy(path, id, all);
    if OneIDPerPath(path, id, all + [s]) && path(s) in index {
      var t :| t in all && path(t) == path(s) && index[path(s)] == id(t);
      assert t in all + [s] && s in all + [s];
    }
    if path(s) in index ==> index[path(s)] == id(s) {
      forall t, u | t in all + [s] && u in all + [s] && path(t) == path(u) ensures id(t) == id(u) {
        if t in all && u == s { SamePathSameIndex(path, id, all, t); }
        if u in all && t == s { SamePathSameIndex(path, id, all, u); }
      }
    }
  }

  lemma SamePathSameIndex<T(!new)>(path: T -> string, id: T -> string, all: seq<T>, t: T)
    requires OneIDPerPath(path, id, all) && t in all
    ensures path(t) in IndexBy(path, id, all) && IndexBy(path, id, all)[path(t)] == id(t)
  {
    IndexByIs(path, id, all);
    var s :| s in all && path(s) == path(t) && IndexBy(path, id, all)[path(t)] == id(s);
  }

  /** One turn of the inner collecting loop. */
  method CollectService(
    stack: Stack, service: Service, ghost all: seq<Service>, byID: map<string, seq<Service>>,
    byPath: map<string, string>, count: nat)
    returns (ok: bool, byID2: map<string, seq<Service>>, byPath2: map<string, string>, count2: nat)
    requires CollectedServices(all, byID, byPath, count)
    ensures ok <==> Listed(PathOf, UUIDOf, all + [Filled(stack, service)])
    ensures ok ==> CollectedServices(all + [Filled(stack, service)], byID2, byPath2, count2)
  {
    hide PathOf, OneIDPerPath;
    assert (all + [Filled(stack, service)])[|all|] in all + [Filled(stack, service)];
    byID2, byPath2 := byID, byPath;
    count2 := count + 1;
    if count2 > MAX_SERVICES { return false, byID, byPath, count; }
    if service.uuid == "" { return false, byID, byPath, count; }
    var filled := Filled(stack, service);
    AgreeMore(PathOf, UUIDOf, all, filled);
    assert (all + [filled])[..|all|] == all;
    byID2 := byID[filled.uuid := (if filled.uuid in byID then byID[filled.uuid] else []) + [filled]];
    var path := PathOf(filled);
    if path in byPath && byPath[path] != filled.uuid { return false, byID2, byPath, count2; }
    byPath2 := byPath[path := filled.uuid];
    ok := true;
  }

  lemma FilledAllNext(stack: Stack, services: seq<Service>, i: nat)
    requires i < |services|
    ensures FilledAll(stack, services[..i + 1]) == FilledAll(stack, services[..i]) + [Filled(stack, services[i])]
  {
    hide Filled;
    assert services[..i + 1][..i] == services[..i];
  }

  lemma {:induction false} FilledAllPrefix(stack: Stack, services: seq<Service>, i: nat)
    requires i <= |services|
    ensures FilledAll(stack, services[..i]) <= FilledAll(stack, services)
  {
    hide Filled;
    if i < |services| {
      FilledAllPrefix(stack, services[..|services| - 1], i);
      assert services[..|services| - 1][..i] == services[..i];
    } else {
      assert services[..i] == services;
    }
  }

  lemma {:induction false} AllVariantsPrefix(stacks: seq<Stack>, i: nat)
    requires i <= |stacks|
    ensures AllVariants(stacks[..i]) <= AllVariants(stacks)
  {
    hide FilledAll;
    if i < |stacks| {
      AllVariantsPrefix(stacks[..|stacks| - 1], i);
      assert stacks[..|stacks| - 1][..i] == stacks[..i];
    } else {
      assert stacks[..i] == stacks;
    }
  }

  lemma ListedPrefix<T(!new)>(path: T -> string, id: T -> string, a: seq<T>, b: seq<T>)
    requires a <= b && Listed(path, id, b)
    ensures Listed(path, id, a)
  {
    assert forall i :: 0 <= i < |a| ==> a[i] == b[i] && b[i] in b;
  }

  /** The inner loop over the services of one stack. */
  method CollectStack(
    stacks: seq<Stack>, i: nat, byID: map<string, seq<Service>>, byPath: map<string, string>, count: nat)
    returns (ok: bool, byID2: map<string, seq<Service>>, byPath2: map<string, string>, count2: nat)
    requires i < |stacks| && CollectedServices(AllVariants(stacks[..i]), byID, byPath, count)
    ensures !ok ==> !VariantsAccepted(stacks)
    ensures ok ==> CollectedServices(AllVariants(stacks[..i + 1]), byID2, byPath2, count2)
  {
    hide Listed, Filled, ByID, PathIndex;
    var stack := stacks[i];
    ghost var before := AllVariants(stacks[..i]);
    ghost var after := AllVariants(stacks[..i + 1]);
    assert stacks[..i + 1][..i] == stacks[..i];
    assert after == before + FilledAll(stack, stack.services);
    AllVariantsPrefix(stacks, i + 1);
    byID2, byPath2, count2 := byID, byPath, count;
    assert FilledAll(stack, stack.services[..0]) == [] && before + [] == before;
    for j := 0 to |stack.services|
      invariant CollectedServices(before + FilledAll(stack, stack.services[..j]), byID2, byPath2, count2)
    {
      ghost var all := before + FilledAll(stack, stack.services[..j]);
      ghost var next := all + [Filled(stack, stack.services[j])];
      FilledAllNext(stack, stack.services, j);
      FilledAllPrefix(stack, stack.services, j + 1);
      assert next == before + FilledAll(stack, stack.services[..j + 1]);
      assert next <= after;
      ok, byID2, byPath2, count2 := CollectService(stack, stack.services[j], all, byID2, byPath2, count2);
      if !ok {
        if Listed(PathOf, UUIDOf, AllVariants(stacks)) { ListedPrefix(PathOf, UUIDOf, next, AllVariants(stacks)); }
        return;
      }
    }
    assert stack.services[..|stack.services|] == stack.services;
    ok := true;
  }

  /** The first loop of buildSnapshot. */
  method CollectVariants(stacks: seq<Stack>)
    returns (ok: bool, byID: map<string, seq<Service>>, byPath: map<string, string>, stackSystem: map<string, bool>)
    ensures ok <==> VariantsAccepted(stacks)
    ensures ok ==> byID == ByID(AllVariants(stacks)) && byPath == PathIndex(AllVariants(stacks))
    ensures ok ==> stackSystem == StackSystem(stacks)
  {
    hide Listed, FilledAll, ByID, PathIndex;
    byID, byPath, stackSystem := map[], map[], map[];
    if |stacks| > MAX_STACKS { return false, byID, byPath, stackSystem; }
    assert AllVariants(stacks[..0]) == [] && StackSystem(stacks[..0]) == map[];
    assert CollectedServices([], map[], map[], 0) by { NothingCollectedYet(); }
    var count := 0;
    for i := 0 to |stacks|
      invariant forall k :: 0 <= k < i ==> stacks[k].uuid != ""
      invariant CollectedServices(AllVariants(stacks[..i]), byID, byPath, count)
      invariant stackSystem == StackSystem(stacks[..i])
    {
      var stack := stacks[i];
      if stack.uuid == "" {
        assert stack in stacks;
        return false, byID, byPath, stackSystem;
      }
      assert stacks[..i + 1][..i] == stacks[..i];
      stackSystem := stackSystem[stack.uuid := stack.system];
      ok, byID, byPath, count := CollectStack(stacks, i, byID, byPath, count);
      if !ok { return; }
    }
    assert stacks[..|stacks|] == stacks;
    ok := true;
  }

  lemma NothingCollectedYet()
    ensures CollectedServices([], map[], map[], 0)
  {
  }

  // ---- canonicalizeServiceVariants ----

  /** The containers map after the views seen so far. */
  ghost predicate Absorbed(containers: map<string, View>, views: seq<View>) {
    && containers.Keys == ContainerIDs(views)
    && forall id :: id in containers ==> ViewsOf(views, id) != [] && Fold(ViewsOf(views, id)) == Some(containers[id])
  }

  lemma ContainerIDsNext(views: seq<View>, v: View)
    ensures ContainerIDs(views + [v]) == ContainerIDs(views) + if v.uuid == "" then {} else {v.uuid}
  {
  }

  lemma ViewsOfNext(views: seq<View>, v: View, id: string)
    ensures ViewsOf(views + [v], id) == if v.uuid == id then ViewsOf(views, id) + [v] else ViewsOf(views, id)
  {
    assert (views + [v])[..|views|] == views;
  }

  lemma FoldNext(views: seq<View>, v: View)
    requires views != []
    ensures Fold(views + [v]) ==
      if Fold(views).Some? && Agree(Fold(views).value, v) then Some(Merged(Fold(views).value, v)) else None
  {
    hide Agree, Merged;
    assert (views + [v])[..|views|] == views;
  }

  lemma AbsorbedSkip(containers: map<string, View>, views: seq<View>, v: View)
    requires Absorbed(containers, views) && v.uuid == ""
    ensures Absorbed(containers, views + [v])
  {
    hide Fold, ViewsOf;
    ContainerIDsNext(views, v);
    forall id | id in containers ensures ViewsOf(views + [v], id) == ViewsOf(views, id) { ViewsOfNext(views, v, id); }
    assert forall id :: id in ContainerIDs(views) ==> id != "";
  }

  lemma FirstView(views: seq<View>, v: View)
    requires v.uuid != "" && v.uuid !in ContainerIDs(views)
    ensures ViewsOf(views + [v], v.uuid) == [v] && Fold([v]) == Some(v)
  {
    hide Agree, Merged;
    ViewsOfKnown(views, v.uuid);
    assert forall w :: w in views && w.uuid != "" ==> w.uuid in ContainerIDs(views);
    ViewsOfNext(views, v, v.uuid);
  }

  lemma AbsorbedNew(containers: map<string, View>, views: seq<View>, v: View)
    requires Absorbed(containers, views) && v.uuid != "" && v.uuid !in containers
    ensures Absorbed(containers[v.uuid := v], views + [v])
  {
    hide Fold, ViewsOf, ContainerIDs;
    FirstView(views, v);
    ContainerIDsNext(views, v);
    forall id | id in containers ensures ViewsOf(views + [v], id) == ViewsOf(views, id) { ViewsOfNext(views, v, id); }
  }

  lemma NextView(containers: map<string, View>, views: seq<View>, v: View)
    requires Absorbed(containers, views) && v.uuid in containers && Agree(containers[v.uuid], v)
    ensures ViewsOf(views + [v], v.uuid) != []
    ensures Fold(ViewsOf(views + [v], v.uuid)) == Some(Merged(containers[v.uuid], v))
  {
    hide Fold, ViewsOf, Agree, Merged;
    ViewsOfNext(views, v, v.uuid);
    FoldNext(ViewsOf(views, v.uuid), v);
  }

  lemma AbsorbedMore(containers: map<string, View>, views: seq<View>, v: View)
    requires Absorbed(containers, views) && v.uuid in containers && Agree(containers[v.uuid], v)
    ensures Absorbed(containers[v.uuid := Merged(containers[v.uuid], v)], views + [v])
  {
    hide Fold, ViewsOf, Agree, Merged, ContainerIDs;
    ContainerIDsNext(views, v);
    NextView(containers, views, v);
    forall id | id in containers && id != v.uuid
      ensures ViewsOf(views + [v], id) == ViewsOf(views, id)
    {
      ViewsOfNext(views, v, id);
    }
    assert ContainerIDs(views + [v]) == ContainerIDs(views);
  }

  lemma {:induction false} FoldPrefix(views: seq<View>, more: seq<View>)
    requires views != [] && Fold(views).None?
    ensures Fold(views + more).None?
  {
    hide Agree, Merged, Fold;
    if more == [] {
      assert views + more == views;
    } else {
      var front, last := more[..|more| - 1], more[|more| - 1];
      FoldPrefix(views, front);
      assert views + more == (views + front) + [last];
      FoldNext(views + front, last);
    }
  }

  lemma {:induction false} ViewsOfConcat(a: seq<View>, b: seq<View>, id: string)
    ensures ViewsOf(a + b, id) == ViewsOf(a, id) + ViewsOf(b, id)
  {
    if b == [] {
      assert a + b == a;
    } else {
      ViewsOfConcat(a, b[..|b| - 1], id);
      assert (a + b)[..|a + b| - 1] == a + b[..|b| - 1];
    }
  }

  /** A contradiction between the first views of a container cannot be repaired later. */
  lemma Contradicted(containers: map<string, View>, views: seq<View>, v: View, more: seq<View>)
    requires Absorbed(containers, views) && v.uuid in containers && !Agree(containers[v.uuid], v)
    ensures !ViewsMerge(views + [v] + more)
  {
    hide Fold, Agree, Merged;
    var id := v.uuid;
    assert id in ContainerIDs(views);
    ViewsOfNext(views, v, id);
    FoldNext(ViewsOf(views, id), v);
    ViewsOfConcat(views + [v], more, id);
    FoldPrefix(ViewsOf(views + [v], id), ViewsOf(more, id));
    assert id in ContainerIDs(views + [v] + more) by {
      var w :| w in views && w.uuid == id;
      assert w in views + [v] + more;
    }
    hide ViewsOf, ContainerIDs;
  }

  /** The inner loop of canonicalizeServiceVariants. */
  method AbsorbContainers(containers: map<string, View>, ghost views: seq<View>, more: seq<View>)
    returns (ok: bool, r: map<string, View>)
    requires Absorbed(containers, views)
    ensures ok ==> Absorbed(r, views + more)
    ensures !ok ==> forall rest: seq<View> :: !ViewsMerge(views + more + rest)
  {
    hide Fold, Agree, Merged, Absorbed, ViewsMerge;
    r := containers;
    assert views + more[..0] == views;
    for i := 0 to |more|
      invariant Absorbed(r, views + more[..i])
    {
      var container := more[i];
      ghost var seen := views + more[..i];
      assert views + more[..i + 1] == seen + [container];
      if container.uuid == "" {
        AbsorbedSkip(r, seen, container);
        continue;
      }
      if container.uuid in r {
        var merged := MergeContainerViews(r[container.uuid], container);
        if merged.None? {
          forall rest: seq<View> ensures !ViewsMerge(views + more + rest) {
            Contradicted(r, seen, container, more[i + 1..] + rest);
            assert seen + [container] + (more[i + 1..] + rest) == views + more + rest;
          }
          return false, r;
        }
        AbsorbedMore(r, seen, container);
        r := r[container.uuid := merged.value];
      } else {
        AbsorbedNew(r, seen, container);
        r := r[container.uuid := container];
      }
    }
    assert views + more[..|more|] == views + more;
    ok := true;
  }

  lemma AbsorbedIsMerged(containers: map<string, View>, views: seq<View>)
    requires Absorbed(containers, views)
    ensures ViewsMerge(views) && containers == MergedViews(views)
  {
    hide Fold, ViewsOf;
  }

  lemma {:induction false} AllViewsSplit(variants: seq<Service>, i: nat)
    requires i <= |variants|
    ensures exists rest :: AllViews(variants) == AllViews(variants[..i]) + rest
  {
    if i == |variants| {
      assert variants[..i] == variants;
      assert AllViews(variants) == AllViews(variants[..i]) + [];
    } else {
      AllViewsSplit(variants[..|variants| - 1], i);
      assert variants[..|variants| - 1][..i] == variants[..i];
      var rest :| AllViews(variants[..|variants| - 1]) == AllViews(variants[..i]) + rest;
      assert AllViews(variants) == AllViews(variants[..i]) + (rest + variants[|variants| - 1].containers);
    }
  }

  lemma AllViewsNext(sorted: seq<Service>, i: nat)
    requires i < |sorted|
    ensures AllViews(sorted[..i + 1]) == AllViews(sorted[..i]) + sorted[i].containers
  {
    assert sorted[..i + 1][..i] == sorted[..i];
  }

  lemma CannotMerge(sorted: seq<Service>, i: nat)
    requires i < |sorted|
    requires forall rest: seq<View> :: !ViewsMerge(AllViews(sorted[..i]) + sorted[i].containers + rest)
    ensures !ViewsMerge(AllViews(sorted))
  {
    AllViewsNext(sorted, i);
    AllViewsSplit(sorted, i + 1);
    hide ViewsMerge, AllViews;
    var rest :| AllViews(sorted) == AllViews(sorted[..i + 1]) + rest;
    assert !ViewsMerge(AllViews(sorted[..i]) + sorted[i].containers + rest);
  }

  /** The first variants are all of the service the first one is of. */
  ghost predicate SameService(sorted: seq<Service>, n: nat)
    requires n <= |sorted|
  {
    forall k :: 0 <= k < n ==> sorted[k].uuid == sorted[0].uuid && sorted[k].stackUUID == sorted[0].stackUUID
  }

  lemma SystemOf(sorted: seq<Service>, i: nat)
    requires i < |sorted|
    ensures AnySystem(sorted[..i + 1]) <==> AnySystem(sorted[..i]) || sorted[i].system
    ensures SameService(sorted, i + 1) <==>
      SameService(sorted, i) && sorted[i].uuid == sorted[0].uuid && sorted[i].stackUUID == sorted[0].stackUUID
  {
    assert sorted[..i + 1] == sorted[..i] + [sorted[i]];
  }

  lemma SameServicePrefix(sorted: seq<Service>, i: nat)
    requires i <= |sorted|
    ensures SameService(sorted, |sorted|) ==> SameService(sorted, i)
  {
  }

  /** The loop of canonicalizeServiceVariants over the sorted variants. */
  method MergeVariants(sorted: seq<Service>) returns (ok: bool, system: bool, containers: map<string, View>)
    requires sorted != []
    ensures ok <==> SameService(sorted, |sorted|) && ViewsMerge(AllViews(sorted))
    ensures ok ==> system == AnySystem(sorted) && containers == MergedViews(AllViews(sorted))
  {
    system, containers := false, map[];
    assert sorted[..0] == [] && Absorbed(containers, AllViews(sorted[..0])) by { NothingAbsorbed(); }
    assert !AnySystem(sorted[..0]) && SameService(sorted, 0);
    hide ViewsMerge, Absorbed, MergedViews, AllViews, AnySystem, SameService;
    for i := 0 to |sorted|
      invariant SameService(sorted, i) && system == AnySystem(sorted[..i])
      invariant Absorbed(containers, AllViews(sorted[..i]))
    {
      var variant := sorted[i];
      SystemOf(sorted, i);
      if variant.uuid != sorted[0].uuid || variant.stackUUID != sorted[0].stackUUID {
        SameServicePrefix(sorted, i + 1);
        return false, system, containers;
      }
      system := system || variant.system;
      AllViewsNext(sorted, i);
      ok, containers := AbsorbContainers(containers, AllViews(sorted[..i]), variant.containers);
      if !ok {
        CannotMerge(sorted, i);
        return;
      }
    }
    assert sorted[..|sorted|] == sorted;
    AbsorbedIsMerged(containers, AllViews(sorted));
    ok := true;
  }

  lemma SortedVariants(variants: seq<Service>)
    requires variants != []
    ensures var sorted := Sort(VariantLess, variants);
      sorted != [] &&
      (SameService(sorted, |sorted|) <==>
       (forall s, t :: s in variants && t in variants ==> s.uuid == t.uuid && s.stackUUID == t.stackUUID))
  {
    var sorted := Sort(VariantLess, variants);
    MultisetElems(sorted, variants);
    hide Sort, VariantLess;
    forall s ensures s in variants <==> s in sorted { assert s in Elems(sorted) <==> s in Elems(variants); }
    assert sorted[0] in sorted;
    assert forall k :: 0 <= k < |sorted| ==> sorted[k] in sorted;
  }

  /** canonicalizeServiceVariants */
  method CanonicalizeServiceVariants(variants: seq<Service>) returns (r: Option<Service>)
    ensures r.Some? <==> VariantsMerge(variants)
    ensures r.Some? ==> r.value == CanonicalService(variants)
  {
    hide VariantLess, ViewsMerge, Sort, ContainerList, MergedViews, AllViews, AnySystem;
    if |variants| == 0 { return None; }
    var sorted := Sort(VariantLess, variants);
    SortedVariants(variants);
    var ok, system, containers := MergeVariants(sorted);
    if !ok { return None; }
    var ids := SortedKeys(containers.Keys);
    ListedContainers(containers);
    return Some(sorted[0].(system := system, containers := ListValues(containers, ids)));
  }

  lemma NothingAbsorbed()
    ensures Absorbed(map[], AllViews([]))
  {
  }

  lemma ListedContainers(containers: map<string, View>)
    ensures forall i :: 0 <= i < |StrList(containers.Keys)| ==> StrList(containers.Keys)[i] in containers
    ensures ContainerList(containers) == ListValues(containers, StrList(containers.Keys))
  {
    var ids := StrList(containers.Keys);
    assert forall k :: 0 <= k < |ids| ==> ids[k] in Elems(ids);
  }

  // ---- canonical services and primaries ----

  /** The loop that canonicalises every service, over a Go map. */
  method CanonicalServices(
    stacks: seq<Stack>, byID: map<string, seq<Service>>)
    returns (r: Option<map<string, Service>>)
    requires VariantsAccepted(stacks) && byID == ByID(AllVariants(stacks))
    ensures r.Some? <==> ServicesAccepted(stacks)
    ensures r.Some? ==> r.value == ServiceIndex(stacks)
  {
    hide VariantsMerge, CanonicalService, VariantsAccepted, ByID, VariantsOf, AllVariants, ServiceIDs;
    ByIDIs(AllVariants(stacks));
    var services: map<string, Service> := map[];
    var todo := byID.Keys;
    while todo != {}
      invariant todo <= byID.Keys && services.Keys == byID.Keys - todo
      invariant forall id :: id in services ==> VariantsMerge(byID[id]) && services[id] == CanonicalService(byID[id])
    {
      var id :| id in todo;
      var service := CanonicalizeServiceVariants(byID[id]);
      if service.None? { return None; }
      services := services[id := service.value];
      todo := todo - {id};
    }
    return Some(services);
  }

  /** The loop that finds the primary of every service, over a Go map. */
  method FindPrimaries(services: map<string, Service>, byPath: map<string, string>) returns (r: map<string, string>)
    ensures r == Primaries(services, byPath)
  {
    hide PrimaryOf;
    r := map[];
    var todo := services.Keys;
    while todo != {}
      invariant todo <= services.Keys && r.Keys == services.Keys - todo
      invariant forall id :: id in r ==> r[id] == PrimaryOf(id, services[id], byPath)
    {
      var id :| id in todo;
      var service := services[id];
      var primary := PrimaryOf(id, service, byPath);
      r := r[id := primary];
      todo := todo - {id};
    }
  }

  // ---- links ----

  /** Link lists without repetitions. */
  ghost predicate AreLists(links: Links) {
    forall from :: from in links ==> links[from] != [] && Distinct(links[from])
  }

  /** The lists of appendUnique. */
  method AddLink(links: Links, from: string, to: string) returns (r: Links)
    requires AreLists(links)
    ensures AreLists(r)
    ensures forall a, b :: HasLink(r, a, b) <==> HasLink(links, a, b) || (a == from && b == to)
  {
    var list := AppendUnique(if from in links then links[from] else [], to);
    r := links[from := list];
    assert to in list;
    LinkAdded(links, from, to, list);
  }

  lemma LinkAdded(links: Links, from: string, to: string, list: seq<string>)
    requires forall x :: x in list <==> HasLink(links, from, x) || x == to
    ensures forall a, b :: HasLink(links[from := list], a, b) <==> HasLink(links, a, b) || (a == from && b == to)
  {
  }

  /** sortStringMapValues */
  method SortLinks(links: Links) returns (r: Links)
    requires AreLists(links)
    ensures AreSortedLinks(r)
    ensures forall a, b :: HasLink(r, a, b) <==> HasLink(links, a, b)
  {
    hide StrLess, Sort;
    r := links;
    var todo := links.Keys;
    while todo != {}
      invariant todo <= links.Keys && r.Keys == links.Keys
      invariant forall k :: k in todo ==> r[k] == links[k]
      invariant forall k :: k in links && k !in todo ==> r[k] == StrList(Elems(links[k]))
    {
      var key :| key in todo;
      SortStrings(links[key]);
      r := r[key := Sort(StrLess, r[key])];
      todo := todo - {key};
    }
    forall a, b ensures HasLink(r, a, b) <==> HasLink(links, a, b) {
      if a in links {
        assert b in r[a] <==> b in Elems(r[a]);
        assert b in links[a] <==> b in Elems(links[a]);
      }
    }
    forall a | a in r ensures r[a] != [] {
      assert links[a][0] in Elems(links[a]);
    }
  }

  /** The links declared by the variants `done`, and by `v` under the keys `keys`. */
  ghost predicate Declared(
    links: Links, done: seq<Service>, v: Option<Service>, keys: set<string>, byPath: map<string, string>,
    primaries: map<string, string>)
  {
    forall from, to :: HasLink(links, from, to) <==>
      LinkDeclared(done, byPath, primaries, from, to) ||
      (v.Some? && exists key :: key in keys && Declares(v.value, key, byPath, primaries, from, to))
  }

  lemma LinkDeclaredNext(
    done: seq<Service>, v: Service, byPath: map<string, string>, primaries: map<string, string>, from: string,
    to: string)
    ensures LinkDeclared(done + [v], byPath, primaries, from, to) <==>
      LinkDeclared(done, byPath, primaries, from, to) ||
      exists key :: key in v.links.Keys && Declares(v, key, byPath, primaries, from, to)
  {
    assert forall key, a, b :: Declares(v, key, byPath, primaries, a, b) ==> key in v.links.Keys;
    hide Declares;
    if u, key :| u in done && Declares(u, key, byPath, primaries, from, to) { assert u in done + [v]; }
    if key :| key in v.links.Keys && Declares(v, key, byPath, primaries, from, to) { assert v in done + [v]; }
  }

  /** One link of one variant. */
  method AddServiceLink(
    links: Links, v: Service, key: string, byPath: map<string, string>, primaries: map<string, string>)
    returns (r: Links)
    requires AreLists(links) && key in v.links && v.uuid in primaries
    requires forall p :: p in byPath ==> byPath[p] in primaries
    ensures AreLists(r)
    ensures forall from, to :: HasLink(r, from, to) <==>
      HasLink(links, from, to) || Declares(v, key, byPath, primaries, from, to)
  {
    hide AreLists, HasLink;
    var value := v.links[key];
    var target := ResolveServiceLink(v.stackName, key, byPath);
    if target.None? && value != "" {
      target := ResolveServiceLink(v.stackName, value, byPath);
    }
    r := links;
    if target.Some? {
      assert target == LinkTarget(v.stackName, key, value, byPath);
      r := AddLink(links, primaries[v.uuid], primaries[target.value]);
    }
  }

  /** The link loop, over the links of a variant in arbitrary order. */
  method AddVariantLinks(
    links: Links, ghost done: seq<Service>, v: Service, byPath: map<string, string>, primaries: map<string, string>)
    returns (r: Links)
    requires AreLists(links) && v.uuid in primaries && Declared(links, done, None, {}, byPath, primaries)
    requires forall p :: p in byPath ==> byPath[p] in primaries
    ensures AreLists(r) && Declared(r, done + [v], None, {}, byPath, primaries)
  {
    hide AreLists, HasLink, Declares, LinkDeclared;
    r := links;
    var todo := v.links.Keys;
    while todo != {}
      invariant todo <= v.links.Keys && AreLists(r)
      invariant Declared(r, done, Some(v), v.links.Keys - todo, byPath, primaries)
    {
      var key :| key in todo;
      r := AddServiceLink(r, v, key, byPath, primaries);
      todo := todo - {key};
    }
    assert v.links.Keys - todo == v.links.Keys;
    forall from, to { LinkDeclaredNext(done, v, byPath, primaries, from, to); }
  }

  /** Which variants have been visited does not depend on the order of the visits. */
  lemma SameVariantsSameLinks(
    a: seq<Service>, b: seq<Service>, byPath: map<string, string>, primaries: map<string, string>)
    requires forall v :: v in a <==> v in b
    ensures forall from, to :: LinkDeclared(a, byPath, primaries, from, to) <==>
      LinkDeclared(b, byPath, primaries, from, to)
  {
    hide Declares;
  }

  lemma {:induction false} VariantsOfAre(all: seq<Service>, id: string)
    ensures forall v :: v in VariantsOf(all, id) <==> v in all && v.uuid == id
  {
    if all != [] {
      VariantsOfAre(all[..|all| - 1], id);
      assert all == all[..|all| - 1] + [all[|all| - 1]];
    }
  }

  /** The loop over the variants of one service. */
  method AddServiceLinks(
    links: Links, ghost done: seq<Service>, variants: seq<Service>, byPath: map<string, string>,
    primaries: map<string, string>)
    returns (r: Links)
    requires AreLists(links) && Declared(links, done, None, {}, byPath, primaries)
    requires forall v :: v in variants ==> v.uuid in primaries
    requires forall p :: p in byPath ==> byPath[p] in primaries
    ensures AreLists(r) && Declared(r, done + variants, None, {}, byPath, primaries)
  {
    hide AreLists, Declared;
    r := links;
    assert done + variants[..0] == done;
    for i := 0 to |variants|
      invariant AreLists(r) && Declared(r, done + variants[..i], None, {}, byPath, primaries)
    {
      r := AddVariantLinks(r, done + variants[..i], variants[i], byPath, primaries);
      assert done + variants[..i] + [variants[i]] == done + variants[..i + 1];
    }
    assert variants[..|variants|] == variants;
  }

  lemma PathsAreKnown(all: seq<Service>)
    ensures forall p :: p in PathIndex(all) ==> PathIndex(all)[p] in ServiceIDs(all)
  {
    hide PathOf, IndexBy;
    IndexedIDs(PathOf, UUIDOf, all);
    assert ServiceIDs(all) == set s | s in all :: UUIDOf(s);
  }

  lemma VariantsAreKnown(all: seq<Service>, id: string)
    ensures forall v :: v in VariantsOf(all, id) ==> v.uuid in ServiceIDs(all)
  {
    VariantsOfAre(all, id);
    hide VariantsOf;
  }

  lemma DeclaredByAll(
    links: Links, done: seq<Service>, all: seq<Service>, byPath: map<string, string>, primaries: map<string, string>)
    requires Declared(links, done, None, {}, byPath, primaries)
    requires forall v :: v in done <==> v in all
    ensures forall from, to :: HasLink(links, from, to) <==> LinkDeclared(all, byPath, primaries, from, to)
  {
    hide LinkDeclared;
    SameVariantsSameLinks(done, all, byPath, primaries);
  }

  lemma NothingVisited(all: seq<Service>)
    ensures forall v :: v in all ==> v.uuid in ServiceIDs(all)
  {
  }

  /** Visiting one service more. */
  lemma VisitedMore(all: seq<Service>, done: seq<Service>, todo: set<string>, id: string)
    requires forall v :: v in done <==> v in all && v.uuid !in todo
    requires id in todo
    ensures forall v :: v in done + VariantsOf(all, id) <==> v in all && v.uuid !in todo - {id}
  {
    VariantsOfAre(all, id);
    hide VariantsOf;
  }

  lemma IndexedIDs<T(!new)>(path: T -> string, id: T -> string, all: seq<T>)
    ensures forall p :: p in IndexBy(path, id, all) ==> IndexBy(path, id, all)[p] in set s | s in all :: id(s)
  {
    IndexByIs(path, id, all);
  }

  /** serviceLinks: the variants are visited service by service, in arbitrary order. */
  method ServiceLinks(
    stacks: seq<Stack>, byID: map<string, seq<Service>>, byPath: map<string, string>, primaries: map<string, string>)
    returns (r: Links)
    requires byID == ByID(AllVariants(stacks)) && byPath == PathIndex(AllVariants(stacks))
    requires primaries.Keys == ServiceIDs(AllVariants(stacks))
    ensures AreServiceLinksOf(r, stacks, primaries)
  {
    hide ServiceIDs, AllVariants, AreLists, HasLink, LinkDeclared, ByID, PathIndex, VariantsOf, AreSortedLinks,
      Declared, Ascending;
    ghost var all := AllVariants(stacks);
    ByIDIs(all);
    PathsAreKnown(all);
    NothingVisited(all);
    var links: Links := map[];
    ghost var done: seq<Service> := [];
    NothingDeclared(byPath, primaries);
    var todo := byID.Keys;
    while todo != {}
      invariant todo <= byID.Keys && AreLists(links)
      invariant Declared(links, done, None, {}, byPath, primaries)
      invariant forall v :: v in done <==> v in all && v.uuid !in todo
    {
      var id :| id in todo;
      var variants := byID[id];
      VariantsAreKnown(all, id);
      links := AddServiceLinks(links, done, variants, byPath, primaries);
      VisitedMore(all, done, todo, id);
      done := done + variants;
      todo := todo - {id};
    }
    DeclaredByAll(links, done, all, byPath, primaries);
    r := SortLinks(links);
  }

  lemma NothingDeclared(byPath: map<string, string>, primaries: map<string, string>)
    ensures AreLists(map[]) && Declared(map[], [], None, {}, byPath, primaries)
  {
  }

  // ---- workloads ----

  /** The two label loops of the workload loop. */
  method CombineLabels(service: LabelMap, container: LabelMap) returns (labels: LabelMap)
    ensures IsCombined(service, container, labels)
  {
    hide IsLowered;
    var inherited := LowerLabels(service);
    var own := LowerLabels(container);
    labels := inherited;
    var todo := own.Keys;
    while todo != {}
      invariant todo <= own.Keys
      invariant labels == inherited + (map k | k in own && k !in todo :: own[k])
    {
      var key :| key in todo;
      labels := labels[key := own[key]];
      todo := todo - {key};
    }
    assert (map k | k in own && k !in todo :: own[k]) == own;
  }

  /** sameWorkloadIdentity compares a label missing on the right as if it were empty. */
  predicate SameIdentity(l: Workload, r: Workload) {
    && l.(labels := map[]) == r.(labels := map[])
    && |l.labels| == |r.labels|
    && forall k :: k in l.labels ==> (if k in r.labels then r.labels[k] else "") == l.labels[k]
  }

  /** sameWorkloadIdentity */
  method SameWorkloadIdentity(left: Workload, right: Workload) returns (same: bool)
    ensures same <==> SameIdentity(left, right)
  {
    if left.id != right.id || left.ip != right.ip || left.hostID != right.hostID || left.stackID != right.stackID ||
       left.serviceID != right.serviceID || left.primaryServiceID != right.primaryServiceID ||
       left.system != right.system || |left.labels| != |right.labels| {
      return false;
    }
    var todo := left.labels.Keys;
    while todo != {}
      invariant todo <= left.labels.Keys
      invariant forall k :: k in left.labels && k !in todo ==>
        (if k in right.labels then right.labels[k] else "") == left.labels[k]
    {
      var key :| key in todo;
      if (if key in right.labels then right.labels[key] else "") != left.labels[key] { return false; }
      todo := todo - {key};
    }
    return true;
  }

  /** So it means equality exactly when every empty label on the left is present on the right. */
  lemma SameIdentityIsEquality(l: Workload, r: Workload)
    ensures SameIdentity(l, r) && (forall k :: k in l.labels && l.labels[k] == "" ==> k in r.labels) <==> l == r
  {
    if SameIdentity(l, r) && (forall k :: k in l.labels && l.labels[k] == "" ==> k in r.labels) {
      assert l.labels.Keys <= r.labels.Keys;
      SubsetOfSameSize(l.labels.Keys, r.labels.Keys);
      assert l.labels == r.labels;
    }
  }

  lemma SubsetOfSameSize<T>(a: set<T>, b: set<T>)
    requires a <= b && |a| == |b|
    ensures a == b
  {
    assert b == a + (b - a);
    assert |b - a| == 0;
  }

  /** Services are indexed by their ids and list no container twice. */
  ghost predicate WellFormed(x: Context) {
    && IsPrefix4(x.subnet) && x.primaries.Keys == x.services.Keys
    && (forall id :: id in x.services ==> x.services[id].uuid == id)
    && (forall id, i, j :: id in x.services && 0 <= i < j < |x.services[id].containers| ==>
          x.services[id].containers[i].uuid != x.services[id].containers[j].uuid)
  }

  /** `w` comes from one of the participants. */
  ghost predicate FromOne(w: Workload, x: Context, done: set<(string, View)>) {
    exists p :: p in done && p.1.uuid == w.id && IsWorkloadFor(w, x, p.0, p.1)
  }

  ghost predicate BuiltWorkloads(x: Context, done: set<(string, View)>, byID: map<string, Workload>) {
    && (forall p :: p in done ==> Takes(x, p.0, p.1) && p.1.uuid in byID)
    && (forall p, q :: p in done && q in done && p.1.uuid == q.1.uuid ==> p == q)
    && (forall id :: id in byID ==> byID[id].id == id && FromOne(byID[id], x, done))
    && |byID| <= MAX_WORKLOADS
  }

  ghost predicate Lists(done: set<(string, View)>, from: string, to: string) {
    to != "" && exists p :: p in done && p.1.uuid == from && to in p.1.links
  }

  ghost predicate BuiltLinks(done: set<(string, View)>, links: Links) {
    AreLists(links) && forall from, to :: HasLink(links, from, to) <==> Lists(done, from, to)
  }

  /** The state of the workload loop after the participants `done`. */
  ghost predicate Built(x: Context, done: set<(string, View)>, byID: map<string, Workload>, links: Links) {
    BuiltWorkloads(x, done, byID) && BuiltLinks(done, links)
  }

  /** The link loop of one container. */
  method AddContainerLinks(links: Links, c: View) returns (r: Links)
    requires AreLists(links)
    ensures AreLists(r)
    ensures forall from, to :: HasLink(r, from, to) <==>
      HasLink(links, from, to) || (from == c.uuid && to != "" && to in c.links)
  {
    hide AreLists, HasLink;
    r := links;
    for i := 0 to |c.links|
      invariant AreLists(r)
      invariant forall from, to :: HasLink(r, from, to) <==>
        HasLink(links, from, to) || (from == c.uuid && to != "" && to in c.links[..i])
    {
      assert c.links[..i + 1] == c.links[..i] + [c.links[i]];
      if c.links[i] != "" { r := AddLink(r, c.uuid, c.links[i]); }
    }
    assert c.links[..|c.links|] == c.links;
  }

  lemma BuiltWorkloadsNext(
    x: Context, done: set<(string, View)>, byID: map<string, Workload>, id: string, c: View, w: Workload)
    requires BuiltWorkloads(x, done, byID) && c.uuid !in byID && |byID| < MAX_WORKLOADS
    requires Takes(x, id, c) && IsWorkloadFor(w, x, id, c) && w.id == c.uuid
    ensures BuiltWorkloads(x, done + {(id, c)}, byID[c.uuid := w])
  {
    hide Takes, IsWorkloadFor, FromOne;
    var after, byID2 := done + {(id, c)}, byID[c.uuid := w];
    FromNew(w, x, done, id, c);
    assert |byID2| == |byID| + 1;
    forall k | k in byID.Keys ensures FromOne(byID[k], x, after) { FromMore(byID[k], x, done, after); }
  }

  lemma FromNew(w: Workload, x: Context, done: set<(string, View)>, id: string, c: View)
    requires IsWorkloadFor(w, x, id, c) && w.id == c.uuid
    ensures FromOne(w, x, done + {(id, c)})
  {
    hide IsWorkloadFor;
    assert (id, c) in done + {(id, c)} && (id, c).0 == id && (id, c).1 == c;
  }

  lemma FromMore(w: Workload, x: Context, done: set<(string, View)>, after: set<(string, View)>)
    requires FromOne(w, x, done) && done <= after
    ensures FromOne(w, x, after)
  {
    hide IsWorkloadFor;
  }

  lemma BuiltLinksNext(done: set<(string, View)>, links: Links, id: string, c: View, links2: Links)
    requires BuiltLinks(done, links) && AreLists(links2)
    requires forall from, to :: HasLink(links2, from, to) <==>
      HasLink(links, from, to) || (from == c.uuid && to != "" && to in c.links)
    ensures BuiltLinks(done + {(id, c)}, links2)
  {
    hide AreLists, HasLink;
    var after := done + {(id, c)};
    assert (id, c) in after && (id, c).1 == c;
    forall from, to
      ensures Lists(after, from, to) <==> Lists(done, from, to) || (from == c.uuid && to != "" && to in c.links)
    {
      if Lists(done, from, to) {
        var p :| p in done && p.1.uuid == from && to in p.1.links;
        assert p in after;
      }
    }
    hide Lists;
  }

  lemma TooMany(x: Context, done: set<(string, View)>, byID: map<string, Workload>, links: Links, id: string, c: View)
    requires Built(x, done, byID, links) && Takes(x, id, c) && c.uuid !in byID && |byID| >= MAX_WORKLOADS
    ensures !WorkloadsFit(x)
  {
    hide BuiltLinks, IsWorkloadFor, Eligible;
    forall k | k in byID.Keys + {c.uuid} ensures k in TakenIDs(x) {
      if k in byID {
        var p :| p in done && p.1.uuid == k;
        assert Takes(x, p.0, p.1);
      }
    }
    SubsetSize(byID.Keys + {c.uuid}, TakenIDs(x));
    assert |byID.Keys + {c.uuid}| == |byID.Keys| + 1;
  }

  /** The workload the loop constructs. */
  method MakeWorkload(x: Context, id: string, c: View) returns (w: Workload)
    requires Takes(x, id, c) && id in x.primaries
    ensures IsWorkloadFor(w, x, id, c)
  {
    hide IsCombined, Contains;
    var service := x.services[id];
    var labels := CombineLabels(service.labels, c.labels);
    w := Workload(c.uuid, ParseIPv4(c.primaryIP).value, c.hostUUID, StackOf(service, c), service.uuid, x.primaries[id],
                  IsSystem(service, c, x.stackSystem), labels);
  }

  /** One turn of the workload loop. */
  method BuildWorkload(
    x: Context, id: string, c: View, ghost done: set<(string, View)>, byID: map<string, Workload>, links: Links)
    returns (ok: bool, byID2: map<string, Workload>, links2: Links)
    requires WellFormed(x) && Built(x, done, byID, links) && Takes(x, id, c)
    requires forall p :: p in done && p.0 == id ==> p.1.uuid != c.uuid
    ensures ok ==> Built(x, done + {(id, c)}, byID2, links2)
    ensures !ok ==> !WorkloadsFit(x)
  {
    byID2, links2 := byID, links;
    var w := MakeWorkload(x, id, c);
    assert w.id == c.uuid && w.serviceID == id by { WorkloadKeys(x, id, c, w); }
    hide WorkloadsFit, IsWorkloadFor, Takes, BuiltWorkloads, BuiltLinks, WellFormed;
    if w.id in byID {
      OtherService(x, done, byID, links, id, c);
      var same := SameWorkloadIdentity(byID[w.id], w);
      if !same { return false, byID, links; }
      assert false;
    } else {
      if |byID| >= MAX_WORKLOADS {
        TooMany(x, done, byID, links, id, c);
        return false, byID, links;
      }
      byID2 := byID[w.id := w];
    }
    links2 := AddContainerLinks(links, c);
    BuiltWorkloadsNext(x, done, byID, id, c, w);
    BuiltLinksNext(done, links, id, c, links2);
    ok := true;
  }

  lemma WorkloadKeys(x: Context, id: string, c: View, w: Workload)
    requires WellFormed(x) && IsWorkloadFor(w, x, id, c)
    ensures w.id == c.uuid && w.serviceID == id
  {
    hide IsCombined, Contains;
  }

  /** A container met a second time takes part under another service, and so the two
      workloads differ in their service. */
  lemma OtherService(
    x: Context, done: set<(string, View)>, byID: map<string, Workload>, links: Links, id: string, c: View)
    requires WellFormed(x) && Built(x, done, byID, links) && Takes(x, id, c) && c.uuid in byID
    requires forall p :: p in done && p.0 == id ==> p.1.uuid != c.uuid
    ensures !WorkloadsFit(x) && byID[c.uuid].serviceID != id
  {
    hide BuiltLinks, IsWorkloadFor, Takes, WellFormed;
    var p :| p in done && p.1.uuid == c.uuid && IsWorkloadFor(byID[c.uuid], x, p.0, p.1);
    assert Takes(x, p.0, p.1) && p.0 != id;
    WorkloadKeys(x, p.0, p.1, byID[c.uuid]);
  }

  /** The participants of the services `ids` and of the first `j` containers of `current`. */
  ghost predicate AreParticipants(
    done: set<(string, View)>, x: Context, ids: set<string>, current: string, seen: seq<View>)
  {
    forall id, c :: (id, c) in done <==> Takes(x, id, c) && (id in ids || (id == current && c in seen))
  }

  lemma ParticipantSkipped(
    done: set<(string, View)>, x: Context, ids: set<string>, id: string, seen: seq<View>, c: View)
    requires AreParticipants(done, x, ids, id, seen) && !Takes(x, id, c) && id !in ids
    ensures AreParticipants(done, x, ids, id, seen + [c])
  {
    hide Takes;
  }

  lemma ParticipantAdded(done: set<(string, View)>, x: Context, ids: set<string>, id: string, seen: seq<View>, c: View)
    requires AreParticipants(done, x, ids, id, seen) && Takes(x, id, c) && id !in ids
    ensures AreParticipants(done + {(id, c)}, x, ids, id, seen + [c])
  {
    hide Takes;
  }

  lemma ParticipantIsNew(done: set<(string, View)>, x: Context, ids: set<string>, id: string, i: nat)
    requires WellFormed(x) && id in x.services && id !in ids && i < |x.services[id].containers|
    requires AreParticipants(done, x, ids, id, x.services[id].containers[..i])
    ensures forall p :: p in done && p.0 == id ==> p.1.uuid != x.services[id].containers[i].uuid
  {
    hide Takes;
    var containers := x.services[id].containers;
    forall p | p in done && p.0 == id ensures p.1.uuid != containers[i].uuid {
      assert (p.0, p.1) in done && p.1 in containers[..i];
      var k :| 0 <= k < i && containers[k] == p.1;
    }
  }

  lemma SubnetIsPrefix(x: Context)
    requires WellFormed(x)
    ensures IsPrefix4(x.subnet)
  {
  }

  lemma TakesIffEligible(x: Context, id: string, i: nat)
    requires WellFormed(x) && id in x.services && i < |x.services[id].containers|
    ensures IsPrefix4(x.subnet)
    ensures Takes(x, id, x.services[id].containers[i]) <==> Eligible(x.services[id].containers[i], x.network, x.subnet)
  {
  }

  lemma ElemsTake<T>(s: seq<T>, i: nat)
    requires i < |s|
    ensures Elems(s[..i + 1]) == Elems(s[..i]) + {s[i]}
  {
    assert s[..i + 1] == s[..i] + [s[i]];
  }

  /** The inner workload loop. */
  method BuildServiceWorkloads(
    x: Context, id: string, ghost ids: set<string>, ghost done: set<(string, View)>, byID: map<string, Workload>,
    links: Links)
    returns (ok: bool, ghost done2: set<(string, View)>, byID2: map<string, Workload>, links2: Links)
    requires WellFormed(x) && Built(x, done, byID, links) && id in x.services && id !in ids
    requires AreParticipants(done, x, ids, id, [])
    ensures ok ==> Built(x, done2, byID2, links2) && AreParticipants(done2, x, ids, id, x.services[id].containers)
    ensures !ok ==> !WorkloadsFit(x)
  {
    hide WorkloadsFit, Built, Eligible, AreParticipants, Takes, WellFormed;
    done2, byID2, links2 := done, byID, links;
    var containers := x.services[id].containers;
    SubnetIsPrefix(x);
    for i := 0 to |containers|
      invariant Built(x, done2, byID2, links2)
      invariant AreParticipants(done2, x, ids, id, containers[..i])
    {
      var c := containers[i];
      assert containers[..i + 1] == containers[..i] + [c];
      TakesIffEligible(x, id, i);
      if !Eligible(c, x.network, x.subnet) {
        ParticipantSkipped(done2, x, ids, id, containers[..i], c);
        continue;
      }
      ParticipantIsNew(done2, x, ids, id, i);
      ok, byID2, links2 := BuildWorkload(x, id, c, done2, byID2, links2);
      if !ok { return; }
      ParticipantAdded(done2, x, ids, id, containers[..i], c);
      done2 := done2 + {(id, c)};
    }
    assert containers[..|containers|] == containers;
    ok := true;
  }

  /** The workload loop over the sorted services. */
  method BuildWorkloads(x: Context)
    returns (ok: bool, byID: map<string, Workload>, links: Links, ghost done: set<(string, View)>)
    requires WellFormed(x)
    ensures ok <==> WorkloadsFit(x)
    ensures ok ==> Built(x, done, byID, links) && forall id, c :: (id, c) in done <==> Takes(x, id, c)
  {
    hide Built, WellFormed, WorkloadsFit, Takes, AreParticipants, Ascending, StrLess, Elems;
    done, byID, links := {}, map[], map[];
    NothingBuilt(x);
    var ids := SortedKeys(x.services.Keys);
    AscendingIsDistinct(ids);
    NoElems(ids[..0]);
    for i := 0 to |ids|
      invariant Built(x, done, byID, links)
      invariant AreParticipants(done, x, Elems(ids[..i]), "", [])
    {
      ghost var done2;
      InElems(ids, i);
      ServiceIsNext(done, x, ids, i);
      ok, done2, byID, links := BuildServiceWorkloads(x, ids[i], Elems(ids[..i]), done, byID, links);
      if !ok { return; }
      ServiceIsDone(done2, x, ids, i);
      done := done2;
    }
    assert ids[..|ids|] == ids;
    AllParticipants(done, x);
    BuiltFits(x, done, byID, links);
    ok := true;
  }

  /** Before the containers of a service. */
  lemma ServiceIsNext(done: set<(string, View)>, x: Context, ids: seq<string>, i: nat)
    requires i < |ids| && (forall j, k :: 0 <= j < k < |ids| ==> ids[j] != ids[k])
    requires AreParticipants(done, x, Elems(ids[..i]), "", [])
    ensures ids[i] !in Elems(ids[..i]) && AreParticipants(done, x, Elems(ids[..i]), ids[i], [])
  {
    hide Takes, Elems, AreParticipants;
    NotBefore(ids, i);
    NoCurrent(done, x, Elems(ids[..i]), ids[i]);
  }

  /** And after them. */
  lemma ServiceIsDone(done: set<(string, View)>, x: Context, ids: seq<string>, i: nat)
    requires i < |ids| && ids[i] in x.services
    requires AreParticipants(done, x, Elems(ids[..i]), ids[i], x.services[ids[i]].containers)
    ensures AreParticipants(done, x, Elems(ids[..i + 1]), "", [])
  {
    hide Takes, Elems, AreParticipants;
    ElemsTake(ids, i);
    ParticipantsNext(done, x, Elems(ids[..i]), ids[i]);
  }

  lemma NoElems<T>(s: seq<T>)
    requires s == []
    ensures Elems(s) == {}
  {
  }

  lemma NotBefore(ids: seq<string>, i: nat)
    requires i < |ids| && forall j, k :: 0 <= j < k < |ids| ==> ids[j] != ids[k]
    ensures ids[i] !in Elems(ids[..i])
  {
  }

  lemma NoCurrent(done: set<(string, View)>, x: Context, ids: set<string>, id: string)
    requires AreParticipants(done, x, ids, "", [])
    ensures AreParticipants(done, x, ids, id, [])
  {
    hide Takes;
  }

  lemma AscendingIsDistinct(ids: seq<string>)
    requires Ascending(StrLess, ids)
    ensures forall i, j :: 0 <= i < j < |ids| ==> ids[i] != ids[j]
  {
    StringsAreOrdered();
    forall i, j | 0 <= i < j < |ids| ensures ids[i] != ids[j] { assert StrLess(ids[i], ids[j]); }
  }

  lemma NothingBuilt(x: Context)
    ensures Built(x, {}, map[], map[]) && AreParticipants({}, x, {}, "", [])
  {
  }

  lemma ParticipantsNext(done: set<(string, View)>, x: Context, ids: set<string>, id: string)
    requires id in x.services && AreParticipants(done, x, ids, id, x.services[id].containers)
    ensures AreParticipants(done, x, ids + {id}, "", [])
  {
    hide Eligible;
  }

  lemma AllParticipants(done: set<(string, View)>, x: Context)
    requires AreParticipants(done, x, x.services.Keys, "", [])
    ensures forall id, c :: (id, c) in done <==> Takes(x, id, c)
  {
    hide Eligible;
  }

  lemma BuiltFits(x: Context, done: set<(string, View)>, byID: map<string, Workload>, links: Links)
    requires Built(x, done, byID, links) && forall id, c :: (id, c) in done <==> Takes(x, id, c)
    ensures WorkloadsFit(x)
  {
    hide BuiltLinks, FromOne, Eligible;
    forall id, c, id2, c2 | Takes(x, id, c) && Takes(x, id2, c2) && c.uuid == c2.uuid ensures id == id2 {
      assert (id, c) in done && (id2, c2) in done;
    }
    forall k | k in TakenIDs(x) ensures k in byID {
      var id, c :| id in x.services && c in x.services[id].containers && Takes(x, id, c) && c.uuid == k;
      assert (id, c) in done;
    }
    SubsetSize(TakenIDs(x), byID.Keys);
  }

  predicate IPLess(a: Workload, b: Workload) {
    AddrLess(a.ip, b.ip)
  }

  /** No workload comes before one with a lower address. */
  ghost predicate AreInAddressOrder(ws: seq<Workload>) {
    forall i, j :: 0 <= i < j < |ws| && ws[i].ip.IPv4? && ws[j].ip.IPv4? ==> ws[i].ip.word <= ws[j].ip.word
  }

  lemma SortedByAddress(ws: seq<Workload>)
    requires Sorted(IPLess, ws)
    ensures AreInAddressOrder(ws)
  {
    forall i, j | 0 <= i < j < |ws| && ws[i].ip.IPv4? && ws[j].ip.IPv4? ensures ws[i].ip.word <= ws[j].ip.word {
      assert !IPLess(ws[j], ws[i]);
    }
  }

  lemma IPsAreOrdered()
    ensures StrictOrder(IPLess)
  {
    AddressesAreOrdered();
  }

  /** The workload map drained in arbitrary order and sorted by address: workloads that
      share an address come in any order. */
  method DrainWorkloads(byID: map<string, Workload>) returns (ws: seq<Workload>)
    requires forall id :: id in byID ==> byID[id].id == id
    ensures UniqueIDs(ws) && forall w :: w in ws <==> w.id in byID && byID[w.id] == w
    ensures Sorted(IPLess, ws) && AreInAddressOrder(ws)
  {
    hide Sort, IPLess, Elems, Distinct, UniqueIDs, Sorted, AreInAddressOrder;
    var ids := Drain(byID.Keys);
    var drained: seq<Workload> := [];
    for i := 0 to |ids|
      invariant |drained| == i && forall k :: 0 <= k < i ==> ids[k] in byID && drained[k] == byID[ids[k]]
    {
      InElems(ids, i);
      drained := drained + [byID[ids[i]]];
    }
    AllDrained(byID, ids, drained);
    ws := Sort(IPLess, drained);
    IPsAreOrdered();
    SortSorts(IPLess, drained);
    SortedByAddress(ws);
    Canonical.UniqueIDsPermuted(drained, ws);
    SameMembers(drained, ws);
  }

  lemma AllDrained(byID: map<string, Workload>, ids: seq<string>, drained: seq<Workload>)
    requires Elems(ids) == byID.Keys && Distinct(ids) && (forall id :: id in byID ==> byID[id].id == id)
    requires |drained| == |ids| && forall k :: 0 <= k < |ids| ==> ids[k] in byID && drained[k] == byID[ids[k]]
    ensures UniqueIDs(drained) && forall w :: w in drained <==> w.id in byID && byID[w.id] == w
  {
    forall w ensures w in drained <==> w.id in byID && byID[w.id] == w {
      if w.id in byID && byID[w.id] == w {
        assert w.id in Elems(ids);
        var k :| 0 <= k < |ids| && ids[k] == w.id;
        assert drained[k] == w;
      }
    }
  }

  lemma SameMembers<T>(a: seq<T>, b: seq<T>)
    requires multiset(a) == multiset(b)
    ensures forall x :: x in a <==> x in b
  {
    forall x ensures x in a <==> x in b { assert (x in a <==> x in multiset(a)) && (x in b <==> x in multiset(b)); }
  }

  lemma BuiltWorkloadList(x: Context, done: set<(string, View)>, byID: map<string, Workload>, ws: seq<Workload>)
    requires BuiltWorkloads(x, done, byID) && forall id, c :: (id, c) in done <==> Takes(x, id, c)
    requires UniqueIDs(ws) && forall w :: w in ws <==> w.id in byID && byID[w.id] == w
    ensures AreWorkloadsOf(ws, x)
  {
    hide Takes, IsWorkloadFor, UniqueIDs;
    forall w | w in ws ensures exists id, c :: IsWorkloadFor(w, x, id, c) {
      var p :| p in done && p.1.uuid == w.id && IsWorkloadFor(byID[w.id], x, p.0, p.1);
      assert IsWorkloadFor(w, x, p.0, p.1);
    }
    forall id, c | Takes(x, id, c) ensures exists w :: w in ws && w.id == c.uuid {
      assert (id, c) in done && (id, c).1 == c;
      assert byID[c.uuid] in ws;
    }
  }

  lemma BuiltLinkLists(x: Context, done: set<(string, View)>, links: Links, sorted: Links)
    requires BuiltLinks(done, links) && forall id, c :: (id, c) in done <==> Takes(x, id, c)
    requires AreSortedLinks(sorted) && forall a, b :: HasLink(sorted, a, b) <==> HasLink(links, a, b)
    ensures AreContainerLinksOf(sorted, x)
  {
    hide Takes, AreLists, AreSortedLinks, HasLink;
    forall from, to
      ensures Lists(done, from, to) <==> to != "" && exists id, c :: Takes(x, id, c) && c.uuid == from && to in c.links
    {
      if Lists(done, from, to) {
        var p :| p in done && p.1.uuid == from && to in p.1.links;
        assert (p.0, p.1) in done;
      }
      if to != "" {
        if id, c :| Takes(x, id, c) && c.uuid == from && to in c.links { assert (id, c) in done && (id, c).1 == c; }
      }
    }
    hide Lists;
  }

  // ---- buildSnapshot ----

  lemma {:induction false} FoldKeepsID(views: seq<View>, id: string)
    requires views != [] && Fold(views).Some? && forall v :: v in views ==> v.uuid == id
    ensures Fold(views).value.uuid == id
  {
    hide Agree;
    if |views| > 1 {
      assert forall v :: v in views[..|views| - 1] ==> v in views;
      FoldKeepsID(views[..|views| - 1], id);
      hide JoinedFields, JoinedLinks, Sort;
    }
  }

  lemma CanonicalContainers(variants: seq<Service>)
    requires VariantsMerge(variants)
    ensures var s := CanonicalService(variants);
      forall i, j :: 0 <= i < j < |s.containers| ==> s.containers[i].uuid != s.containers[j].uuid
    ensures exists v :: v in variants && v.uuid == CanonicalService(variants).uuid
  {
    var sorted := Sort(VariantLess, variants);
    MultisetElems(sorted, variants);
    assert sorted[0] in Elems(sorted) && sorted[0] in Elems(variants);
    var views := AllViews(sorted);
    hide Fold, Sort, VariantLess;
    var merged := MergedViews(views);
    ListedContainers(merged);
    var ids := StrList(merged.Keys);
    AscendingIsDistinct(ids);
    forall i | 0 <= i < |ids| ensures CanonicalService(variants).containers[i].uuid == ids[i] {
      ViewsOfKnown(views, ids[i]);
      FoldKeepsID(ViewsOf(views, ids[i]), ids[i]);
    }
  }

  lemma ContextIsWellFormed(n: NetworkReport, stacks: seq<Stack>)
    requires IsCandidate(n) && ServicesAccepted(stacks)
    ensures WellFormed(ContextOf(n, stacks))
  {
    var all := AllVariants(stacks);
    forall id | id in ServiceIDs(all)
      ensures var s := CanonicalService(VariantsOf(all, id));
        s.uuid == id && forall i, j :: 0 <= i < j < |s.containers| ==> s.containers[i].uuid != s.containers[j].uuid
    {
      CanonicalContainers(VariantsOf(all, id));
      VariantsOfAre(all, id);
      hide CanonicalService, VariantsMerge, VariantsOf;
    }
    hide CanonicalService, VariantsMerge, VariantsOf, VariantsAccepted, AllVariants, PathIndex, StackSystem, PrimaryOf;
  }

  /** buildSnapshot: accepts exactly the inputs it should, and returns one of the
      snapshots the input admits, its workloads in order of address. */
  method BuildSnapshot(input: Input) returns (r: Option<Snapshot>)
    ensures r.Some? <==> InputAccepted(input)
    ensures r.Some? ==> IsSnapshotOf(r.value, input) && AreInAddressOrder(r.value.workloads)
  {
    hide AreInAddressOrder, IsSelected, PolicyAccepted, Sorted, VariantsAccepted, WorkloadsFit, VariantsMerge, AreWorkloadsOf,
      AreServiceLinksOf, AreContainerLinksOf, WellFormed, BuiltWorkloads, BuiltLinks, ServiceIndex, IsNormalPolicy,
      IsNormalFormOf;
    var selected := SelectDefaultNetwork(input.networks);
    if selected.None? { return None; }
    var n := selected.value;
    OnlySelection(input.networks, n);
    if n.rules.None? { return None; }
    var policy := NormalizePolicy(PolicyInput(n));
    if policy.None? { return None; }
    var ok, byID, byPath, stackSystem := CollectVariants(input.stacks);
    if !ok { return None; }
    var services := CanonicalServices(input.stacks, byID);
    if services.None? { return None; }
    var primaries := FindPrimaries(services.value, byPath);
    assert services.value.Keys == ServiceIDs(AllVariants(input.stacks)) by { ServiceKeys(input.stacks); }
    var serviceLinks := ServiceLinks(input.stacks, byID, byPath, primaries);
    var x := Context(n.uuid, n.subnet.value, services.value, primaries, stackSystem);
    ContextIsWellFormed(n, input.stacks);
    var workloadByID, containerLinks;
    ghost var done;
    ok, workloadByID, containerLinks, done := BuildWorkloads(x);
    if !ok { return None; }
    assert forall id :: id in workloadByID ==> workloadByID[id].id == id by { BuiltIDs(x, done, workloadByID); }
    var workloads := DrainWorkloads(workloadByID);
    BuiltWorkloadList(x, done, workloadByID, workloads);
    assert AreLists(containerLinks) by { BuiltLists(done, containerLinks); }
    var sortedLinks := SortLinks(containerLinks);
    BuiltLinkLists(x, done, containerLinks, sortedLinks);
    r := Some(Snapshot(n.subnet.value, input.host, workloads, serviceLinks, sortedLinks, policy.value));
  }

  lemma OnlySelection(networks: seq<NetworkReport>, n: NetworkReport)
    requires IsSelected(networks, n)
    ensures IsCandidate(n) && forall m :: IsSelected(networks, m) ==> m == n
  {
  }

  lemma ServiceKeys(stacks: seq<Stack>)
    requires ServicesAccepted(stacks)
    ensures ServiceIndex(stacks).Keys == ServiceIDs(AllVariants(stacks))
  {
    hide VariantsMerge, CanonicalService, VariantsAccepted;
  }

  lemma BuiltIDs(x: Context, done: set<(string, View)>, byID: map<string, Workload>)
    requires BuiltWorkloads(x, done, byID)
    ensures forall id :: id in byID ==> byID[id].id == id
  {
  }

  lemma BuiltLists(done: set<(string, View)>, links: Links)
    requires BuiltLinks(done, links)
    ensures AreLists(links)
  {
  }
}
