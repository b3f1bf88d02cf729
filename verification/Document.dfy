/** The audit document: its validation and its canonical form. */
module Document {
  import opened Ordering
  import opened Text
  import opened Selector
  import opened Labels
  import opened Policy

  datatype Stack = Stack(id: string, system: bool)

  datatype Service = Service(
    id: string, stackID: string, labels: LabelMap, primaryServiceID: string, links: seq<string>)

  datatype Workload = Workload(
    id: string, hostID: string, stackID: string, serviceID: string, labels: LabelMap, links: seq<string>)

  datatype Config = Config(
    schema: string, localHostID: string, stacks: seq<Stack>, services: seq<Service>, workloads: seq<Workload>,
    policy: Policy)

  const INPUT_SCHEMA := "pasturestack.network-policy-snapshot/v1"
  const MAX_STACKS := 256
  const MAX_SERVICES := 1024
  const MAX_WORKLOADS := 4096
  const MAX_LABELS := 64
  const MAX_LINKS := 128

  // ---- identifiers, label maps and link lists ----

  /** idPattern */
  predicate IsID(s: string) {
    1 <= |s| <= 63 && 'a' <= s[0] <= 'z' && forall c :: c in s ==> 'a' <= c <= 'z' || IsDigit(c) || c == '-'
  }

  /** A label value without control characters. */
  predicate IsLabelText(value: string) {
    |value| <= 256 && forall c :: c in value ==> c as int >= 0x20 && c as int != 0x7f
  }

  ghost predicate LabelsAccepted(labels: LabelMap) {
    && |labels| <= MAX_LABELS
    && (forall k :: k in labels ==> IsLabelKey(k) && IsLabelText(labels[k]))
    && forall a, b :: a in labels && b in labels && Lower(a) == Lower(b) ==> a == b
  }

  /** `normalized` is the outcome of lowering the entries of `labels` under the keys in `done`,
      all of which are valid and no two of which differ only by case. */
  ghost predicate LoweredUpTo(labels: LabelMap, done: set<string>, normalized: LabelMap) {
    && done <= labels.Keys
    && (forall k :: k in done ==> IsLabelKey(k) && IsLabelText(labels[k]))
    && (forall k :: k in done ==> Lower(k) in normalized && normalized[Lower(k)] == Lower(labels[k]))
    && (forall l :: l in normalized ==> exists k :: k in done && Lower(k) == l)
    && (forall a, b :: a in done && b in done && Lower(a) == Lower(b) ==> a == b)
  }

  lemma LoweredNone(labels: LabelMap)
    ensures LoweredUpTo(labels, {}, map[])
  {
  }

  lemma NotAccepted(labels: LabelMap, done: set<string>, normalized: LabelMap, key: string)
    requires LoweredUpTo(labels, done, normalized) && key in labels && key !in done
    requires !IsLabelKey(key) || Lower(key) in normalized || !IsLabelText(labels[key])
    ensures !LabelsAccepted(labels)
  {
    hide Lower, IsLabelKey, IsLabelText;
  }

  lemma LoweredNext(labels: LabelMap, done: set<string>, normalized: LabelMap, key: string)
    requires LoweredUpTo(labels, done, normalized) && key in labels && key !in done
    requires IsLabelKey(key) && Lower(key) !in normalized && IsLabelText(labels[key])
    ensures LoweredUpTo(labels, done + {key}, normalized[Lower(key) := Lower(labels[key])])
  {
    hide Lower, IsLabelKey, IsLabelText;
  }

  lemma LoweredAll(labels: LabelMap, normalized: LabelMap)
    requires LoweredUpTo(labels, labels.Keys, normalized) && |labels| <= MAX_LABELS
    ensures LabelsAccepted(labels) && normalized == Lowered(labels)
  {
    hide Lower, IsLabelKey, IsLabelText;
    LoweredIsLowered(labels, normalized);
    hide IsLowered, Unambiguous;
    LoweredAgree(labels, normalized, Lowered(labels));
  }

  lemma LoweredIsLowered(labels: LabelMap, normalized: LabelMap)
    requires LoweredUpTo(labels, labels.Keys, normalized)
    ensures IsLowered(labels, normalized) && Unambiguous(labels)
  {
    hide Lower, IsLabelKey, IsLabelText;
    forall l | l in normalized ensures exists k :: k in labels && Lower(k) == l && Lower(labels[k]) == normalized[l] {
      var k :| k in labels.Keys && Lower(k) == l;
      assert k in labels;
    }
  }

  /** normalizeLabels */
  method NormalizeLabels(labels: LabelMap) returns (r: Option<LabelMap>)
    ensures r.Some? <==> LabelsAccepted(labels)
    ensures r.Some? ==> r.value == Lowered(labels)
  {
    hide Lower, IsLabelKey, IsLabelText, LoweredUpTo;
    if |labels| > MAX_LABELS { return None; }
    hide LabelsAccepted;
    var normalized: LabelMap := map[];
    var todo := labels.Keys;
    ghost var done := {};
    LoweredNone(labels);
    while todo != {}
      invariant done == labels.Keys - todo && todo <= labels.Keys
      invariant LoweredUpTo(labels, done, normalized)
    {
      var key :| key in todo;
      if !IsLabelKey(key) || Lower(key) in normalized || !IsLabelText(labels[key]) {
        NotAccepted(labels, done, normalized, key);
        return None;
      }
      LoweredNext(labels, done, normalized, key);
      normalized := normalized[Lower(key) := Lower(labels[key])];
      todo := todo - {key};
      done := done + {key};
    }
    assert done == labels.Keys;
    LoweredAll(labels, normalized);
    return Some(normalized);
  }

  ghost predicate LinksAccepted(links: seq<string>, maximum: nat) {
    |links| <= maximum && (forall l :: l in links ==> IsID(l)) && Distinct(links)
  }

  /** normalizeIDList */
  method NormalizeIDList(values: seq<string>, maximum: nat) returns (r: Option<seq<string>>)
    ensures r.Some? <==> LinksAccepted(values, maximum)
    ensures r.Some? ==> r.value == StrList(Elems(values))
  {
    hide IsID, StrLess;
    if |values| > maximum { return None; }
    StringsAreOrdered();
    var copy := Sort(StrLess, values);
    SortSorts(StrLess, values);
    MultisetElems(copy, values);
    for i := 0 to |copy|
      invariant forall k :: 0 <= k < i ==> IsID(copy[k])
      invariant forall k :: 0 < k < i ==> copy[k] != copy[k - 1]
    {
      if !IsID(copy[i]) {
        assert copy[i] in Elems(copy);
        return None;
      }
      if i > 0 && copy[i] == copy[i - 1] {
        if Distinct(values) { MultisetDistinct(values, copy); }
        return None;
      }
    }
    SortedWithoutRepeats(copy);
    MultisetDistinct(copy, values);
    forall l | l in values ensures IsID(l) { assert l in Elems(copy); }
    StrListIs(copy);
    return Some(copy);
  }

  lemma SortedWithoutRepeats(s: seq<string>)
    requires Sorted(StrLess, s)
    requires forall k :: 0 < k < |s| ==> s[k] != s[k - 1]
    ensures Ascending(StrLess, s) && Distinct(s)
  {
    hide StrLess;
    StringsAreOrdered();
    forall i, j | 0 <= i < j < |s| ensures StrLess(s[i], s[j]) && s[i] != s[j] {
      assert s[i + 1] != s[i];
      assert StrLess(s[i], s[i + 1]);
      assert j == i + 1 || !StrLess(s[j], s[i + 1]);
    }
  }

  // ---- lists of entities, sorted by identifier ----

  function StackID(s: Stack): string { s.id }

  function ServiceID(s: Service): string { s.id }

  function WorkloadID(w: Workload): string { w.id }

  /** The comparison the sort.Slice calls make. */
  function ByID<T>(id: T -> string): (T, T) -> bool {
    (a: T, b: T) => StrLess(id(a), id(b))
  }

  ghost predicate UniqueBy<T>(id: T -> string, s: seq<T>) {
    forall i, j :: 0 <= i < j < |s| ==> id(s[i]) != id(s[j])
  }

  /** The elements of `s` in ascending order of identifier. */
  ghost predicate IsArranged<T>(id: T -> string, s: seq<T>, r: seq<T>) {
    multiset(r) == multiset(s) && Ascending(ByID(id), r)
  }

  lemma UniqueByMultiset<T(!new)>(id: T -> string, a: seq<T>, b: seq<T>)
    requires multiset(a) == multiset(b) && UniqueBy(id, a)
    ensures UniqueBy(id, b)
  {
    MultisetDistinct(a, b);
    forall i, j | 0 <= i < j < |b| ensures id(b[i]) != id(b[j]) {
      assert b[i] in multiset(a) && b[j] in multiset(a);
      var k :| 0 <= k < |a| && a[k] == b[i];
      var l :| 0 <= l < |a| && a[l] == b[j];
      assert b[i] != b[j];
    }
  }

  lemma SortArranges<T(!new)>(id: T -> string, s: seq<T>)
    requires UniqueBy(id, s)
    ensures IsArranged(id, s, Sort(ByID(id), s))
  {
    hide StrLess;
    var less := ByID(id);
    StringsAreOrdered();
    assert StrictOrder(less);
    SortSorts(less, s);
    var r := Sort(less, s);
    UniqueByMultiset(id, s, r);
    assert Ascending(less, r);
  }

  /** There is one arrangement. */
  lemma {:induction false} ArrangedIsUnique<T(!new)>(id: T -> string, a: seq<T>, b: seq<T>)
    requires multiset(a) == multiset(b) && Ascending(ByID(id), a) && Ascending(ByID(id), b)
    ensures a == b
  {
    assert |a| == |multiset(a)| == |multiset(b)| == |b|;
    if a != [] {
      SameFirst(id, a, b);
      ArrangedTail(id, a);
      ArrangedTail(id, b);
      hide Ascending;
      ArrangedIsUnique(id, a[1..], b[1..]);
    }
  }

  lemma ArrangedTail<T(!new)>(id: T -> string, a: seq<T>)
    requires Ascending(ByID(id), a) && a != []
    ensures Ascending(ByID(id), a[1..])
    ensures a == [a[0]] + a[1..] && multiset(a[1..]) == multiset(a) - multiset{a[0]}
  {
    hide ByID;
    assert a == [a[0]] + a[1..];
    assert forall i :: 0 <= i < |a[1..]| ==> a[1..][i] == a[i + 1];
  }

  lemma SameFirst<T(!new)>(id: T -> string, a: seq<T>, b: seq<T>)
    requires multiset(a) == multiset(b) && Ascending(ByID(id), a) && Ascending(ByID(id), b)
    requires |a| > 0 && |b| > 0
    ensures a[0] == b[0]
  {
    hide StrLess;
    StringsAreOrdered();
    assert a[0] in multiset(b) && b[0] in multiset(a);
    var i :| 0 <= i < |b| && b[i] == a[0];
    var j :| 0 <= j < |a| && a[j] == b[0];
    assert StrLess(id(b[0]), id(b[i])) || i == 0;
    assert StrLess(id(a[0]), id(a[j])) || j == 0;
  }

  /** A lookup table of the elements by identifier. */
  ghost predicate Indexes<T(!new)>(id: T -> string, table: map<string, T>, s: seq<T>) {
    && (forall x :: x in s ==> id(x) in table && table[id(x)] == x)
    && forall k :: k in table ==> table[k] in s && id(table[k]) == k
  }

  lemma IndexMore<T(!new)>(id: T -> string, table: map<string, T>, s: seq<T>, x: T)
    requires Indexes(id, table, s) && UniqueBy(id, s)
    ensures id(x) in table <==> !UniqueBy(id, s + [x])
    ensures id(x) !in table ==> Indexes(id, table[id(x) := x], s + [x])
  {
    if id(x) in table {
      var y := table[id(x)];
      var i :| 0 <= i < |s| && s[i] == y;
      assert id((s + [x])[i]) == id((s + [x])[|s|]);
    } else {
      forall i, j | 0 <= i < j < |s + [x]| ensures id((s + [x])[i]) != id((s + [x])[j]) {
        if j == |s| { assert s[i] in s; }
      }
    }
  }

  lemma UniquePrefix<T>(id: T -> string, s: seq<T>, i: nat)
    requires i <= |s| && UniqueBy(id, s)
    ensures UniqueBy(id, s[..i])
  {
  }

  // ---- the entities ----

  ghost predicate HasStack(stacks: seq<Stack>, id: string) {
    exists s :: s in stacks && s.id == id
  }

  ghost predicate ServiceAccepted(stacks: seq<Stack>, s: Service) {
    IsID(s.id) && HasStack(stacks, s.stackID) && LabelsAccepted(s.labels) && LinksAccepted(s.links, MAX_LINKS)
  }

  /** A service as it is written out: lower-cased labels, ascending links. */
  ghost function CleanService(s: Service): Service {
    s.(labels := Lowered(s.labels), links := StrList(Elems(s.links)))
  }

  ghost function CleanServices(services: seq<Service>): (r: seq<Service>)
    ensures |r| == |services| && forall i :: 0 <= i < |r| ==> r[i] == CleanService(services[i])
  {
    seq(|services|, i requires 0 <= i < |services| => CleanService(services[i]))
  }

  ghost predicate PrimaryFits(services: seq<Service>, s: Service) {
    s.primaryServiceID == "" ||
    exists p ::
      && p in services && p.id == s.primaryServiceID && p.id != s.id
      && p.stackID == s.stackID && p.primaryServiceID == ""
  }

  ghost predicate ServiceLinksResolve(services: seq<Service>, s: Service) {
    forall l :: l in s.links ==> l != s.id && exists t :: t in services && t.id == l
  }

  ghost predicate EachServiceAccepted(stacks: seq<Stack>, services: seq<Service>) {
    (forall s :: s in services ==> ServiceAccepted(stacks, s)) && UniqueBy(ServiceID, services)
  }

  ghost predicate ReferencesResolve(services: seq<Service>) {
    forall s :: s in services ==> PrimaryFits(services, s) && ServiceLinksResolve(services, s)
  }

  ghost predicate ServicesAccepted(stacks: seq<Stack>, services: seq<Service>) {
    EachServiceAccepted(stacks, services) && ReferencesResolve(CleanServices(services))
  }

  ghost predicate Compatible(a: LabelMap, b: LabelMap) {
    forall k :: k in a && k in b ==> a[k] == b[k]
  }

  /** The service of a workload exists, is of the same stack, and gives no label another value. */
  ghost predicate ServiceFits(services: seq<Service>, w: Workload) {
    w.serviceID == "" ||
    exists s :: s in services && s.id == w.serviceID && s.stackID == w.stackID && Compatible(w.labels, s.labels)
  }

  ghost predicate WorkloadAccepted(stacks: seq<Stack>, w: Workload) {
    && IsID(w.id) && IsID(w.hostID) && HasStack(stacks, w.stackID)
    && LabelsAccepted(w.labels) && LinksAccepted(w.links, MAX_LINKS)
  }

  ghost function CleanWorkload(w: Workload): Workload {
    w.(labels := Lowered(w.labels), links := StrList(Elems(w.links)))
  }

  ghost function CleanWorkloads(ws: seq<Workload>): (r: seq<Workload>)
    ensures |r| == |ws| && forall i :: 0 <= i < |r| ==> r[i] == CleanWorkload(ws[i])
  {
    seq(|ws|, i requires 0 <= i < |ws| => CleanWorkload(ws[i]))
  }

  ghost predicate WorkloadLinksResolve(ws: seq<Workload>, w: Workload) {
    forall l :: l in w.links ==> l != w.id && exists v :: v in ws && v.id == l
  }

  /** `services` are in canonical form. */
  ghost predicate EachWorkloadAccepted(stacks: seq<Stack>, services: seq<Service>, ws: seq<Workload>) {
    && (forall w :: w in ws ==> WorkloadAccepted(stacks, w) && ServiceFits(services, CleanWorkload(w)))
    && UniqueBy(WorkloadID, ws)
  }

  ghost predicate WorkloadReferencesResolve(ws: seq<Workload>) {
    forall w :: w in ws ==> WorkloadLinksResolve(ws, w)
  }

  ghost predicate WorkloadsAccepted(stacks: seq<Stack>, services: seq<Service>, ws: seq<Workload>) {
    EachWorkloadAccepted(stacks, CleanServices(services), ws) && WorkloadReferencesResolve(CleanWorkloads(ws))
  }

  ghost predicate HasLocal(ws: seq<Workload>, host: string) {
    exists w :: w in ws && w.hostID == host
  }

  predicate Sized(c: Config) {
    1 <= |c.stacks| <= MAX_STACKS && |c.services| <= MAX_SERVICES && 1 <= |c.workloads| <= MAX_WORKLOADS
  }

  ghost predicate StacksAccepted(stacks: seq<Stack>) {
    (forall s :: s in stacks ==> IsID(s.id)) && UniqueBy(StackID, stacks)
  }

  ghost predicate Accepted(c: Config) {
    && c.schema == INPUT_SCHEMA && IsID(c.localHostID) && Sized(c)
    && StacksAccepted(c.stacks)
    && ServicesAccepted(c.stacks, c.services)
    && WorkloadsAccepted(c.stacks, c.services, c.workloads)
    && HasLocal(c.workloads, c.localHostID)
    && PolicyAccepted(c.policy)
  }

  /** `n` is the canonical form of `c`. */
  ghost predicate IsNormalFormOfConfig(n: Config, c: Config) {
    && n.schema == c.schema && n.localHostID == c.localHostID
    && IsArranged(StackID, c.stacks, n.stacks)
    && IsArranged(ServiceID, CleanServices(c.services), n.services)
    && IsArranged(WorkloadID, CleanWorkloads(c.workloads), n.workloads)
    && IsNormalFormOf(n.policy, c.policy)
  }

  // ---- normalize ----

  /** The stack loop of normalize, and its sort. */
  method NormalizeStacks(stacks: seq<Stack>) returns (ok: bool, sorted: seq<Stack>, byID: map<string, Stack>)
    ensures ok <==> StacksAccepted(stacks)
    ensures ok ==> IsArranged(StackID, stacks, sorted) && Indexes(StackID, byID, stacks)
  {
    hide IsID, Indexes, UniqueBy, IsArranged;
    sorted, byID := [], map[];
    assert Indexes(StackID, byID, stacks[..0]) && UniqueBy(StackID, stacks[..0]) by { NothingIndexed(StackID); }
    for i := 0 to |stacks|
      invariant forall k :: 0 <= k < i ==> IsID(stacks[k].id)
      invariant Indexes(StackID, byID, stacks[..i]) && UniqueBy(StackID, stacks[..i])
    {
      var stack := stacks[i];
      assert stack in stacks;
      if !IsID(stack.id) { return false, sorted, byID; }
      IndexMore(StackID, byID, stacks[..i], stack);
      assert stacks[..i] + [stack] == stacks[..i + 1];
      if stack.id in byID {
        if UniqueBy(StackID, stacks) { UniquePrefix(StackID, stacks, i + 1); }
        return false, sorted, byID;
      }
      byID := byID[stack.id := stack];
    }
    assert stacks[..|stacks|] == stacks;
    sorted := Sort(ByID(StackID), stacks);
    SortArranges(StackID, stacks);
    ok := true;
  }

  lemma NothingIndexed<T(!new)>(id: T -> string)
    ensures Indexes(id, map[], []) && UniqueBy(id, [])
  {
  }

  lemma CleanPrefix(services: seq<Service>, i: nat)
    requires i < |services|
    ensures CleanServices(services[..i]) + [CleanService(services[i])] == CleanServices(services[..i + 1])
  {
    hide CleanService;
  }

  lemma CleanKeepsIDs(services: seq<Service>)
    ensures UniqueBy(ServiceID, CleanServices(services)) <==> UniqueBy(ServiceID, services)
  {
    assert forall i :: 0 <= i < |services| ==> ServiceID(CleanServices(services)[i]) == ServiceID(services[i]);
  }

  lemma StackIndexed(byID: map<string, Stack>, stacks: seq<Stack>, id: string)
    requires Indexes(StackID, byID, stacks)
    ensures id in byID <==> HasStack(stacks, id)
  {
  }

  /** One turn of the first service loop of normalize. */
  method NormalizeService(
    service: Service, stackByID: map<string, Stack>, ghost stacks: seq<Stack>)
    returns (r: Option<Service>)
    requires Indexes(StackID, stackByID, stacks)
    ensures r.Some? <==> ServiceAccepted(stacks, service)
    ensures r.Some? ==> r.value == CleanService(service)
  {
    hide IsID, LabelsAccepted, LinksAccepted, Indexes, HasStack, Lowered;
    StackIndexed(stackByID, stacks, service.stackID);
    if !IsID(service.id) || service.stackID !in stackByID { return None; }
    var labels := NormalizeLabels(service.labels);
    if labels.None? { return None; }
    var links := NormalizeIDList(service.links, MAX_LINKS);
    if links.None? { return None; }
    return Some(Service(service.id, service.stackID, labels.value, service.primaryServiceID, links.value));
  }

  /** The first service loop of normalize. */
  method CleanAllServices(services: seq<Service>, stackByID: map<string, Stack>, ghost stacks: seq<Stack>)
    returns (ok: bool, cleaned: seq<Service>, byID: map<string, Service>)
    requires Indexes(StackID, stackByID, stacks)
    ensures ok <==> EachServiceAccepted(stacks, services)
    ensures ok ==> cleaned == CleanServices(services) && Indexes(ServiceID, byID, cleaned)
  {
    hide Indexes, UniqueBy, ServiceAccepted, CleanServices, Lowered;
    cleaned, byID := [], map[];
    assert cleaned == CleanServices(services[..0]);
    NothingIndexed(ServiceID);
    for i := 0 to |services|
      invariant forall k :: 0 <= k < i ==> ServiceAccepted(stacks, services[k])
      invariant cleaned == CleanServices(services[..i])
      invariant Indexes(ServiceID, byID, cleaned) && UniqueBy(ServiceID, cleaned)
    {
      assert services[i] in services;
      CleanPrefix(services, i);
      if services[i].id in byID {
        RepeatedService(services, i, byID);
        return false, cleaned, byID;
      }
      var service := NormalizeService(services[i], stackByID, stacks);
      if service.None? { return false, cleaned, byID; }
      IndexMore(ServiceID, byID, cleaned, service.value);
      byID := byID[service.value.id := service.value];
      cleaned := cleaned + [service.value];
    }
    assert services[..|services|] == services;
    CleanKeepsIDs(services);
    ok := true;
  }

  lemma RepeatedService(services: seq<Service>, i: nat, byID: map<string, Service>)
    requires i < |services| && services[i].id in byID
    requires Indexes(ServiceID, byID, CleanServices(services[..i])) && UniqueBy(ServiceID, CleanServices(services[..i]))
    ensures !UniqueBy(ServiceID, services)
  {
    hide UniqueBy, Indexes, Lowered;
    CleanPrefix(services, i);
    IndexMore(ServiceID, byID, CleanServices(services[..i]), CleanService(services[i]));
    CleanKeepsIDs(services);
    assert CleanServices(services)[..i + 1] == CleanServices(services[..i + 1]);
    if UniqueBy(ServiceID, CleanServices(services)) { UniquePrefix(ServiceID, CleanServices(services), i + 1); }
  }

  lemma PrimaryIndexed(byID: map<string, Service>, services: seq<Service>, s: Service)
    requires Indexes(ServiceID, byID, services)
    ensures PrimaryFits(services, s) <==>
      s.primaryServiceID == "" ||
      (s.primaryServiceID in byID &&
       var p := byID[s.primaryServiceID]; p.id != s.id && p.stackID == s.stackID && p.primaryServiceID == "")
  {
    if s.primaryServiceID in byID {
      var p := byID[s.primaryServiceID];
      assert p in services && p.id == s.primaryServiceID;
      forall q | q in services && q.id == s.primaryServiceID ensures q == p { assert ServiceID(q) in byID; }
    } else {
      forall q | q in services ensures q.id != s.primaryServiceID { assert ServiceID(q) in byID; }
    }
  }

  /** A reference to another element resolves exactly when the table has it. */
  lemma Indexed<T(!new)>(id: T -> string, table: map<string, T>, s: seq<T>, key: string)
    requires Indexes(id, table, s)
    ensures key in table <==> exists x :: x in s && id(x) == key
  {
    if x :| x in s && id(x) == key { assert id(x) in table; }
  }

  /** The second service loop of normalize. */
  method CheckServices(services: seq<Service>, byID: map<string, Service>) returns (ok: bool)
    requires Indexes(ServiceID, byID, services)
    ensures ok <==> ReferencesResolve(services)
  {
    hide Indexes, PrimaryFits;
    for i := 0 to |services|
      invariant forall k :: 0 <= k < i ==>
        PrimaryFits(services, services[k]) && ServiceLinksResolve(services, services[k])
    {
      var service := services[i];
      assert service in services;
      PrimaryIndexed(byID, services, service);
      if service.primaryServiceID != "" {
        if service.primaryServiceID !in byID { return false; }
        var primary := byID[service.primaryServiceID];
        if primary.id == service.id || primary.stackID != service.stackID || primary.primaryServiceID != "" {
          return false;
        }
      }
      for j := 0 to |service.links|
        invariant forall k :: 0 <= k < j ==>
          service.links[k] != service.id && exists t :: t in services && t.id == service.links[k]
      {
        var link := service.links[j];
        assert link in service.links;
        Indexed(ServiceID, byID, services, link);
        if link == service.id || link !in byID { return false; }
      }
    }
    ok := true;
  }

  // ---- the workload loops ----

  lemma CleanWorkloadPrefix(ws: seq<Workload>, i: nat)
    requires i < |ws|
    ensures CleanWorkloads(ws[..i]) + [CleanWorkload(ws[i])] == CleanWorkloads(ws[..i + 1])
  {
    hide CleanWorkload;
  }

  lemma CleanKeepsWorkloadIDs(ws: seq<Workload>)
    ensures UniqueBy(WorkloadID, CleanWorkloads(ws)) <==> UniqueBy(WorkloadID, ws)
  {
    assert forall i :: 0 <= i < |ws| ==> WorkloadID(CleanWorkloads(ws)[i]) == WorkloadID(ws[i]);
  }

  lemma ServiceIndexed(byID: map<string, Service>, services: seq<Service>, w: Workload)
    requires Indexes(ServiceID, byID, services)
    ensures ServiceFits(services, w) <==>
      w.serviceID == "" ||
      (w.serviceID in byID &&
       var s := byID[w.serviceID]; s.stackID == w.stackID && Compatible(w.labels, s.labels))
  {
    hide Compatible;
    if w.serviceID in byID {
      var p := byID[w.serviceID];
      assert p in services && p.id == w.serviceID;
      forall q | q in services && q.id == w.serviceID ensures q == p { assert ServiceID(q) in byID; }
    } else {
      forall q | q in services ensures q.id != w.serviceID { assert ServiceID(q) in byID; }
    }
  }

  /** The label conflict loop of normalize. */
  method LabelsConflict(own: LabelMap, inherited: LabelMap) returns (conflict: bool)
    ensures conflict <==> !Compatible(own, inherited)
  {
    var todo := inherited.Keys;
    while todo != {}
      invariant todo <= inherited.Keys
      invariant forall k :: k in inherited && k !in todo && k in own ==> own[k] == inherited[k]
    {
      var key :| key in todo;
      if key in own && own[key] != inherited[key] { return true; }
      todo := todo - {key};
    }
    conflict := false;
  }

  /** One turn of the first workload loop of normalize. */
  method NormalizeWorkload(
    w: Workload, stackByID: map<string, Stack>, serviceByID: map<string, Service>,
    ghost stacks: seq<Stack>, ghost services: seq<Service>) returns (r: Option<Workload>)
    requires Indexes(StackID, stackByID, stacks) && Indexes(ServiceID, serviceByID, services)
    ensures r.Some? <==> WorkloadAccepted(stacks, w) && ServiceFits(services, CleanWorkload(w))
    ensures r.Some? ==> r.value == CleanWorkload(w)
  {
    hide IsID, LabelsAccepted, LinksAccepted, Indexes, HasStack, Lowered, ServiceFits, Compatible;
    StackIndexed(stackByID, stacks, w.stackID);
    ServiceIndexed(serviceByID, services, CleanWorkload(w));
    if !IsID(w.id) || !IsID(w.hostID) { return None; }
    if w.stackID !in stackByID { return None; }
    if w.serviceID != "" && (w.serviceID !in serviceByID || serviceByID[w.serviceID].stackID != w.stackID) {
      return None;
    }
    var labels := NormalizeLabels(w.labels);
    if labels.None? { return None; }
    if w.serviceID != "" {
      var conflict := LabelsConflict(labels.value, serviceByID[w.serviceID].labels);
      if conflict { return None; }
    }
    var links := NormalizeIDList(w.links, MAX_LINKS);
    if links.None? { return None; }
    return Some(Workload(w.id, w.hostID, w.stackID, w.serviceID, labels.value, links.value));
  }

  /** The first workload loop of normalize. */
  method CleanAllWorkloads(
    ws: seq<Workload>, localHostID: string, stackByID: map<string, Stack>, serviceByID: map<string, Service>,
    ghost stacks: seq<Stack>, ghost services: seq<Service>)
    returns (ok: bool, cleaned: seq<Workload>, byID: map<string, Workload>, localFound: bool)
    requires Indexes(StackID, stackByID, stacks) && Indexes(ServiceID, serviceByID, services)
    ensures ok <==> EachWorkloadAccepted(stacks, services, ws)
    ensures ok ==> cleaned == CleanWorkloads(ws) && Indexes(WorkloadID, byID, cleaned)
    ensures ok ==> (localFound <==> HasLocal(ws, localHostID))
  {
    hide Indexes, UniqueBy, WorkloadAccepted, ServiceFits, CleanWorkloads, Lowered, HasLocal;
    cleaned, byID, localFound := [], map[], false;
    assert cleaned == CleanWorkloads(ws[..0]);
    NoneLocal(localHostID);
    NothingIndexed(WorkloadID);
    hide CleanWorkload;
    for i := 0 to |ws|
      invariant forall k :: 0 <= k < i ==>
        WorkloadAccepted(stacks, ws[k]) && ServiceFits(services, CleanWorkload(ws[k]))
      invariant localFound <==> HasLocal(ws[..i], localHostID)
      invariant cleaned == CleanWorkloads(ws[..i])
      invariant Indexes(WorkloadID, byID, cleaned) && UniqueBy(WorkloadID, cleaned)
    {
      assert ws[i] in ws;
      CleanWorkloadPrefix(ws, i);
      if ws[i].id in byID {
        RepeatedWorkload(ws, i, byID);
        return false, cleaned, byID, localFound;
      }
      var workload := NormalizeWorkload(ws[i], stackByID, serviceByID, stacks, services);
      if workload.None? { return false, cleaned, byID, localFound; }
      IndexMore(WorkloadID, byID, cleaned, workload.value);
      byID := byID[workload.value.id := workload.value];
      cleaned := cleaned + [workload.value];
      LocalMore(ws, i, localHostID);
      localFound := localFound || ws[i].hostID == localHostID;
    }
    assert ws[..|ws|] == ws;
    CleanKeepsWorkloadIDs(ws);
    ok := true;
  }

  lemma NoneLocal(host: string)
    ensures !HasLocal([], host)
  {
  }

  lemma LocalMore(ws: seq<Workload>, i: nat, host: string)
    requires i < |ws|
    ensures HasLocal(ws[..i + 1], host) <==> HasLocal(ws[..i], host) || ws[i].hostID == host
  {
    assert ws[..i + 1] == ws[..i] + [ws[i]];
  }

  lemma RepeatedWorkload(ws: seq<Workload>, i: nat, byID: map<string, Workload>)
    requires i < |ws| && ws[i].id in byID
    requires Indexes(WorkloadID, byID, CleanWorkloads(ws[..i])) && UniqueBy(WorkloadID, CleanWorkloads(ws[..i]))
    ensures !UniqueBy(WorkloadID, ws)
  {
    hide UniqueBy, Indexes, Lowered;
    CleanWorkloadPrefix(ws, i);
    IndexMore(WorkloadID, byID, CleanWorkloads(ws[..i]), CleanWorkload(ws[i]));
    CleanKeepsWorkloadIDs(ws);
    assert CleanWorkloads(ws)[..i + 1] == CleanWorkloads(ws[..i + 1]);
    if UniqueBy(WorkloadID, CleanWorkloads(ws)) { UniquePrefix(WorkloadID, CleanWorkloads(ws), i + 1); }
  }

  /** The second workload loop of normalize. */
  method CheckWorkloads(ws: seq<Workload>, byID: map<string, Workload>) returns (ok: bool)
    requires Indexes(WorkloadID, byID, ws)
    ensures ok <==> WorkloadReferencesResolve(ws)
  {
    hide Indexes;
    for i := 0 to |ws|
      invariant forall k :: 0 <= k < i ==> WorkloadLinksResolve(ws, ws[k])
    {
      var workload := ws[i];
      assert workload in ws;
      for j := 0 to |workload.links|
        invariant forall k :: 0 <= k < j ==>
          workload.links[k] != workload.id && exists v :: v in ws && v.id == workload.links[k]
      {
        var link := workload.links[j];
        assert link in workload.links;
        Indexed(WorkloadID, byID, ws, link);
        if link == workload.id || link !in byID { return false; }
      }
    }
    ok := true;
  }

  lemma UniqueCleaned(stacks: seq<Stack>, services: seq<Service>, ws: seq<Workload>)
    requires EachServiceAccepted(stacks, services) && EachWorkloadAccepted(stacks, CleanServices(services), ws)
    ensures UniqueBy(ServiceID, CleanServices(services)) && UniqueBy(WorkloadID, CleanWorkloads(ws))
  {
    CleanKeepsIDs(services);
    CleanKeepsWorkloadIDs(ws);
  }

  /** normalize, without the error texts. */
  method Normalize(c: Config) returns (r: Option<Config>)
    ensures r.Some? <==> Accepted(c)
    ensures r.Some? ==> IsNormalFormOfConfig(r.value, c)
  {
    hide Indexes, UniqueBy, IsArranged, IsID, StacksAccepted, EachServiceAccepted, ReferencesResolve,
      EachWorkloadAccepted, WorkloadReferencesResolve, IsNormalFormOf, PolicyAccepted, CleanServices, CleanWorkloads,
      HasLocal, StrLess, Sort, Ascending;
    if c.schema != INPUT_SCHEMA { return None; }
    if !IsID(c.localHostID) { return None; }
    if |c.stacks| < 1 || |c.stacks| > MAX_STACKS { return None; }
    if |c.services| > MAX_SERVICES { return None; }
    if |c.workloads| < 1 || |c.workloads| > MAX_WORKLOADS { return None; }
    var okStacks, stacks, stackByID := NormalizeStacks(c.stacks);
    if !okStacks { return None; }
    var okServices, services, serviceByID := CleanAllServices(c.services, stackByID, c.stacks);
    if !okServices { return None; }
    okServices := CheckServices(services, serviceByID);
    if !okServices { return None; }
    var okWorkloads, workloads, workloadByID, localFound :=
      CleanAllWorkloads(c.workloads, c.localHostID, stackByID, serviceByID, c.stacks, services);
    if !okWorkloads || !localFound { return None; }
    okWorkloads := CheckWorkloads(workloads, workloadByID);
    if !okWorkloads { return None; }
    var policy := NormalizePolicy(c.policy);
    if policy.None? { return None; }
    UniqueCleaned(c.stacks, c.services, c.workloads);
    SortArranges(ServiceID, services);
    SortArranges(WorkloadID, workloads);
    return Some(Config(
      c.schema, c.localHostID, stacks, Sort(ByID(ServiceID), services), Sort(ByID(WorkloadID), workloads),
      policy.value));
  }
}
