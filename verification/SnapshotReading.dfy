/** What a snapshot built from metadata says, read off the submitted stacks: nothing here goes
    through the tables, merged services or merged views that the builder makes of them. */
module SnapshotReading {
  import opened Ordering
  import opened Text
  import opened Network
  import opened Labels
  import opened Policy
  import opened Topology
  import opened Views
  import opened Metadata
  import opened SnapshotBuilder
  import opened MetadataLaws
  import opened MetadataOrder
  import opened AddressReading

  // ---- the listed services ----

  /** A service variant together with the stack that lists it. */
  datatype Entry = Entry(stack: Stack, service: Service)

  function EntriesOf(stack: Stack): (r: seq<Entry>)
    ensures |r| == |stack.services|
    ensures forall i :: 0 <= i < |r| ==> r[i] == Entry(stack, stack.services[i])
  {
    seq(|stack.services|, i requires 0 <= i < |stack.services| => Entry(stack, stack.services[i]))
  }

  /** All of them, in the order of the document. */
  function Entries(stacks: seq<Stack>): seq<Entry> {
    if stacks == [] then [] else Entries(stacks[..|stacks| - 1]) + EntriesOf(stacks[|stacks| - 1])
  }

  /** A variant's own stack, and by default the one that lists it. */
  function OwnStack(e: Entry): string {
    if e.service.stackUUID == "" then e.stack.uuid else e.service.stackUUID
  }

  function OwnStackName(e: Entry): string {
    if e.service.stackName == "" then e.stack.name else e.service.stackName
  }

  function PathIn(e: Entry, name: string): string {
    Lower(Trim(OwnStackName(e)) + "/" + Trim(name))
  }

  /** The entry names its own service as primary. */
  predicate IsOwnPrimary(e: Entry) {
    Lower(e.service.name) == Lower(e.service.primaryServiceName)
  }

  /** Variants that name themselves as primary come first, then the order is that of paths. */
  predicate Precedes(a: Entry, b: Entry) {
    if IsOwnPrimary(a) != IsOwnPrimary(b) then IsOwnPrimary(a)
    else StrLess(PathIn(a, a.service.name), PathIn(b, b.service.name))
  }

  /** Entry `k` comes before all others of its service, by precedence and then by position. */
  ghost predicate IsLead(entries: seq<Entry>, k: int) {
    && 0 <= k < |entries|
    && forall m :: 0 <= m < |entries| && m != k && entries[m].service.uuid == entries[k].service.uuid ==>
         if m < k then Precedes(entries[k], entries[m]) else !Precedes(entries[m], entries[k])
  }

  // ---- the entries are the variants of the builder ----

  lemma FilledIs(stack: Stack, service: Service)
    ensures var f := Filled(stack, service);
      && f.stackUUID == OwnStack(Entry(stack, service)) && f.stackName == OwnStackName(Entry(stack, service))
      && f == service.(stackUUID := f.stackUUID, stackName := f.stackName)
  {
  }

  lemma {:induction false} FilledAllIs(stack: Stack, services: seq<Service>)
    ensures forall i :: 0 <= i < |services| ==> FilledAll(stack, services)[i] == Filled(stack, services[i])
  {
    hide Filled;
    if services != [] { FilledAllIs(stack, services[..|services| - 1]); }
  }

  lemma {:induction false} EntriesAre(stacks: seq<Stack>)
    ensures |Entries(stacks)| == |AllVariants(stacks)|
    ensures forall i :: 0 <= i < |Entries(stacks)| ==>
      AllVariants(stacks)[i] == Filled(Entries(stacks)[i].stack, Entries(stacks)[i].service)
  {
    hide Filled;
    if stacks != [] {
      var last := stacks[|stacks| - 1];
      EntriesAre(stacks[..|stacks| - 1]);
      FilledAllIs(last, last.services);
    }
  }

  lemma {:induction false} EntriesList(stacks: seq<Stack>)
    ensures forall e :: e in Entries(stacks) <==> e.stack in stacks && e.service in e.stack.services
  {
    if stacks != [] {
      var n := |stacks| - 1;
      EntriesList(stacks[..n]);
      assert stacks == stacks[..n] + [stacks[n]];
      forall e ensures e in EntriesOf(stacks[n]) <==> e.stack == stacks[n] && e.service in e.stack.services {
        if e.stack == stacks[n] && e.service in e.stack.services {
          var i :| 0 <= i < |e.stack.services| && e.stack.services[i] == e.service;
          assert EntriesOf(stacks[n])[i] == e;
        }
      }
    }
  }

  /** The facts about a filled-in variant that the reading uses. */
  lemma VariantIs(stacks: seq<Stack>, k: nat)
    requires k < |Entries(stacks)|
    ensures k < |AllVariants(stacks)|
    ensures var e, v := Entries(stacks)[k], AllVariants(stacks)[k];
      && v.uuid == e.service.uuid && v.name == e.service.name && v.system == e.service.system
      && v.primaryServiceName == e.service.primaryServiceName && v.labels == e.service.labels
      && v.links == e.service.links && v.containers == e.service.containers
      && v.stackUUID == OwnStack(e) && v.stackName == OwnStackName(e)
      && PathOf(v) == PathIn(e, e.service.name)
  {
    EntriesAre(stacks);
    FilledIs(Entries(stacks)[k].stack, Entries(stacks)[k].service);
    hide Filled, OwnStack, OwnStackName, Lower, Trim;
  }

  lemma PrecedesIsLess(stacks: seq<Stack>, a: nat, b: nat)
    requires a < |Entries(stacks)| && b < |Entries(stacks)|
    ensures a < |AllVariants(stacks)| && b < |AllVariants(stacks)|
    ensures Precedes(Entries(stacks)[a], Entries(stacks)[b]) <==>
      VariantLess(AllVariants(stacks)[a], AllVariants(stacks)[b])
  {
    VariantIs(stacks, a);
    VariantIs(stacks, b);
    hide PathIn, PathOf, StrLess, Lower, OwnStack, OwnStackName;
  }

  // ---- the variant that sorts first ----

  /** Comparing equal is transitive. */
  lemma VariantsAreWeaklyOrdered(a: Service, b: Service, c: Service)
    requires !VariantLess(b, a) && !VariantLess(c, b)
    ensures !VariantLess(c, a)
  {
    StringsAreOrdered();
    hide PathOf, IsPrimaryVariant, StrLess;
  }

  /** Position `k` is that of the element a stable sort puts first. */
  ghost predicate IsFirst(s: seq<Service>, k: int) {
    && 0 <= k < |s|
    && forall m :: 0 <= m < |s| && m != k ==> if m < k then VariantLess(s[k], s[m]) else !VariantLess(s[m], s[k])
  }

  lemma {:induction false} SortedFirst(s: seq<Service>) returns (k: nat)
    requires s != []
    ensures IsFirst(s, k) && Sort(VariantLess, s)[0] == s[k]
  {
    hide VariantLess;
    var n := |s| - 1;
    if n == 0 {
      assert s[..0] == [];
      return 0;
    }
    k := SortedFirst(s[..n]);
    var sorted := Sort(VariantLess, s[..n]);
    assert Sort(VariantLess, s)[0] == if VariantLess(s[n], sorted[0]) then s[n] else sorted[0];
    hide Sort;
    if VariantLess(s[n], sorted[0]) {
      LaterIsFirst(s, k);
      k := n;
    } else {
      StaysFirst(s, k);
    }
  }

  lemma StaysFirst(s: seq<Service>, k: nat)
    requires |s| > 1 && IsFirst(s[..|s| - 1], k) && !VariantLess(s[|s| - 1], s[k])
    ensures IsFirst(s, k)
  {
    hide VariantLess;
    var n := |s| - 1;
    assert forall m :: 0 <= m < n ==> s[..n][m] == s[m];
  }

  lemma LaterIsFirst(s: seq<Service>, k: nat)
    requires |s| > 1 && IsFirst(s[..|s| - 1], k) && VariantLess(s[|s| - 1], s[k])
    ensures IsFirst(s, |s| - 1)
  {
    VariantsAreOrdered();
    hide VariantLess;
    var n := |s| - 1;
    forall m | 0 <= m < n ensures VariantLess(s[n], s[m]) {
      assert !VariantLess(s[m], s[k]) by { assert m == k || s[..n][m] == s[m]; }
      if !VariantLess(s[n], s[m]) { VariantsAreWeaklyOrdered(s[k], s[m], s[n]); }
    }
  }

  /** The positions of a service's variants. */
  ghost predicate ArePositions(all: seq<Service>, id: string, r: seq<int>) {
    && |r| == |VariantsOf(all, id)|
    && (forall i :: 0 <= i < |r| ==> 0 <= r[i] < |all| && all[r[i]] == VariantsOf(all, id)[i])
    && (forall i, j :: 0 <= i < j < |r| ==> r[i] < r[j])
    && (forall m :: 0 <= m < |all| && all[m].uuid == id ==> m in r)
  }

  lemma VariantsMore(front: seq<Service>, last: Service, id: string)
    ensures VariantsOf(front + [last], id) == VariantsOf(front, id) + if last.uuid == id then [last] else []
  {
    var all := front + [last];
    assert all[..|all| - 1] == front;
  }

  lemma PositionsMore(front: seq<Service>, last: Service, id: string, r: seq<int>)
    requires ArePositions(front, id, r)
    ensures ArePositions(front + [last], id, if last.uuid == id then r + [|front|] else r)
  {
    VariantsMore(front, last, id);
    hide VariantsOf;
    if last.uuid == id {
      var more := r + [|front|];
      forall m | 0 <= m < |front + [last]| && (front + [last])[m].uuid == id ensures m in more {
        if m < |front| { assert m in r; } else { assert more[|r|] == m; }
      }
    }
  }

  lemma {:induction false} PositionsOf(all: seq<Service>, id: string) returns (r: seq<int>)
    ensures ArePositions(all, id, r)
  {
    r := [];
    if all != [] {
      hide ArePositions, VariantsOf;
      var n := |all| - 1;
      var front := PositionsOf(all[..n], id);
      assert all == all[..n] + [all[n]];
      PositionsMore(all[..n], all[n], id, front);
      r := if all[n].uuid == id then front + [n] else front;
    }
  }

  /** Every listed service has one lead, and it is the variant that sorts first. */
  lemma FirstPrecedes(stacks: seq<Stack>, id: string, positions: seq<int>, i: nat, m: int)
    requires ArePositions(AllVariants(stacks), id, positions) && IsFirst(VariantsOf(AllVariants(stacks), id), i)
    requires 0 <= m < |AllVariants(stacks)| && AllVariants(stacks)[m].uuid == id && m != positions[i]
    ensures |Entries(stacks)| == |AllVariants(stacks)|
    ensures var entries, k := Entries(stacks), positions[i];
      if m < k then Precedes(entries[k], entries[m]) else !Precedes(entries[m], entries[k])
  {
    hide VariantLess, Precedes, VariantsOf, AllVariants, Entries;
    EntriesAre(stacks);
    var j :| 0 <= j < |positions| && positions[j] == m;
    PrecedesIsLess(stacks, positions[i], m);
    PrecedesIsLess(stacks, m, positions[i]);
  }

  lemma SameIDs(stacks: seq<Stack>)
    ensures |Entries(stacks)| == |AllVariants(stacks)|
    ensures forall m :: 0 <= m < |Entries(stacks)| ==> AllVariants(stacks)[m].uuid == Entries(stacks)[m].service.uuid
  {
    hide AllVariants, Entries;
    EntriesAre(stacks);
  }

  lemma LeadOf(stacks: seq<Stack>, id: string) returns (k: nat)
    requires VariantsOf(AllVariants(stacks), id) != []
    ensures IsLead(Entries(stacks), k) && Entries(stacks)[k].service.uuid == id
    ensures k < |AllVariants(stacks)| &&
      AllVariants(stacks)[k] == Sort(VariantLess, VariantsOf(AllVariants(stacks), id))[0]
  {
    hide VariantLess, Precedes, Sort, VariantsOf, AllVariants, Entries, IsFirst;
    var all := AllVariants(stacks);
    var i := SortedFirst(VariantsOf(all, id));
    var positions := PositionsOf(all, id);
    FirstIsPosition(all, id, positions, i);
    k := positions[i];
    SameIDs(stacks);
    hide ArePositions;
    forall m | 0 <= m < |Entries(stacks)| && m != k && Entries(stacks)[m].service.uuid == id
      ensures if m < k then Precedes(Entries(stacks)[k], Entries(stacks)[m])
              else !Precedes(Entries(stacks)[m], Entries(stacks)[k])
    {
      FirstPrecedes(stacks, id, positions, i, m);
    }
  }

  lemma FirstIsPosition(all: seq<Service>, id: string, positions: seq<int>, i: nat)
    requires ArePositions(all, id, positions) && IsFirst(VariantsOf(all, id), i)
    ensures i < |positions| && 0 <= positions[i] < |all| && all[positions[i]] == VariantsOf(all, id)[i]
    ensures all[positions[i]].uuid == id
  {
    VariantsOfAre(all, id);
    hide VariantsOf, VariantLess;
  }

  lemma OneLead(entries: seq<Entry>, a: int, b: int)
    requires IsLead(entries, a) && IsLead(entries, b) && entries[a].service.uuid == entries[b].service.uuid
    ensures a == b
  {
    hide Precedes;
  }

  // ---- the views of a container ----

  /** `view` is a view of container `cid` that some variant of service `id` lists. */
  ghost predicate HasView(stacks: seq<Stack>, id: string, cid: string, view: View) {
    view.uuid == cid && exists e :: e in Entries(stacks) && e.service.uuid == id && view in e.service.containers
  }

  /** `value` is the one non-empty value the field has in these views, or empty if it has none. */
  ghost predicate IsValue(stacks: seq<Stack>, id: string, cid: string, field: View -> string, value: string) {
    && (forall view :: HasView(stacks, id, cid, view) ==> field(view) == "" || field(view) == value)
    && (value != "" ==> exists view :: HasView(stacks, id, cid, view) && field(view) == value)
  }

  /** The merged container says what its views say. */
  ghost predicate SaysOf(stacks: seq<Stack>, id: string, c: View) {
    && (exists view :: HasView(stacks, id, c.uuid, view))
    && SaysFields(stacks, id, c) && SaysFlags(stacks, id, c) && SaysLabels(stacks, id, c) && SaysLinks(stacks, id, c)
  }

  ghost predicate SaysFields(stacks: seq<Stack>, id: string, c: View) {
    && IsValue(stacks, id, c.uuid, (v: View) => v.hostUUID, c.hostUUID)
    && IsValue(stacks, id, c.uuid, (v: View) => v.stackUUID, c.stackUUID)
    && IsValue(stacks, id, c.uuid, (v: View) => v.networkUUID, c.networkUUID)
    && IsValue(stacks, id, c.uuid, (v: View) => v.primaryIP, c.primaryIP)
  }

  ghost predicate SaysFlags(stacks: seq<Stack>, id: string, c: View) {
    && (c.system <==> exists view :: HasView(stacks, id, c.uuid, view) && view.system)
    && (c.state == "running" <==> exists view :: HasView(stacks, id, c.uuid, view) && view.state == "running")
  }

  ghost predicate SaysLabels(stacks: seq<Stack>, id: string, c: View) {
    && (forall view, k :: HasView(stacks, id, c.uuid, view) && k in view.labels ==>
          k in c.labels && c.labels[k] == view.labels[k])
    && (forall k :: k in c.labels ==> exists view :: HasView(stacks, id, c.uuid, view) && k in view.labels)
  }

  ghost predicate SaysLinks(stacks: seq<Stack>, id: string, c: View) {
    forall l :: l != "" ==> (l in c.links <==> exists view :: HasView(stacks, id, c.uuid, view) && l in view.links)
  }

  lemma EntryOf(stacks: seq<Stack>, v: Service) returns (e: Entry)
    requires v in AllVariants(stacks)
    ensures e in Entries(stacks) && e.service.uuid == v.uuid && e.service.containers == v.containers
    ensures e.service.system == v.system && OwnStack(e) == v.stackUUID && e.service.links == v.links
  {
    hide AllVariants, Entries, OwnStack, PathOf, PathIn;
    EntriesAre(stacks);
    var k :| 0 <= k < |AllVariants(stacks)| && AllVariants(stacks)[k] == v;
    VariantIs(stacks, k);
    e := Entries(stacks)[k];
  }

  lemma VariantFor(stacks: seq<Stack>, e: Entry) returns (v: Service)
    requires e in Entries(stacks)
    ensures v in AllVariants(stacks) && e.service.uuid == v.uuid && e.service.containers == v.containers
    ensures e.service.system == v.system && OwnStack(e) == v.stackUUID && e.service.links == v.links
  {
    hide AllVariants, Entries, OwnStack, PathOf, PathIn;
    EntriesAre(stacks);
    var k :| 0 <= k < |Entries(stacks)| && Entries(stacks)[k] == e;
    VariantIs(stacks, k);
    v := AllVariants(stacks)[k];
  }

  /** The views the builder merges are the listed ones. */
  lemma MergedViewsAreListed(stacks: seq<Stack>, id: string, view: View)
    ensures view in AllViews(Sort(VariantLess, VariantsOf(AllVariants(stacks), id))) <==>
      HasView(stacks, id, view.uuid, view)
  {
    hide AllVariants, Entries, VariantLess, Sort, VariantsOf, AllViews, OwnStack;
    var variants := VariantsOf(AllVariants(stacks), id);
    var sorted := Sort(VariantLess, variants);
    SameMembers(sorted, variants);
    AllViewsAre(sorted);
    VariantsOfAre(AllVariants(stacks), id);
    if view in AllViews(sorted) {
      var v :| v in sorted && view in v.containers;
      var e := EntryOf(stacks, v);
    }
    if HasView(stacks, id, view.uuid, view) {
      var e :| e in Entries(stacks) && e.service.uuid == id && view in e.service.containers;
      var v := VariantFor(stacks, e);
      assert v in sorted;
    }
  }

  ghost predicate AreViews(stacks: seq<Stack>, id: string, cid: string, views: set<View>) {
    forall view :: view in views <==> HasView(stacks, id, cid, view)
  }

  lemma JoinSaysFields(stacks: seq<Stack>, id: string, views: set<View>, c: View)
    requires IsJoin(views, c) && AreViews(stacks, id, c.uuid, views)
    ensures SaysFields(stacks, id, c)
  {
    assert forall v :: Fields(v) == [v.hostUUID, v.stackUUID, v.serviceUUID, v.networkUUID, v.primaryIP];
    hide HasView, IsJoin, AreViews, IsValue;
    JoinValue(stacks, id, views, c, 0, (v: View) => v.hostUUID);
    JoinValue(stacks, id, views, c, 1, (v: View) => v.stackUUID);
    JoinValue(stacks, id, views, c, 3, (v: View) => v.networkUUID);
    JoinValue(stacks, id, views, c, 4, (v: View) => v.primaryIP);
  }

  lemma JoinSaysRest(stacks: seq<Stack>, id: string, views: set<View>, c: View)
    requires IsJoin(views, c) && AreViews(stacks, id, c.uuid, views)
    ensures SaysFlags(stacks, id, c) && SaysLabels(stacks, id, c) && SaysLinks(stacks, id, c)
  {
    hide HasView, Fields;
  }

  lemma JoinSays(stacks: seq<Stack>, id: string, views: set<View>, c: View)
    requires IsJoin(views, c) && views != {} && AreViews(stacks, id, c.uuid, views)
    ensures SaysOf(stacks, id, c)
  {
    var some :| some in views;
    assert HasView(stacks, id, c.uuid, some);
    hide HasView, IsJoin, AreViews, SaysFields, SaysFlags, SaysLabels, SaysLinks;
    JoinSaysFields(stacks, id, views, c);
    JoinSaysRest(stacks, id, views, c);
  }

  lemma JoinValue(stacks: seq<Stack>, id: string, views: set<View>, c: View, i: nat, field: View -> string)
    requires IsJoin(views, c) && AreViews(stacks, id, c.uuid, views)
    requires i < 5 && forall v :: field(v) == Fields(v)[i]
    ensures IsValue(stacks, id, c.uuid, field, field(c))
  {
    hide HasView, Fields;
  }

  /** What is known of a container of a canonical service. */
  lemma MergedContainer(variants: seq<Service>, c: View)
    requires VariantsMerge(variants) && c in CanonicalService(variants).containers
    ensures var views := AllViews(Sort(VariantLess, variants));
      && c.uuid != "" && c.uuid in ContainerIDs(views) && ViewsOf(views, c.uuid) != []
      && Fold(ViewsOf(views, c.uuid)) == Some(c)
  {
    var views := AllViews(Sort(VariantLess, variants));
    hide Fold, Sort, VariantLess, AllViews, ContainerIDs, ViewsOf;
    var merged := MergedViews(views);
    var ids := StrList(merged.Keys);
    ListedContainers(merged);
    var i :| 0 <= i < |ids| && merged[ids[i]] == c;
    assert ids[i] in Elems(ids);
    ContainerHasID(views, ids[i]);
  }

  lemma ContainerHasID(views: seq<View>, id: string)
    requires id in ContainerIDs(views) && ViewsMerge(views)
    ensures id != "" && Fold(ViewsOf(views, id)).value.uuid == id
  {
    ViewsOfKnown(views, id);
    hide ViewsOf, Fold;
    FoldKeepsUuid(ViewsOf(views, id));
  }

  lemma ContainerSays(stacks: seq<Stack>, id: string, c: View)
    requires VariantsMerge(VariantsOf(AllVariants(stacks), id))
    requires c in CanonicalService(VariantsOf(AllVariants(stacks), id)).containers
    ensures c.uuid != "" && SaysOf(stacks, id, c)
  {
    hide AllVariants, VariantsOf, VariantLess, Sort, AllViews, VariantsMerge, CanonicalService, ContainerIDs, HasView,
      SaysOf, IsJoin;
    var variants := VariantsOf(AllVariants(stacks), id);
    var views := AllViews(Sort(VariantLess, variants));
    MergedContainer(variants, c);
    ViewsOfKnown(views, c.uuid);
    hide ViewsOf, Fold;
    var own := ViewsOf(views, c.uuid);
    FoldIsJoin(own);
    forall view ensures view in Elems(own) <==> HasView(stacks, id, c.uuid, view) {
      MergedViewsAreListed(stacks, id, view);
      if HasView(stacks, id, c.uuid, view) { ViewHasID(stacks, id, c.uuid, view); }
    }
    assert own[0] in Elems(own);
    JoinSays(stacks, id, Elems(own), c);
  }

  lemma ViewHasID(stacks: seq<Stack>, id: string, cid: string, view: View)
    requires HasView(stacks, id, cid, view)
    ensures view.uuid == cid
  {
  }

  /** Every listed container is merged into one of the service. */
  lemma ListedIsMerged(stacks: seq<Stack>, id: string, cid: string, view: View) returns (c: View)
    requires VariantsMerge(VariantsOf(AllVariants(stacks), id)) && HasView(stacks, id, cid, view) && cid != ""
    ensures c in CanonicalService(VariantsOf(AllVariants(stacks), id)).containers && c.uuid == cid
  {
    ViewHasID(stacks, id, cid, view);
    MergedViewsAreListed(stacks, id, view);
    hide AllVariants, VariantsOf, VariantLess, Sort, AllViews, HasView, Fold, ViewsOf;
    var variants := VariantsOf(AllVariants(stacks), id);
    var views := AllViews(Sort(VariantLess, variants));
    assert view.uuid in ContainerIDs(views);
    hide ContainerIDs;
    var merged := MergedViews(views);
    var ids := StrList(merged.Keys);
    ListedContainers(merged);
    assert cid in Elems(ids);
    var i :| 0 <= i < |ids| && ids[i] == cid;
    c := CanonicalService(variants).containers[i];
    ContainerHasID(views, cid);
  }

  // ---- who takes part ----

  /** Some view of container `cid` of service `id` knows its host, some view has it running, and
      the views put it on the network with an address inside its subnet. */
  ghost predicate Participates(stacks: seq<Stack>, n: NetworkReport, id: string, cid: string)
    requires n.subnet.Some?
  {
    && cid != ""
    && (exists view :: HasView(stacks, id, cid, view) && view.hostUUID != "")
    && (exists view :: HasView(stacks, id, cid, view) && view.state == "running")
    && IsValue(stacks, id, cid, (v: View) => v.networkUUID, n.uuid)
    && exists text, word: Word ::
         IsValue(stacks, id, cid, (v: View) => v.primaryIP, text) && IsDottedDecimal(text, word) &&
         IsInside(IPv4(word), n.subnet.value)
  }

  lemma OneValue(stacks: seq<Stack>, id: string, cid: string, field: View -> string, a: string, b: string)
    requires IsValue(stacks, id, cid, field, a) && IsValue(stacks, id, cid, field, b)
    ensures a == b
  {
    hide HasView;
  }

  lemma EligibleParticipates(stacks: seq<Stack>, n: NetworkReport, id: string, c: View)
    requires IsCandidate(n) && c.uuid != "" && SaysOf(stacks, id, c)
    ensures Eligible(c, n.uuid, n.subnet.value) <==> Participates(stacks, n, id, c.uuid)
  {
    hide HasView, IsDottedDecimal, ParseIPv4, Contains, IsInside, SaysLabels, SaysLinks;
    HostIsKnown(stacks, id, c);
    NetworkIs(stacks, id, c, n.uuid);
    AddressParticipates(stacks, n, id, c);
    hide IsValue;
  }

  lemma HostIsKnown(stacks: seq<Stack>, id: string, c: View)
    requires SaysFields(stacks, id, c)
    ensures c.hostUUID != "" <==> exists view :: HasView(stacks, id, c.uuid, view) && view.hostUUID != ""
  {
    hide HasView;
    assert IsValue(stacks, id, c.uuid, (v: View) => v.hostUUID, c.hostUUID);
  }

  lemma NetworkIs(stacks: seq<Stack>, id: string, c: View, network: string)
    requires SaysFields(stacks, id, c)
    ensures c.networkUUID == network <==> IsValue(stacks, id, c.uuid, (v: View) => v.networkUUID, network)
  {
    hide HasView, IsValue;
    if IsValue(stacks, id, c.uuid, (v: View) => v.networkUUID, network) {
      OneValue(stacks, id, c.uuid, (v: View) => v.networkUUID, c.networkUUID, network);
    }
  }

  lemma AddressParticipates(stacks: seq<Stack>, n: NetworkReport, id: string, c: View)
    requires IsCandidate(n) && SaysFields(stacks, id, c)
    ensures (ParseIPv4(c.primaryIP).Some? && Contains(n.subnet.value, ParseIPv4(c.primaryIP).value)) <==>
      exists text, word: Word ::
        IsValue(stacks, id, c.uuid, (v: View) => v.primaryIP, text) && IsDottedDecimal(text, word) &&
        IsInside(IPv4(word), n.subnet.value)
  {
    hide HasView, IsValue, IsDottedDecimal, Contains, IsInside;
    if ParseIPv4(c.primaryIP).Some? {
      AddressIsRead(c.primaryIP, ParseIPv4(c.primaryIP).value.word);
      ContainsIsInside(n.subnet.value, ParseIPv4(c.primaryIP).value);
    }
    hide ParseIPv4;
    if text, word: Word :| (
        IsValue(stacks, id, c.uuid, (v: View) => v.primaryIP, text) && IsDottedDecimal(text, word) &&
        IsInside(IPv4(word), n.subnet.value)) {
      OneValue(stacks, id, c.uuid, (v: View) => v.primaryIP, c.primaryIP, text);
      AddressIsRead(text, word);
      ContainsIsInside(n.subnet.value, IPv4(word));
    }
  }

  lemma ContextServices(n: NetworkReport, stacks: seq<Stack>, id: string)
    requires IsCandidate(n) && ServicesAccepted(stacks)
    ensures var x := ContextOf(n, stacks);
      && x.network == n.uuid && x.subnet == n.subnet.value && x.stackSystem == StackSystem(stacks)
      && (id in x.services <==> VariantsOf(AllVariants(stacks), id) != [])
      && (id in x.services ==> VariantsMerge(VariantsOf(AllVariants(stacks), id)))
      && (id in x.services ==> x.services[id] == CanonicalService(VariantsOf(AllVariants(stacks), id)))
  {
    hide AllVariants, VariantsOf, VariantsMerge, CanonicalService, VariantsAccepted, PathIndex, StackSystem, Primaries;
    VariantsOfAre(AllVariants(stacks), id);
    if VariantsOf(AllVariants(stacks), id) != [] {
      assert VariantsOf(AllVariants(stacks), id)[0] in VariantsOf(AllVariants(stacks), id);
    }
  }

  /** The participants of the builder are these. */
  lemma TakesParticipates(n: NetworkReport, stacks: seq<Stack>, id: string, cid: string)
    requires IsCandidate(n) && ServicesAccepted(stacks)
    ensures (exists c :: Takes(ContextOf(n, stacks), id, c) && c.uuid == cid) <==> Participates(stacks, n, id, cid)
  {
    hide AllVariants, VariantsOf, VariantsMerge, CanonicalService, ServicesAccepted, ContextOf, SaysOf, Eligible,
      IsValue, HasView,
      IsDottedDecimal, IsInside;
    var x := ContextOf(n, stacks);
    ContextServices(n, stacks, id);
    if c :| Takes(x, id, c) && c.uuid == cid {
      ContainerSays(stacks, id, c);
      EligibleParticipates(stacks, n, id, c);
    }
    if Participates(stacks, n, id, cid) {
      var view :| HasView(stacks, id, cid, view) && view.hostUUID != "";
      ListedHasVariants(stacks, id, cid, view);
      var c := ListedIsMerged(stacks, id, cid, view);
      ContainerSays(stacks, id, c);
      EligibleParticipates(stacks, n, id, c);
      assert Takes(x, id, c);
    }
  }

  lemma ListedHasVariants(stacks: seq<Stack>, id: string, cid: string, view: View)
    requires HasView(stacks, id, cid, view)
    ensures VariantsOf(AllVariants(stacks), id) != []
  {
    hide AllVariants, VariantsOf, Entries, OwnStack;
    var e :| e in Entries(stacks) && e.service.uuid == id && view in e.service.containers;
    var v := VariantFor(stacks, e);
    VariantsOfAre(AllVariants(stacks), id);
  }

  // ---- systems and primaries ----

  /** The last stack listed under the identifier is a system one. */
  ghost predicate LastIsSystem(stacks: seq<Stack>, id: string) {
    exists i ::
      && 0 <= i < |stacks| && stacks[i].uuid == id && stacks[i].system
      && forall j :: i < j < |stacks| ==> stacks[j].uuid != id
  }

  lemma {:induction false} StackSystemAsRead(stacks: seq<Stack>, id: string)
    ensures (id in StackSystem(stacks) && StackSystem(stacks)[id]) <==> LastIsSystem(stacks, id)
  {
    if stacks != [] {
      var n := |stacks| - 1;
      StackSystemAsRead(stacks[..n], id);
      if stacks[n].uuid == id {
        if stacks[n].system { assert LastIsSystem(stacks, id); }
      } else {
        if i :| (
            && 0 <= i < n && stacks[..n][i].uuid == id && stacks[..n][i].system
            && forall j :: i < j < n ==> stacks[..n][j].uuid != id) {
          assert forall j :: i < j < n ==> stacks[..n][j] == stacks[j];
          assert stacks[i].uuid == id;
        }
        if i :| (
            && 0 <= i < |stacks| && stacks[i].uuid == id && stacks[i].system
            && forall j :: i < j < |stacks| ==> stacks[j].uuid != id) {
          assert i < n && stacks[..n][i] == stacks[i];
        }
      }
    }
  }

  /** Some listed service has this path. */
  ghost predicate HasPath(entries: seq<Entry>, path: string, id: string) {
    exists t :: t in entries && PathIn(t, t.service.name) == path && t.service.uuid == id
  }

  /** The primary a variant names: another service that is listed under its path, or its own. */
  ghost predicate NamesPrimary(entries: seq<Entry>, e: Entry, p: string) {
    var path := PathIn(e, e.service.primaryServiceName);
    if e.service.primaryServiceName != "" && !IsOwnPrimary(e) && exists id :: HasPath(entries, path, id)
    then HasPath(entries, path, p) else p == e.service.uuid
  }

  /** `p` is the primary of service `id`: the one its lead names. */
  ghost predicate IsPrimaryOf(stacks: seq<Stack>, id: string, p: string) {
    exists k ::
      && IsLead(Entries(stacks), k) && Entries(stacks)[k].service.uuid == id
      && NamesPrimary(Entries(stacks), Entries(stacks)[k], p)
  }

  lemma EntryWithPath(stacks: seq<Stack>, v: Service) returns (e: Entry)
    requires v in AllVariants(stacks)
    ensures e in Entries(stacks) && PathIn(e, e.service.name) == PathOf(v) && e.service.uuid == v.uuid
  {
    hide AllVariants, Entries, OwnStack, PathOf, PathIn;
    EntriesAre(stacks);
    var k :| 0 <= k < |AllVariants(stacks)| && AllVariants(stacks)[k] == v;
    VariantIs(stacks, k);
    e := Entries(stacks)[k];
  }

  lemma VariantWithPath(stacks: seq<Stack>, e: Entry) returns (v: Service)
    requires e in Entries(stacks)
    ensures v in AllVariants(stacks) && PathIn(e, e.service.name) == PathOf(v) && e.service.uuid == v.uuid
  {
    hide AllVariants, Entries, OwnStack, PathOf, PathIn;
    EntriesAre(stacks);
    var k :| 0 <= k < |Entries(stacks)| && Entries(stacks)[k] == e;
    VariantIs(stacks, k);
    v := AllVariants(stacks)[k];
  }

  /** The table of paths holds what is listed, and one service per path. */
  lemma PathTable(stacks: seq<Stack>, path: string)
    requires VariantsAccepted(stacks)
    ensures path in PathIndex(AllVariants(stacks)) <==> exists id :: HasPath(Entries(stacks), path, id)
    ensures forall id :: HasPath(Entries(stacks), path, id) <==>
      path in PathIndex(AllVariants(stacks)) && PathIndex(AllVariants(stacks))[path] == id
  {
    var all := AllVariants(stacks);
    assert OneIDPerPath(PathOf, UUIDOf, all);
    hide AllVariants, Entries, OneIDPerPath, IndexBy, PathOf, PathIn, VariantsAccepted;
    IndexByIs(PathOf, UUIDOf, all);
    forall id | HasPath(Entries(stacks), path, id)
      ensures path in PathIndex(all) && PathIndex(all)[path] == id
    {
      var t :| t in Entries(stacks) && PathIn(t, t.service.name) == path && t.service.uuid == id;
      var v := VariantWithPath(stacks, t);
      SamePathSameIndex(PathOf, UUIDOf, all, v);
    }
    if path in PathIndex(all) {
      var v :| v in all && PathOf(v) == path && PathIndex(all)[path] == UUIDOf(v);
      var t := EntryWithPath(stacks, v);
      assert HasPath(Entries(stacks), path, t.service.uuid);
    }
  }

  /** The canonical service has the names of its lead. */
  lemma CanonicalLead(stacks: seq<Stack>, id: string) returns (k: nat)
    requires VariantsMerge(VariantsOf(AllVariants(stacks), id))
    ensures IsLead(Entries(stacks), k) && Entries(stacks)[k].service.uuid == id
    ensures var e, v := Entries(stacks)[k], CanonicalService(VariantsOf(AllVariants(stacks), id));
      && v.uuid == id && v.name == e.service.name && v.primaryServiceName == e.service.primaryServiceName
      && v.labels == e.service.labels && v.stackUUID == OwnStack(e) && v.stackName == OwnStackName(e)
  {
    assert VariantsOf(AllVariants(stacks), id) != [];
    hide AllVariants, Entries, VariantsOf, Sort, VariantLess, IsLead, ContainerList, MergedViews, AllViews,
      ViewsMerge, AnySystem,
      OwnStack, OwnStackName, PathOf, PathIn;
    k := LeadOf(stacks, id);
    VariantIs(stacks, k);
  }

  lemma PrimaryInContext(n: NetworkReport, stacks: seq<Stack>, id: string)
    requires IsCandidate(n) && ServicesAccepted(stacks) && id in ContextOf(n, stacks).services
    ensures var x := ContextOf(n, stacks);
      id in x.primaries && x.primaries[id] == PrimaryOf(id, x.services[id], PathIndex(AllVariants(stacks)))
  {
    hide AllVariants, VariantsAccepted, VariantsMerge, ServiceIndex, StackSystem, PrimaryOf, PathIndex;
  }

  lemma AcceptedVariants(stacks: seq<Stack>)
    requires ServicesAccepted(stacks)
    ensures VariantsAccepted(stacks)
  {
    hide VariantsAccepted, VariantsMerge, AllVariants, VariantsOf;
  }

  lemma PrimaryIsNamed(stacks: seq<Stack>, k: int, id: string)
    requires IsLead(Entries(stacks), k) && Entries(stacks)[k].service.uuid == id
    ensures forall p :: IsPrimaryOf(stacks, id, p) <==> NamesPrimary(Entries(stacks), Entries(stacks)[k], p)
  {
    hide Entries, Precedes, NamesPrimary;
    forall p ensures IsPrimaryOf(stacks, id, p) <==> NamesPrimary(Entries(stacks), Entries(stacks)[k], p) {
      if IsPrimaryOf(stacks, id, p) {
        var m :| IsLead(Entries(stacks), m) && Entries(stacks)[m].service.uuid == id &&
          NamesPrimary(Entries(stacks), Entries(stacks)[m], p);
        OneLead(Entries(stacks), k, m);
      }
    }
  }

  lemma PrimaryAsRead(n: NetworkReport, stacks: seq<Stack>, id: string)
    requires IsCandidate(n) && ServicesAccepted(stacks) && id in ContextOf(n, stacks).services
    ensures id in ContextOf(n, stacks).primaries
    ensures forall p :: IsPrimaryOf(stacks, id, p) <==> p == ContextOf(n, stacks).primaries[id]
  {
    hide AllVariants, Entries, VariantsOf, VariantsMerge, CanonicalService, PathIndex, Precedes, ContextOf,
      ServicesAccepted,
      VariantsAccepted, PrimaryOf, NamesPrimary, IsPrimaryOf, OwnStack, OwnStackName;
    var x := ContextOf(n, stacks);
    PrimaryInContext(n, stacks, id);
    ContextServices(n, stacks, id);
    var k := CanonicalLead(stacks, id);
    AcceptedVariants(stacks);
    PrimaryNamed(stacks, Entries(stacks)[k], x.services[id]);
    PrimaryIsNamed(stacks, k, id);
  }

  lemma PrimaryNamed(stacks: seq<Stack>, e: Entry, v: Service)
    requires VariantsAccepted(stacks) && v.uuid == e.service.uuid && v.name == e.service.name
    requires v.primaryServiceName == e.service.primaryServiceName && v.stackName == OwnStackName(e)
    ensures forall p :: NamesPrimary(Entries(stacks), e, p) <==>
      p == PrimaryOf(v.uuid, v, PathIndex(AllVariants(stacks)))
  {
    hide AllVariants, Entries, PathIndex, HasPath, VariantsAccepted, OwnStackName, Lower, Trim;
    PathTable(stacks, PathIn(e, e.service.primaryServiceName));
  }

  // ---- workloads ----

  /** Lower-cased keys of labels of the container's views and of the lead; a value of a view goes
      before one of the lead. */
  ghost predicate LabelsAreOf(stacks: seq<Stack>, id: string, cid: string, lead: LabelMap, labels: LabelMap) {
    && (forall view, k :: HasView(stacks, id, cid, view) && k in view.labels ==> Lower(k) in labels)
    && (forall k :: k in lead ==> Lower(k) in labels)
    && (forall l :: l in labels ==> LabelIsOf(stacks, id, cid, lead, l, labels[l]))
  }

  ghost predicate LabelIsOf(stacks: seq<Stack>, id: string, cid: string, lead: LabelMap, l: string, value: string) {
    if exists view, k :: HasKey(stacks, id, cid, view, k, l) then
      exists view, k :: HasKey(stacks, id, cid, view, k, l) && Lower(view.labels[k]) == value
    else exists k :: k in lead && Lower(k) == l && Lower(lead[k]) == value
  }

  /** The view has a label whose key lowers to `l`. */
  ghost predicate HasKey(stacks: seq<Stack>, id: string, cid: string, view: View, k: string, l: string) {
    HasView(stacks, id, cid, view) && k in view.labels && Lower(k) == l
  }

  /** What the workload says of its container, read off the stacks. */
  ghost predicate IsReported(stacks: seq<Stack>, n: NetworkReport, w: Workload)
    requires n.subnet.Some?
  {
    && Participates(stacks, n, w.serviceID, w.id)
    && IsValue(stacks, w.serviceID, w.id, (v: View) => v.hostUUID, w.hostID)
    && (w.ip.IPv4? && exists text ::
          IsValue(stacks, w.serviceID, w.id, (v: View) => v.primaryIP, text) && IsDottedDecimal(text, w.ip.word))
    && (forall e :: e in Entries(stacks) && e.service.uuid == w.serviceID ==> w.stackID == OwnStack(e))
    && IsPrimaryOf(stacks, w.serviceID, w.primaryServiceID)
    && (w.system <==> IsReportedSystem(stacks, w.stackID, w.serviceID, w.id))
    && exists k :: IsLead(Entries(stacks), k) && Entries(stacks)[k].service.uuid == w.serviceID &&
         LabelsAreOf(stacks, w.serviceID, w.id, Entries(stacks)[k].service.labels, w.labels)
  }

  /** Its stack is a system one, or some variant of its service is, or some view of it is. */
  ghost predicate IsReportedSystem(stacks: seq<Stack>, stackID: string, id: string, cid: string) {
    || LastIsSystem(stacks, stackID)
    || (exists e :: e in Entries(stacks) && e.service.uuid == id && e.service.system)
    || exists view :: HasView(stacks, id, cid, view) && view.system
  }

  lemma SystemServices(stacks: seq<Stack>, id: string)
    requires VariantsMerge(VariantsOf(AllVariants(stacks), id))
    ensures CanonicalService(VariantsOf(AllVariants(stacks), id)).system <==>
      exists e :: e in Entries(stacks) && e.service.uuid == id && e.service.system
  {
    hide AllVariants, Entries, VariantsOf, Sort, VariantLess, ContainerList, MergedViews, AllViews, ViewsMerge,
      AnySystem, OwnStack;
    var variants := VariantsOf(AllVariants(stacks), id);
    var sorted := Sort(VariantLess, variants);
    SomeSystem(sorted);
    SameMembers(sorted, variants);
    VariantsOfAre(AllVariants(stacks), id);
    if v :| v in sorted && v.system { var e := EntryOf(stacks, v); }
    if e :| e in Entries(stacks) && e.service.uuid == id && e.service.system {
      var v := VariantFor(stacks, e);
      assert v in sorted;
    }
  }

  lemma StacksOfService(stacks: seq<Stack>, id: string)
    requires VariantsMerge(VariantsOf(AllVariants(stacks), id))
    ensures forall e :: e in Entries(stacks) && e.service.uuid == id ==>
      OwnStack(e) == CanonicalService(VariantsOf(AllVariants(stacks), id)).stackUUID
  {
    var variants := VariantsOf(AllVariants(stacks), id);
    assert forall s, t :: s in variants && t in variants ==> s.stackUUID == t.stackUUID;
    hide AllVariants, Entries, VariantsOf, VariantsMerge, CanonicalService, OwnStack;
    VariantsOfAre(AllVariants(stacks), id);
    var first := FirstVariant(variants);
    forall e | e in Entries(stacks) && e.service.uuid == id
      ensures OwnStack(e) == CanonicalService(variants).stackUUID
    {
      var v := VariantFor(stacks, e);
    }
  }

  lemma FirstVariant(variants: seq<Service>) returns (v: Service)
    requires VariantsMerge(variants)
    ensures v in variants && v.stackUUID == CanonicalService(variants).stackUUID
  {
    hide AllViews, ContainerList, MergedViews, ViewsMerge, VariantLess, AnySystem;
    var sorted := Sort(VariantLess, variants);
    SameMembers(sorted, variants);
    hide Sort;
    v := sorted[0];
  }

  lemma LabelsAsRead(stacks: seq<Stack>, id: string, c: View, lead: LabelMap, labels: LabelMap)
    requires SaysLabels(stacks, id, c) && IsCombined(lead, c.labels, labels)
    ensures LabelsAreOf(stacks, id, c.uuid, lead, labels)
  {
    hide Lower, HasView, SaysLabels, IsLowered, LabelIsOf;
    var s, cl :| IsLowered(lead, s) && IsLowered(c.labels, cl) && labels == s + cl;
    forall view, k | HasView(stacks, id, c.uuid, view) && k in view.labels ensures Lower(k) in labels {
      ViewKeyLowers(stacks, id, c, cl, view, k);
    }
    forall k | k in lead ensures Lower(k) in labels { LeadKeyLowers(lead, s, k); }
    forall l | l in labels ensures LabelIsOf(stacks, id, c.uuid, lead, l, labels[l]) {
      LabelAsRead(stacks, id, c, lead, s, cl, l);
    }
  }

  lemma LabelAsRead(stacks: seq<Stack>, id: string, c: View, lead: LabelMap, s: LabelMap, cl: LabelMap, l: string)
    requires SaysLabels(stacks, id, c) && IsLowered(lead, s) && IsLowered(c.labels, cl) && l in s + cl
    ensures LabelIsOf(stacks, id, c.uuid, lead, l, (s + cl)[l])
  {
    hide Lower, HasView, SaysLabels, IsLowered;
    KeyIsViews(stacks, id, c, cl, l);
    if l !in cl { var k := LoweredFrom(lead, s, l); }
  }

  lemma ViewKeyLowers(stacks: seq<Stack>, id: string, c: View, cl: LabelMap, view: View, k: string)
    requires SaysLabels(stacks, id, c) && IsLowered(c.labels, cl) && HasView(stacks, id, c.uuid, view)
    requires k in view.labels
    ensures Lower(k) in cl
  {
    hide Lower, HasView;
  }

  lemma LeadKeyLowers(lead: LabelMap, s: LabelMap, k: string)
    requires IsLowered(lead, s) && k in lead
    ensures Lower(k) in s
  {
    hide Lower;
  }

  lemma LoweredFrom(labels: LabelMap, lowered: LabelMap, l: string) returns (k: string)
    requires IsLowered(labels, lowered) && l in lowered
    ensures k in labels && Lower(k) == l && Lower(labels[k]) == lowered[l]
  {
    hide Lower;
    k :| k in labels && Lower(k) == l && Lower(labels[k]) == lowered[l];
  }

  /** A key of the lowered container labels is that of a view's label, and has its value. */
  lemma KeyIsViews(stacks: seq<Stack>, id: string, c: View, cl: LabelMap, l: string)
    requires SaysLabels(stacks, id, c) && IsLowered(c.labels, cl)
    ensures l in cl <==> exists view, k :: HasKey(stacks, id, c.uuid, view, k, l)
    ensures l in cl ==> exists view, k :: HasKey(stacks, id, c.uuid, view, k, l) && Lower(view.labels[k]) == cl[l]
  {
    if l in cl {
      hide Lower, HasView, IsLowered;
      var k := LoweredFrom(c.labels, cl, l);
      var view := ViewWithLabel(stacks, id, c, k);
      assert HasKey(stacks, id, c.uuid, view, k, l);
    }
    if view, k :| HasKey(stacks, id, c.uuid, view, k, l) {
      hide Lower, HasView, SaysLabels, IsLowered;
      ViewKeyLowers(stacks, id, c, cl, view, k);
    }
  }

  lemma ViewWithLabel(stacks: seq<Stack>, id: string, c: View, k: string) returns (view: View)
    requires SaysLabels(stacks, id, c) && k in c.labels
    ensures HasView(stacks, id, c.uuid, view) && k in view.labels && view.labels[k] == c.labels[k]
  {
    hide HasView;
    view :| HasView(stacks, id, c.uuid, view) && k in view.labels;
  }

  lemma ReportedFields(n: NetworkReport, stacks: seq<Stack>, w: Workload, id: string, c: View)
    requires IsCandidate(n) && ServicesAccepted(stacks) && IsWorkloadFor(w, ContextOf(n, stacks), id, c)
    ensures w.serviceID == id && w.id == c.uuid && w.hostID == c.hostUUID && ParseIPv4(c.primaryIP) == Some(w.ip)
    ensures id in ContextOf(n, stacks).primaries && w.primaryServiceID == ContextOf(n, stacks).primaries[id]
    ensures Takes(ContextOf(n, stacks), id, c)
  {
    hide AllVariants, VariantsOf, VariantsMerge, CanonicalService, VariantsAccepted, PathIndex, StackSystem,
      Primaries, IsCombined,
      ParseIPv4, ContextOf, Eligible, IsSystem;
    ContextServices(n, stacks, id);
    CanonicalID(stacks, id);
  }

  lemma CanonicalID(stacks: seq<Stack>, id: string)
    requires VariantsMerge(VariantsOf(AllVariants(stacks), id))
    ensures CanonicalService(VariantsOf(AllVariants(stacks), id)).uuid == id
  {
    hide AllVariants, VariantsOf, VariantsMerge, CanonicalService, Entries, IsLead, OwnStack, OwnStackName;
    var k := CanonicalLead(stacks, id);
  }

  lemma WorkloadSystem(w: Workload, x: Context, id: string, c: View)
    requires IsWorkloadFor(w, x, id, c) && id in x.services && x.services[id].stackUUID != ""
    ensures w.stackID == x.services[id].stackUUID
    ensures w.system <==> (w.stackID in x.stackSystem && x.stackSystem[w.stackID]) || x.services[id].system || c.system
  {
    hide IsCombined, Takes, ParseIPv4;
  }

  lemma ReportedStack(n: NetworkReport, stacks: seq<Stack>, w: Workload, id: string, c: View)
    requires IsCandidate(n) && ServicesAccepted(stacks) && IsWorkloadFor(w, ContextOf(n, stacks), id, c)
    requires id in ContextOf(n, stacks).services && SaysFlags(stacks, id, c)
    ensures forall e :: e in Entries(stacks) && e.service.uuid == id ==> w.stackID == OwnStack(e)
    ensures w.system <==> IsReportedSystem(stacks, w.stackID, id, c.uuid)
  {
    hide AllVariants, VariantsOf, VariantsMerge, CanonicalService, VariantsAccepted, ServicesAccepted, StackSystem,
      ContextOf, Entries, OwnStack, Precedes, OwnStackName, LastIsSystem, HasView, IsWorkloadFor;
    var x := ContextOf(n, stacks);
    ContextServices(n, stacks, id);
    StacksOfService(stacks, id);
    SystemServices(stacks, id);
    var k := CanonicalLead(stacks, id);
    AcceptedVariants(stacks);
    LeadIsEntry(stacks, k);
    OwnStackIsKnown(stacks, Entries(stacks)[k]);
    StackSystemAsRead(stacks, w.stackID);
    WorkloadSystem(w, x, id, c);
  }

  lemma LeadIsEntry(stacks: seq<Stack>, k: int)
    requires IsLead(Entries(stacks), k)
    ensures Entries(stacks)[k] in Entries(stacks)
  {
    hide Entries;
  }

  lemma OwnStackIsKnown(stacks: seq<Stack>, e: Entry)
    requires VariantsAccepted(stacks) && e in Entries(stacks)
    ensures OwnStack(e) != ""
  {
    EntriesList(stacks);
    hide Entries, AllVariants, Listed;
  }

  lemma WorkloadIsReported(n: NetworkReport, stacks: seq<Stack>, w: Workload, id: string, c: View)
    requires IsCandidate(n) && ServicesAccepted(stacks) && IsWorkloadFor(w, ContextOf(n, stacks), id, c)
    ensures IsReported(stacks, n, w)
  {
    hide ServicesAccepted, ContextOf, IsWorkloadFor, Participates, IsValue, IsDottedDecimal, IsLead, Entries,
      LabelsAreOf,
      OwnStack, IsReportedSystem, IsPrimaryOf, ParseIPv4, SaysLabels, SaysLinks, SaysFlags, SaysFields, HasView, Takes,
      VariantsMerge, AllVariants, VariantsOf;
    var x := ContextOf(n, stacks);
    ReportedFields(n, stacks, w, id, c);
    TakesIsListed(x, id, c);
    ContainerOf(n, stacks, id, c);
    TakesParticipates(n, stacks, id, c.uuid);
    ReportedValues(stacks, id, c, w);
    PrimaryAsRead(n, stacks, id);
    ReportedStack(n, stacks, w, id, c);
    ReportedLabels(n, stacks, w, id, c);
  }

  lemma ReportedValues(stacks: seq<Stack>, id: string, c: View, w: Workload)
    requires SaysFields(stacks, id, c) && w.hostID == c.hostUUID && ParseIPv4(c.primaryIP) == Some(w.ip)
    ensures IsValue(stacks, id, c.uuid, (v: View) => v.hostUUID, w.hostID)
    ensures w.ip.IPv4? && exists text ::
      IsValue(stacks, id, c.uuid, (v: View) => v.primaryIP, text) && IsDottedDecimal(text, w.ip.word)
  {
    assert w.ip.IPv4?;
    hide ParseIPv4, IsDottedDecimal, IsValue;
    AddressIsRead(c.primaryIP, w.ip.word);
  }

  lemma TakesIsListed(x: Context, id: string, c: View)
    requires Takes(x, id, c)
    ensures id in x.services && c in x.services[id].containers
  {
    hide Eligible;
  }

  lemma ContainerOf(n: NetworkReport, stacks: seq<Stack>, id: string, c: View)
    requires IsCandidate(n) && ServicesAccepted(stacks) && id in ContextOf(n, stacks).services
    requires c in ContextOf(n, stacks).services[id].containers
    ensures SaysOf(stacks, id, c) && VariantsMerge(VariantsOf(AllVariants(stacks), id))
  {
    hide AllVariants, VariantsOf, VariantsMerge, CanonicalService, ServicesAccepted, ContextOf, SaysOf;
    ContextServices(n, stacks, id);
    ContainerSays(stacks, id, c);
  }

  lemma ReportedLabels(n: NetworkReport, stacks: seq<Stack>, w: Workload, id: string, c: View)
    requires IsCandidate(n) && ServicesAccepted(stacks) && IsWorkloadFor(w, ContextOf(n, stacks), id, c)
    ensures exists k ::
      && IsLead(Entries(stacks), k) && Entries(stacks)[k].service.uuid == id
      && LabelsAreOf(stacks, id, c.uuid, Entries(stacks)[k].service.labels, w.labels)
  {
    var x := ContextOf(n, stacks);
    assert Takes(x, id, c) && IsCombined(x.services[id].labels, c.labels, w.labels);
    hide AllVariants, VariantsOf, VariantsMerge, CanonicalService, ServicesAccepted, ContextOf, SaysFields,
      SaysLabels, SaysLinks,
      SaysFlags, IsWorkloadFor, Entries, IsLead, LabelsAreOf, IsCombined, OwnStack, OwnStackName, Eligible;
    ContainerOf(n, stacks, id, c);
    ContextServices(n, stacks, id);
    var k := CanonicalLead(stacks, id);
    LabelsAsRead(stacks, id, c, Entries(stacks)[k].service.labels, w.labels);
  }

  /** Every workload of a snapshot is reported so, and every container that takes part has one. */
  lemma SnapshotWorkloadsAsRead(s: Snapshot, input: Input, n: NetworkReport)
    requires IsSnapshotOf(s, input) && IsSelected(input.networks, n)
    ensures n.subnet.Some? && forall w :: w in s.workloads ==> IsReported(input.stacks, n, w)
    ensures forall id, cid :: Participates(input.stacks, n, id, cid) ==>
      exists w :: w in s.workloads && w.id == cid && w.serviceID == id
    ensures forall i, j :: 0 <= i < j < |s.workloads| ==> s.workloads[i].id != s.workloads[j].id
  {
    hide IsSnapshotOf, WellFormed, IsNormalPolicy, PolicyAccepted, AreServiceLinksOf, AreContainerLinksOf,
      IsSelected, IsNormalFormOf, ContextOf, VariantsAccepted, VariantsMerge, IsReported, Participates, IsWorkloadFor,
      Takes;
    SnapshotParts(s, input, n);
    var x := ContextOf(n, input.stacks);
    forall w | w in s.workloads ensures IsReported(input.stacks, n, w) {
      var id, c :| IsWorkloadFor(w, x, id, c);
      WorkloadIsReported(n, input.stacks, w, id, c);
    }
    forall id, cid | Participates(input.stacks, n, id, cid)
      ensures exists w :: w in s.workloads && w.id == cid && w.serviceID == id
    {
      TakesParticipates(n, input.stacks, id, cid);
      var c :| Takes(x, id, c) && c.uuid == cid;
      var w :| w in s.workloads && w.id == cid;
      var id2, c2 :| IsWorkloadFor(w, x, id2, c2);
      ReportedFields(n, input.stacks, w, id2, c2);
    }
  }

  // ---- links ----

  /** What a link name is looked up as: a path, or a name in the stack of the variant. */
  function LookupPath(e: Entry, name: string): string {
    Lower(if '/' in Trim(name) then Trim(name) else OwnStackName(e) + "/" + Trim(name))
  }

  ghost predicate LooksUp(entries: seq<Entry>, e: Entry, name: string, id: string) {
    Trim(name) != "" && HasPath(entries, LookupPath(e, name), id)
  }

  /** The link under `key` leads to service `id`: by its key, or by its value if the key leads
      nowhere. */
  ghost predicate LeadsTo(entries: seq<Entry>, e: Entry, key: string, id: string) {
    key in e.service.links &&
    (LooksUp(entries, e, key, id) ||
     (LooksUp(entries, e, e.service.links[key], id) && forall other :: !LooksUp(entries, e, key, other)))
  }

  /** Some variant of a service under primary `from` has a link to a service under primary `to`. */
  ghost predicate IsServiceLink(stacks: seq<Stack>, from: string, to: string) {
    exists e, key, id ::
      && e in Entries(stacks) && LeadsTo(Entries(stacks), e, key, id)
      && IsPrimaryOf(stacks, e.service.uuid, from) && IsPrimaryOf(stacks, id, to)
  }

  /** Some view of a container that takes part has a link. */
  ghost predicate IsContainerLink(stacks: seq<Stack>, n: NetworkReport, from: string, to: string)
    requires n.subnet.Some?
  {
    && to != ""
    && exists id, view :: Participates(stacks, n, id, from) && HasView(stacks, id, from, view) && to in view.links
  }

  lemma ResolvesAsRead(stacks: seq<Stack>, e: Entry, name: string)
    requires VariantsAccepted(stacks)
    ensures forall id :: ResolveServiceLink(OwnStackName(e), name, PathIndex(AllVariants(stacks))) == Some(id) <==>
      LooksUp(Entries(stacks), e, name, id)
  {
    hide VariantsAccepted, AllVariants, Entries, PathIndex, HasPath, Lower, Trim, OwnStackName;
    PathTable(stacks, LookupPath(e, name));
  }

  lemma TargetAsRead(stacks: seq<Stack>, e: Entry, key: string, value: string)
    requires VariantsAccepted(stacks)
    ensures forall id :: LinkTarget(OwnStackName(e), key, value, PathIndex(AllVariants(stacks))) == Some(id) <==>
      LooksUp(Entries(stacks), e, key, id) ||
      (LooksUp(Entries(stacks), e, value, id) && forall other :: !LooksUp(Entries(stacks), e, key, other))
  {
    NothingResolves(OwnStackName(e), PathIndex(AllVariants(stacks)));
    hide VariantsAccepted, AllVariants, Entries, PathIndex, ResolveServiceLink, LooksUp, OwnStackName;
    ResolvesAsRead(stacks, e, key);
    ResolvesAsRead(stacks, e, value);
  }

  lemma NothingResolves(stack: string, byPath: map<string, string>)
    ensures ResolveServiceLink(stack, "", byPath).None?
  {
    assert Trim("") == "";
  }

  lemma PrimaryIsKnown(n: NetworkReport, stacks: seq<Stack>, id: string)
    requires IsCandidate(n) && ServicesAccepted(stacks)
    ensures forall p :: IsPrimaryOf(stacks, id, p) <==>
      id in ContextOf(n, stacks).primaries && ContextOf(n, stacks).primaries[id] == p
  {
    hide AllVariants, Entries, VariantsOf, VariantsMerge, CanonicalService, PathIndex, Precedes, ContextOf,
      ServicesAccepted,
      VariantsAccepted, PrimaryOf, NamesPrimary, OwnStack, OwnStackName;
    var x := ContextOf(n, stacks);
    ContextServices(n, stacks, id);
    SameKeys(n, stacks);
    if id in x.services {
      PrimaryAsRead(n, stacks, id);
    } else if p :| IsPrimaryOf(stacks, id, p) {
      var k :| IsLead(Entries(stacks), k) && Entries(stacks)[k].service.uuid == id;
      LeadIsEntry(stacks, k);
      var v := VariantFor(stacks, Entries(stacks)[k]);
      VariantsOfAre(AllVariants(stacks), id);
    }
  }

  lemma SameKeys(n: NetworkReport, stacks: seq<Stack>)
    requires IsCandidate(n) && ServicesAccepted(stacks)
    ensures ContextOf(n, stacks).primaries.Keys == ContextOf(n, stacks).services.Keys
  {
    hide AllVariants, VariantsAccepted, VariantsMerge, ServiceIndex, StackSystem, PrimaryOf, PathIndex;
  }

  /** The facts about an entry and its variant that links need. */
  ghost predicate SameLinks(e: Entry, v: Service) {
    v.uuid == e.service.uuid && v.stackName == OwnStackName(e) && v.links == e.service.links
  }

  lemma EntryWithLinks(stacks: seq<Stack>, v: Service) returns (e: Entry)
    requires v in AllVariants(stacks)
    ensures e in Entries(stacks) && SameLinks(e, v)
  {
    hide AllVariants, Entries, OwnStack, OwnStackName, PathOf, PathIn;
    EntriesAre(stacks);
    var k :| 0 <= k < |AllVariants(stacks)| && AllVariants(stacks)[k] == v;
    VariantIs(stacks, k);
    e := Entries(stacks)[k];
  }

  lemma VariantWithLinks(stacks: seq<Stack>, e: Entry) returns (v: Service)
    requires e in Entries(stacks)
    ensures v in AllVariants(stacks) && SameLinks(e, v)
  {
    hide AllVariants, Entries, OwnStack, OwnStackName, PathOf, PathIn;
    EntriesAre(stacks);
    var k :| 0 <= k < |Entries(stacks)| && Entries(stacks)[k] == e;
    VariantIs(stacks, k);
    v := AllVariants(stacks)[k];
  }

  lemma DeclaresAsRead(
    n: NetworkReport, stacks: seq<Stack>, e: Entry, v: Service, key: string, from: string, to: string)
    requires IsCandidate(n) && ServicesAccepted(stacks) && SameLinks(e, v)
    ensures Declares(v, key, PathIndex(AllVariants(stacks)), ContextOf(n, stacks).primaries, from, to) <==>
      exists id ::
        LeadsTo(Entries(stacks), e, key, id) && IsPrimaryOf(stacks, v.uuid, from) && IsPrimaryOf(stacks, id, to)
  {
    hide AllVariants, Entries, VariantsMerge, PathIndex, ContextOf, ServicesAccepted, VariantsAccepted, IsPrimaryOf,
      LinkTarget,
      LooksUp, OwnStackName;
    if key in v.links {
      AcceptedVariants(stacks);
      TargetAsRead(stacks, e, key, v.links[key]);
      PrimaryIsKnown(n, stacks, v.uuid);
      var target := LinkTarget(v.stackName, key, v.links[key], PathIndex(AllVariants(stacks)));
      assert forall id :: target == Some(id) <==> LeadsTo(Entries(stacks), e, key, id);
      if target.Some? {
        PrimaryIsKnown(n, stacks, target.value);
        assert LeadsTo(Entries(stacks), e, key, target.value);
      }
    }
  }

  lemma DeclaredAsRead(n: NetworkReport, stacks: seq<Stack>, from: string, to: string)
    requires IsCandidate(n) && ServicesAccepted(stacks)
    ensures var all := AllVariants(stacks);
      LinkDeclared(all, PathIndex(all), ContextOf(n, stacks).primaries, from, to) <==> IsServiceLink(stacks, from, to)
  {
    hide AllVariants, Entries, VariantsMerge, PathIndex, ContextOf, ServicesAccepted, IsPrimaryOf, Declares, LeadsTo,
      OwnStackName;
    if LinkDeclared(AllVariants(stacks), PathIndex(AllVariants(stacks)), ContextOf(n, stacks).primaries, from, to) {
      var v, key :| v in AllVariants(stacks) &&
        Declares(v, key, PathIndex(AllVariants(stacks)), ContextOf(n, stacks).primaries, from, to);
      var e := EntryWithLinks(stacks, v);
      DeclaresAsRead(n, stacks, e, v, key, from, to);
    }
    if IsServiceLink(stacks, from, to) {
      var e, key, id :| (
        && e in Entries(stacks) && LeadsTo(Entries(stacks), e, key, id)
        && IsPrimaryOf(stacks, e.service.uuid, from) && IsPrimaryOf(stacks, id, to));
      var v := VariantWithLinks(stacks, e);
      DeclaresAsRead(n, stacks, e, v, key, from, to);
    }
  }

  lemma ContainerLinkAsRead(n: NetworkReport, stacks: seq<Stack>, from: string, to: string)
    requires IsCandidate(n) && ServicesAccepted(stacks)
    ensures (to != "" && exists id, c :: Takes(ContextOf(n, stacks), id, c) && c.uuid == from && to in c.links) <==>
      IsContainerLink(stacks, n, from, to)
  {
    hide ServicesAccepted, ContextOf, Takes, Participates, HasView, VariantsMerge, AllVariants, VariantsOf,
      SaysFields, SaysFlags,
      SaysLabels;
    var x := ContextOf(n, stacks);
    if to != "" && exists id, c :: Takes(x, id, c) && c.uuid == from && to in c.links {
      var id, c :| Takes(x, id, c) && c.uuid == from && to in c.links;
      TakesIsListed(x, id, c);
      ContainerOf(n, stacks, id, c);
      TakesParticipates(n, stacks, id, from);
      var view :| HasView(stacks, id, from, view) && to in view.links;
    }
    if IsContainerLink(stacks, n, from, to) {
      var id, view :| Participates(stacks, n, id, from) && HasView(stacks, id, from, view) && to in view.links;
      TakesParticipates(n, stacks, id, from);
      var c :| Takes(x, id, c) && c.uuid == from;
      TakesIsListed(x, id, c);
      ContainerOf(n, stacks, id, c);
    }
  }

  /** The link lists of a snapshot: exactly the links that are reported, ascending. */
  lemma SnapshotLinksAsRead(s: Snapshot, input: Input, n: NetworkReport)
    requires IsSnapshotOf(s, input) && IsSelected(input.networks, n)
    ensures n.subnet.Some?
    ensures forall from, to :: (from in s.serviceLinks && to in s.serviceLinks[from]) <==>
      IsServiceLink(input.stacks, from, to)
    ensures forall from, to ::
      (from in s.containerLinks && to in s.containerLinks[from]) <==> IsContainerLink(input.stacks, n, from, to)
    ensures forall from :: from in s.serviceLinks ==> Ascending(StrLess, s.serviceLinks[from])
    ensures forall from :: from in s.containerLinks ==> Ascending(StrLess, s.containerLinks[from])
  {
    hide IsSnapshotOf, WellFormed, IsNormalPolicy, PolicyAccepted, AreWorkloadsOf, WorkloadsFit, Ascending,
      IsSelected, IsNormalFormOf, ContextOf, VariantsAccepted, VariantsMerge, Takes, LinkDeclared, IsServiceLink,
      IsContainerLink;
    SnapshotParts(s, input, n);
    var x := ContextOf(n, input.stacks);
    forall from, to ensures HasLink(s.serviceLinks, from, to) <==> IsServiceLink(input.stacks, from, to) {
      DeclaredAsRead(n, input.stacks, from, to);
    }
    forall from, to ensures HasLink(s.containerLinks, from, to) <==> IsContainerLink(input.stacks, n, from, to) {
      ContainerLinkAsRead(n, input.stacks, from, to);
    }
  }
}
