/** Which metadata buildSnapshot accepts, and what a snapshot is as a whole, read off the input. */
module InputReading {
  import opened Ordering
  import opened Text
  import opened Network
  import opened Policy
  import opened Topology
  import opened Views
  import opened RuleReading
  import opened Metadata
  import opened SnapshotBuilder
  import opened MetadataLaws
  import opened SnapshotReading

  // ---- acceptance ----

  predicate IsUsable(n: NetworkReport) {
    n.isDefault && n.subnet.Some? && n.subnet.value.addr.IPv4? && 0 <= n.subnet.value.bits <= 32
  }

  /** The one default network with an IPv4 subnet. */
  ghost predicate IsOnlyUsable(networks: seq<NetworkReport>, n: NetworkReport) {
    exists i :: 0 <= i < |networks| && networks[i] == n && IsUsable(n) &&
      forall j :: 0 <= j < |networks| && j != i ==> !IsUsable(networks[j])
  }

  /** The policy of a network; no default action means allow. */
  ghost predicate HasPolicy(n: NetworkReport, policy: Policy) {
    n.rules.Some? &&
    IsNormalPolicyOf(
      Policy(if n.defaultPolicyAction == "" then "allow" else n.defaultPolicyAction, n.rules.value), policy)
  }

  /** The views that one service has of a container agree. */
  ghost predicate ViewsAgree(stacks: seq<Stack>, id: string, cid: string) {
    forall v, w :: HasView(stacks, id, cid, v) && HasView(stacks, id, cid, w) ==> NoContradiction(v, w)
  }

  /** All variants of a service have one stack. */
  ghost predicate HasOneStack(stacks: seq<Stack>, id: string) {
    forall e, f :: e in Entries(stacks) && f in Entries(stacks) && e.service.uuid == id && f.service.uuid == id ==>
      OwnStack(e) == OwnStack(f)
  }

  /** No path belongs to two services. */
  ghost predicate PathsAreUnique(entries: seq<Entry>) {
    forall e, f :: e in entries && f in entries && PathIn(e, e.service.name) == PathIn(f, f.service.name) ==>
      e.service.uuid == f.service.uuid
  }

  /** Not too many stacks and services, all of them identified. */
  ghost predicate AreIdentified(stacks: seq<Stack>) {
    && |stacks| <= 256 && (forall stack :: stack in stacks ==> stack.uuid != "")
    && |Entries(stacks)| <= 1024 && forall e :: e in Entries(stacks) ==> e.service.uuid != ""
  }

  ghost predicate AreConsistent(stacks: seq<Stack>) {
    && AreIdentified(stacks) && PathsAreUnique(Entries(stacks))
    && (forall id :: HasOneStack(stacks, id))
    && forall id, cid :: cid != "" ==> ViewsAgree(stacks, id, cid)
  }

  /** No container takes part under two services, and at most 4096 do. */
  ghost predicate FewTakePart(stacks: seq<Stack>, n: NetworkReport)
    requires n.subnet.Some?
  {
    && (forall id, id2, cid :: Participates(stacks, n, id, cid) && Participates(stacks, n, id2, cid) ==> id == id2)
    && exists ids: set<string> :: |ids| <= 4096 && forall id, cid :: Participates(stacks, n, id, cid) ==> cid in ids
  }

  /** One usable default network, a valid policy, and metadata that is not at odds with itself. */
  ghost predicate IsBuildable(input: Input) {
    exists n :: IsOnlyUsable(input.networks, n) && IsBuildableOn(input, n)
  }

  ghost predicate IsBuildableOn(input: Input, n: NetworkReport)
    requires n.subnet.Some?
  {
    (exists policy :: HasPolicy(n, policy)) && AreConsistent(input.stacks) && FewTakePart(input.stacks, n)
  }

  // ---- services ----

  lemma IdentifiedVariants(stacks: seq<Stack>)
    ensures |AllVariants(stacks)| == |Entries(stacks)|
    ensures (forall v :: v in AllVariants(stacks) ==> v.uuid != "") <==>
      forall e :: e in Entries(stacks) ==> e.service.uuid != ""
  {
    hide Entries, AllVariants, PathIn, PathOf;
    EntriesAre(stacks);
    if forall v :: v in AllVariants(stacks) ==> v.uuid != "" {
      forall e | e in Entries(stacks) ensures e.service.uuid != "" { var v := VariantWithPath(stacks, e); }
    }
    if forall e :: e in Entries(stacks) ==> e.service.uuid != "" {
      forall v | v in AllVariants(stacks) ensures v.uuid != "" { var e := EntryWithPath(stacks, v); }
    }
  }

  lemma UniquePaths(stacks: seq<Stack>)
    ensures OneIDPerPath(PathOf, UUIDOf, AllVariants(stacks)) <==> PathsAreUnique(Entries(stacks))
  {
    hide Entries, AllVariants, PathIn, PathOf;
    if OneIDPerPath(PathOf, UUIDOf, AllVariants(stacks)) {
      var entries := Entries(stacks);
      forall e, f | e in entries && f in entries && PathIn(e, e.service.name) == PathIn(f, f.service.name)
        ensures e.service.uuid == f.service.uuid
      {
        var v := VariantWithPath(stacks, e);
        var w := VariantWithPath(stacks, f);
        assert UUIDOf(v) == UUIDOf(w);
      }
    }
    if PathsAreUnique(Entries(stacks)) {
      forall v, w | v in AllVariants(stacks) && w in AllVariants(stacks) && PathOf(v) == PathOf(w)
        ensures UUIDOf(v) == UUIDOf(w)
      {
        var e := EntryWithPath(stacks, v);
        var f := EntryWithPath(stacks, w);
      }
    }
  }

  lemma VariantsAreListed(stacks: seq<Stack>)
    ensures VariantsAccepted(stacks) <==> AreIdentified(stacks) && PathsAreUnique(Entries(stacks))
  {
    IdentifiedVariants(stacks);
    UniquePaths(stacks);
    hide Entries, AllVariants, OneIDPerPath, PathsAreUnique;
    assert forall v :: UUIDOf(v) == v.uuid;
  }

  lemma OneStack(stacks: seq<Stack>, id: string)
    ensures (forall s, t :: s in VariantsOf(AllVariants(stacks), id) && t in VariantsOf(AllVariants(stacks), id) ==>
               s.uuid == t.uuid && s.stackUUID == t.stackUUID) <==> HasOneStack(stacks, id)
  {
    hide AllVariants, Entries, VariantsOf, OwnStack;
    var variants := VariantsOf(AllVariants(stacks), id);
    VariantsOfAre(AllVariants(stacks), id);
    if HasOneStack(stacks, id) {
      forall s, t | s in variants && t in variants ensures s.uuid == t.uuid && s.stackUUID == t.stackUUID {
        var e := EntryOf(stacks, s);
        var f := EntryOf(stacks, t);
      }
    }
    if forall s, t :: s in variants && t in variants ==> s.uuid == t.uuid && s.stackUUID == t.stackUUID {
      forall e, f | e in Entries(stacks) && f in Entries(stacks) && e.service.uuid == id && f.service.uuid == id
        ensures OwnStack(e) == OwnStack(f)
      {
        var s := VariantFor(stacks, e);
        var t := VariantFor(stacks, f);
      }
    }
  }

  function ViewsIn(stacks: seq<Stack>, id: string): seq<View> {
    AllViews(Sort(VariantLess, VariantsOf(AllVariants(stacks), id)))
  }

  lemma OwnViews(stacks: seq<Stack>, id: string, cid: string)
    ensures forall v :: v in ViewsOf(ViewsIn(stacks, id), cid) <==> HasView(stacks, id, cid, v)
    ensures cid in ContainerIDs(ViewsIn(stacks, id)) <==> cid != "" && exists v :: HasView(stacks, id, cid, v)
    ensures ViewsOf(ViewsIn(stacks, id), cid) != [] <==> exists v :: HasView(stacks, id, cid, v)
  {
    ViewsOfKnown(ViewsIn(stacks, id), cid);
    hide AllVariants, Sort, VariantLess, VariantsOf, AllViews, Entries, ViewsOf;
    forall v ensures v in ViewsOf(ViewsIn(stacks, id), cid) <==> HasView(stacks, id, cid, v) {
      MergedViewsAreListed(stacks, id, v);
    }
    hide HasView;
    var own := ViewsOf(ViewsIn(stacks, id), cid);
    if own != [] { assert own[0] in own; }
  }

  lemma ViewsAgreeAsRead(stacks: seq<Stack>, id: string, cid: string)
    requires cid != ""
    ensures (cid in ContainerIDs(ViewsIn(stacks, id)) ==>
               ViewsOf(ViewsIn(stacks, id), cid) != [] && Fold(ViewsOf(ViewsIn(stacks, id), cid)).Some?) <==>
      ViewsAgree(stacks, id, cid)
  {
    AgreeIs();
    OwnViews(stacks, id, cid);
    hide ViewsIn, ViewsOf, HasView, ContainerIDs, Fold, Agree, NoContradiction, IsJoin;
    var own := ViewsOf(ViewsIn(stacks, id), cid);
    if own != [] { FoldIsJoin(own); }
  }

  lemma ViewsAsRead(stacks: seq<Stack>, id: string)
    ensures ViewsMerge(ViewsIn(stacks, id)) <==> forall cid :: cid != "" ==> ViewsAgree(stacks, id, cid)
  {
    assert "" !in ContainerIDs(ViewsIn(stacks, id));
    hide ViewsIn, ViewsOf, ContainerIDs, Fold, ViewsAgree;
    forall cid | cid != ""
      ensures ViewsAgree(stacks, id, cid) <==>
        (cid in ContainerIDs(ViewsIn(stacks, id)) ==>
           ViewsOf(ViewsIn(stacks, id), cid) != [] && Fold(ViewsOf(ViewsIn(stacks, id), cid)).Some?)
    {
      ViewsAgreeAsRead(stacks, id, cid);
    }
  }

  lemma ServiceAsRead(stacks: seq<Stack>, id: string)
    requires VariantsOf(AllVariants(stacks), id) != []
    ensures VariantsMerge(VariantsOf(AllVariants(stacks), id)) <==>
      HasOneStack(stacks, id) && forall cid :: cid != "" ==> ViewsAgree(stacks, id, cid)
  {
    hide AllVariants, Sort, VariantLess, VariantsOf, AllViews, ViewsMerge, HasOneStack, ViewsAgree;
    OneStack(stacks, id);
    ViewsAsRead(stacks, id);
  }

  lemma UnlistedAgree(stacks: seq<Stack>, id: string)
    requires VariantsOf(AllVariants(stacks), id) == []
    ensures HasOneStack(stacks, id) && forall cid :: ViewsAgree(stacks, id, cid)
  {
    OneStack(stacks, id);
    hide AllVariants, VariantsOf, HasView, HasOneStack;
    forall cid ensures ViewsAgree(stacks, id, cid) {
      if view :| HasView(stacks, id, cid, view) { ListedHasVariants(stacks, id, cid, view); }
    }
  }

  lemma ListedAsRead(stacks: seq<Stack>, id: string)
    ensures (id in ServiceIDs(AllVariants(stacks)) ==> VariantsMerge(VariantsOf(AllVariants(stacks), id))) <==>
      HasOneStack(stacks, id) && forall cid :: cid != "" ==> ViewsAgree(stacks, id, cid)
  {
    hide AllVariants, VariantsOf, VariantsMerge, HasOneStack, ViewsAgree;
    VariantsOfAre(AllVariants(stacks), id);
    if VariantsOf(AllVariants(stacks), id) == [] {
      UnlistedAgree(stacks, id);
    } else {
      assert VariantsOf(AllVariants(stacks), id)[0] in VariantsOf(AllVariants(stacks), id);
      ServiceAsRead(stacks, id);
    }
  }

  /** The services are accepted exactly when the stacks are consistent. */
  lemma ServicesAsRead(stacks: seq<Stack>)
    ensures ServicesAccepted(stacks) <==> AreConsistent(stacks)
  {
    hide AllVariants, VariantsOf, VariantsMerge, HasOneStack, ViewsAgree, VariantsAccepted, Entries, AreIdentified,
      PathsAreUnique,
      ServiceIDs;
    VariantsAreListed(stacks);
    if ServicesAccepted(stacks) {
      forall id ensures HasOneStack(stacks, id) && forall cid :: cid != "" ==> ViewsAgree(stacks, id, cid) {
        ListedAsRead(stacks, id);
      }
      forall id, cid | cid != "" ensures ViewsAgree(stacks, id, cid) { assert HasOneStack(stacks, id); }
      assert AreConsistent(stacks);
    }
    if AreConsistent(stacks) {
      forall id | id in ServiceIDs(AllVariants(stacks)) ensures VariantsMerge(VariantsOf(AllVariants(stacks), id)) {
        ListedAsRead(stacks, id);
      }
    }
  }

  // ---- containers ----

  lemma TakenAsRead(stacks: seq<Stack>, n: NetworkReport)
    requires IsCandidate(n) && ServicesAccepted(stacks)
    ensures forall cid :: cid in TakenIDs(ContextOf(n, stacks)) <==> exists id :: Participates(stacks, n, id, cid)
  {
    hide ServicesAccepted, ContextOf, Participates, Eligible;
    var x := ContextOf(n, stacks);
    forall cid ensures cid in TakenIDs(x) <==> exists id :: Participates(stacks, n, id, cid) {
      if cid in TakenIDs(x) {
        var id, c :| Takes(x, id, c) && c.uuid == cid;
        TakesParticipates(n, stacks, id, cid);
      }
      if id :| Participates(stacks, n, id, cid) { TakesParticipates(n, stacks, id, cid); }
    }
  }

  lemma WorkloadsAsRead(stacks: seq<Stack>, n: NetworkReport)
    requires IsCandidate(n) && ServicesAccepted(stacks)
    ensures WorkloadsFit(ContextOf(n, stacks)) <==> FewTakePart(stacks, n)
  {
    hide ServicesAccepted, ContextOf, Participates, Takes;
    var x := ContextOf(n, stacks);
    TakenAsRead(stacks, n);
    hide TakenIDs;
    if WorkloadsFit(x) {
      forall id, id2, cid | Participates(stacks, n, id, cid) && Participates(stacks, n, id2, cid) ensures id == id2 {
        TakesParticipates(n, stacks, id, cid);
        TakesParticipates(n, stacks, id2, cid);
      }
      assert |TakenIDs(x)| <= 4096 && forall id, cid :: Participates(stacks, n, id, cid) ==> cid in TakenIDs(x);
    }
    if FewTakePart(stacks, n) {
      forall id, c, id2, c2 | Takes(x, id, c) && Takes(x, id2, c2) && c.uuid == c2.uuid ensures id == id2 {
        TakesParticipates(n, stacks, id, c.uuid);
        TakesParticipates(n, stacks, id2, c.uuid);
      }
      var ids: set<string> :| |ids| <= 4096 && forall id, cid :: Participates(stacks, n, id, cid) ==> cid in ids;
      SubsetSize(TakenIDs(x), ids);
    }
  }

  // ---- the whole input ----

  lemma SelectionAsRead(networks: seq<NetworkReport>, n: NetworkReport)
    ensures IsSelected(networks, n) <==> IsOnlyUsable(networks, n)
  {
    assert forall m :: IsCandidate(m) <==> IsUsable(m);
    hide IsCandidate, IsUsable;
  }

  lemma PolicyAsReported(n: NetworkReport)
    requires n.rules.Some?
    ensures PolicyAccepted(PolicyInput(n)) <==> exists policy :: HasPolicy(n, policy)
    ensures forall policy :: PolicyAccepted(PolicyInput(n)) && IsNormalFormOf(policy, PolicyInput(n)) <==>
      HasPolicy(n, policy)
  {
    hide PolicyAccepted, IsNormalFormOf, IsNormalPolicyOf;
    SomeNormalPolicy(PolicyInput(n));
    assert forall policy :: HasPolicy(n, policy) <==> IsNormalPolicyOf(PolicyInput(n), policy);
    forall policy
      ensures PolicyAccepted(PolicyInput(n)) && IsNormalFormOf(policy, PolicyInput(n)) <==> HasPolicy(n, policy)
    {
      PolicyAsRead(PolicyInput(n), policy);
    }
  }

  lemma NetworkAsRead(input: Input, n: NetworkReport)
    requires IsCandidate(n)
    ensures (n.rules.Some? && PolicyAccepted(PolicyInput(n)) && ServicesAccepted(input.stacks) &&
             WorkloadsFit(ContextOf(n, input.stacks))) <==> IsBuildableOn(input, n)
  {
    hide PolicyAccepted, ServicesAccepted, WorkloadsFit, ContextOf, AreConsistent, FewTakePart, IsNormalPolicyOf,
      PolicyInput;
    ServicesAsRead(input.stacks);
    if n.rules.Some? { PolicyAsReported(n); }
    if ServicesAccepted(input.stacks) { WorkloadsAsRead(input.stacks, n); }
  }

  lemma SelectedAsRead(networks: seq<NetworkReport>)
    ensures forall n :: IsSelected(networks, n) <==> IsOnlyUsable(networks, n)
    ensures forall n :: IsSelected(networks, n) ==> IsCandidate(n) && n.subnet.Some?
  {
    forall n ensures IsSelected(networks, n) <==> IsOnlyUsable(networks, n) { SelectionAsRead(networks, n); }
  }

  /** Which metadata is accepted. */
  lemma AcceptanceAsRead(input: Input)
    ensures InputAccepted(input) <==> IsBuildable(input)
  {
    SelectedAsRead(input.networks);
    hide IsSelected, IsOnlyUsable, PolicyAccepted, ServicesAccepted, WorkloadsFit, ContextOf, IsBuildableOn,
      IsCandidate, PolicyInput;
    forall n | IsSelected(input.networks, n)
      ensures (n.rules.Some? && PolicyAccepted(PolicyInput(n)) && ServicesAccepted(input.stacks) &&
               WorkloadsFit(ContextOf(n, input.stacks))) <==> IsBuildableOn(input, n)
    {
      NetworkAsRead(input, n);
    }
  }

  /** Every snapshot of an input: subnet, host and policy; workloads and links are read in
      SnapshotReading. */
  lemma SnapshotHeadAsRead(s: Snapshot, input: Input)
    requires IsSnapshotOf(s, input)
    ensures IsBuildable(input)
    ensures exists n ::
      && IsOnlyUsable(input.networks, n)
      && s.subnet == n.subnet.value && s.localHostID == input.host && HasPolicy(n, s.policy)
  {
    SelectedAsRead(input.networks);
    var n := SelectedNetwork(s, input);
    SnapshotParts(s, input, n);
    hide IsSnapshotOf, WellFormed, IsNormalPolicy, AreWorkloadsOf, AreServiceLinksOf, AreContainerLinksOf, IsSelected,
      IsNormalFormOf,
      ServicesAccepted, WorkloadsFit, PolicyAccepted, IsOnlyUsable, HasPolicy, IsBuildableOn, PolicyInput;
    assert s.subnet == n.subnet.value by { ContextSubnet(n, input.stacks); }
    hide ContextOf;
    PolicyAsReported(n);
    NetworkAsRead(input, n);
  }

  lemma ContextSubnet(n: NetworkReport, stacks: seq<Stack>)
    requires IsCandidate(n) && ServicesAccepted(stacks)
    ensures ContextOf(n, stacks).subnet == n.subnet.value
  {
    hide ServiceIndex, Primaries, VariantsMerge, AllVariants, PathIndex;
  }

  lemma SelectedNetwork(s: Snapshot, input: Input) returns (n: NetworkReport)
    requires IsSnapshotOf(s, input)
    ensures IsSelected(input.networks, n)
  {
    hide IsSelected, ContextOf, ServicesAccepted;
    n :| IsSelected(input.networks, n);
  }
}
