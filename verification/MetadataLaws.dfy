/** From metadata to plan: what the order of Go maps can and cannot change, and why the
    pipeline cannot get stuck. */
module MetadataLaws {
  import opened Ordering
  import opened Text
  import opened Network
  import opened Firewall
  import opened Selector
  import opened Labels
  import opened Policy
  import opened Topology
  import opened Views
  import opened Metadata
  import opened SnapshotBuilder
  import Canonical
  import opened Rendering
  import Pipeline

  // ---- labels ----

  /** Combining a container's labels with its service's has one outcome. */
  ghost predicate CombinationIsFixed(service: LabelMap, container: LabelMap) {
    && Unambiguous(container)
    && forall a, b :: a in service && b in service && Lower(a) == Lower(b) && Lower(a) !in LowerKeys(container) ==>
         Lower(service[a]) == Lower(service[b])
  }

  lemma LoweredKeys(labels: LabelMap, lowered: LabelMap)
    requires IsLowered(labels, lowered)
    ensures lowered.Keys == LowerKeys(labels)
  {
    hide Lower;
  }

  lemma LoweredAgreeOutside(service: LabelMap, keys: set<string>, s1: LabelMap, s2: LabelMap)
    requires IsLowered(service, s1) && IsLowered(service, s2)
    requires forall a, b :: a in service && b in service && Lower(a) == Lower(b) && Lower(a) !in keys ==>
      Lower(service[a]) == Lower(service[b])
    ensures s1.Keys == s2.Keys && forall k :: k in s1 && k !in keys ==> s1[k] == s2[k]
  {
    hide Lower;
    LoweredKeys(service, s1);
    LoweredKeys(service, s2);
    forall k | k in s1 && k !in keys ensures s1[k] == s2[k] {
      var a :| a in service && Lower(a) == k && Lower(service[a]) == s1[k];
      var b :| b in service && Lower(b) == k && Lower(service[b]) == s2[k];
    }
  }

  lemma CombinationsAgree(service: LabelMap, container: LabelMap, l1: LabelMap, l2: LabelMap)
    requires CombinationIsFixed(service, container)
    requires IsCombined(service, container, l1) && IsCombined(service, container, l2)
    ensures l1 == l2
  {
    hide Lower, IsLowered, LowerKeys, Unambiguous;
    var s1, c1 :| IsLowered(service, s1) && IsLowered(container, c1) && l1 == s1 + c1;
    var s2, c2 :| IsLowered(service, s2) && IsLowered(container, c2) && l2 == s2 + c2;
    LoweredAgree(container, c1, c2);
    LoweredKeys(container, c1);
    LoweredAgreeOutside(service, LowerKeys(container), s1, s2);
    assert l1.Keys == l2.Keys;
  }

  lemma DifferentCombinations(service: LabelMap, container: LabelMap) returns (l1: LabelMap, l2: LabelMap)
    requires !CombinationIsFixed(service, container)
    ensures IsCombined(service, container, l1) && IsCombined(service, container, l2) && l1 != l2
  {
    hide Lower, IsLowered;
    if !Unambiguous(container) {
      var x, y :| x in container && y in container && Lower(x) == Lower(y) &&
        Lower(container[x]) != Lower(container[y]);
      var c1 := LoweredWith(container, x);
      var c2 := LoweredWith(container, y);
      l1, l2 := Lowered(service) + c1, Lowered(service) + c2;
      assert l1[Lower(x)] != l2[Lower(x)];
    } else {
      var x, y :| x in service && y in service && Lower(x) == Lower(y) && Lower(x) !in LowerKeys(container) &&
        Lower(service[x]) != Lower(service[y]);
      var s1 := LoweredWith(service, x);
      var s2 := LoweredWith(service, y);
      var c := Lowered(container);
      LoweredKeys(container, c);
      l1, l2 := s1 + c, s2 + c;
      assert l1[Lower(x)] != l2[Lower(x)];
    }
  }

  /** The labels of a workload depend on the order of a Go map exactly when two keys that
      differ only by case carry different values and the container does not override them. */
  lemma CombiningIsDetermined(service: LabelMap, container: LabelMap)
    ensures (forall l1, l2 :: IsCombined(service, container, l1) && IsCombined(service, container, l2) ==> l1 == l2)
       <==> CombinationIsFixed(service, container)
  {
    hide IsCombined, CombinationIsFixed;
    if CombinationIsFixed(service, container) {
      forall l1, l2 | IsCombined(service, container, l1) && IsCombined(service, container, l2) ensures l1 == l2 {
        CombinationsAgree(service, container, l1, l2);
      }
    } else {
      var l1, l2 := DifferentCombinations(service, container);
    }
  }

  lemma CombinedIsUnambiguous(service: LabelMap, container: LabelMap, labels: LabelMap)
    requires IsCombined(service, container, labels)
    ensures Unambiguous(labels)
  {
    var s, c :| IsLowered(service, s) && IsLowered(container, c) && labels == s + c;
    forall k | k in labels ensures Lower(k) == k {
      if k in c {
        var a :| a in container && Lower(a) == k;
        LowerIsIdempotent(a);
      } else {
        var a :| a in service && Lower(a) == k;
        LowerIsIdempotent(a);
      }
    }
    hide Lower;
  }

  // ---- one input, one snapshot up to order ----

  /** Every participating container's labels have one outcome. */
  ghost predicate LabelsFixed(x: Context) {
    forall id, c :: Takes(x, id, c) ==> CombinationIsFixed(x.services[id].labels, c.labels)
  }

  lemma SameContainer(x: Context, id: string, c: View, d: View)
    requires WellFormed(x) && Takes(x, id, c) && Takes(x, id, d) && c.uuid == d.uuid
    ensures c == d
  {
    var containers := x.services[id].containers;
    var i :| 0 <= i < |containers| && containers[i] == c;
    var j :| 0 <= j < |containers| && containers[j] == d;
    hide Eligible;
  }

  lemma SameParticipant(x: Context, w: Workload, id: string, c: View, id2: string, c2: View)
    requires WellFormed(x) && WorkloadsFit(x) && Takes(x, id, c) && Takes(x, id2, c2) && c.uuid == c2.uuid
    ensures id == id2 && c == c2
  {
    hide Takes, WellFormed;
    assert id == id2;
    SameContainer(x, id, c, c2);
  }

  lemma SameWorkload(x: Context, id: string, c: View, w1: Workload, w2: Workload)
    requires IsWorkloadFor(w1, x, id, c) && IsWorkloadFor(w2, x, id, c)
    requires CombinationIsFixed(x.services[id].labels, c.labels)
    ensures w1 == w2
  {
    WorkloadForParts(w1, x, id, c);
    hide Takes, CombinationIsFixed, IsCombined;
    CombinationsAgree(x.services[id].labels, c.labels, w1.labels, w2.labels);
  }

  lemma WorkloadsInclude(x: Context, ws1: seq<Workload>, ws2: seq<Workload>)
    requires WellFormed(x) && WorkloadsFit(x) && LabelsFixed(x) && AreWorkloadsOf(ws1, x) && AreWorkloadsOf(ws2, x)
    ensures forall w :: w in ws1 ==> w in ws2
  {
    hide Takes, WellFormed, WorkloadsFit, CombinationIsFixed, IsWorkloadFor, UniqueIDs;
    forall w | w in ws1 ensures w in ws2 {
      var id, c :| IsWorkloadFor(w, x, id, c);
      assert Takes(x, id, c) && w.id == c.uuid by { WorkloadForParts(w, x, id, c); }
      var v :| v in ws2 && v.id == c.uuid;
      var id2, c2 :| IsWorkloadFor(v, x, id2, c2);
      WorkloadForParts(v, x, id2, c2);
      SameParticipant(x, w, id, c, id2, c2);
      SameWorkload(x, id, c, w, v);
    }
  }

  lemma WorkloadForParts(w: Workload, x: Context, id: string, c: View)
    requires IsWorkloadFor(w, x, id, c)
    ensures Takes(x, id, c) && w.id == c.uuid && id in x.services
  {
    hide IsCombined, Eligible;
  }

  lemma DistinctSameElems<T>(a: seq<T>, b: seq<T>)
    requires Distinct(a) && Distinct(b) && forall x :: x in a <==> x in b
    ensures multiset(a) == multiset(b)
  {
    forall x ensures multiset(a)[x] == multiset(b)[x] {
      DistinctCounts(a, x);
      DistinctCounts(b, x);
      assert x in a <==> x in multiset(a);
      assert x in b <==> x in multiset(b);
    }
  }

  lemma SameWorkloads(x: Context, ws1: seq<Workload>, ws2: seq<Workload>)
    requires WellFormed(x) && WorkloadsFit(x) && LabelsFixed(x) && AreWorkloadsOf(ws1, x) && AreWorkloadsOf(ws2, x)
    ensures multiset(ws1) == multiset(ws2)
  {
    WorkloadsInclude(x, ws1, ws2);
    WorkloadsInclude(x, ws2, ws1);
    assert UniqueIDs(ws1) && UniqueIDs(ws2);
    hide WellFormed, WorkloadsFit, LabelsFixed, AreWorkloadsOf;
    forall i, j | 0 <= i < j < |ws1| ensures ws1[i] != ws1[j] { assert ws1[i].id != ws1[j].id; }
    forall i, j | 0 <= i < j < |ws2| ensures ws2[i] != ws2[j] { assert ws2[i].id != ws2[j].id; }
    DistinctSameElems(ws1, ws2);
  }

  lemma SortedLinksAreDetermined(a: Links, b: Links)
    requires AreSortedLinks(a) && AreSortedLinks(b) && forall from, to :: HasLink(a, from, to) <==> HasLink(b, from, to)
    ensures a == b
  {
    forall k | k in a ensures k in b && a[k] == b[k] {
      assert HasLink(a, k, a[k][0]) && HasLink(b, k, a[k][0]);
      assert forall to :: (to in a[k] <==> HasLink(a, k, to)) && (to in b[k] <==> HasLink(b, k, to));
      assert Elems(a[k]) == Elems(b[k]);
      StringsAreOrdered();
      AscendingIsUnique(StrLess, a[k], b[k]);
    }
    forall k | k in b ensures k in a {
      assert HasLink(b, k, b[k][0]) && HasLink(a, k, b[k][0]);
    }
  }

  /** What the two snapshots of one input have in common without any condition on labels. */
  lemma SnapshotParts(s: Snapshot, input: Input, n: NetworkReport)
    requires IsSnapshotOf(s, input) && IsSelected(input.networks, n)
    ensures IsCandidate(n) && ServicesAccepted(input.stacks) && n.rules.Some?
    ensures var x := ContextOf(n, input.stacks);
      && WellFormed(x) && WorkloadsFit(x) && s.subnet == x.subnet && s.localHostID == input.host
      && PolicyAccepted(PolicyInput(n)) && IsNormalFormOf(s.policy, PolicyInput(n)) && IsNormalPolicy(s.policy)
      && AreWorkloadsOf(s.workloads, x) && AreServiceLinksOf(s.serviceLinks, input.stacks, x.primaries)
      && AreContainerLinksOf(s.containerLinks, x)
  {
    OnlySelection(input.networks, n);
    hide IsSelected, ContextOf, VariantsAccepted, VariantsMerge, WorkloadsFit, PolicyAccepted, IsNormalFormOf,
      IsNormalPolicy, AreWorkloadsOf, AreServiceLinksOf, AreContainerLinksOf, WellFormed;
    ContextIsWellFormed(n, input.stacks);
  }

  lemma SnapshotFrom(s: Snapshot, input: Input, n: NetworkReport, x: Context)
    requires IsSelected(input.networks, n) && n.rules.Some? && ServicesAccepted(input.stacks) && IsCandidate(n)
    requires x == ContextOf(n, input.stacks) && WorkloadsFit(x) && s.subnet == x.subnet && s.localHostID == input.host
    requires PolicyAccepted(PolicyInput(n)) && IsNormalFormOf(s.policy, PolicyInput(n)) && IsNormalPolicy(s.policy)
    requires AreWorkloadsOf(s.workloads, x)
    requires AreServiceLinksOf(s.serviceLinks, input.stacks, x.primaries) && AreContainerLinksOf(s.containerLinks, x)
    ensures IsSnapshotOf(s, input)
  {
    hide ContextOf, ServicesAccepted, WorkloadsFit, AreWorkloadsOf, AreServiceLinksOf, AreContainerLinksOf, IsSelected,
      PolicyAccepted, IsNormalFormOf, IsNormalPolicy, IsCandidate, PolicyInput;
  }

  lemma SelectionOf(s: Snapshot, input: Input) returns (n: NetworkReport)
    requires IsSnapshotOf(s, input)
    ensures IsSelected(input.networks, n)
  {
    hide IsSelected, ContextOf, VariantsAccepted, VariantsMerge, WorkloadsFit, PolicyAccepted, IsNormalFormOf,
      IsNormalPolicy, AreWorkloadsOf, AreServiceLinksOf, AreContainerLinksOf;
    n :| IsSelected(input.networks, n) && n.rules.Some? && ServicesAccepted(input.stacks);
  }

  lemma SamePolicy(a: Policy, b: Policy, input: Policy)
    requires IsNormalFormOf(a, input) && IsNormalFormOf(b, input)
    ensures a == b
  {
    hide NormalRule;
    assert forall i :: 0 <= i < |input.rules| ==> a.rules[i] == b.rules[i];
  }

  /** Two snapshots of one input have the same policy and the same link lists, and, when
      every participant's labels have one outcome, the same workloads up to order. */
  lemma SnapshotIsDetermined(s1: Snapshot, s2: Snapshot, input: Input, n: NetworkReport)
    requires IsSnapshotOf(s1, input) && IsSnapshotOf(s2, input) && IsSelected(input.networks, n)
    ensures s1.subnet == s2.subnet && s1.localHostID == s2.localHostID && s1.policy == s2.policy
    ensures s1.serviceLinks == s2.serviceLinks && s1.containerLinks == s2.containerLinks
    ensures IsCandidate(n) && ServicesAccepted(input.stacks)
    ensures LabelsFixed(ContextOf(n, input.stacks)) ==> multiset(s1.workloads) == multiset(s2.workloads)
  {
    hide IsSnapshotOf, ContextOf, WellFormed, WorkloadsFit, IsNormalPolicy, PolicyAccepted, AreWorkloadsOf, LabelsFixed,
      LinkDeclared, Takes, AreSortedLinks, HasLink, IsSelected, IsNormalFormOf, VariantsAccepted, VariantsMerge;
    SnapshotParts(s1, input, n);
    SnapshotParts(s2, input, n);
    var x := ContextOf(n, input.stacks);
    SamePolicy(s1.policy, s2.policy, PolicyInput(n));
    SortedLinksAreDetermined(s1.serviceLinks, s2.serviceLinks);
    SortedLinksAreDetermined(s1.containerLinks, s2.containerLinks);
    if LabelsFixed(x) { SameWorkloads(x, s1.workloads, s2.workloads); }
  }

  /** What SnapshotParts says of the workloads alone. */
  lemma SnapshotWorkloads(s: Snapshot, input: Input) returns (x: Context)
    requires IsSnapshotOf(s, input)
    ensures IsPrefix4(x.subnet) && s.subnet == x.subnet && AreWorkloadsOf(s.workloads, x)
  {
    hide IsSnapshotOf, WellFormed, WorkloadsFit, IsNormalPolicy, PolicyAccepted, AreServiceLinksOf, AreContainerLinksOf,
      IsSelected, IsNormalFormOf, ContextOf, VariantsAccepted, VariantsMerge, AreWorkloadsOf, IsPrefix4;
    var n := SelectionOf(s, input);
    SnapshotParts(s, input, n);
    x := ContextOf(n, input.stacks);
    ContextSubnet(n, input.stacks);
  }

  lemma SnapshotPolicy(s: Snapshot, input: Input)
    requires IsSnapshotOf(s, input)
    ensures s.localHostID == input.host && IsNormalPolicy(s.policy)
  {
    hide IsSnapshotOf, WellFormed, WorkloadsFit, IsNormalPolicy, PolicyAccepted, AreServiceLinksOf, AreContainerLinksOf,
      IsSelected, IsNormalFormOf, ContextOf, VariantsAccepted, VariantsMerge, AreWorkloadsOf;
    var n := SelectionOf(s, input);
    SnapshotParts(s, input, n);
  }

  lemma ContextSubnet(n: NetworkReport, stacks: seq<Stack>)
    requires IsCandidate(n) && ServicesAccepted(stacks)
    ensures IsPrefix4(ContextOf(n, stacks).subnet)
  {
  }

  lemma WorkloadLabels(w: Workload, x: Context, id: string, c: View)
    requires IsWorkloadFor(w, x, id, c)
    ensures Unambiguous(w.labels)
  {
    hide Takes, IsCombined, Unambiguous, IsSystem;
    WorkloadForParts(w, x, id, c);
    CombinedIsUnambiguous(x.services[id].labels, c.labels, w.labels);
  }

  /** Labels in a snapshot are lower-case, so matching selectors against them has one outcome. */
  lemma SnapshotLabelsAreDetermined(s: Snapshot, input: Input)
    requires IsSnapshotOf(s, input)
    ensures LabelsDetermined(s)
  {
    hide IsSnapshotOf, Unambiguous, IsWorkloadFor, Takes, UniqueIDs;
    var x := SnapshotWorkloads(s, input);
    forall w | w in s.workloads ensures Unambiguous(w.labels) {
      var id, c :| IsWorkloadFor(w, x, id, c);
      WorkloadLabels(w, x, id, c);
    }
  }

  lemma Relabelled(x: Context, ws: seq<Workload>, k: nat, id: string, c: View, w2: Workload)
    requires AreWorkloadsOf(ws, x) && k < |ws| && ws[k].id == c.uuid && w2.id == c.uuid
    requires IsWorkloadFor(w2, x, id, c)
    ensures AreWorkloadsOf(ws[k := w2], x)
  {
    hide Takes, IsWorkloadFor;
    var after := ws[k := w2];
    forall w | w in after ensures exists id, c :: IsWorkloadFor(w, x, id, c) {
      var i :| 0 <= i < |after| && after[i] == w;
      if i != k { assert w in ws; }
    }
    forall id, c | Takes(x, id, c) ensures exists w :: w in after && w.id == c.uuid {
      var w :| w in ws && w.id == c.uuid;
      var i :| 0 <= i < |ws| && ws[i] == w;
      assert after[i] in after && after[i].id == c.uuid;
    }
  }

  lemma OtherLabels(w: Workload, x: Context, id: string, c: View) returns (w2: Workload)
    requires IsWorkloadFor(w, x, id, c) && id in x.services && !CombinationIsFixed(x.services[id].labels, c.labels)
    ensures IsWorkloadFor(w2, x, id, c) && w2 != w && w2.id == w.id
  {
    hide Takes, CombinationIsFixed, IsCombined;
    var l1, l2 := DifferentCombinations(x.services[id].labels, c.labels);
    w2 := w.(labels := if l1 != w.labels then l1 else l2);
  }

  lemma WithWorkloads(s: Snapshot, input: Input, n: NetworkReport, ws: seq<Workload>)
    requires IsSnapshotOf(s, input) && IsSelected(input.networks, n) && IsCandidate(n) && ServicesAccepted(input.stacks)
    requires AreWorkloadsOf(ws, ContextOf(n, input.stacks))
    ensures IsSnapshotOf(s.(workloads := ws), input)
  {
    SnapshotParts(s, input, n);
    hide IsSelected, ContextOf, VariantsAccepted, VariantsMerge, WorkloadsFit, PolicyAccepted, IsNormalFormOf,
      IsNormalPolicy, AreWorkloadsOf, AreServiceLinksOf, AreContainerLinksOf, WellFormed;
  }

  lemma UnfixedParticipant(x: Context) returns (id: string, c: View)
    requires !LabelsFixed(x)
    ensures Takes(x, id, c) && id in x.services && !CombinationIsFixed(x.services[id].labels, c.labels)
  {
    hide Eligible, CombinationIsFixed;
    id, c :| Takes(x, id, c) && !CombinationIsFixed(x.services[id].labels, c.labels);
  }

  /** And the condition on labels is needed: without it the input has two snapshots with
      different workloads. */
  lemma LabelsMustBeFixed(s: Snapshot, input: Input, n: NetworkReport)
    requires IsSnapshotOf(s, input) && IsSelected(input.networks, n) && IsCandidate(n) && ServicesAccepted(input.stacks)
    requires !LabelsFixed(ContextOf(n, input.stacks))
    ensures exists s2 :: IsSnapshotOf(s2, input) && multiset(s2.workloads) != multiset(s.workloads)
  {
    hide IsSnapshotOf, ContextOf, WellFormed, WorkloadsFit, IsNormalPolicy, PolicyAccepted, AreServiceLinksOf,
      AreContainerLinksOf, IsSelected, IsNormalFormOf, VariantsAccepted, VariantsMerge, Takes, CombinationIsFixed,
      IsWorkloadFor;
    SnapshotParts(s, input, n);
    var x := ContextOf(n, input.stacks);
    var id, c := UnfixedParticipant(x);
    var w :| w in s.workloads && w.id == c.uuid;
    var id2, c2 :| IsWorkloadFor(w, x, id2, c2);
    WorkloadForParts(w, x, id2, c2);
    SameParticipant(x, w, id, c, id2, c2);
    var w2 := OtherLabels(w, x, id, c);
    var k :| 0 <= k < |s.workloads| && s.workloads[k] == w;
    Relabelled(x, s.workloads, k, id, c, w2);
    var s2 := s.(workloads := s.workloads[k := w2]);
    WithWorkloads(s, input, n, s2.workloads);
    NewMember(s.workloads, k, w2);
  }

  /** So the workloads of an input's snapshots are one multiset exactly when the labels of
      every participant have one outcome. */
  lemma WorkloadsAreDetermined(s: Snapshot, input: Input, n: NetworkReport)
    requires IsSnapshotOf(s, input) && IsSelected(input.networks, n)
    ensures IsCandidate(n) && ServicesAccepted(input.stacks)
    ensures (forall s2 :: IsSnapshotOf(s2, input) ==> multiset(s2.workloads) == multiset(s.workloads))
       <==> LabelsFixed(ContextOf(n, input.stacks))
  {
    hide IsSnapshotOf, ContextOf, IsSelected, LabelsFixed, VariantsAccepted, VariantsMerge;
    SnapshotIsDetermined(s, s, input, n);
    if LabelsFixed(ContextOf(n, input.stacks)) {
      forall s2 | IsSnapshotOf(s2, input) ensures multiset(s2.workloads) == multiset(s.workloads) {
        SnapshotIsDetermined(s2, s, input, n);
      }
    } else {
      LabelsMustBeFixed(s, input, n);
    }
  }

  lemma NewMember(ws: seq<Workload>, k: nat, w2: Workload)
    requires UniqueIDs(ws) && k < |ws| && w2.id == ws[k].id && w2 != ws[k]
    ensures multiset(ws[k := w2]) != multiset(ws)
  {
    var after := ws[k := w2];
    assert after[k] == w2 && w2 in after && w2 in multiset(after);
    forall i | 0 <= i < |ws| ensures ws[i] != w2 {
      assert i < k || k < i || i == k;
    }
    assert w2 !in ws && w2 !in multiset(ws);
  }

  // ---- the pipeline cannot get stuck ----

  /** The selectors the compiler evaluates are short enough to be parsed again. */
  ghost predicate EvaluatedSelectorsFit(s: Snapshot, rule: Rule) {
    && (rule.between.Some? && Apps(s.workloads) != {} ==> |rule.between.value.selector| <= MAX_LENGTH)
    && (rule.from.Some? && Apps(s.workloads) != {} ==> |rule.from.value| <= MAX_LENGTH)
    && (rule.to.Some? && LocalApps(s) != {} ==> |rule.to.value| <= MAX_LENGTH)
  }

  lemma CanonicalParses(text: string)
    requires IsCanonicalSelector(text)
    ensures ParseSelector(text).Some? <==> |text| <= MAX_LENGTH
  {
    hide ParseSelector;
    CanonicalSelectorFixed(text);
  }

  lemma NormalRuleAccepted(s: Snapshot, rule: Rule)
    requires IsNormalRule(rule)
    ensures RuleAccepted(s, rule) <==> EvaluatedSelectorsFit(s, rule)
  {
    hide ParseSelector, IsCanonicalSelector, AreNormalPorts, IsLabelKey, Apps, LocalApps;
    if rule.between.Some? {
      if rule.between.value.selector != "" { CanonicalParses(rule.between.value.selector); }
    } else if rule.within == "" {
      CanonicalParses(rule.from.value);
      CanonicalParses(rule.to.value);
    }
  }

  lemma SnapshotWorkloadsAccepted(s: Snapshot, input: Input)
    requires IsSnapshotOf(s, input)
    ensures IsPrefix4(s.subnet) && WorkloadsAccepted(s)
  {
    hide IsSnapshotOf, IsWorkloadFor, Takes, UniqueIDs, Contains, IsPrefix4;
    var x := SnapshotWorkloads(s, input);
    forall w | w in s.workloads ensures w.id != "" && Contains(s.subnet, w.ip) {
      var id, c :| IsWorkloadFor(w, x, id, c);
      ParticipantAddress(w, x, id, c);
    }
  }

  lemma ParticipantAddress(w: Workload, x: Context, id: string, c: View)
    requires IsPrefix4(x.subnet) && IsWorkloadFor(w, x, id, c)
    ensures w.id != "" && Contains(x.subnet, w.ip)
  {
    hide IsCombined, Contains;
  }

  /** A snapshot built from metadata compiles exactly when the host is known and every
      evaluated selector fits; and then the plan and its fail-open form both render. */
  lemma PipelineCannotGetStuck(s: Snapshot, input: Input)
    requires IsSnapshotOf(s, input)
    ensures Accepted(s) <==> input.host != "" && forall r :: r in s.policy.rules ==> EvaluatedSelectorsFit(s, r)
    ensures Accepted(s) ==> Renderable(PlanOf(s)) && Renderable(FailOpenPlan(PlanOf(s)))
  {
    hide IsSnapshotOf, IsNormalRule, RuleAccepted, EvaluatedSelectorsFit, WorkloadsAccepted, Renderable, PlanOf;
    SnapshotWorkloadsAccepted(s, input);
    SnapshotPolicy(s, input);
    forall r | r in s.policy.rules
      ensures RuleAccepted(s, r) <==> EvaluatedSelectorsFit(s, r)
    {
      NormalRuleAccepted(s, r);
    }
    if Accepted(s) { Pipeline.CompiledPlanRenders(s); }
  }

  // ---- metadata determines acceptance, and the plan where labels are fixed ----

  lemma ParticipantFlags(w: Workload, x: Context, id: string, c: View)
    requires IsWorkloadFor(w, x, id, c)
    ensures w.hostID == c.hostUUID && id in x.services && w.system == IsSystem(x.services[id], c, x.stackSystem)
  {
    hide IsCombined, Eligible, IsSystem;
  }

  /** Two snapshots' workloads of one participant differ in nothing but their labels. */
  lemma Counterpart(x: Context, ws1: seq<Workload>, ws2: seq<Workload>, w: Workload) returns (v: Workload)
    requires WellFormed(x) && WorkloadsFit(x) && AreWorkloadsOf(ws1, x) && AreWorkloadsOf(ws2, x) && w in ws1
    ensures v in ws2 && v.system == w.system && v.hostID == w.hostID
  {
    hide Takes, WellFormed, WorkloadsFit, IsWorkloadFor, UniqueIDs, IsSystem;
    var id, c :| IsWorkloadFor(w, x, id, c);
    WorkloadForParts(w, x, id, c);
    v :| v in ws2 && v.id == c.uuid;
    var id2, c2 :| IsWorkloadFor(v, x, id2, c2);
    WorkloadForParts(v, x, id2, c2);
    SameParticipant(x, w, id, c, id2, c2);
    ParticipantFlags(w, x, id, c);
    ParticipantFlags(v, x, id, c);
  }

  lemma AppsCarryOver(x: Context, s1: Snapshot, s2: Snapshot)
    requires WellFormed(x) && WorkloadsFit(x) && AreWorkloadsOf(s1.workloads, x) && AreWorkloadsOf(s2.workloads, x)
    requires s1.localHostID == s2.localHostID
    ensures Apps(s1.workloads) != {} ==> Apps(s2.workloads) != {}
    ensures LocalApps(s1) != {} ==> LocalApps(s2) != {}
  {
    hide WellFormed, WorkloadsFit, AreWorkloadsOf;
    if Apps(s1.workloads) != {} {
      var w :| w in Apps(s1.workloads);
      var v := Counterpart(x, s1.workloads, s2.workloads, w);
      assert v in Apps(s2.workloads);
    }
    if LocalApps(s1) != {} {
      var w :| w in LocalApps(s1);
      var v := Counterpart(x, s1.workloads, s2.workloads, w);
      assert v in LocalApps(s2);
    }
  }

  /** Whether the compiler accepts what buildSnapshot returns is a function of the metadata,
      whatever the labels. */
  lemma MetadataDeterminesAcceptance(s1: Snapshot, s2: Snapshot, input: Input)
    requires IsSnapshotOf(s1, input) && IsSnapshotOf(s2, input)
    ensures Accepted(s1) <==> Accepted(s2)
  {
    hide IsSnapshotOf, ContextOf, IsSelected, Accepted, LabelsFixed, VariantsAccepted, VariantsMerge, HasLink,
      WellFormed, WorkloadsFit, AreWorkloadsOf, PolicyAccepted, IsNormalFormOf, IsNormalPolicy, Apps, LocalApps,
      AreServiceLinksOf, AreContainerLinksOf, Renderable;
    var n := SelectionOf(s1, input);
    SnapshotIsDetermined(s1, s2, input, n);
    SnapshotParts(s1, input, n);
    SnapshotParts(s2, input, n);
    var x := ContextOf(n, input.stacks);
    AppsCarryOver(x, s1, s2);
    AppsCarryOver(x, s2, s1);
    PipelineCannotGetStuck(s1, input);
    PipelineCannotGetStuck(s2, input);
    forall r ensures EvaluatedSelectorsFit(s1, r) <==> EvaluatedSelectorsFit(s2, r) { }
    hide EvaluatedSelectorsFit;
  }

  /** Metadata to plan is a function: whatever order Go ranges over its maps in, and however
      workloads that share an address are ordered, all snapshots of one input are rejected
      by the compiler, or all are accepted; and then they all compile to the same plan, when
      the labels of every participant have one outcome. */
  lemma MetadataDeterminesPlan(s1: Snapshot, s2: Snapshot, input: Input, n: NetworkReport)
    requires IsSnapshotOf(s1, input) && IsSnapshotOf(s2, input) && IsSelected(input.networks, n)
    ensures Accepted(s1) <==> Accepted(s2)
    ensures LabelsDetermined(s1) && LabelsDetermined(s2)
    ensures IsCandidate(n) && ServicesAccepted(input.stacks)
    ensures LabelsFixed(ContextOf(n, input.stacks)) && Accepted(s1) ==> PlanOf(s1) == PlanOf(s2)
  {
    hide IsSnapshotOf, ContextOf, IsSelected, Accepted, PlanOf, LabelsFixed, LabelsDetermined, VariantsAccepted,
      VariantsMerge, HasLink;
    SnapshotIsDetermined(s1, s2, input, n);
    SnapshotLabelsAreDetermined(s1, input);
    SnapshotLabelsAreDetermined(s2, input);
    MetadataDeterminesAcceptance(s1, s2, input);
    AcceptedHasPrefix(s1);
    if LabelsFixed(ContextOf(n, input.stacks)) { Canonical.CompiledOutputIsCanonical(s1, s2); }
  }

  lemma AcceptedHasPrefix(s: Snapshot)
    ensures Accepted(s) ==> IsPrefix4(s.subnet)
  {
  }
}
