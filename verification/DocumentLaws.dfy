/** The canonical form of an audit document is one, is canonical, and ignores the order
    of what it lists. */
module DocumentLaws {
  import opened Ordering
  import opened Text
  import opened Selector
  import opened SelectorLaws
  import opened Labels
  import opened Policy
  import opened Spelling
  import opened Document

  // ---- there is one canonical form ----

  lemma PolicyFormIsUnique(a: Policy, b: Policy, input: Policy)
    requires IsNormalFormOf(a, input) && IsNormalFormOf(b, input)
    ensures a == b
  {
    hide NormalRule;
    forall i | 0 <= i < |a.rules| ensures a.rules[i] == b.rules[i] {
      assert Some(a.rules[i]) == NormalRule(input.rules[i]) == Some(b.rules[i]);
    }
    assert a.rules == b.rules;
  }

  lemma NormalFormIsUnique(a: Config, b: Config, c: Config)
    requires IsNormalFormOfConfig(a, c) && IsNormalFormOfConfig(b, c)
    ensures a == b
  {
    hide IsNormalFormOf;
    PolicyFormIsUnique(a.policy, b.policy, c.policy);
    ArrangedIsUnique(StackID, a.stacks, b.stacks);
    ArrangedIsUnique(ServiceID, a.services, b.services);
    ArrangedIsUnique(WorkloadID, a.workloads, b.workloads);
  }

  // ---- normalised labels and links are normalised ----

  lemma {:induction false} LowerCount(keys: set<string>)
    ensures |set k | k in keys :: Lower(k)| <= |keys|
    ensures |set k | k in keys :: Lower(k)| == |keys| <==>
      forall a, b :: a in keys && b in keys && Lower(a) == Lower(b) ==> a == b
  {
    hide Lower;
    if keys != {} {
      var x :| x in keys;
      var rest := keys - {x};
      LowerCount(rest);
      var whole, part := set k | k in keys :: Lower(k), set k | k in rest :: Lower(k);
      assert whole == part + {Lower(x)};
      assert keys == rest + {x};
      if Lower(x) in part {
        var y :| y in rest && Lower(y) == Lower(x);
        assert whole == part && |whole| < |keys|;
      }
    } else {
      assert (set k | k in keys :: Lower(k)) == {};
    }
  }

  lemma LabelTextLowers(value: string)
    ensures IsLabelText(Lower(value)) <==> IsLabelText(value)
  {
    var lower := Lower(value);
    forall i | 0 <= i < |value|
      ensures lower[i] in lower && value[i] in value && (Printable(lower[i]) <==> Printable(value[i]))
    {
    }
    assert IsLabelText(value) <==> |value| <= 256 && forall i :: 0 <= i < |value| ==> Printable(value[i]);
    assert IsLabelText(lower) <==> |lower| <= 256 && forall i :: 0 <= i < |lower| ==> Printable(lower[i]);
  }

  predicate Printable(c: char) {
    c as int >= 0x20 && c as int != 0x7f
  }

  lemma LoweredEntry(labels: LabelMap, l: string)
    requires LabelsAccepted(labels) && l in Lowered(labels)
    ensures LowerEntry(Lowered(labels), l)
  {
    hide Lower, IsLabelKey, IsLabelText;
    var k :| k in labels && Lower(k) == l && Lower(labels[k]) == Lowered(labels)[l];
    LowerKey(k);
    LabelTextLowers(labels[k]);
    LowerIsIdempotent(k);
    LowerIsIdempotent(labels[k]);
  }

  lemma LoweredSize(labels: LabelMap)
    ensures |Lowered(labels)| <= |labels|
  {
    hide Lower;
    LowerCount(labels.Keys);
    assert Lowered(labels).Keys == set k | k in labels.Keys :: Lower(k);
  }

  ghost predicate LowerEntry(lowered: LabelMap, l: string)
    requires l in lowered
  {
    IsLabelKey(l) && IsLabelText(lowered[l]) && Lower(l) == l && Lower(lowered[l]) == lowered[l]
  }

  ghost predicate LowerEntries(lowered: LabelMap) {
    forall l :: l in lowered ==> LowerEntry(lowered, l)
  }

  lemma LowersToItself(lowered: LabelMap)
    requires LowerEntries(lowered)
    ensures IsLowered(lowered, lowered)
  {
    hide Lower, LowerEntries, IsLabelKey, IsLabelText;
    forall k | k in lowered ensures Lower(k) in lowered { EntryOf(lowered, k); }
    forall l | l in lowered ensures exists k :: k in lowered && Lower(k) == l && Lower(lowered[k]) == lowered[l] {
      EntryOf(lowered, l);
    }
  }

  lemma EntryOf(lowered: LabelMap, l: string)
    requires LowerEntries(lowered) && l in lowered
    ensures LowerEntry(lowered, l)
  {
  }

  lemma LowerKeysDiffer(lowered: LabelMap)
    requires LowerEntries(lowered) && |lowered| <= MAX_LABELS
    ensures LabelsAccepted(lowered) && Unambiguous(lowered)
  {
    hide Lower, LowerEntries, IsLabelKey, IsLabelText;
    forall a, b | a in lowered && b in lowered && Lower(a) == Lower(b) ensures a == b {
      EntryOf(lowered, a);
      EntryOf(lowered, b);
    }
    forall k | k in lowered ensures IsLabelKey(k) && IsLabelText(lowered[k]) { EntryOf(lowered, k); }
  }

  lemma LoweredIsStable(lowered: LabelMap)
    requires |lowered| <= MAX_LABELS && LowerEntries(lowered)
    ensures LabelsAccepted(lowered) && Lowered(lowered) == lowered
  {
    hide Lower, LowerEntries, IsLowered, LabelsAccepted, Unambiguous, Lowered;
    LowersToItself(lowered);
    LowerKeysDiffer(lowered);
    LoweredAgree(lowered, lowered, Lowered(lowered));
  }

  lemma LoweredLabels(labels: LabelMap)
    requires LabelsAccepted(labels)
    ensures LabelsAccepted(Lowered(labels)) && Lowered(Lowered(labels)) == Lowered(labels)
  {
    LoweredSize(labels);
    assert |labels| <= MAX_LABELS;
    hide LabelsAccepted, Lowered, LowerEntry;
    forall l | l in Lowered(labels) ensures LowerEntry(Lowered(labels), l) {
      LoweredEntry(labels, l);
    }
    LoweredIsStable(Lowered(labels));
  }

  lemma ListedLinks(links: seq<string>)
    requires LinksAccepted(links, MAX_LINKS)
    ensures LinksAccepted(StrList(Elems(links)), MAX_LINKS)
  {
    hide IsID, StrLess;
    var listed := StrList(Elems(links));
    AscendingLength(links);
    SortedValues(listed);
    AscendingLength(listed);
    forall l | l in listed ensures IsID(l) { assert l in Elems(listed); }
  }

  lemma CleanServiceFixed(stacks: seq<Stack>, s: Service)
    requires ServiceAccepted(stacks, s)
    ensures ServiceAccepted(stacks, CleanService(s)) && CleanService(CleanService(s)) == CleanService(s)
  {
    hide LabelsAccepted, LinksAccepted, HasStack, IsID;
    LoweredLabels(s.labels);
    ListedLinks(s.links);
  }

  lemma CleanWorkloadFixed(stacks: seq<Stack>, w: Workload)
    requires WorkloadAccepted(stacks, w)
    ensures WorkloadAccepted(stacks, CleanWorkload(w)) && CleanWorkload(CleanWorkload(w)) == CleanWorkload(w)
  {
    hide LabelsAccepted, LinksAccepted, HasStack, IsID;
    LoweredLabels(w.labels);
    ListedLinks(w.links);
  }

  // ---- what acceptance depends on ----

  /** Acceptance looks at the elements of a list, not at their order. */
  ghost predicate SameElements<T(!new)>(a: seq<T>, b: seq<T>) {
    forall x :: x in a <==> x in b
  }

  lemma PermutedElements<T(!new)>(a: seq<T>, b: seq<T>)
    requires multiset(a) == multiset(b)
    ensures SameElements(a, b)
  {
    forall x ensures x in a <==> x in b {
      assert x in a <==> x in multiset(a);
      assert x in b <==> x in multiset(b);
    }
  }

  lemma ReferencesPermuted(a: seq<Service>, b: seq<Service>)
    requires SameElements(a, b)
    ensures ReferencesResolve(a) <==> ReferencesResolve(b)
  {
    forall s ensures PrimaryFits(a, s) <==> PrimaryFits(b, s) {
    }
    forall s ensures ServiceLinksResolve(a, s) <==> ServiceLinksResolve(b, s) {
    }
    hide PrimaryFits, ServiceLinksResolve;
  }

  lemma StacksPermuted(a: seq<Stack>, b: seq<Stack>, id: string)
    requires SameElements(a, b)
    ensures HasStack(a, id) <==> HasStack(b, id)
  {
  }

  lemma FitsPermuted(a: seq<Service>, b: seq<Service>, w: Workload)
    requires SameElements(a, b)
    ensures ServiceFits(a, w) <==> ServiceFits(b, w)
  {
    hide Compatible;
  }

  lemma WorkloadReferencesPermuted(a: seq<Workload>, b: seq<Workload>)
    requires SameElements(a, b)
    ensures WorkloadReferencesResolve(a) <==> WorkloadReferencesResolve(b)
  {
    forall w ensures WorkloadLinksResolve(a, w) <==> WorkloadLinksResolve(b, w) {
    }
    hide WorkloadLinksResolve;
  }

  // ---- normalising what is normal ----

  /** A document in canonical form, all of whose references resolve. */
  ghost predicate Structured(n: Config) {
    && n.schema == INPUT_SCHEMA && IsID(n.localHostID) && Sized(n)
    && StacksAccepted(n.stacks)
    && EachServiceAccepted(n.stacks, n.services) && ReferencesResolve(n.services)
    && EachWorkloadAccepted(n.stacks, n.services, n.workloads) && WorkloadReferencesResolve(n.workloads)
    && HasLocal(n.workloads, n.localHostID)
    && CleanServices(n.services) == n.services && CleanWorkloads(n.workloads) == n.workloads
    && Ascending(ByID(StackID), n.stacks) && Ascending(ByID(ServiceID), n.services)
    && Ascending(ByID(WorkloadID), n.workloads)
    && IsNormalPolicy(n.policy)
  }

  lemma StacksAreStructured(c: seq<Stack>, n: seq<Stack>)
    requires StacksAccepted(c) && multiset(c) == multiset(n)
    ensures StacksAccepted(n) && SameElements(c, n)
  {
    hide IsID;
    UniqueByMultiset(StackID, c, n);
    PermutedElements(c, n);
  }

  lemma ServicesAreStructured(cStacks: seq<Stack>, nStacks: seq<Stack>, c: seq<Service>, n: seq<Service>)
    requires SameElements(cStacks, nStacks) && EachServiceAccepted(cStacks, c) &&
      multiset(CleanServices(c)) == multiset(n)
    ensures EachServiceAccepted(nStacks, n) && CleanServices(n) == n && SameElements(CleanServices(c), n)
  {
    var cleaned := CleanServices(c);
    CleanKeepsIDs(c);
    hide UniqueBy, CleanService;
    UniqueByMultiset(ServiceID, cleaned, n);
    PermutedElements(cleaned, n);
    forall s | s in n ensures ServiceAccepted(nStacks, s) && CleanService(s) == s {
      assert s in cleaned;
      var i :| 0 <= i < |c| && cleaned[i] == s;
      assert c[i] in c;
      CleanServiceFixed(cStacks, c[i]);
      StacksPermuted(cStacks, nStacks, s.stackID);
    }
    hide ServiceAccepted;
    assert forall i :: 0 <= i < |n| ==> n[i] in n;
  }

  lemma WorkloadsAreStructured(
    cStacks: seq<Stack>, nStacks: seq<Stack>, cServices: seq<Service>, nServices: seq<Service>, c: seq<Workload>,
    n: seq<Workload>)
    requires SameElements(cStacks, nStacks) && SameElements(cServices, nServices)
    requires EachWorkloadAccepted(cStacks, cServices, c) && multiset(CleanWorkloads(c)) == multiset(n)
    ensures EachWorkloadAccepted(nStacks, nServices, n) && CleanWorkloads(n) == n && SameElements(CleanWorkloads(c), n)
    ensures forall host :: HasLocal(c, host) ==> HasLocal(n, host)
  {
    var cleaned := CleanWorkloads(c);
    CleanKeepsWorkloadIDs(c);
    hide UniqueBy, CleanWorkload, ServiceFits;
    UniqueByMultiset(WorkloadID, cleaned, n);
    PermutedElements(cleaned, n);
    forall w | w in n ensures WorkloadAccepted(nStacks, w) && ServiceFits(nServices, w) && CleanWorkload(w) == w {
      assert w in cleaned;
      var i :| 0 <= i < |c| && cleaned[i] == w;
      assert c[i] in c;
      CleanWorkloadFixed(cStacks, c[i]);
      StacksPermuted(cStacks, nStacks, w.stackID);
      FitsPermuted(cServices, nServices, w);
    }
    hide WorkloadAccepted;
    assert forall i :: 0 <= i < |n| ==> n[i] in n;
    forall host | HasLocal(c, host) ensures HasLocal(n, host) { LocalKept(c, n, host); }
  }

  lemma LocalKept(c: seq<Workload>, n: seq<Workload>, host: string)
    requires HasLocal(c, host) && SameElements(CleanWorkloads(c), n)
    ensures HasLocal(n, host)
  {
    hide Lowered;
    var w :| w in c && w.hostID == host;
    var i :| 0 <= i < |c| && c[i] == w;
    assert CleanWorkloads(c)[i] in CleanWorkloads(c);
    assert CleanWorkloads(c)[i] in n && CleanWorkloads(c)[i].hostID == host;
  }

  lemma PolicyIsStructured(output: Policy, input: Policy)
    requires PolicyAccepted(input) && IsNormalFormOf(output, input)
    ensures IsNormalPolicy(output)
  {
    hide NormalRule, IsNormalRule;
    forall r | r in output.rules ensures IsNormalRule(r) {
      var i :| 0 <= i < |output.rules| && output.rules[i] == r;
      assert input.rules[i] in input.rules;
      NormalRuleIs(input.rules[i]);
    }
  }

  /** What normalize returns is in canonical form. */
  lemma NormalFormIsStructured(n: Config, c: Config)
    requires Accepted(c) && IsNormalFormOfConfig(n, c)
    ensures Structured(n)
  {
    assert Sized(n) by {
      assert |n.stacks| == |multiset(n.stacks)| == |c.stacks|;
      assert |n.services| == |multiset(n.services)| == |multiset(CleanServices(c.services))| == |c.services|;
      assert |n.workloads| == |multiset(n.workloads)| == |multiset(CleanWorkloads(c.workloads))| == |c.workloads|;
    }
    hide StacksAccepted, EachServiceAccepted, EachWorkloadAccepted, ReferencesResolve, WorkloadReferencesResolve,
      IsID, HasLocal, IsNormalFormOf, PolicyAccepted, IsNormalPolicy, CleanServices, CleanWorkloads, SameElements,
      Ascending;
    StacksAreStructured(c.stacks, n.stacks);
    ServicesAreStructured(c.stacks, n.stacks, c.services, n.services);
    ReferencesPermuted(CleanServices(c.services), n.services);
    WorkloadsAreStructured(c.stacks, n.stacks, CleanServices(c.services), n.services, c.workloads, n.workloads);
    WorkloadReferencesPermuted(CleanWorkloads(c.workloads), n.workloads);
    PolicyIsStructured(n.policy, c.policy);
  }

  /** Every selector of the policy is short enough to be parsed again. */
  predicate PolicyFits(policy: Policy) {
    forall r :: r in policy.rules ==> SelectorsFit(r)
  }

  lemma NormalPolicyFixed(policy: Policy)
    requires IsNormalPolicy(policy)
    ensures PolicyAccepted(policy) <==> PolicyFits(policy)
    ensures PolicyFits(policy) ==> IsNormalFormOf(policy, policy)
  {
    hide NormalRule, IsNormalRule, SelectorsFit;
    forall r | r in policy.rules
      ensures NormalRule(r) == if SelectorsFit(r) then Some(r) else None
    {
      NormalRuleFixed(r);
    }
  }

  /** Normalisation is idempotent exactly as far as the selectors fit: a document in
      canonical form is accepted again if and only if they do, and is then returned. */
  lemma NormalFormFixed(n: Config)
    requires Structured(n)
    ensures Accepted(n) <==> PolicyFits(n.policy)
    ensures Accepted(n) ==> IsNormalFormOfConfig(n, n)
  {
    hide StacksAccepted, EachServiceAccepted, EachWorkloadAccepted, ReferencesResolve, WorkloadReferencesResolve,
      IsID, HasLocal, IsNormalFormOf, PolicyAccepted, IsNormalPolicy, CleanServices, CleanWorkloads, PolicyFits,
      Ascending;
    NormalPolicyFixed(n.policy);
  }

  lemma NormalizeTwice(c: Config, n: Config, m: Config)
    requires Accepted(c) && IsNormalFormOfConfig(n, c)
    ensures Accepted(n) <==> PolicyFits(n.policy)
    ensures Accepted(n) && IsNormalFormOfConfig(m, n) ==> m == n
  {
    hide Accepted, IsNormalFormOfConfig, Structured, PolicyFits;
    NormalFormIsStructured(n, c);
    NormalFormFixed(n);
    if Accepted(n) && IsNormalFormOfConfig(m, n) { NormalFormIsUnique(m, n, n); }
  }

  // ---- the order of stacks, services and workloads ----

  /** The same document with its stacks, services and workloads listed in another order. */
  ghost predicate Reordered(c: Config, d: Config) {
    && c.schema == d.schema && c.localHostID == d.localHostID && c.policy == d.policy
    && multiset(c.stacks) == multiset(d.stacks)
    && multiset(c.services) == multiset(d.services)
    && multiset(c.workloads) == multiset(d.workloads)
  }

  lemma CleanPermuted(a: seq<Service>, b: seq<Service>)
    requires multiset(a) == multiset(b)
    ensures multiset(CleanServices(a)) == multiset(CleanServices(b))
  {
    EachPermuted(CleanService, a, b);
    assert CleanServices(a) == Each(CleanService, a) && CleanServices(b) == Each(CleanService, b);
  }

  lemma CleanWorkloadsPermuted(a: seq<Workload>, b: seq<Workload>)
    requires multiset(a) == multiset(b)
    ensures multiset(CleanWorkloads(a)) == multiset(CleanWorkloads(b))
  {
    EachPermuted(CleanWorkload, a, b);
    assert CleanWorkloads(a) == Each(CleanWorkload, a) && CleanWorkloads(b) == Each(CleanWorkload, b);
  }

  lemma ServicesReordered(cStacks: seq<Stack>, dStacks: seq<Stack>, c: seq<Service>, d: seq<Service>)
    requires SameElements(cStacks, dStacks) && multiset(c) == multiset(d)
    ensures EachServiceAccepted(cStacks, c) ==> EachServiceAccepted(dStacks, d)
  {
    PermutedElements(c, d);
    if EachServiceAccepted(cStacks, c) {
      hide UniqueBy, IsID, LabelsAccepted, LinksAccepted;
      UniqueByMultiset(ServiceID, c, d);
      forall s | s in d ensures ServiceAccepted(dStacks, s) {
        assert s in c;
        StacksPermuted(cStacks, dStacks, s.stackID);
      }
    }
  }

  lemma WorkloadsReordered(
    cStacks: seq<Stack>, dStacks: seq<Stack>, cServices: seq<Service>, dServices: seq<Service>, c: seq<Workload>,
    d: seq<Workload>)
    requires SameElements(cStacks, dStacks) && SameElements(cServices, dServices) && multiset(c) == multiset(d)
    ensures EachWorkloadAccepted(cStacks, cServices, c) ==> EachWorkloadAccepted(dStacks, dServices, d)
    ensures forall host :: HasLocal(c, host) ==> HasLocal(d, host)
  {
    PermutedElements(c, d);
    if EachWorkloadAccepted(cStacks, cServices, c) {
      hide UniqueBy, IsID, LabelsAccepted, LinksAccepted, ServiceFits;
      UniqueByMultiset(WorkloadID, c, d);
      forall w | w in d ensures WorkloadAccepted(dStacks, w) && ServiceFits(dServices, CleanWorkload(w)) {
        assert w in c;
        StacksPermuted(cStacks, dStacks, w.stackID);
        FitsPermuted(cServices, dServices, CleanWorkload(w));
      }
    }
  }

  lemma AcceptedReordered(c: Config, d: Config)
    requires Reordered(c, d) && Accepted(c)
    ensures Accepted(d)
  {
    assert Sized(d) by {
      assert |c.stacks| == |multiset(c.stacks)| == |d.stacks|;
      assert |c.services| == |multiset(c.services)| == |d.services|;
      assert |c.workloads| == |multiset(c.workloads)| == |d.workloads|;
    }
    hide EachServiceAccepted, EachWorkloadAccepted, ReferencesResolve, WorkloadReferencesResolve,
      IsID, HasLocal, PolicyAccepted, CleanServices, CleanWorkloads, SameElements, StacksAccepted;
    StacksAreStructured(c.stacks, d.stacks);
    CleanPermuted(c.services, d.services);
    PermutedElements(CleanServices(c.services), CleanServices(d.services));
    ServicesReordered(c.stacks, d.stacks, c.services, d.services);
    ReferencesPermuted(CleanServices(c.services), CleanServices(d.services));
    CleanWorkloadsPermuted(c.workloads, d.workloads);
    PermutedElements(CleanWorkloads(c.workloads), CleanWorkloads(d.workloads));
    WorkloadsReordered(
      c.stacks, d.stacks, CleanServices(c.services), CleanServices(d.services), c.workloads, d.workloads);
    WorkloadReferencesPermuted(CleanWorkloads(c.workloads), CleanWorkloads(d.workloads));
  }

  /** The order in which a document lists its stacks, services and workloads changes neither
      acceptance nor the canonical form. */
  lemma OrderDoesNotMatter(c: Config, d: Config, n: Config)
    requires Reordered(c, d)
    ensures Accepted(c) <==> Accepted(d)
    ensures IsNormalFormOfConfig(n, c) <==> IsNormalFormOfConfig(n, d)
  {
    hide Accepted;
    if Accepted(c) { AcceptedReordered(c, d); }
    if Accepted(d) { AcceptedReordered(d, c); }
    CleanPermuted(c.services, d.services);
    CleanWorkloadsPermuted(c.workloads, d.workloads);
  }

  // ---- the spelling of labels, selectors and ports, and the order of links ----

  ghost function LowerPairs(labels: LabelMap): set<(string, string)> {
    set k | k in labels :: (Lower(k), Lower(labels[k]))
  }

  /** The same labels in any letter case. */
  ghost predicate SameLabels(a: LabelMap, b: LabelMap) {
    |a| == |b| && LowerPairs(a) == LowerPairs(b)
  }

  lemma EntriesLower(labels: LabelMap)
    ensures (forall k :: k in labels ==> IsLabelKey(k) && IsLabelText(labels[k])) <==>
            (forall p :: p in LowerPairs(labels) ==> IsLabelKey(p.0) && IsLabelText(p.1))
  {
    hide Lower, IsLabelKey, IsLabelText;
    forall k | k in labels
      ensures (IsLabelKey(k) <==> IsLabelKey(Lower(k))) && (IsLabelText(labels[k]) <==> IsLabelText(Lower(labels[k])))
      ensures (Lower(k), Lower(labels[k])) in LowerPairs(labels)
    {
      LabelKeyLowers(k);
      LabelTextLowers(labels[k]);
    }
  }

  lemma KeysOfPairs(labels: LabelMap)
    ensures (set k | k in labels.Keys :: Lower(k)) == set p | p in LowerPairs(labels) :: p.0
  {
    hide Lower;
    var pairs := LowerPairs(labels);
    var keys, firsts := set k | k in labels.Keys :: Lower(k), set p | p in pairs :: p.0;
    forall l | l in keys ensures l in firsts {
      var k :| k in labels.Keys && Lower(k) == l;
      assert (Lower(k), Lower(labels[k])) in pairs;
    }
    assert keys <= firsts && firsts <= keys;
  }

  lemma LabelSpellingDoesNotMatter(a: LabelMap, b: LabelMap)
    requires SameLabels(a, b)
    ensures LabelsAccepted(a) <==> LabelsAccepted(b)
    ensures LabelsAccepted(a) ==> Lowered(a) == Lowered(b)
  {
    EntriesLower(a);
    EntriesLower(b);
    KeysOfPairs(a);
    KeysOfPairs(b);
    LowerCount(a.Keys);
    LowerCount(b.Keys);
    hide Lower, IsLabelKey, IsLabelText, LowerPairs, Lowered;
    if LabelsAccepted(a) && LabelsAccepted(b) { LoweredOfPairs(a, b); }
  }

  lemma PairsAreLowered(labels: LabelMap, l: string, v: string)
    requires LabelsAccepted(labels)
    ensures (l, v) in LowerPairs(labels) <==> l in Lowered(labels) && Lowered(labels)[l] == v
  {
    hide Lower, IsLabelKey, IsLabelText;
    if (l, v) in LowerPairs(labels) {
      var k :| k in labels && (Lower(k), Lower(labels[k])) == (l, v);
    }
  }

  lemma LoweredOfPairs(a: LabelMap, b: LabelMap)
    requires LowerPairs(a) == LowerPairs(b) && LabelsAccepted(a) && LabelsAccepted(b)
    ensures Lowered(a) == Lowered(b)
  {
    hide LowerPairs, LabelsAccepted, IsLowered, Lowered;
    var x, y := Lowered(a), Lowered(b);
    forall l | l in x ensures l in y && y[l] == x[l] {
      PairsAreLowered(a, l, x[l]);
      PairsAreLowered(b, l, x[l]);
    }
    forall l | l in y ensures l in x {
      PairsAreLowered(a, l, y[l]);
      PairsAreLowered(b, l, y[l]);
    }
    assert x.Keys == y.Keys;
  }

  lemma LinkOrderDoesNotMatter(a: seq<string>, b: seq<string>)
    requires multiset(a) == multiset(b)
    ensures LinksAccepted(a, MAX_LINKS) <==> LinksAccepted(b, MAX_LINKS)
    ensures StrList(Elems(a)) == StrList(Elems(b))
  {
    hide IsID, StrLess;
    assert |a| == |multiset(a)| == |multiset(b)| == |b|;
    MultisetElems(a, b);
    PermutedElements(a, b);
    if Distinct(a) { MultisetDistinct(a, b); }
    if Distinct(b) { MultisetDistinct(b, a); }
  }

  ghost predicate SameServiceSpelling(a: Service, b: Service) {
    && a.id == b.id && a.stackID == b.stackID && a.primaryServiceID == b.primaryServiceID
    && SameLabels(a.labels, b.labels) && multiset(a.links) == multiset(b.links)
  }

  ghost predicate SameWorkloadSpelling(a: Workload, b: Workload) {
    && a.id == b.id && a.hostID == b.hostID && a.stackID == b.stackID && a.serviceID == b.serviceID
    && SameLabels(a.labels, b.labels) && multiset(a.links) == multiset(b.links)
  }

  /** The same document with labels and ports in another letter case, links and ports in another
      order, and selectors spelled in another way: in any letter case, with their clauses and
      the values of a set in any order, any blanks around and inside clauses, and `==` for `=`. */
  ghost predicate Respelled(c: Config, d: Config) {
    && c.schema == d.schema && c.localHostID == d.localHostID && c.stacks == d.stacks
    && |c.services| == |d.services| && |c.workloads| == |d.workloads| && |c.policy.rules| == |d.policy.rules|
    && c.policy.defaultAction == d.policy.defaultAction
    && (forall i :: 0 <= i < |c.services| ==> SameServiceSpelling(c.services[i], d.services[i]))
    && (forall i :: 0 <= i < |c.workloads| ==> SameWorkloadSpelling(c.workloads[i], d.workloads[i]))
    && (forall i :: 0 <= i < |c.policy.rules| ==> SameRule(c.policy.rules[i], d.policy.rules[i]))
  }

  lemma RespelledSymmetric(c: Config, d: Config)
    requires Respelled(c, d)
    ensures Respelled(d, c)
  {
    hide Lower, LowerPairs;
    forall i | 0 <= i < |c.policy.rules| ensures SameRule(d.policy.rules[i], c.policy.rules[i]) {
      assert SameRule(c.policy.rules[i], d.policy.rules[i]);
    }
  }

  lemma ServiceRespelled(stacks: seq<Stack>, a: Service, b: Service)
    requires SameServiceSpelling(a, b) && ServiceAccepted(stacks, a)
    ensures ServiceAccepted(stacks, b) && CleanService(a) == CleanService(b)
  {
    hide SameLabels, LabelsAccepted, LinksAccepted, Lowered, IsID;
    LabelSpellingDoesNotMatter(a.labels, b.labels);
    LinkOrderDoesNotMatter(a.links, b.links);
  }

  lemma WorkloadRespelled(stacks: seq<Stack>, a: Workload, b: Workload)
    requires SameWorkloadSpelling(a, b) && WorkloadAccepted(stacks, a)
    ensures WorkloadAccepted(stacks, b) && CleanWorkload(a) == CleanWorkload(b)
  {
    hide SameLabels, LabelsAccepted, LinksAccepted, Lowered, IsID;
    LabelSpellingDoesNotMatter(a.labels, b.labels);
    LinkOrderDoesNotMatter(a.links, b.links);
  }

  lemma ServicesRespelled(stacks: seq<Stack>, a: seq<Service>, b: seq<Service>)
    requires |a| == |b| && forall i :: 0 <= i < |a| ==> SameServiceSpelling(a[i], b[i])
    requires EachServiceAccepted(stacks, a)
    ensures EachServiceAccepted(stacks, b) && CleanServices(a) == CleanServices(b)
  {
    hide ServiceAccepted, CleanService, UniqueBy;
    forall i | 0 <= i < |a| ensures ServiceAccepted(stacks, b[i]) && CleanService(a[i]) == CleanService(b[i]) {
      assert a[i] in a;
      ServiceRespelled(stacks, a[i], b[i]);
    }
    hide SameServiceSpelling;
    assert CleanServices(a) == CleanServices(b);
    CleanKeepsIDs(a);
    CleanKeepsIDs(b);
  }

  lemma WorkloadsRespelled(stacks: seq<Stack>, services: seq<Service>, a: seq<Workload>, b: seq<Workload>)
    requires |a| == |b| && forall i :: 0 <= i < |a| ==> SameWorkloadSpelling(a[i], b[i])
    requires EachWorkloadAccepted(stacks, services, a)
    ensures EachWorkloadAccepted(stacks, services, b) && CleanWorkloads(a) == CleanWorkloads(b)
  {
    hide WorkloadAccepted, CleanWorkload, UniqueBy, ServiceFits;
    forall i | 0 <= i < |a| ensures WorkloadAccepted(stacks, b[i]) && CleanWorkload(a[i]) == CleanWorkload(b[i]) {
      assert a[i] in a;
      WorkloadRespelled(stacks, a[i], b[i]);
    }
    hide SameWorkloadSpelling;
    forall i | 0 <= i < |a| ensures ServiceFits(services, CleanWorkload(b[i])) { assert a[i] in a; }
    assert CleanWorkloads(a) == CleanWorkloads(b);
    CleanKeepsWorkloadIDs(a);
    CleanKeepsWorkloadIDs(b);
  }

  lemma LocalRespelled(a: seq<Workload>, b: seq<Workload>, host: string)
    requires |a| == |b| && forall i :: 0 <= i < |a| ==> SameWorkloadSpelling(a[i], b[i])
    requires HasLocal(a, host)
    ensures HasLocal(b, host)
  {
    hide SameLabels;
    var i :| 0 <= i < |a| && a[i].hostID == host;
    assert b[i] in b && b[i].hostID == host;
  }

  lemma RuleAtRespelled(a: Policy, b: Policy, i: nat)
    requires |a.rules| == |b.rules| && i < |a.rules|
    requires forall i :: 0 <= i < |a.rules| ==> SameRule(a.rules[i], b.rules[i])
    ensures NormalRule(a.rules[i]) == NormalRule(b.rules[i])
  {
    hide NormalRule, SameRule;
    RuleSpellingDoesNotMatter(a.rules[i], b.rules[i]);
  }

  lemma RulesAcceptedRespelled(a: Policy, b: Policy)
    requires |a.rules| == |b.rules| && a.defaultAction == b.defaultAction
    requires forall i :: 0 <= i < |a.rules| ==> NormalRule(a.rules[i]) == NormalRule(b.rules[i])
    ensures PolicyAccepted(a) ==> PolicyAccepted(b)
  {
    hide NormalRule;
    if PolicyAccepted(a) {
      forall r | r in b.rules ensures NormalRule(r).Some? {
        var i :| 0 <= i < |b.rules| && b.rules[i] == r;
        assert a.rules[i] in a.rules;
      }
    }
  }

  lemma RulesRespelled(a: Policy, b: Policy, n: Policy)
    requires |a.rules| == |b.rules| && a.defaultAction == b.defaultAction
    requires forall i :: 0 <= i < |a.rules| ==> SameRule(a.rules[i], b.rules[i])
    ensures PolicyAccepted(a) <==> PolicyAccepted(b)
    ensures IsNormalFormOf(n, a) <==> IsNormalFormOf(n, b)
  {
    hide NormalRule, SameRule, PolicyAccepted;
    forall i | 0 <= i < |a.rules| ensures NormalRule(a.rules[i]) == NormalRule(b.rules[i]) { RuleAtRespelled(a, b, i); }
    RulesAcceptedRespelled(a, b);
    RulesAcceptedRespelled(b, a);
  }

  lemma AcceptedRespelled(c: Config, d: Config, n: Config)
    requires Respelled(c, d) && Accepted(c)
    ensures Accepted(d)
    ensures IsNormalFormOfConfig(n, c) <==> IsNormalFormOfConfig(n, d)
  {
    hide EachServiceAccepted, EachWorkloadAccepted, ReferencesResolve, WorkloadReferencesResolve, IsNormalFormOf,
      IsID, HasLocal, PolicyAccepted, CleanServices, CleanWorkloads, StacksAccepted,
      SameServiceSpelling, SameWorkloadSpelling, SameRule, IsArranged;
    ServicesRespelled(c.stacks, c.services, d.services);
    WorkloadsRespelled(c.stacks, CleanServices(c.services), c.workloads, d.workloads);
    LocalRespelled(c.workloads, d.workloads, c.localHostID);
    RulesRespelled(c.policy, d.policy, n.policy);
  }

  /** Respelling a document changes neither acceptance nor the canonical form. */
  lemma DocumentSpellingDoesNotMatter(c: Config, d: Config, n: Config)
    requires Respelled(c, d)
    ensures Accepted(c) <==> Accepted(d)
    ensures Accepted(c) ==> (IsNormalFormOfConfig(n, c) <==> IsNormalFormOfConfig(n, d))
  {
    hide Accepted, Respelled, IsNormalFormOfConfig;
    RespelledSymmetric(c, d);
    if Accepted(c) { AcceptedRespelled(c, d, n); }
    if Accepted(d) { AcceptedRespelled(d, c, n); }
  }
}
