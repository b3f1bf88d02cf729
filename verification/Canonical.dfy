/** The compiled plan does not depend on the order of workloads, links or map iteration. */
module Canonical {
  import opened Ordering
  import opened Text
  import opened Network
  import opened Selector
  import opened Labels
  import opened Policy
  import opened Topology

  /** The same links, however often and in whatever order they are listed. */
  ghost predicate SameLinks(a: Links, b: Links) {
    forall from, to :: HasLink(a, from, to) <==> HasLink(b, from, to)
  }

  /** Two presentations of one snapshot. */
  ghost predicate SameSnapshot(a: Snapshot, b: Snapshot) {
    && a.subnet == b.subnet && a.localHostID == b.localHostID && a.policy == b.policy
    && multiset(a.workloads) == multiset(b.workloads)
    && SameLinks(a.serviceLinks, b.serviceLinks) && SameLinks(a.containerLinks, b.containerLinks)
  }

  ghost predicate SameContents(a: Snapshot, b: Snapshot) {
    && a.subnet == b.subnet && a.localHostID == b.localHostID && a.policy == b.policy
    && (forall w :: w in a.workloads <==> w in b.workloads)
    && SameLinks(a.serviceLinks, b.serviceLinks) && SameLinks(a.containerLinks, b.containerLinks)
  }

  lemma SnapshotContents(a: Snapshot, b: Snapshot)
    requires SameSnapshot(a, b)
    ensures SameContents(a, b) && |a.workloads| == |b.workloads|
  {
    MultisetElems(a.workloads, b.workloads);
    assert forall w ::
      (w in a.workloads <==> w in Elems(a.workloads)) && (w in b.workloads <==> w in Elems(b.workloads));
    assert |multiset(a.workloads)| == |multiset(b.workloads)|;
  }

  lemma SameTargets(a: Links, b: Links)
    requires SameLinks(a, b)
    ensures Targets(a) == Targets(b)
  {
    forall t | t in Targets(a) ensures t in Targets(b) {
      var from :| from in a && t in a[from];
      assert HasLink(b, from, t);
    }
    forall t | t in Targets(b) ensures t in Targets(a) {
      var from :| from in b && t in b[from];
      assert HasLink(a, from, t);
    }
  }

  lemma SameGroupKeys(a: Snapshot, b: Snapshot, g: Grouping)
    requires SameContents(a, b)
    ensures GroupKeys(a.workloads, g) == GroupKeys(b.workloads, g)
  {
    hide KeyOf, HasLink;
    forall k ensures k in GroupKeys(a.workloads, g) <==> k in GroupKeys(b.workloads, g) {
      assert k in GroupKeys(a.workloads, g) <==> exists w :: w in a.workloads && !w.system && KeyOf(g, w) == Some(k);
      assert k in GroupKeys(b.workloads, g) <==> exists w :: w in b.workloads && !w.system && KeyOf(g, w) == Some(k);
    }
  }

  lemma SameBlock(a: Snapshot, b: Snapshot, form: Keyed, key: string)
    requires SameContents(a, b)
    ensures BlockFor(a, form, key) == BlockFor(b, form, key)
  {
    hide HasLink, KeyOf, Addrs;
    assert SourcesFor(a, form, key) == SourcesFor(b, form, key);
    assert TargetsFor(a, form, key) == TargetsFor(b, form, key);
  }

  lemma SameKeyedBlocks(a: Snapshot, b: Snapshot, form: Keyed)
    requires SameContents(a, b)
    ensures KeyedBlocks(a, form) == KeyedBlocks(b, form)
  {
    match form {
      case Grouped(g) => SameGroupKeys(a, b, g);
      case ServiceLinked => SameTargets(a.serviceLinks, b.serviceLinks);
      case ContainerLinked => SameTargets(a.containerLinks, b.containerLinks);
    }
    hide BlockFor, SameLinks, GroupKeys, Targets;
    var keys := StrList(KeysFor(a, form));
    forall i | 0 <= i < |keys| ensures BlocksFor(a, form, keys)[i] == BlocksFor(b, form, keys)[i] {
      SameBlock(a, b, form, keys[i]);
    }
  }

  lemma SameRuleBlocks(a: Snapshot, b: Snapshot, rule: Rule)
    requires SameContents(a, b)
    ensures RuleBlocks(a, rule) == RuleBlocks(b, rule)
  {
    hide KeyedBlocks, SameLinks, Selects, Addrs;
    forall form { SameKeyedBlocks(a, b, form); }
    forall selector ensures Selected(a.workloads, selector) == Selected(b.workloads, selector) { }
    hide SameContents, Selected;
  }

  lemma {:induction false} SameCompiledRules(a: Snapshot, b: Snapshot, rules: seq<Rule>)
    requires SameContents(a, b)
    ensures CompiledRules(a, rules) == CompiledRules(b, rules) && ZeroMatches(a, rules) == ZeroMatches(b, rules)
  {
    hide RuleBlocks, SameContents, EmitAll;
    if rules != [] {
      SameRuleBlocks(a, b, rules[|rules| - 1]);
      SameCompiledRules(a, b, rules[..|rules| - 1]);
    }
  }

  lemma SameAcceptance(a: Snapshot, b: Snapshot)
    requires SameContents(a, b) && multiset(a.workloads) == multiset(b.workloads)
    requires Accepted(a)
    ensures Accepted(b)
  {
    hide ParseSelector, Contains;
    UniqueIDsPermuted(a.workloads, b.workloads);
    assert Apps(a.workloads) == Apps(b.workloads) && LocalApps(a) == LocalApps(b);
  }

  lemma UniqueIDsPermuted(a: seq<Workload>, b: seq<Workload>)
    requires multiset(a) == multiset(b) && UniqueIDs(a)
    ensures UniqueIDs(b)
  {
    forall i, j | 0 <= i < j < |a| ensures a[i] != a[j] { assert a[i].id != a[j].id; }
    MultisetDistinct(a, b);
    MultisetElems(a, b);
    forall i, j | 0 <= i < j < |b| ensures b[i].id != b[j].id {
      assert b[i] in Elems(b) && b[j] in Elems(b) && b[i] != b[j];
      var k :| 0 <= k < |a| && a[k] == b[i];
      var l :| 0 <= l < |a| && a[l] == b[j];
      assert k < l || l < k;
    }
  }

  /** Reordering workloads and reordering or repeating links changes nothing: both
      presentations are rejected, or both compile to one plan with one digest. */
  lemma CompiledOutputIsCanonical(a: Snapshot, b: Snapshot)
    requires SameSnapshot(a, b)
    ensures Accepted(a) <==> Accepted(b)
    ensures IsPrefix4(a.subnet) ==> PlanOf(a) == PlanOf(b)
    ensures LabelsDetermined(a) <==> LabelsDetermined(b)
  {
    SnapshotContents(a, b);
    if Accepted(a) { SameAcceptance(a, b); }
    if Accepted(b) { SameAcceptance(b, a); }
    hide Accepted, SameLinks, Unambiguous, CompiledRules, ZeroMatches, Addrs;
    SameCompiledRules(a, b, a.policy.rules);
    assert Systems(a.workloads) == Systems(b.workloads);
    assert Apps(a.workloads) == Apps(b.workloads);
  }
}
