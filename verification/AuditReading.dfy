/** What the audit plan reports, read off the normalised document: every number is the size of a
    set of its workloads, rules, ports and label values. */
module AuditReading {
  import opened Ordering
  import opened Text
  import opened Selector
  import opened Labels
  import opened Policy
  import opened Document
  import opened DocumentLaws
  import opened Counting
  import opened Sizes
  import opened SelectorReading
  import opened DocumentReading
  import Audit
  import AuditLaws
  import P = AuditPlan

  // ---- workloads ----

  /** Its stack is a system one. */
  ghost predicate IsSystem(c: Config, w: Workload) {
    exists s :: s in c.stacks && s.id == w.stackID && s.system
  }

  /** A service's workloads are grouped under its primary, or under itself if it has none. */
  predicate IsHead(s: Service, root: string) {
    if s.primaryServiceID == "" then root == s.id else root == s.primaryServiceID
  }

  ghost predicate IsUnder(c: Config, w: Workload, root: string) {
    w.serviceID != "" && exists s :: s in c.services && s.id == w.serviceID && IsHead(s, root)
  }

  /** The label is the workload's own, or its service has it and the workload does not replace it. */
  ghost predicate HasLabel(c: Config, w: Workload, key: string, value: string) {
    if key in w.labels then w.labels[key] == value
    else
      w.serviceID != "" &&
      exists s :: s in c.services && s.id == w.serviceID && key in s.labels && s.labels[key] == value
  }

  ghost predicate AreLabelsOf(c: Config, w: Workload, labels: LabelMap) {
    forall k, v :: (k in labels && labels[k] == v) <==> HasLabel(c, w, k, v)
  }

  /** The workload is as the expression says; one that cannot be read says nothing. */
  ghost predicate IsAsSaid(c: Config, expression: string, w: Workload) {
    exists labels :: AreLabelsOf(c, w, labels) && forall ps :: IsReading(expression, ps) ==> MeansAll(ps, labels)
  }

  ghost predicate HeadsAreLinked(c: Config, a: string, b: string) {
    a != b && exists s, t ::
      && s in c.services && t in c.services && t.id in s.links
      && ((IsHead(s, a) && IsHead(t, b)) || (IsHead(s, b) && IsHead(t, a)))
  }

  /** One links to the other, or a service grouped with one links to a service grouped with the
      other. */
  ghost predicate AreLinked(c: Config, u: Workload, v: Workload) {
    || v.id in u.links || u.id in v.links
    || exists a, b :: IsUnder(c, u, a) && IsUnder(c, v, b) && HeadsAreLinked(c, a, b)
  }

  ghost predicate IsApplication(c: Config, w: Workload) {
    w in c.workloads && !IsSystem(c, w)
  }

  ghost predicate IsTarget(c: Config, w: Workload) {
    IsApplication(c, w) && w.hostID == c.localHostID
  }

  /** The rule applies from `u` to `v`. */
  ghost predicate Applies(c: Config, rule: Rule, u: Workload, v: Workload) {
    IsApplication(c, u) && IsTarget(c, v) && Connects(c, rule, u, v)
  }

  ghost predicate Connects(c: Config, rule: Rule, u: Workload, v: Workload) {
    && (rule.within == "stack" ==> u.stackID == v.stackID)
    && (rule.within == "service" ==> exists root :: IsUnder(c, u, root) && IsUnder(c, v, root))
    && (rule.within == "linked" ==> AreLinked(c, u, v))
    && (rule.between.Some? ==> AreAlike(c, rule.between.value, u, v))
    && (rule.from.Some? ==> IsAsSaid(c, rule.from.value, u))
    && (rule.to.Some? ==> IsAsSaid(c, rule.to.value, v))
  }

  ghost predicate AreAlike(c: Config, between: Between, u: Workload, v: Workload) {
    && (between.selector != "" ==> IsAsSaid(c, between.selector, u) && IsAsSaid(c, between.selector, v))
    && (between.selector == "" ==>
          exists value :: HasLabel(c, u, between.groupBy, value) && HasLabel(c, v, between.groupBy, value))
  }

  // ---- what is counted ----

  datatype Relationship = Relationship(rule: int, source: Workload, destination: Workload)

  datatype PortScope = PortScope(relationship: Relationship, port: Option<string>)

  datatype LabelGroup = LabelGroup(rule: int, value: string)

  ghost predicate IsRelationship(c: Config, rules: seq<Rule>, t: Relationship) {
    0 <= t.rule < |rules| && Applies(c, rules[t.rule], t.source, t.destination)
  }

  /** A relationship of a from/to rule on one of the rule's ports, or on all ports if it lists
      none. */
  ghost predicate IsPortScope(c: Config, rules: seq<Rule>, t: PortScope) {
    IsRelationship(c, rules, t.relationship) &&
    var rule := rules[t.relationship.rule];
    rule.from.Some? && rule.to.Some? && IsEntry(rule, t.port)
  }

  ghost predicate IsEntry(rule: Rule, port: Option<string>) {
    if rule.ports == [] then port.None? else port.Some? && port.value in rule.ports
  }

  /** A value that some application workload has for the label that a rule groups by. */
  ghost predicate IsLabelGroup(c: Config, rules: seq<Rule>, t: LabelGroup) {
    0 <= t.rule < |rules| && rules[t.rule].between.Some? && rules[t.rule].between.value.selector == "" &&
    IsValueOf(c, rules[t.rule].between.value.groupBy, t.value)
  }

  ghost predicate IsValueOf(c: Config, key: string, value: string) {
    exists w :: IsApplication(c, w) && HasLabel(c, w, key, value)
  }

  ghost predicate IsUnmatched(c: Config, rules: seq<Rule>, i: int) {
    0 <= i < |rules| && forall u, v :: !Applies(c, rules[i], u, v)
  }

  /** So many rules are such. */
  ghost predicate AreRules(n: nat, rules: seq<Rule>, such: Rule -> bool) {
    IsSizeOf(n, (i: int) => 0 <= i < |rules| && such(rules[i]))
  }

  ghost predicate IsInventory(r: P.Inventory, c: Config) {
    && r.stackCount == |c.stacks| && r.serviceCount == |c.services| && r.workloadCount == |c.workloads|
    && IsSizeOf(r.local, (w: Workload) => w in c.workloads && w.hostID == c.localHostID)
    && IsSizeOf(r.system, (w: Workload) => w in c.workloads && IsSystem(c, w))
    && IsSizeOf(r.nonSystem, (w: Workload) => IsApplication(c, w))
  }

  ghost predicate AreRuleCounts(r: P.RuleCounts, rules: seq<Rule>) {
    && r.total == |rules|
    && AreRules(r.allow, rules, (rule: Rule) => rule.action == "allow")
    && AreRules(r.deny, rules, (rule: Rule) => rule.action == "deny")
    && AreRules(r.withinStack, rules, (rule: Rule) => rule.within == "stack")
    && AreRules(r.withinService, rules, (rule: Rule) => rule.within == "service")
    && AreRules(r.withinLinked, rules, (rule: Rule) => rule.within == "linked")
    && AreRules(r.betweenSelector, rules, (rule: Rule) => rule.between.Some? && rule.between.value.selector != "")
    && AreRules(r.betweenGroupBy, rules, (rule: Rule) => rule.between.Some? && rule.between.value.selector == "")
    && AreRules(r.fromTo, rules, (rule: Rule) => rule.from.Some? && rule.to.Some?)
  }

  ghost predicate AreRelationships(n: nat, c: Config, rules: seq<Rule>) {
    IsSizeOf(n, (t: Relationship) => IsRelationship(c, rules, t))
  }

  ghost predicate ArePortScopes(n: nat, c: Config, rules: seq<Rule>) {
    IsSizeOf(n, (t: PortScope) => IsPortScope(c, rules, t))
  }

  ghost predicate AreLabelGroups(n: nat, c: Config, rules: seq<Rule>) {
    IsSizeOf(n, (t: LabelGroup) => IsLabelGroup(c, rules, t))
  }

  ghost predicate AreUnmatched(n: nat, c: Config, rules: seq<Rule>) {
    IsSizeOf(n, (i: int) => IsUnmatched(c, rules, i))
  }

  ghost predicate IsCompilation(r: P.Compilation, c: Config, rules: seq<Rule>) {
    && AreRelationships(r.relationships, c, rules) && ArePortScopes(r.portScopes, c, rules)
    && AreLabelGroups(r.labelGroups, c, rules) && AreUnmatched(r.zeroMatches, c, rules)
  }

  /** `p` reports the document `c`. */
  ghost predicate IsReportOf(p: P.Plan, c: Config) {
    && p.defaultAction == c.policy.defaultAction
    && IsInventory(p.inventory, c) && AreRuleCounts(p.rules, c.policy.rules)
    && IsCompilation(p.compilation, c, c.policy.rules)
  }

  // ---- compiled workloads are those of the document ----

  /** What a compiled workload says is read off the document. */
  ghost predicate IsReadOf(c: Config, n: Node) {
    && n.workload in c.workloads && (n.system <==> IsSystem(c, n.workload))
    && AreLabelsOf(c, n.workload, n.labels)
    && forall root :: IsUnder(c, n.workload, root) <==> n.root == root != ""
  }

  lemma ServiceIsKnown(services: seq<Service>, s: Service)
    requires UniqueBy(ServiceID, services) && s in services
    ensures forall t :: t in services && t.id == s.id ==> t == s
  {
    var i :| 0 <= i < |services| && services[i] == s;
    forall t | t in services && t.id == s.id ensures t == s {
      var j :| 0 <= j < |services| && services[j] == t;
      assert ServiceID(services[i]) == ServiceID(services[j]);
    }
  }

  lemma NodeIsRead(c: Config, w: Workload, n: Node)
    requires UniqueBy(ServiceID, c.services) && w in c.workloads && Audit.IsNode(c, w, n)
    requires forall s :: s in c.services && s.primaryServiceID == "" ==> s.id != ""
    ensures IsReadOf(c, n)
  {
    hide UniqueBy;
    if w.serviceID != "" {
      var s :| s in c.services && Audit.Inherits(s, w, n.labels, n.root);
      ServiceIsKnown(c.services, s);
    }
  }

  /** The compiled workloads are the workloads, each once. */
  ghost predicate AreReadOf(c: Config, nodes: seq<Node>) {
    && (forall n :: n in nodes ==> IsReadOf(c, n))
    && (forall w :: w in c.workloads ==> exists n :: n in nodes && n.workload == w)
    && forall m, n :: m in nodes && n in nodes && m.workload == n.workload ==> m == n
  }

  lemma ServicesHaveIDs(c: Config)
    requires Structured(c)
    ensures forall s :: s in c.services ==> s.id != ""
  {
    hide EachWorkloadAccepted, ReferencesResolve, WorkloadReferencesResolve, LabelsAccepted, LinksAccepted;
    forall s | s in c.services ensures s.id != "" { assert IsID(s.id); }
  }

  lemma EachIsRead(c: Config, nodes: seq<Node>)
    requires Structured(c) && Audit.AreNodes(c, nodes)
    ensures forall n :: n in nodes ==> IsReadOf(c, n)
  {
    Audit.References(c);
    ServicesHaveIDs(c);
    hide Structured, IsReadOf, Audit.IsNode, UniqueBy;
    forall n | n in nodes ensures IsReadOf(c, n) {
      var i :| 0 <= i < |nodes| && nodes[i] == n;
      NodeIsRead(c, c.workloads[i], n);
    }
  }

  lemma EachHasWorkload(c: Config, nodes: seq<Node>)
    requires Audit.AreNodes(c, nodes)
    ensures |nodes| == |c.workloads| && forall i :: 0 <= i < |nodes| ==> nodes[i].workload == c.workloads[i]
  {
    hide Audit.IsNode;
    forall i | 0 <= i < |nodes|
      ensures nodes[i].workload == c.workloads[i]
    {
      NodeHasWorkload(c, c.workloads[i], nodes[i]);
    }
  }

  lemma WorkloadsDiffer(c: Config, i: int, j: int)
    requires Structured(c) && 0 <= i < |c.workloads| && 0 <= j < |c.workloads| && c.workloads[i] == c.workloads[j]
    ensures i == j
  {
    Audit.References(c);
    hide Structured;
    assert WorkloadID(c.workloads[i]) == WorkloadID(c.workloads[j]);
  }

  lemma NodesAreRead(c: Config, nodes: seq<Node>)
    requires Structured(c) && Audit.AreNodes(c, nodes)
    ensures AreReadOf(c, nodes)
  {
    hide Structured, IsReadOf, Audit.AreNodes;
    EachIsRead(c, nodes);
    EachHasWorkload(c, nodes);
    forall w | w in c.workloads ensures exists n :: n in nodes && n.workload == w {
      var i :| 0 <= i < |c.workloads| && c.workloads[i] == w;
      assert nodes[i] in nodes;
    }
    forall m, n | m in nodes && n in nodes && m.workload == n.workload ensures m == n {
      var i :| 0 <= i < |nodes| && nodes[i] == m;
      var j :| 0 <= j < |nodes| && nodes[j] == n;
      WorkloadsDiffer(c, i, j);
    }
  }

  lemma NodeHasWorkload(c: Config, w: Workload, n: Node)
    requires Audit.IsNode(c, w, n)
    ensures n.workload == w
  {
  }

  lemma LabelsAreUnique(c: Config, w: Workload, a: LabelMap, b: LabelMap)
    requires AreLabelsOf(c, w, a) && AreLabelsOf(c, w, b)
    ensures a == b
  {
    hide HasLabel;
    forall k ensures k in a <==> k in b {
      if k in a { assert HasLabel(c, w, k, a[k]); }
      if k in b { assert HasLabel(c, w, k, b[k]); }
    }
    forall k | k in a ensures a[k] == b[k] { assert HasLabel(c, w, k, a[k]); }
  }

  /** What a selector says of a workload's labels. */
  lemma SaidOfLabels(c: Config, w: Workload, labels: LabelMap, expression: string)
    requires AreLabelsOf(c, w, labels)
    ensures IsAsSaid(c, expression, w) <==> forall ps :: IsReading(expression, ps) ==> MeansAll(ps, labels)
  {
    hide AreLabelsOf, IsReading, MeansAll;
    if IsAsSaid(c, expression, w) {
      var other :| AreLabelsOf(c, w, other) && forall ps :: IsReading(expression, ps) ==> MeansAll(ps, other);
      LabelsAreUnique(c, w, labels, other);
    }
  }

  lemma ChosenAsRead(c: Config, nodes: seq<Node>, n: Node, expression: string)
    requires Structured(c) && Audit.AreNodes(c, nodes) && n in nodes && IsReadOf(c, n)
    ensures Audit.Chosen(expression, n) <==> IsAsSaid(c, expression, n.workload)
  {
    SaidOfLabels(c, n.workload, n.labels, expression);
    hide Structured, Audit.AreNodes, IsReading, MeansAll, Satisfies, IsAsSaid, AreLabelsOf, Selects, ParseSelector,
      AuditLaws.AllLower;
    AuditLaws.NodeLabelsAreLower(c, nodes, n);
    AcceptedIsReadable(expression);
    if ParseSelector(expression).Some? {
      AuditLaws.ChosenIsSelected(expression, n);
      AuditLaws.AllLowerIsUnambiguous(n.labels);
      SelectsAsRead(expression, n.labels);
    }
  }

  lemma HeadsAsRead(c: Config, a: string, b: string)
    ensures Audit.RootsLinked(c.services, a, b) <==> HeadsAreLinked(c, a, b)
  {
    assert forall s, r :: Audit.RootOf(s) == r <==> IsHead(s, r);
    hide Audit.RootOf, IsHead;
  }

  lemma LinkedAsRead(c: Config, u: Node, v: Node)
    requires IsReadOf(c, u) && IsReadOf(c, v)
    ensures Audit.Linked(c, u, v) <==> AreLinked(c, u.workload, v.workload)
  {
    hide Audit.RootsLinked, HeadsAreLinked, IsUnder, IsSystem, AreLabelsOf;
    HeadsAsRead(c, u.root, v.root);
    if a, b :| IsUnder(c, u.workload, a) && IsUnder(c, v.workload, b) && HeadsAreLinked(c, a, b) {
      assert a == u.root && b == v.root;
    }
    if u.root != "" && v.root != "" { assert IsUnder(c, u.workload, u.root) && IsUnder(c, v.workload, v.root); }
  }

  lemma ValuesAsRead(c: Config, u: Node, v: Node, key: string)
    requires IsReadOf(c, u) && IsReadOf(c, v)
    ensures (key in u.labels && key in v.labels && u.labels[key] == v.labels[key]) <==>
      exists value :: HasLabel(c, u.workload, key, value) && HasLabel(c, v.workload, key, value)
  {
    hide HasLabel, IsUnder, IsSystem;
    if key in u.labels && key in v.labels && u.labels[key] == v.labels[key] {
      assert HasLabel(c, u.workload, key, u.labels[key]);
    }
  }

  lemma RootsAsRead(c: Config, u: Node, v: Node)
    requires IsReadOf(c, u) && IsReadOf(c, v)
    ensures u.root == v.root != "" <==> exists root :: IsUnder(c, u.workload, root) && IsUnder(c, v.workload, root)
  {
    hide HasLabel, IsUnder, IsSystem;
    if u.root == v.root != "" { assert IsUnder(c, u.workload, u.root); }
  }

  ghost predicate IsPair(c: Config, nodes: seq<Node>, rule: Rule, u: Node, v: Node) {
    && u in Audit.AppNodes(nodes) && v in Audit.AppNodes(nodes) && v.workload.hostID == c.localHostID
    && Audit.Relates(c, rule, u, v)
  }

  lemma WithinAsRead(c: Config, rule: Rule, u: Node, v: Node)
    requires IsReadOf(c, u) && IsReadOf(c, v) && rule.within != "" && IsNormalRule(rule)
    ensures Audit.Relates(c, rule, u, v) <==> Connects(c, rule, u.workload, v.workload)
  {
    hide Audit.Linked, AreLinked, IsUnder, AreLabelsOf, IsSystem, IsReadOf;
    LinkedAsRead(c, u, v);
    RootsAsRead(c, u, v);
  }

  lemma BetweenAsRead(c: Config, nodes: seq<Node>, rule: Rule, u: Node, v: Node)
    requires Structured(c) && Audit.AreNodes(c, nodes) && u in nodes && v in nodes && IsReadOf(c, u) && IsReadOf(c, v)
    requires rule.between.Some? && IsNormalRule(rule)
    ensures Audit.Relates(c, rule, u, v) <==> Connects(c, rule, u.workload, v.workload)
  {
    assert rule.within == "" && rule.from.None? && rule.to.None?;
    hide Structured, Audit.AreNodes, Audit.Linked, AreLinked, HasLabel, IsReadOf, Audit.Chosen, IsAsSaid, IsNormalRule;
    ValuesAsRead(c, u, v, rule.between.value.groupBy);
    ChosenAsRead(c, nodes, u, rule.between.value.selector);
    ChosenAsRead(c, nodes, v, rule.between.value.selector);
  }

  lemma DirectedAsRead(c: Config, nodes: seq<Node>, rule: Rule, u: Node, v: Node)
    requires Structured(c) && Audit.AreNodes(c, nodes) && u in nodes && v in nodes && IsReadOf(c, u) && IsReadOf(c, v)
    requires rule.from.Some? && rule.to.Some? && IsNormalRule(rule)
    ensures Audit.Relates(c, rule, u, v) <==> Connects(c, rule, u.workload, v.workload)
  {
    assert rule.within == "" && rule.between.None?;
    hide Structured, Audit.AreNodes, Audit.Linked, AreLinked, IsReadOf, Audit.Chosen, IsAsSaid, IsNormalRule;
    ChosenAsRead(c, nodes, u, rule.from.value);
    ChosenAsRead(c, nodes, v, rule.to.value);
  }

  lemma OneForm(rule: Rule)
    requires IsNormalRule(rule)
    ensures rule.within != "" || rule.between.Some? || (rule.from.Some? && rule.to.Some?)
    ensures rule.within != "" ==> rule.between.None? && rule.from.None? && rule.to.None?
    ensures rule.between.Some? ==> rule.from.None? && rule.to.None?
  {
  }

  lemma RelatesAsRead(c: Config, nodes: seq<Node>, rule: Rule, u: Node, v: Node)
    requires Structured(c) && Audit.AreNodes(c, nodes) && AreReadOf(c, nodes) && IsNormalRule(rule) && u in nodes
    requires v in nodes
    ensures IsPair(c, nodes, rule, u, v) <==> Applies(c, rule, u.workload, v.workload)
  {
    assert u.system <==> IsSystem(c, u.workload);
    assert v.system <==> IsSystem(c, v.workload);
    hide Structured, Audit.AreNodes, IsReadOf, Audit.Relates, Connects, IsSystem, IsNormalRule;
    OneForm(rule);
    assert Audit.Relates(c, rule, u, v) <==> Connects(c, rule, u.workload, v.workload) by {
      if rule.within != "" {
        WithinAsRead(c, rule, u, v);
      } else if rule.between.Some? {
        BetweenAsRead(c, nodes, rule, u, v);
      } else {
        DirectedAsRead(c, nodes, rule, u, v);
      }
    }
    ReadIsListed(c, u);
    ReadIsListed(c, v);
  }

  lemma ReadIsListed(c: Config, n: Node)
    requires IsReadOf(c, n)
    ensures n.workload in c.workloads
  {
    hide IsUnder, AreLabelsOf, IsSystem;
  }

  // ---- the counts ----

  ghost function PairsOf(c: Config, rule: Rule): ((Workload, Workload)) -> bool {
    (p: (Workload, Workload)) => Applies(c, rule, p.0, p.1)
  }

  lemma PairIsListed(c: Config, nodes: seq<Node>, rule: Rule)
    ensures forall p :: p in Audit.RelatedPairs(c, nodes, rule) <==> IsPair(c, nodes, rule, p.0, p.1)
    ensures forall u, v :: IsPair(c, nodes, rule, u, v) ==> u in nodes && v in nodes
  {
    forall p
      ensures p in Audit.RelatedPairs(c, nodes, rule) <==> IsPair(c, nodes, rule, p.0, p.1)
    {
      assert p == (p.0, p.1);
    }
  }

  /** The nodes of a related pair of workloads. */
  lemma PairFrom(c: Config, nodes: seq<Node>, rule: Rule, u: Workload, v: Workload) returns (m: Node, n: Node)
    requires Structured(c) && Audit.AreNodes(c, nodes) && AreReadOf(c, nodes) && IsNormalRule(rule)
    requires Applies(c, rule, u, v)
    ensures IsPair(c, nodes, rule, m, n) && m.workload == u && n.workload == v
  {
    assert u in c.workloads && v in c.workloads;
    hide Structured, Audit.AreNodes, IsNormalRule, IsReadOf, Applies;
    m :| m in nodes && m.workload == u;
    n :| n in nodes && n.workload == v;
    hide IsPair, AreReadOf;
    RelatesAsRead(c, nodes, rule, m, n);
  }

  lemma NodesDiffer(c: Config, nodes: seq<Node>)
    requires AreReadOf(c, nodes)
    ensures forall m, n :: m in nodes && n in nodes && m.workload == n.workload ==> m == n
  {
    hide IsReadOf;
  }

  lemma PairsAsRead(c: Config, nodes: seq<Node>, rule: Rule)
    requires Structured(c) && Audit.AreNodes(c, nodes) && AreReadOf(c, nodes) && IsNormalRule(rule)
    ensures IsSizeOf(|Audit.RelatedPairs(c, nodes, rule)|, PairsOf(c, rule))
  {
    hide Structured, Audit.AreNodes, Audit.RelatedPairs, IsNormalRule, IsPair, AreReadOf, IsSizeOf, Applies;
    PairIsListed(c, nodes, rule);
    NodesDiffer(c, nodes);
    var pairs := Audit.RelatedPairs(c, nodes, rule);
    var such := (p: (Node, Node)) => p in pairs;
    var f := (p: (Node, Node)) => (p.0.workload, p.1.workload);
    SizeOfSet(pairs, such);
    forall p | such(p) ensures PairsOf(c, rule)(f(p)) { RelatesAsRead(c, nodes, rule, p.0, p.1); }
    forall q | PairsOf(c, rule)(q) ensures exists p :: such(p) && f(p) == q {
      var u, v := PairFrom(c, nodes, rule, q.0, q.1);
      assert such((u, v)) && f((u, v)) == q;
    }
    SizeMapped(|pairs|, such, f, PairsOf(c, rule));
  }

  lemma RelationshipsMore(c: Config, rules: seq<Rule>, rule: Rule, n: nat, m: nat)
    requires AreRelationships(n, c, rules) && IsSizeOf(m, PairsOf(c, rule))
    ensures AreRelationships(n + m, c, rules + [rule])
  {
    hide IsSizeOf, Applies;
    var k := |rules|;
    var before := (t: Relationship) => IsRelationship(c, rules, t);
    var added := (t: Relationship) => t.rule == k && Applies(c, rule, t.source, t.destination);
    var after := (t: Relationship) => IsRelationship(c, rules + [rule], t);
    var f := (p: (Workload, Workload)) => Relationship(k, p.0, p.1);
    forall t | added(t) ensures exists p :: PairsOf(c, rule)(p) && f(p) == t {
      assert f((t.source, t.destination)) == t;
    }
    SizeMapped(m, PairsOf(c, rule), f, added);
    SizesAdd(n, before, m, added, after);
  }

  lemma EntriesAre(rule: Rule)
    requires Distinct(rule.ports)
    ensures IsSizeOf(if rule.ports == [] then 1 else |rule.ports|, (e: Option<string>) => IsEntry(rule, e))
  {
    var such := (e: Option<string>) => IsEntry(rule, e);
    if rule.ports == [] {
      SizeOfSet({None}, such);
    } else {
      AscendingLength(rule.ports);
      SizeOfSet(Elems(rule.ports), (q: string) => q in Elems(rule.ports));
      assert forall q :: q in rule.ports <==> q in Elems(rule.ports);
      hide IsSizeOf;
      forall e | such(e) ensures exists q :: q in Elems(rule.ports) && Some(q) == e { assert Some(e.value) == e; }
      SizeMapped(|rule.ports|, (q: string) => q in Elems(rule.ports), (q: string) => Some(q), such);
    }
  }

  lemma ScopesMore(c: Config, rules: seq<Rule>, rule: Rule, n: nat, m: nat, total: nat)
    requires ArePortScopes(n, c, rules) && IsSizeOf(m, PairsOf(c, rule))
    requires rule.from.Some? && rule.to.Some? && Distinct(rule.ports)
    requires total == n + m * (if rule.ports == [] then 1 else |rule.ports|)
    ensures ArePortScopes(total, c, rules + [rule])
  {
    EntriesAre(rule);
    hide IsSizeOf, Applies, IsEntry;
    var k, e := |rules|, if rule.ports == [] then 1 else |rule.ports|;
    var entry := (x: Option<string>) => IsEntry(rule, x);
    SizeOfProduct(m, PairsOf(c, rule), e, entry);
    var both := (p: ((Workload, Workload), Option<string>)) => PairsOf(c, rule)(p.0) && entry(p.1);
    Recount(m * e, (p: ((Workload, Workload), Option<string>)) => PairsOf(c, rule)(p.0) && entry(p.1), both);
    var f := (p: ((Workload, Workload), Option<string>)) => PortScope(Relationship(k, p.0.0, p.0.1), p.1);
    var added := (t: PortScope) => t.relationship.rule == k &&
      Applies(c, rule, t.relationship.source, t.relationship.destination) && IsEntry(rule, t.port);
    forall t | added(t) ensures exists p :: both(p) && f(p) == t {
      var p := ((t.relationship.source, t.relationship.destination), t.port);
      assert both(p) && f(p) == t;
    }
    SizeMapped(m * e, both, f, added);
    ScopesAdd(c, rules, rule, n, m * e, added);
  }

  lemma ScopesAdd(c: Config, rules: seq<Rule>, rule: Rule, n: nat, m: nat, added: PortScope -> bool)
    requires ArePortScopes(n, c, rules) && IsSizeOf(m, added)
    requires forall t: PortScope :: added(t) <==>
      t.relationship.rule == |rules| && rule.from.Some? && rule.to.Some? &&
      Applies(c, rule, t.relationship.source, t.relationship.destination) && IsEntry(rule, t.port)
    ensures ArePortScopes(n + m, c, rules + [rule])
  {
    hide IsSizeOf, Applies;
    var before := (t: PortScope) => IsPortScope(c, rules, t);
    var after := (t: PortScope) => IsPortScope(c, rules + [rule], t);
    SizesAdd(n, before, m, added, after);
  }

  lemma NoScopesMore(c: Config, rules: seq<Rule>, rule: Rule, n: nat)
    requires ArePortScopes(n, c, rules) && !(rule.from.Some? && rule.to.Some?)
    ensures ArePortScopes(n, c, rules + [rule])
  {
    var none := (t: PortScope) => false;
    NothingSuch(none);
    ScopesAdd(c, rules, rule, n, 0, none);
  }

  lemma GroupsAdd(c: Config, rules: seq<Rule>, rule: Rule, n: nat, m: nat, added: LabelGroup -> bool)
    requires AreLabelGroups(n, c, rules) && IsSizeOf(m, added)
    requires forall t: LabelGroup :: added(t) <==>
      t.rule == |rules| && rule.between.Some? && rule.between.value.selector == "" &&
      IsValueOf(c, rule.between.value.groupBy, t.value)
    ensures AreLabelGroups(n + m, c, rules + [rule])
  {
    hide IsSizeOf, IsValueOf;
    var before := (t: LabelGroup) => IsLabelGroup(c, rules, t);
    var after := (t: LabelGroup) => IsLabelGroup(c, rules + [rule], t);
    SizesAdd(n, before, m, added, after);
  }

  lemma NoGroupsMore(c: Config, rules: seq<Rule>, rule: Rule, n: nat)
    requires AreLabelGroups(n, c, rules) && !(rule.between.Some? && rule.between.value.selector == "")
    ensures AreLabelGroups(n, c, rules + [rule])
  {
    var none := (t: LabelGroup) => false;
    NothingSuch(none);
    GroupsAdd(c, rules, rule, n, 0, none);
  }

  lemma ValueIsListed(c: Config, nodes: seq<Node>, key: string, value: string)
    requires AreReadOf(c, nodes)
    ensures value in P.GroupValues(nodes, key) <==> IsValueOf(c, key, value)
  {
    hide HasLabel, IsUnder, IsSystem;
    if IsValueOf(c, key, value) {
      var w :| IsApplication(c, w) && HasLabel(c, w, key, value);
      var n :| n in nodes && n.workload == w;
      assert IsReadOf(c, n);
    }
    if value in P.GroupValues(nodes, key) {
      var n :| n in nodes && !n.system && key in n.labels && n.labels[key] == value;
      assert IsReadOf(c, n);
      assert HasLabel(c, n.workload, key, value);
    }
  }

  lemma GroupsMore(c: Config, nodes: seq<Node>, rules: seq<Rule>, rule: Rule, n: nat)
    requires AreReadOf(c, nodes) && AreLabelGroups(n, c, rules) && rule.between.Some?
    requires rule.between.value.selector == ""
    ensures AreLabelGroups(n + |P.GroupValues(nodes, rule.between.value.groupBy)|, c, rules + [rule])
  {
    hide AreReadOf, P.GroupValues, IsValueOf, IsSizeOf;
    var k, values := |rules|, P.GroupValues(nodes, rule.between.value.groupBy);
    var such := (v: string) => v in values;
    SizeOfSet(values, such);
    var f := (v: string) => LabelGroup(k, v);
    var added := (t: LabelGroup) => t.rule == k && IsValueOf(c, rule.between.value.groupBy, t.value);
    forall v ensures v in values <==> IsValueOf(c, rule.between.value.groupBy, v) {
      ValueIsListed(c, nodes, rule.between.value.groupBy, v);
    }
    forall t | added(t) ensures exists v :: such(v) && f(v) == t { assert such(t.value) && f(t.value) == t; }
    SizeMapped(|values|, such, f, added);
    GroupsAdd(c, rules, rule, n, |values|, added);
  }

  lemma UnmatchedMore(c: Config, nodes: seq<Node>, rules: seq<Rule>, rule: Rule, n: nat)
    requires AreUnmatched(n, c, rules) && IsSizeOf(|Audit.RelatedPairs(c, nodes, rule)|, PairsOf(c, rule))
    ensures AreUnmatched(n + if Audit.RelatedPairs(c, nodes, rule) == {} then 1 else 0, c, rules + [rule])
  {
    hide Applies, Audit.RelatedPairs;
    var pairs, k := Audit.RelatedPairs(c, nodes, rule), |rules|;
    NoneRelated(c, rule, |pairs|);
    var before := (i: int) => IsUnmatched(c, rules, i);
    var after := (i: int) => IsUnmatched(c, rules + [rule], i);
    var added := (i: int) => i == k && pairs == {};
    SizeOfSet(if pairs == {} then {k} else {}, added);
    hide IsSizeOf;
    assert (rules + [rule])[k] == rule;
    assert forall i :: 0 <= i < k ==> (rules + [rule])[i] == rules[i];
    SizesAdd(n, before, if pairs == {} then 1 else 0, added, after);
  }

  lemma NoneRelated(c: Config, rule: Rule, n: nat)
    requires IsSizeOf(n, PairsOf(c, rule))
    ensures n == 0 <==> forall u, v :: !Applies(c, rule, u, v)
  {
    hide Applies;
    var s: set<(Workload, Workload)> :| |s| == n && AreThose(s, PairsOf(c, rule));
    if n != 0 {
      var p :| p in s;
      assert PairsOf(c, rule)(p);
    } else {
      forall u, v ensures !Applies(c, rule, u, v) { assert PairsOf(c, rule)((u, v)) ==> (u, v) in s; }
    }
  }

  lemma PortsDiffer(ports: seq<string>)
    requires Ascending(StrLess, ports)
    ensures Distinct(ports)
  {
    StringsAreOrdered();
    hide StrLess;
  }

  lemma ScopesOfRule(c: Config, rules: seq<Rule>, rule: Rule, n: nat, m: nat, total: nat)
    requires IsNormalRule(rule) && ArePortScopes(n, c, rules) && IsSizeOf(m, PairsOf(c, rule))
    requires total == n + m * P.Scopes(rule)
    ensures ArePortScopes(total, c, rules + [rule])
  {
    assert rule.from.Some? ==> AreNormalPorts(rule.ports);
    FormsAsRead(rule);
    hide IsNormalRule, ArePortScopes, IsSizeOf, P.FormOf, IsCanonicalPort;
    if rule.from.Some? && rule.to.Some? {
      PortsDiffer(rule.ports);
      ScopesMore(c, rules, rule, n, m, total);
    } else {
      NoScopesMore(c, rules, rule, n);
    }
  }

  lemma GroupsOfRule(c: Config, nodes: seq<Node>, rules: seq<Rule>, rule: Rule, n: nat)
    requires IsNormalRule(rule) && AreReadOf(c, nodes) && AreLabelGroups(n, c, rules)
    ensures AreLabelGroups(n + P.Groups(nodes, rule), c, rules + [rule])
  {
    FormsAsRead(rule);
    hide IsNormalRule, AreReadOf, AreLabelGroups, P.FormOf, P.GroupValues;
    if rule.between.Some? && rule.between.value.selector == "" {
      GroupsMore(c, nodes, rules, rule, n);
    } else {
      NoGroupsMore(c, rules, rule, n);
    }
  }

  lemma RuleMore(c: Config, nodes: seq<Node>, rules: seq<Rule>, rule: Rule, r: P.Compilation, s: P.Compilation)
    requires Structured(c) && Audit.AreNodes(c, nodes) && AreReadOf(c, nodes) && IsNormalRule(rule)
    requires IsCompilation(r, c, rules)
    requires s.relationships == r.relationships + |Audit.RelatedPairs(c, nodes, rule)|
    requires s.portScopes == r.portScopes + |Audit.RelatedPairs(c, nodes, rule)| * P.Scopes(rule)
    requires s.labelGroups == r.labelGroups + P.Groups(nodes, rule)
    requires s.zeroMatches == r.zeroMatches + if Audit.RelatedPairs(c, nodes, rule) == {} then 1 else 0
    ensures IsCompilation(s, c, rules + [rule])
  {
    hide Structured, Audit.AreNodes, AreReadOf, IsNormalRule, Audit.RelatedPairs, AreRelationships, ArePortScopes,
      AreLabelGroups,
      AreUnmatched, IsSizeOf, P.Groups, P.Scopes, PairsOf;
    PairsAsRead(c, nodes, rule);
    RelationshipsMore(c, rules, rule, r.relationships, |Audit.RelatedPairs(c, nodes, rule)|);
    UnmatchedMore(c, nodes, rules, rule, r.zeroMatches);
    ScopesOfRule(c, rules, rule, r.portScopes, |Audit.RelatedPairs(c, nodes, rule)|, s.portScopes);
    GroupsOfRule(c, nodes, rules, rule, r.labelGroups);
  }

  lemma FormsAsRead(rule: Rule)
    requires IsNormalRule(rule)
    ensures P.FormOf(rule).WithinStack? <==> rule.within == "stack"
    ensures P.FormOf(rule).WithinService? <==> rule.within == "service"
    ensures P.FormOf(rule).WithinLinked? <==> rule.within == "linked"
    ensures P.FormOf(rule).BetweenSelector? <==> rule.between.Some? && rule.between.value.selector != ""
    ensures P.FormOf(rule).BetweenGroupBy? <==> rule.between.Some? && rule.between.value.selector == ""
    ensures P.FormOf(rule).FromTo? <==> rule.from.Some? && rule.to.Some?
  {
  }

  lemma NothingCompiled(c: Config)
    ensures IsCompilation(P.Compilation(0, 0, 0, 0), c, [])
  {
    hide IsSizeOf, Applies;
    NothingSuch((t: Relationship) => IsRelationship(c, [], t));
    NothingSuch((t: PortScope) => IsPortScope(c, [], t));
    NothingSuch((t: LabelGroup) => IsLabelGroup(c, [], t));
    NothingSuch((i: int) => IsUnmatched(c, [], i));
  }

  lemma {:induction false} CompilationAsRead(c: Config, nodes: seq<Node>, rules: seq<Rule>)
    requires Structured(c) && Audit.AreNodes(c, nodes) && AreReadOf(c, nodes) && forall rule :: rule in rules ==>
      IsNormalRule(rule)
    ensures IsCompilation(P.CompilationOf(c, nodes, rules), c, rules)
  {
    hide Structured, Audit.AreNodes, AreReadOf, IsNormalRule, Audit.RelatedPairs, IsCompilation, P.Scopes, P.Groups;
    if rules == [] {
      NothingCompiled(c);
    } else {
      var front, last := rules[..|rules| - 1], rules[|rules| - 1];
      CompilationAsRead(c, nodes, front);
      RuleMore(c, nodes, front, last, P.CompilationOf(c, nodes, front), P.CompilationOf(c, nodes, rules));
      assert front + [last] == rules;
    }
  }

  // ---- rules and inventory ----

  lemma RulesAreCounted(s: set<nat>, rules: seq<Rule>, such: Rule -> bool)
    requires forall i: nat :: i in s <==> i < |rules| && such(rules[i])
    ensures AreRules(|s|, rules, such)
  {
    SizeOfSet<int>(s, (i: int) => 0 <= i < |rules| && such(rules[i]));
  }

  lemma ActionsAreCounted(rules: seq<Rule>, action: string)
    ensures AreRules(|P.WithAction(rules, action)|, rules, (rule: Rule) => rule.action == action)
  {
    hide AreRules;
    RulesAreCounted(P.WithAction(rules, action), rules, (rule: Rule) => rule.action == action);
  }

  lemma FormIsCounted(rules: seq<Rule>, form: P.Form, such: Rule -> bool)
    requires forall rule :: rule in rules ==> IsNormalRule(rule)
    requires forall rule :: IsNormalRule(rule) ==> (P.FormOf(rule) == form <==> such(rule))
    ensures AreRules(|P.WithForm(rules, form)|, rules, such)
  {
    hide P.FormOf, IsNormalRule, AreRules;
    RulesAreCounted(P.WithForm(rules, form), rules, such);
  }

  lemma WithinAreCounted(rules: seq<Rule>)
    requires forall rule :: rule in rules ==> IsNormalRule(rule)
    ensures AreRules(|P.WithForm(rules, P.WithinStack)|, rules, (rule: Rule) => rule.within == "stack")
    ensures AreRules(|P.WithForm(rules, P.WithinService)|, rules, (rule: Rule) => rule.within == "service")
    ensures AreRules(|P.WithForm(rules, P.WithinLinked)|, rules, (rule: Rule) => rule.within == "linked")
  {
    hide P.FormOf, IsNormalRule, AreRules, P.WithForm;
    forall rule | IsNormalRule(rule)
      ensures P.FormOf(rule) == P.WithinStack <==> rule.within == "stack"
      ensures P.FormOf(rule) == P.WithinService <==> rule.within == "service"
      ensures P.FormOf(rule) == P.WithinLinked <==> rule.within == "linked"
    {
      FormsAsRead(rule);
    }
    FormIsCounted(rules, P.WithinStack, (rule: Rule) => rule.within == "stack");
    FormIsCounted(rules, P.WithinService, (rule: Rule) => rule.within == "service");
    FormIsCounted(rules, P.WithinLinked, (rule: Rule) => rule.within == "linked");
  }

  lemma OthersAreCounted(rules: seq<Rule>)
    requires forall rule :: rule in rules ==> IsNormalRule(rule)
    ensures AreRules(|P.WithForm(rules, P.BetweenSelector)|, rules,
                     (rule: Rule) => rule.between.Some? && rule.between.value.selector != "")
    ensures AreRules(|P.WithForm(rules, P.BetweenGroupBy)|, rules,
                     (rule: Rule) => rule.between.Some? && rule.between.value.selector == "")
    ensures AreRules(|P.WithForm(rules, P.FromTo)|, rules, (rule: Rule) => rule.from.Some? && rule.to.Some?)
  {
    hide P.FormOf, IsNormalRule, AreRules, P.WithForm;
    forall rule | IsNormalRule(rule)
      ensures P.FormOf(rule) == P.BetweenSelector <==> rule.between.Some? && rule.between.value.selector != ""
      ensures P.FormOf(rule) == P.BetweenGroupBy <==> rule.between.Some? && rule.between.value.selector == ""
      ensures P.FormOf(rule) == P.FromTo <==> rule.from.Some? && rule.to.Some?
    {
      FormsAsRead(rule);
    }
    FormIsCounted(rules, P.BetweenSelector, (rule: Rule) => rule.between.Some? && rule.between.value.selector != "");
    FormIsCounted(rules, P.BetweenGroupBy, (rule: Rule) => rule.between.Some? && rule.between.value.selector == "");
    FormIsCounted(rules, P.FromTo, (rule: Rule) => rule.from.Some? && rule.to.Some?);
  }

  lemma RuleCountsAsRead(r: P.RuleCounts, rules: seq<Rule>)
    requires P.CountsRules(r, rules) && forall rule :: rule in rules ==> IsNormalRule(rule)
    ensures AreRuleCounts(r, rules)
  {
    hide AreRules, IsNormalRule, P.WithForm, P.WithAction;
    ActionsAreCounted(rules, "allow");
    ActionsAreCounted(rules, "deny");
    WithinAreCounted(rules);
    OthersAreCounted(rules);
  }

  lemma WorkloadsAreCounted(c: Config, nodes: seq<Node>, counted: set<Node>, such: Workload -> bool)
    requires AreReadOf(c, nodes)
    requires forall n :: n in counted <==> n in nodes && such(n.workload)
    requires forall w :: such(w) ==> w in c.workloads
    ensures IsSizeOf(|counted|, such)
  {
    hide IsReadOf, IsSizeOf;
    var has := (n: Node) => n in counted;
    SizeOfSet(counted, has);
    var f := (n: Node) => n.workload;
    forall w | such(w) ensures exists n :: has(n) && f(n) == w {
      var n :| n in nodes && n.workload == w;
      assert has(n) && f(n) == w;
    }
    SizeMapped(|counted|, has, f, such);
  }

  lemma SystemsAsRead(c: Config, nodes: seq<Node>)
    requires AreReadOf(c, nodes)
    ensures forall n :: n in nodes ==> n.workload in c.workloads && (n.system <==> IsSystem(c, n.workload))
  {
    hide IsSystem, IsUnder, AreLabelsOf;
  }

  lemma InventoryAsRead(c: Config, nodes: seq<Node>, r: P.Inventory)
    requires AreReadOf(c, nodes)
    requires r == P.Inventory(|c.stacks|, |c.services|, |c.workloads|, |Audit.LocalNodes(nodes, c.localHostID)|,
                              |Audit.SystemNodes(nodes)|, |Audit.AppNodes(nodes)|)
    ensures IsInventory(r, c)
  {
    SystemsAsRead(c, nodes);
    hide AreReadOf, IsSystem, IsSizeOf;
    WorkloadsAreCounted(
      c, nodes, Audit.LocalNodes(nodes, c.localHostID), (w: Workload) => w in c.workloads && w.hostID == c.localHostID);
    WorkloadsAreCounted(c, nodes, Audit.SystemNodes(nodes), (w: Workload) => w in c.workloads && IsSystem(c, w));
    WorkloadsAreCounted(c, nodes, Audit.AppNodes(nodes), (w: Workload) => IsApplication(c, w));
  }

  // ---- the plan ----

  lemma FormAsRead(p: P.Plan, c: Config, nodes: seq<Node>)
    requires Structured(c) && Audit.AreNodes(c, nodes) && P.IsPlan(p, c, nodes)
    ensures IsReportOf(p, c)
  {
    hide Structured, Audit.AreNodes, IsNormalRule, IsInventory, AreRuleCounts, IsCompilation, AreReadOf, P.CountsRules,
      P.CompilationOf, Audit.LocalNodes, Audit.SystemNodes, Audit.AppNodes;
    P.RulesAreNormal(c);
    NodesAreRead(c, nodes);
    InventoryAsRead(c, nodes, p.inventory);
    RuleCountsAsRead(p.rules, c.policy.rules);
    CompilationAsRead(c, nodes, c.policy.rules);
  }

  /** Every plan reports a document that says what was submitted. */
  lemma PlanAsRead(p: P.Plan, config: Config)
    requires Accepted(config) && P.IsPlanFor(p, config)
    ensures exists c :: p.digest == P.Sha(c) && IsCanonicalOf(c, config) && IsReportOf(p, c)
  {
    hide Accepted, IsNormalFormOfConfig, Audit.AreNodes, Structured, IsReportOf, IsCanonicalOf, P.CountsRules,
      P.CompilationOf;
    var c, nodes :| IsNormalFormOfConfig(c, config) && Audit.AreNodes(c, nodes) && P.IsPlan(p, c, nodes);
    NormalFormIsStructured(c, config);
    NormalFormKeeps(c, config);
    FormAsRead(p, c, nodes);
  }
}
