/** The audit plan: how many workload pairs every rule of a document relates. */
module AuditPlan {
  import opened Ordering
  import opened Text
  import opened Selector
  import opened SelectorLaws
  import opened Labels
  import opened Policy
  import opened Document
  import opened DocumentLaws
  import opened Counting
  import opened Audit

  ghost predicate Ready(r: Compiled) {
    Structured(r.config) && IsCompiled(r.config, r)
  }

  // ---- rules with selectors ----

  /** The application workloads in scope that a selector chooses. */
  ghost function ChosenNodes(nodes: seq<Node>, expression: string, scope: Scope): set<Node> {
    set n | n in nodes && !n.system && Chosen(expression, n) && InScope(scope, n)
  }

  /** parseSelector with its error dropped: no clauses, which match everything. */
  method ClausesOrNone(expression: string) returns (selector: seq<Clause>)
    ensures forall c :: c in selector ==> ValidClause(c)
    ensures forall n: Node :: Satisfies(selector, n.labels) <==> Chosen(expression, n)
  {
    hide ParseSelector, ValidClause, Holds;
    var parsed := Parse(expression);
    selector := [];
    if parsed.Some? {
      ParsedIsValid(expression);
      selector := parsed.value.clauses;
    }
  }

  lemma ChosenMore(nodes: seq<Node>, expression: string, scope: Scope, n: Node)
    requires n !in nodes
    ensures |ChosenNodes(nodes + [n], expression, scope)| == |ChosenNodes(nodes, expression, scope)| +
      if !n.system && Chosen(expression, n) && InScope(scope, n) then 1 else 0
  {
    hide Chosen, InScope;
    var before, after := ChosenNodes(nodes, expression, scope), ChosenNodes(nodes + [n], expression, scope);
    if !n.system && Chosen(expression, n) && InScope(scope, n) {
      assert after == before + {n};
    } else {
      assert after == before;
    }
  }

  lemma NothingChosen(expression: string, scope: Scope)
    ensures ChosenNodes([], expression, scope) == {}
  {
  }

  /** selectorRelationships */
  method SelectorRelationships(r: Compiled, expression: string) returns (n: nat)
    requires UniqueBy(WorkloadID, r.config.workloads) && AreNodes(r.config, r.nodes)
    ensures n ==
      |ChosenNodes(r.nodes, expression, Everywhere)| * |ChosenNodes(r.nodes, expression, On(r.config.localHostID))|
  {
    hide UniqueBy, AreNodes, ChosenNodes, Chosen, ValidClause, Holds;
    var nodes, host := r.nodes, r.config.localHostID;
    var selector := ClausesOrNone(expression);
    var all, local := 0, 0;
    NothingChosen(expression, Everywhere);
    NothingChosen(expression, On(host));
    assert nodes[..0] == [];
    for i := 0 to |nodes|
      invariant all == |ChosenNodes(nodes[..i], expression, Everywhere)|
      invariant local == |ChosenNodes(nodes[..i], expression, On(host))|
    {
      var workload := nodes[i];
      NodesAreDistinct(r.config, nodes, i);
      ChosenMore(nodes[..i], expression, Everywhere, workload);
      ChosenMore(nodes[..i], expression, On(host), workload);
      var matched := Matches(selector, workload.labels);
      assert matched <==> Satisfies(selector, workload.labels);
      if workload.system || !matched { continue; }
      all := all + 1;
      if workload.workload.hostID == host { local := local + 1; }
    }
    assert nodes[..|nodes|] == nodes;
    n := all * local;
  }

  /** fromToRelationships */
  method FromToRelationships(r: Compiled, fromExpression: string, toExpression: string) returns (n: nat)
    requires UniqueBy(WorkloadID, r.config.workloads) && AreNodes(r.config, r.nodes)
    ensures n ==
      |ChosenNodes(r.nodes, fromExpression, Everywhere)| *
      |ChosenNodes(r.nodes, toExpression, On(r.config.localHostID))|
  {
    hide UniqueBy, AreNodes, ChosenNodes, Chosen, ValidClause, Holds;
    var nodes, host := r.nodes, r.config.localHostID;
    var from := ClausesOrNone(fromExpression);
    var to := ClausesOrNone(toExpression);
    var sources, destinations := 0, 0;
    NothingChosen(fromExpression, Everywhere);
    NothingChosen(toExpression, On(host));
    assert nodes[..0] == [];
    for i := 0 to |nodes|
      invariant sources == |ChosenNodes(nodes[..i], fromExpression, Everywhere)|
      invariant destinations == |ChosenNodes(nodes[..i], toExpression, On(host))|
    {
      var workload := nodes[i];
      NodesAreDistinct(r.config, nodes, i);
      ChosenMore(nodes[..i], fromExpression, Everywhere, workload);
      ChosenMore(nodes[..i], toExpression, On(host), workload);
      if workload.system { continue; }
      var isSource := Matches(from, workload.labels);
      assert isSource <==> Satisfies(from, workload.labels);
      if isSource { sources := sources + 1; }
      if workload.workload.hostID == host {
        var isDestination := Matches(to, workload.labels);
        assert isDestination <==> Satisfies(to, workload.labels);
        if isDestination { destinations := destinations + 1; }
      }
    }
    assert nodes[..|nodes|] == nodes;
    n := sources * destinations;
  }

  // ---- rules that group by a label ----

  /** The values the label has among application workloads. */
  ghost function GroupValues(nodes: seq<Node>, key: string): set<string> {
    set n | n in nodes && !n.system && key in n.labels :: n.labels[key]
  }

  lemma CountedKeys(m: map<string, nat>, nodes: seq<Node>, key: string)
    requires Counts(m, nodes, LabelKey(key), Everywhere)
    ensures m.Keys == GroupValues(nodes, key)
  {
    forall k ensures k in m <==> k in GroupValues(nodes, key) {
      var bucket := Bucket(nodes, LabelKey(key), k, Everywhere);
      assert At(m, k) == |bucket|;
      if k in m {
        var n :| n in bucket;
      }
      if n :| n in nodes && !n.system && key in n.labels && n.labels[key] == k {
        assert n in bucket;
      }
    }
  }

  /** groupRelationships */
  method GroupRelationships(r: Compiled, key: string) returns (n: nat, groups: nat)
    requires UniqueBy(WorkloadID, r.config.workloads) && AreNodes(r.config, r.nodes)
    ensures n == |KeyPairs(r.nodes, LabelKey(key), r.config.localHostID)|
    ensures groups == |GroupValues(r.nodes, key)|
  {
    hide UniqueBy, AreNodes, Counts, KeyPairs, GroupValues, Tally;
    var nodes, host := r.nodes, r.config.localHostID;
    var all: map<string, nat>, local: map<string, nat> := map[], map[];
    NothingCounted(LabelKey(key), Everywhere);
    NothingCounted(LabelKey(key), On(host));
    assert nodes[..0] == [];
    for i := 0 to |nodes|
      invariant Counts(all, nodes[..i], LabelKey(key), Everywhere) && Counts(local, nodes[..i], LabelKey(key), On(host))
    {
      var workload := nodes[i];
      NodesAreDistinct(r.config, nodes, i);
      CountMore(all, nodes[..i], LabelKey(key), Everywhere, workload);
      CountMore(local, nodes[..i], LabelKey(key), On(host), workload);
      if workload.system || key !in workload.labels { continue; }
      var value := workload.labels[key];
      all := Tally(all, value);
      if workload.workload.hostID == host { local := Tally(local, value); }
    }
    assert nodes[..|nodes|] == nodes;
    n := SumProducts(all, local, nodes, LabelKey(key), host);
    CountedKeys(all, nodes, key);
    groups := |all.Keys|;
  }

  // ---- one rule ----

  datatype Form = WithinStack | WithinService | WithinLinked | BetweenSelector | BetweenGroupBy | FromTo

  function FormOf(rule: Rule): Form {
    if rule.within == "stack" then WithinStack
    else if rule.within == "service" then WithinService
    else if rule.within == "linked" then WithinLinked
    else if rule.between.Some? && rule.between.value.selector != "" then BetweenSelector
    else if rule.between.Some? then BetweenGroupBy
    else FromTo
  }

  ghost function Groups(nodes: seq<Node>, rule: Rule): nat {
    if FormOf(rule).BetweenGroupBy? then |GroupValues(nodes, rule.between.value.groupBy)| else 0
  }

  lemma SelectorPairs(c: Config, nodes: seq<Node>, rule: Rule, from: string, to: string)
    requires IsNormalRule(rule)
    requires (FormOf(rule).FromTo? && rule.from == Some(from) && rule.to == Some(to)) ||
             (FormOf(rule).BetweenSelector? && rule.between.value.selector == from && from == to)
    ensures |RelatedPairs(c, nodes, rule)| ==
      |ChosenNodes(nodes, from, Everywhere)| * |ChosenNodes(nodes, to, On(c.localHostID))|
  {
    hide Chosen, IsCanonicalSelector, AreNormalPorts;
    var sources, targets := ChosenNodes(nodes, from, Everywhere), ChosenNodes(nodes, to, On(c.localHostID));
    assert RelatedPairs(c, nodes, rule) == Product(sources, targets);
    ProductSize(sources, targets);
  }

  lemma GroupPairs(c: Config, nodes: seq<Node>, rule: Rule)
    requires IsNormalRule(rule) && FormOf(rule).BetweenGroupBy?
    ensures RelatedPairs(c, nodes, rule) == KeyPairs(nodes, LabelKey(rule.between.value.groupBy), c.localHostID)
  {
    hide IsCanonicalSelector, AreNormalPorts, IsLabelKey, Chosen;
  }

  lemma WithinPairs(c: Config, nodes: seq<Node>, rule: Rule)
    requires rule.within != "" && IsWithin(rule.within)
    ensures RelatedPairs(c, nodes, rule) == RelatedPairs(c, nodes, Within(rule.within))
  {
    hide Linked;
  }

  lemma NormalForms(rule: Rule)
    requires IsNormalRule(rule)
    ensures rule.within != "" ==> IsWithin(rule.within)
    ensures FormOf(rule).FromTo? ==> rule.from.Some? && rule.to.Some?
    ensures rule.within == "" || rule.within == "stack" || rule.within == "service" || rule.within == "linked"
  {
  }

  /** The switch of BuildPlan. */
  method Relationships(r: Compiled, rule: Rule) returns (n: nat, groups: nat)
    requires Ready(r) && IsNormalRule(rule)
    ensures n == |RelatedPairs(r.config, r.nodes, rule)|
    ensures groups == Groups(r.nodes, rule)
  {
    hide Structured, AreNodes, UniqueBy, RelatedPairs, Inventoried, ChosenNodes, KeyPairs, GroupValues, IsNormalRule;
    References(r.config);
    NormalForms(rule);
    groups := 0;
    if rule.within != "" { WithinPairs(r.config, r.nodes, rule); }
    if rule.within == "stack" {
      n := r.withinStack;
    } else if rule.within == "service" {
      n := r.withinService;
    } else if rule.within == "linked" {
      n := r.withinLinked;
    } else if rule.between.Some? && rule.between.value.selector != "" {
      var selector := rule.between.value.selector;
      n := SelectorRelationships(r, selector);
      SelectorPairs(r.config, r.nodes, rule, selector, selector);
    } else if rule.between.Some? {
      n, groups := GroupRelationships(r, rule.between.value.groupBy);
      GroupPairs(r.config, r.nodes, rule);
    } else {
      n := FromToRelationships(r, rule.from.value, rule.to.value);
      SelectorPairs(r.config, r.nodes, rule, rule.from.value, rule.to.value);
    }
  }

  // ---- the plan ----

  datatype Inventory = Inventory(
    stackCount: nat, serviceCount: nat, workloadCount: nat, local: nat, system: nat, nonSystem: nat)

  datatype RuleCounts = RuleCounts(
    total: nat, allow: nat, deny: nat, withinStack: nat, withinService: nat, withinLinked: nat,
    betweenSelector: nat, betweenGroupBy: nat, fromTo: nat)

  datatype Compilation = Compilation(
    relationships: nat, portScopes: nat, labelGroups: nat, zeroMatches: nat)

  /** SHA-256 over the encoded normalised document, taken to be injective. */
  datatype Digest = Sha(config: Config)

  datatype Plan = Plan(
    digest: Digest, defaultAction: string, inventory: Inventory, rules: RuleCounts, compilation: Compilation)

  function Scopes(rule: Rule): nat {
    if !FormOf(rule).FromTo? then 0 else if rule.ports == [] then 1 else |rule.ports|
  }

  ghost function CompilationOf(c: Config, nodes: seq<Node>, rules: seq<Rule>): Compilation {
    hide RelatedPairs, Groups, Scopes, FormOf;
    if rules == [] then Compilation(0, 0, 0, 0)
    else
      var front, last := CompilationOf(c, nodes, rules[..|rules| - 1]), rules[|rules| - 1];
      var n := |RelatedPairs(c, nodes, last)|;
      Compilation(
        front.relationships + n, front.portScopes + n * Scopes(last), front.labelGroups + Groups(nodes, last),
        front.zeroMatches + if RelatedPairs(c, nodes, last) == {} then 1 else 0)
  }

  ghost function WithAction(rules: seq<Rule>, action: string): set<nat> {
    set i: nat | i < |rules| && rules[i].action == action
  }

  ghost function WithForm(rules: seq<Rule>, form: Form): set<nat> {
    set i: nat | i < |rules| && FormOf(rules[i]) == form
  }

  /** How many rules there are of each action and each form. */
  ghost predicate CountsRules(counts: RuleCounts, rules: seq<Rule>) {
    && counts.total == |rules|
    && counts.allow == |WithAction(rules, "allow")| && counts.deny == |WithAction(rules, "deny")|
    && counts.withinStack == |WithForm(rules, WithinStack)|
    && counts.withinService == |WithForm(rules, WithinService)|
    && counts.withinLinked == |WithForm(rules, WithinLinked)|
    && counts.betweenSelector == |WithForm(rules, BetweenSelector)|
    && counts.betweenGroupBy == |WithForm(rules, BetweenGroupBy)|
    && counts.fromTo == |WithForm(rules, FromTo)|
  }

  /** `p` is the plan of the normalised document `c`, whose compiled workloads are `nodes`. */
  ghost predicate IsPlan(p: Plan, c: Config, nodes: seq<Node>) {
    && p.digest == Sha(c) && p.defaultAction == c.policy.defaultAction
    && p.inventory == Inventory(|c.stacks|, |c.services|, |c.workloads|, |LocalNodes(nodes, c.localHostID)|,
                                |SystemNodes(nodes)|, |AppNodes(nodes)|)
    && CountsRules(p.rules, c.policy.rules)
    && p.compilation == CompilationOf(c, nodes, c.policy.rules)
  }

  /** `p` is a plan BuildPlan may return for `config`. */
  ghost predicate IsPlanFor(p: Plan, config: Config) {
    exists n, nodes :: IsNormalFormOfConfig(n, config) && AreNodes(n, nodes) && IsPlan(p, n, nodes)
  }

  lemma {:induction false} OneMore(before: set<nat>, after: set<nat>, i: nat, more: bool)
    requires i !in before && forall k: nat :: k in after <==> k in before || (more && k == i)
    ensures |after| == |before| + if more then 1 else 0
  {
    if more { assert after == before + {i}; } else { assert after == before; }
  }

  lemma ActionMore(rules: seq<Rule>, rule: Rule, action: string)
    ensures |WithAction(rules + [rule], action)| == |WithAction(rules, action)| + if rule.action == action then 1 else 0
  {
    OneMore(WithAction(rules, action), WithAction(rules + [rule], action), |rules|, rule.action == action);
  }

  lemma FormMore(rules: seq<Rule>, rule: Rule, form: Form)
    ensures |WithForm(rules + [rule], form)| == |WithForm(rules, form)| + if FormOf(rule) == form then 1 else 0
  {
    hide FormOf;
    OneMore(WithForm(rules, form), WithForm(rules + [rule], form), |rules|, FormOf(rule) == form);
  }

  /** Counting one rule by its action and its form. */
  method CountRule(counts: RuleCounts, rule: Rule, ghost rules: seq<Rule>) returns (r: RuleCounts)
    requires Firewall.IsAction(rule.action)
    requires CountsRules(counts.(total := |rules|), rules)
    ensures CountsRules(r.(total := |rules| + 1), rules + [rule]) && r.total == counts.total
  {
    hide WithAction, WithForm, FormOf;
    r := counts;
    if rule.action == "allow" { r := r.(allow := r.allow + 1); } else { r := r.(deny := r.deny + 1); }
    match FormOf(rule) {
      case WithinStack => r := r.(withinStack := r.withinStack + 1);
      case WithinService => r := r.(withinService := r.withinService + 1);
      case WithinLinked => r := r.(withinLinked := r.withinLinked + 1);
      case BetweenSelector => r := r.(betweenSelector := r.betweenSelector + 1);
      case BetweenGroupBy => r := r.(betweenGroupBy := r.betweenGroupBy + 1);
      case FromTo => r := r.(fromTo := r.fromTo + 1);
    }
    ActionMore(rules, rule, "allow");
    ActionMore(rules, rule, "deny");
    FormMore(rules, rule, WithinStack);
    FormMore(rules, rule, WithinService);
    FormMore(rules, rule, WithinLinked);
    FormMore(rules, rule, BetweenSelector);
    FormMore(rules, rule, BetweenGroupBy);
    FormMore(rules, rule, FromTo);
  }

  lemma NoRules()
    ensures CountsRules(RuleCounts(0, 0, 0, 0, 0, 0, 0, 0, 0), [])
  {
    assert WithAction([], "allow") == {} && WithAction([], "deny") == {};
    assert forall form :: WithForm([], form) == {};
  }

  /** The rule loop of BuildPlan. */
  method CountRules(compiled: Compiled) returns (counts: RuleCounts, compilation: Compilation)
    requires Ready(compiled)
    ensures CountsRules(counts, compiled.config.policy.rules)
    ensures compilation == CompilationOf(compiled.config, compiled.nodes, compiled.config.policy.rules)
  {
    hide Structured, IsCompiled, RelatedPairs, IsNormalRule, CountsRules, Groups, Scopes;
    var c, nodes := compiled.config, compiled.nodes;
    var rules := c.policy.rules;
    RulesAreNormal(c);
    counts := RuleCounts(|rules|, 0, 0, 0, 0, 0, 0, 0, 0);
    compilation := Compilation(0, 0, 0, 0);
    NoRules();
    assert rules[..0] == [];
    for i := 0 to |rules|
      invariant counts.total == |rules|
      invariant CountsRules(counts.(total := i), rules[..i])
      invariant compilation == CompilationOf(c, nodes, rules[..i])
    {
      var rule := rules[i];
      assert rules[..i + 1] == rules[..i] + [rule];
      assert rules[..i + 1][..i] == rules[..i];
      assert rule in rules;
      counts := CountRule(counts, rule, rules[..i]);
      var relationships, groups := Relationships(compiled, rule);
      compilation := Compilation(
        compilation.relationships + relationships, compilation.portScopes + relationships * Scopes(rule),
        compilation.labelGroups + groups, compilation.zeroMatches + if relationships == 0 then 1 else 0);
    }
    assert rules[..|rules|] == rules;
  }

  /** BuildPlan */
  method BuildPlan(config: Config) returns (r: Option<Plan>)
    ensures r.Some? <==> Accepted(config)
    ensures r.Some? ==> IsPlanFor(r.value, config)
  {
    hide Accepted, IsNormalFormOfConfig, Structured, AreNodes, RelatedPairs, CountsRules, CompilationOf, LocalNodes,
      SystemNodes, AppNodes;
    var n := Normalize(config);
    if n.None? { return None; }
    var c := n.value;
    NormalFormIsStructured(c, config);
    var compiled := NewCompiler(c);
    var counts, compilation := CountRules(compiled);
    var inventory :=
      Inventory(|c.stacks|, |c.services|, |c.workloads|, compiled.local, compiled.system, compiled.nonSystem);
    r := Some(Plan(Sha(c), c.policy.defaultAction, inventory, counts, compilation));
    assert IsPlan(r.value, c, compiled.nodes);
  }

  lemma RulesAreNormal(c: Config)
    requires Structured(c)
    ensures forall rule :: rule in c.policy.rules ==> IsNormalRule(rule) && Firewall.IsAction(rule.action)
    ensures |c.policy.rules| <= MAX_RULES && |c.workloads| <= MAX_WORKLOADS
  {
    hide EachServiceAccepted, EachWorkloadAccepted;
  }

  // ---- the plan is determined ----

  lemma NodeIsDetermined(c: Config, w: Workload, a: Node, b: Node)
    requires UniqueBy(ServiceID, c.services) && IsNode(c, w, a) && IsNode(c, w, b)
    ensures a == b
  {
    hide IsSystemStack, RootOf;
    if w.serviceID != "" {
      var s :| s in c.services && Inherits(s, w, a.labels, a.root);
      var t :| t in c.services && Inherits(t, w, b.labels, b.root);
      var i :| 0 <= i < |c.services| && c.services[i] == s;
      var j :| 0 <= j < |c.services| && c.services[j] == t;
      assert ServiceID(c.services[i]) == ServiceID(c.services[j]);
      assert i == j;
    }
  }

  lemma NodesAreDetermined(c: Config, a: seq<Node>, b: seq<Node>)
    requires UniqueBy(ServiceID, c.services) && AreNodes(c, a) && AreNodes(c, b)
    ensures a == b
  {
    hide UniqueBy, IsNode;
    forall i | 0 <= i < |a| ensures a[i] == b[i] { NodeIsDetermined(c, c.workloads[i], a[i], b[i]); }
  }

  lemma PlansOfOneForm(n: Config, ns: seq<Node>, ms: seq<Node>, p: Plan, q: Plan)
    requires Structured(n) && AreNodes(n, ns) && AreNodes(n, ms) && IsPlan(p, n, ns) && IsPlan(q, n, ms)
    ensures p == q
  {
    hide AreNodes, CompilationOf, LocalNodes, SystemNodes, AppNodes, WithAction, WithForm, Structured;
    References(n);
    NodesAreDetermined(n, ns, ms);
  }

  /** What BuildPlan may return does not depend on the order in which any map is ranged over,
      nor on the order in which the document lists its stacks, services, workloads, links and
      ports, nor on the letter case of labels and ports, nor on the spelling of selectors. */
  lemma PlanIsDetermined(c: Config, d: Config, p: Plan, q: Plan)
    requires Accepted(c) && (Reordered(c, d) || Respelled(c, d))
    requires IsPlanFor(p, c) && IsPlanFor(q, d)
    ensures Accepted(d) && p == q
  {
    hide Accepted, Reordered, Respelled, IsNormalFormOfConfig, AreNodes, IsPlan, Structured;
    var n, ns :| IsNormalFormOfConfig(n, c) && AreNodes(n, ns) && IsPlan(p, n, ns);
    var m, ms :| IsNormalFormOfConfig(m, d) && AreNodes(m, ms) && IsPlan(q, m, ms);
    if Reordered(c, d) { OrderDoesNotMatter(c, d, m); } else { DocumentSpellingDoesNotMatter(c, d, m); }
    NormalFormIsUnique(n, m, c);
    NormalFormIsStructured(n, c);
    PlansOfOneForm(n, ns, ms, p, q);
  }

  // ---- the estimates fit ----

  const MAX_PAIRS := MAX_WORKLOADS * MAX_WORKLOADS

  lemma {:induction false} ElemsSize<T>(s: seq<T>)
    ensures |Elems(s)| <= |s|
  {
    if s == [] {
      assert Elems(s) == {};
    } else {
      ElemsSize(s[1..]);
      assert s == [s[0]] + s[1..];
      assert Elems(s) == {s[0]} + Elems(s[1..]);
    }
  }

  lemma PairsFit(c: Config, nodes: seq<Node>, rule: Rule)
    requires |nodes| <= MAX_WORKLOADS
    ensures |RelatedPairs(c, nodes, rule)| <= MAX_PAIRS
  {
    hide Relates;
    var all := Elems(nodes);
    ElemsSize(nodes);
    ProductSize(all, all);
    assert RelatedPairs(c, nodes, rule) <= Product(all, all);
    SubsetSize(RelatedPairs(c, nodes, rule), Product(all, all));
    SquareFits(|all|);
  }

  lemma MulMonotone(k: nat, a: nat, b: nat)
    requires a <= b
    ensures k * a <= k * b
  {
    assert k * b == k * a + k * (b - a);
  }

  lemma SquareFits(n: nat)
    requires n <= MAX_WORKLOADS
    ensures n * n <= MAX_PAIRS
  {
    MulMonotone(n, n, MAX_WORKLOADS);
  }

  lemma {:induction false} CompilationFits(c: Config, nodes: seq<Node>, rules: seq<Rule>)
    requires |nodes| <= MAX_WORKLOADS && forall rule :: rule in rules ==> |rule.ports| <= MAX_PORTS
    ensures var k := CompilationOf(c, nodes, rules);
      k.relationships <= |rules| * MAX_PAIRS && k.portScopes <= |rules| * (MAX_PAIRS * MAX_PORTS) &&
      k.labelGroups <= |rules| * MAX_WORKLOADS && k.zeroMatches <= |rules|
  {
    hide RelatedPairs, Groups, Scopes;
    if rules != [] {
      var front, last := rules[..|rules| - 1], rules[|rules| - 1];
      assert last in rules;
      CompilationFits(c, nodes, front);
      PairsFit(c, nodes, last);
      ScopeCountFits(last);
      GroupsFit(nodes, last);
      ScopesFit(|RelatedPairs(c, nodes, last)|, Scopes(last));
      assert |rules| == |front| + 1;
    }
  }

  lemma {:induction false} ImageFits(ns: set<Node>, key: string)
    requires forall n :: n in ns ==> key in n.labels
    ensures |set n | n in ns :: n.labels[key]| <= |ns|
  {
    if ns == {} {
      assert (set n | n in ns :: n.labels[key]) == {};
    } else {
      var x :| x in ns;
      ImageFits(ns - {x}, key);
      assert (set n | n in ns :: n.labels[key]) == (set n | n in ns - {x} :: n.labels[key]) + {x.labels[key]};
    }
  }

  /** A label has no more values than there are workloads. */
  lemma GroupsFit(nodes: seq<Node>, rule: Rule)
    requires |nodes| <= MAX_WORKLOADS
    ensures Groups(nodes, rule) <= MAX_WORKLOADS
  {
    hide FormOf;
    if FormOf(rule).BetweenGroupBy? {
      assert rule.between.Some? by { GroupRule(rule); }
      var key := rule.between.value.groupBy;
      var labelled := set n | n in nodes && !n.system && key in n.labels;
      ElemsSize(nodes);
      SubsetSize(labelled, Elems(nodes));
      ImageFits(labelled, key);
      assert GroupValues(nodes, key) == set n | n in labelled :: n.labels[key];
    }
  }

  lemma GroupRule(rule: Rule)
    requires FormOf(rule).BetweenGroupBy?
    ensures rule.between.Some?
  {
  }

  lemma ScopeCountFits(rule: Rule)
    requires |rule.ports| <= MAX_PORTS
    ensures Scopes(rule) <= MAX_PORTS
  {
    hide FormOf;
  }

  lemma ScopesFit(n: nat, scopes: nat)
    requires n <= MAX_PAIRS && scopes <= MAX_PORTS
    ensures n * scopes <= MAX_PAIRS * MAX_PORTS
  {
    MulMonotone(n, scopes, MAX_PORTS);
  }

  lemma PortsFit(rule: Rule)
    requires IsNormalRule(rule)
    ensures |rule.ports| <= MAX_PORTS
  {
    hide IsCanonicalSelector, IsCanonicalPort;
    assert Forms(rule) == 1;
  }

  lemma EstimatesOfForm(c: Config, nodes: seq<Node>, p: Plan)
    requires Structured(c) && AreNodes(c, nodes) && IsPlan(p, c, nodes)
    ensures p.compilation.relationships <= 0x1_0000_0000
    ensures p.compilation.portScopes <= 0x40_0000_0000
    ensures p.compilation.labelGroups <= 0x10_0000 && p.compilation.zeroMatches <= MAX_RULES
  {
    hide Structured, IsNode, CompilationOf, IsNormalRule;
    RulesAreNormal(c);
    forall rule | rule in c.policy.rules ensures |rule.ports| <= MAX_PORTS { PortsFit(rule); }
    CompilationFits(c, nodes, c.policy.rules);
    assert |c.policy.rules| * MAX_PAIRS <= 256 * 0x100_0000;
    assert |c.policy.rules| * (MAX_PAIRS * MAX_PORTS) <= 256 * 0x4000_0000;
  }

  /** The counters stay far below the limits of a signed 64-bit integer: at most 2^32
      relationships, 2^38 port scopes and 2^20 label groups. */
  lemma EstimatesFit(config: Config, p: Plan)
    requires Accepted(config) && IsPlanFor(p, config)
    ensures p.compilation.relationships <= 0x1_0000_0000
    ensures p.compilation.portScopes <= 0x40_0000_0000
    ensures p.compilation.labelGroups <= 0x10_0000 && p.compilation.zeroMatches <= MAX_RULES
  {
    hide Accepted, IsNormalFormOfConfig, AreNodes, IsPlan, Structured;
    var n, nodes :| IsNormalFormOfConfig(n, config) && AreNodes(n, nodes) && IsPlan(p, n, nodes);
    NormalFormIsStructured(n, config);
    EstimatesOfForm(n, nodes, p);
  }
}
