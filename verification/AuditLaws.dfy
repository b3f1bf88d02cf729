/** The audit planner and the live compiler agree on rules that are not linked ones; how
    they differ on linked rules and on selectors that outgrow the limit. */
module AuditLaws {
  import opened Ordering
  import opened Text
  import opened Network
  import opened Firewall
  import opened Selector
  import opened SelectorLaws
  import opened Labels
  import opened Policy
  import opened Counting
  import opened Audit
  import opened DocumentLaws
  import D = Document
  import T = Topology
  import M = Meaning
  import P = AuditPlan

  // ---- a selector of the normalised document ----

  /** Keys and values in lower case already. */
  ghost predicate AllLower(labels: LabelMap) {
    forall l :: l in labels ==> Lower(l) == l && Lower(labels[l]) == labels[l]
  }

  lemma LoweredIsAllLower(labels: LabelMap)
    ensures AllLower(Lowered(labels))
  {
    var lowered := Lowered(labels);
    forall l | l in lowered ensures Lower(l) == l && Lower(lowered[l]) == lowered[l] {
      var k :| k in labels && Lower(k) == l && Lower(labels[k]) == lowered[l];
      LowerIsIdempotent(k);
      LowerIsIdempotent(labels[k]);
    }
  }

  lemma AllLowerIsLowered(labels: LabelMap)
    requires AllLower(labels)
    ensures IsLowered(labels, labels)
  {
    hide Lower;
    forall l | l in labels
      ensures Lower(l) in labels && exists k :: k in labels && Lower(k) == l && Lower(labels[k]) == labels[l]
    {
      assert Lower(l) == l && Lower(labels[l]) == labels[l];
    }
  }

  lemma AllLowerIsUnambiguous(labels: LabelMap)
    requires AllLower(labels)
    ensures Unambiguous(labels)
  {
    hide Lower;
    forall a, b | a in labels && b in labels && Lower(a) == Lower(b) ensures Lower(labels[a]) == Lower(labels[b]) {
      assert Lower(a) == a && Lower(b) == b;
    }
  }

  lemma AllLowerFixed(labels: LabelMap)
    requires AllLower(labels)
    ensures Lowered(labels) == labels
  {
    hide AllLower, IsLowered, Unambiguous, Lowered;
    AllLowerIsLowered(labels);
    AllLowerIsUnambiguous(labels);
    LoweredAgree(labels, Lowered(labels), labels);
  }

  lemma AllLowerUnion(a: LabelMap, b: LabelMap)
    requires AllLower(a) && AllLower(b)
    ensures AllLower(a + b)
  {
    hide Lower;
  }

  /** The labels of a compiled workload are in lower case. */
  lemma NodeLabelsAreLower(c: D.Config, nodes: seq<Node>, n: Node)
    requires Structured(c) && AreNodes(c, nodes) && n in nodes
    ensures AllLower(n.labels)
  {
    hide Structured, IsNode, AllLower;
    var i :| 0 <= i < |nodes| && nodes[i] == n;
    assert IsNode(c, c.workloads[i], n);
    CleanEntities(c, c.workloads[i]);
    NodeLabelsInherit(c, c.workloads[i], n);
  }

  lemma CleanEntities(c: D.Config, w: D.Workload)
    requires Structured(c) && w in c.workloads
    ensures AllLower(w.labels) && forall s :: s in c.services ==> AllLower(s.labels)
  {
    hide AllLower, Lowered, D.EachServiceAccepted, D.EachWorkloadAccepted;
    var i :| 0 <= i < |c.workloads| && c.workloads[i] == w;
    assert D.CleanWorkloads(c.workloads)[i] == w;
    LoweredIsAllLower(w.labels);
    forall s | s in c.services ensures AllLower(s.labels) {
      var j :| 0 <= j < |c.services| && c.services[j] == s;
      assert D.CleanServices(c.services)[j] == s;
      LoweredIsAllLower(s.labels);
    }
  }

  lemma NodeLabelsInherit(c: D.Config, w: D.Workload, n: Node)
    requires IsNode(c, w, n) && AllLower(w.labels) && forall s :: s in c.services ==> AllLower(s.labels)
    ensures AllLower(n.labels)
  {
    hide AllLower, IsSystemStack;
    if w.serviceID != "" {
      var s :| s in c.services && Inherits(s, w, n.labels, n.root);
      AllLowerUnion(s.labels, w.labels);
    }
  }

  /** A selector that parses chooses a compiled workload exactly when it selects its labels. */
  lemma ChosenIsSelected(expression: string, n: Node)
    requires ParseSelector(expression).Some? && AllLower(n.labels)
    ensures Chosen(expression, n) <==> Selects(expression, n.labels)
  {
    hide AllLower, Satisfies, ValidSelector, CanonicalText, Submitted;
    AllLowerFixed(n.labels);
    ParsedIsValid(expression);
    ClausesAreSubmitted(expression);
    SameClauses(ParseSelector(expression).value.clauses, Submitted(expression).value, n.labels);
  }

  lemma FittingSelectorIsRead(expression: string, n: Node)
    requires ParseSelector(expression).Some? && AllLower(n.labels)
    requires |ParseSelector(expression).value.canonical| <= MAX_LENGTH
    ensures Chosen(ParseSelector(expression).value.canonical, n) <==> Selects(expression, n.labels)
  {
    hide AllLower, Selects, Chosen, ValidSelector, CanonicalText, ParseSelector;
    ParseThenParse(expression);
    ChosenIsSelected(ParseSelector(expression).value.canonical, n);
    CanonicalSelectsTheSame(expression, n.labels);
  }

  lemma OverlongSelectorIsDropped(expression: string, n: Node)
    requires ParseSelector(expression).Some? && n.labels == map[]
    requires |ParseSelector(expression).value.canonical| > MAX_LENGTH
    ensures AllLower(n.labels) && Chosen(ParseSelector(expression).value.canonical, n) && !Selects(expression, n.labels)
  {
    assert ParseSelector(ParseSelector(expression).value.canonical).None?;
    hide Selects, ParseSelector;
    NothingSelectsNoLabels(expression);
  }

  /** The planner chooses what an expression means exactly when its canonical text is within
      the limit: it parses that text again and takes a refusal for a selector without clauses. */
  lemma PlannerReadsSelectorsThatFit(expression: string)
    requires ParseSelector(expression).Some?
    ensures var canonical := ParseSelector(expression).value.canonical;
      |canonical| <= MAX_LENGTH <==>
      forall n: Node :: AllLower(n.labels) ==> (Chosen(canonical, n) <==> Selects(expression, n.labels))
  {
    hide AllLower, Selects, Chosen, ParseSelector;
    var canonical := ParseSelector(expression).value.canonical;
    if |canonical| <= MAX_LENGTH {
      forall n: Node | AllLower(n.labels) ensures Chosen(canonical, n) <==> Selects(expression, n.labels) {
        FittingSelectorIsRead(expression, n);
      }
    } else {
      var n := Node(D.Workload("", "", "", "", map[], []), map[], false, "");
      OverlongSelectorIsDropped(expression, n);
    }
  }

  lemma EmptyIsLower()
    ensures AllLower(map[])
  {
  }

  lemma NothingSelectsNoLabels(expression: string)
    requires ParseSelector(expression).Some?
    ensures !Selects(expression, map[])
  {
    EmptyIsLower();
    AllLowerFixed(map[]);
    ParsedIsValid(expression);
    ClausesAreSubmitted(expression);
    var clauses, submitted := ParseSelector(expression).value.clauses, Submitted(expression).value;
    hide ParseSelector, Submitted;
    assert clauses != [];
    assert |clauses| == |multiset(clauses)| == |multiset(submitted)| == |submitted|;
    assert submitted[0] in submitted && !Holds(submitted[0], map[]);
  }

  // ---- matching topologies ----

  ghost predicate SameWorkload(n: Node, w: T.Workload) {
    && n.workload.id == w.id && n.workload.hostID == w.hostID && n.workload.stackID == w.stackID
    && n.root == w.primaryServiceID && n.system == w.system && n.labels == w.labels
  }

  /** The document and the snapshot describe the same workloads on the same host. */
  ghost predicate Matching(c: D.Config, nodes: seq<Node>, s: T.Snapshot) {
    && c.localHostID == s.localHostID
    && (forall n :: n in nodes ==> exists w :: w in s.workloads && SameWorkload(n, w))
    && forall w :: w in s.workloads ==> exists n :: n in nodes && SameWorkload(n, w)
  }

  ghost predicate DistinctAddresses(s: T.Snapshot) {
    forall v, w :: v in s.workloads && w in s.workloads && v.ip == w.ip ==> v == w
  }

  ghost predicate ByID(s: T.Snapshot) {
    forall v, w :: v in s.workloads && w in s.workloads && v.id == w.id ==> v == w
  }

  lemma UniqueByID(s: T.Snapshot)
    requires T.UniqueIDs(s.workloads)
    ensures ByID(s)
  {
    forall v, w | v in s.workloads && w in s.workloads && v.id == w.id ensures v == w {
      var i :| 0 <= i < |s.workloads| && s.workloads[i] == v;
      var j :| 0 <= j < |s.workloads| && s.workloads[j] == w;
    }
  }

  predicate IsLinkedRule(rule: Rule) {
    rule.within == "linked"
  }

  /** The selectors a rule evaluates are short enough to be parsed. */
  lemma SelectorsParse(rule: Rule)
    requires IsNormalRule(rule) && SelectorsFit(rule)
    ensures rule.between.Some? && rule.between.value.selector != "" ==> ParseSelector(rule.between.value.selector).Some?
    ensures rule.within == "" && rule.between.None? ==>
      rule.from.Some? && rule.to.Some? && ParseSelector(rule.from.value).Some? && ParseSelector(rule.to.value).Some?
  {
    hide ParseSelector, IsCanonicalSelector, AreNormalPorts, IsLabelKey;
    if rule.between.Some? && rule.between.value.selector != "" {
      assert rule.between.value.selector in SelectorsOf(rule);
      CanonicalSelectorFixed(rule.between.value.selector);
    }
    if rule.within == "" && rule.between.None? {
      assert rule.from.value in SelectorsOf(rule) && rule.to.value in SelectorsOf(rule);
      CanonicalSelectorFixed(rule.from.value);
      CanonicalSelectorFixed(rule.to.value);
    }
  }

  /** On a rule that is no linked one the planner and the live compiler relate the same workloads. */
  lemma SameRelation(c: D.Config, s: T.Snapshot, rule: Rule, u: Node, v: Node, w: T.Workload, x: T.Workload)
    requires IsNormalRule(rule) && SelectorsFit(rule) && !IsLinkedRule(rule)
    requires SameWorkload(u, w) && SameWorkload(v, x) && AllLower(u.labels) && AllLower(v.labels)
    ensures Relates(c, rule, u, v) <==> M.Related(s, rule, w, x)
  {
    hide ParseSelector, IsCanonicalSelector, AreNormalPorts, AllLower, Chosen, Selects, SelectorsFit, IsNormalBetween;
    SelectorsParse(rule);
    if rule.within == "" {
      if rule.between.Some? {
        if rule.between.value.selector != "" {
          ChosenIsSelected(rule.between.value.selector, u);
          ChosenIsSelected(rule.between.value.selector, v);
        }
      } else {
        ChosenIsSelected(rule.from.value, u);
        ChosenIsSelected(rule.to.value, v);
      }
    }
  }

  // ---- pairs of addresses ----

  /** The address of a compiled workload in the snapshot. */
  ghost function AddressOf(s: T.Snapshot, n: Node): Addr {
    if exists w :: w in s.workloads && SameWorkload(n, w) then
      var w :| w in s.workloads && SameWorkload(n, w);
      w.ip
    else NoAddr
  }

  ghost function AddressPairOf(s: T.Snapshot, p: (Node, Node)): (Addr, Addr) {
    (AddressOf(s, p.0), AddressOf(s, p.1))
  }

  ghost function AddressPairsOf(s: T.Snapshot, pairs: set<(Node, Node)>): set<(Addr, Addr)> {
    set p | p in pairs :: AddressPairOf(s, p)
  }

  /** Some emitted rule covers the packets from one address to the other. */
  ghost predicate CoveredBy(rules: seq<FirewallRule>, src: Addr, dst: Addr) {
    exists i :: 0 <= i < |rules| && src in rules[i].sources && dst in rules[i].destinations
  }

  /** The address pairs the rules Compile emits for `rule` cover. */
  ghost function CoveredPairs(s: T.Snapshot, rule: Rule): set<(Addr, Addr)> {
    var all := set w | w in s.workloads :: w.ip;
    set src, dst | src in all && dst in all && CoveredBy(T.CompiledRule(s, rule), src, dst) :: (src, dst)
  }

  lemma CoveredConcat(a: seq<FirewallRule>, b: seq<FirewallRule>, src: Addr, dst: Addr)
    ensures CoveredBy(a + b, src, dst) <==> CoveredBy(a, src, dst) || CoveredBy(b, src, dst)
  {
    if CoveredBy(a, src, dst) {
      var i :| 0 <= i < |a| && src in a[i].sources && dst in a[i].destinations;
      assert (a + b)[i] == a[i];
    }
    if CoveredBy(b, src, dst) {
      var i :| 0 <= i < |b| && src in b[i].sources && dst in b[i].destinations;
      assert (a + b)[|a| + i] == b[i];
    }
  }

  lemma SomePort(text: string)
    requires IsCanonicalPort(text)
    ensures T.PortsOf(text) != []
  {
    hide IsPortText, T.PortsOf;
    var n: nat, p: Option<string> :| IsPortText(text, n, p);
    T.PortsOfText(text, n, p);
  }

  /** Every emitted rule has sources and destinations, those of its block. */
  lemma EmitCovers(b: T.Block, ports: seq<string>, action: string, src: Addr, dst: Addr)
    requires forall p :: p in ports ==> IsCanonicalPort(p)
    ensures CoveredBy(T.Emit(b, ports, action), src, dst) <==> src in b.src && dst in b.dst
    ensures T.Emit(b, ports, action) == [] <==> b.src == {} || b.dst == {}
  {
    hide IsCanonicalPort, T.PortsOf;
    var rules := T.Emit(b, ports, action);
    if b.src != {} && b.dst != {} {
      if ports != [] { SomePort(ports[|ports| - 1]); }
      assert |rules| > 0;
      assert src in AddrList(b.src) <==> src in Elems(AddrList(b.src));
      assert dst in AddrList(b.dst) <==> dst in Elems(AddrList(b.dst));
      assert forall i :: 0 <= i < |rules| ==>
        rules[i].sources == AddrList(b.src) && rules[i].destinations == AddrList(b.dst);
      if src in b.src && dst in b.dst { assert src in rules[0].sources && dst in rules[0].destinations; }
    }
  }

  lemma {:induction false} EmitAllCovers(blocks: seq<T.Block>, ports: seq<string>, action: string, pkt: Packet)
    requires forall p :: p in ports ==> IsCanonicalPort(p)
    ensures CoveredBy(T.EmitAll(blocks, ports, action), pkt.src, pkt.dst) <==> M.Covered(blocks, pkt)
  {
    hide IsCanonicalPort, T.Emit, CoveredBy;
    if blocks != [] {
      var front, last := blocks[..|blocks| - 1], blocks[|blocks| - 1];
      EmitAllCovers(front, ports, action, pkt);
      EmitCovers(last, ports, action, pkt.src, pkt.dst);
      CoveredConcat(T.EmitAll(front, ports, action), T.Emit(last, ports, action), pkt.src, pkt.dst);
      assert blocks == front + [last];
      M.CoveredConcat(front, [last], pkt);
      assert M.Covered([last], pkt) <==> M.InBlock(last, pkt) by {
        if M.InBlock(last, pkt) { assert M.InBlock([last][0], pkt); }
      }
    } else {
      assert !CoveredBy([], pkt.src, pkt.dst) by { NothingCovers(pkt.src, pkt.dst); }
    }
  }

  lemma NothingCovers(src: Addr, dst: Addr)
    ensures !CoveredBy([], src, dst)
  {
  }

  /** What the emitted rules cover is what the rule relates. */
  lemma RuleCovers(s: T.Snapshot, rule: Rule, src: Addr, dst: Addr)
    requires IsNormalRule(rule)
    ensures CoveredBy(T.CompiledRule(s, rule), src, dst) <==> M.RelatesAddresses(s, rule, src, dst)
  {
    var pkt := Packet(src, dst, "tcp", 1, false);
    assert forall p :: p in rule.ports ==> IsCanonicalPort(p);
    assert rule.within == "" || IsWithin(rule.within);
    hide IsCanonicalPort, IsCanonicalSelector, T.RuleBlocks, T.EmitAll, M.RelatesAddresses, CoveredBy, M.Covered;
    M.BlocksMeaning(s, rule, pkt);
    EmitAllCovers(T.RuleBlocks(s, rule), rule.ports, rule.action, pkt);
  }

  lemma {:induction false} EmptyOrCovering(blocks: seq<T.Block>, ports: seq<string>, action: string)
    requires forall p :: p in ports ==> IsCanonicalPort(p)
    ensures T.EmitAll(blocks, ports, action) != [] ==>
      exists src, dst :: CoveredBy(T.EmitAll(blocks, ports, action), src, dst)
  {
    hide IsCanonicalPort, CoveredBy;
    if blocks != [] {
      var front, last := blocks[..|blocks| - 1], blocks[|blocks| - 1];
      var before, after := T.EmitAll(front, ports, action), T.Emit(last, ports, action);
      if before != [] {
        EmptyOrCovering(front, ports, action);
        var src, dst :| CoveredBy(before, src, dst);
        CoveredConcat(before, after, src, dst);
      } else if after != [] {
        EmitCovers(last, ports, action, NoAddr, NoAddr);
        var src :| src in last.src;
        var dst :| dst in last.dst;
        EmitCovers(last, ports, action, src, dst);
        CoveredConcat(before, after, src, dst);
      }
    }
  }

  // ---- agreement ----

  /** The document of a live snapshot: the same workloads, each at an address of its own. */
  ghost predicate Describes(c: D.Config, nodes: seq<Node>, s: T.Snapshot) {
    && Structured(c) && AreNodes(c, nodes) && Matching(c, nodes, s)
    && T.UniqueIDs(s.workloads) && DistinctAddresses(s)
  }

  lemma CounterpartOf(c: D.Config, nodes: seq<Node>, s: T.Snapshot, n: Node) returns (w: T.Workload)
    requires Describes(c, nodes, s) && n in nodes
    ensures w in s.workloads && SameWorkload(n, w) && AddressOf(s, n) == w.ip && AllLower(n.labels)
  {
    hide Structured, AreNodes, T.UniqueIDs, DistinctAddresses, AllLower;
    w :| w in s.workloads && SameWorkload(n, w);
    UniqueByID(s);
    NodeLabelsAreLower(c, nodes, n);
  }

  lemma NodeFor(c: D.Config, nodes: seq<Node>, s: T.Snapshot, w: T.Workload) returns (n: Node)
    requires Describes(c, nodes, s) && w in s.workloads
    ensures n in nodes && SameWorkload(n, w) && AddressOf(s, n) == w.ip && AllLower(n.labels)
  {
    hide Structured, AreNodes, T.UniqueIDs, DistinctAddresses, AllLower;
    n :| n in nodes && SameWorkload(n, w);
    UniqueByID(s);
    NodeLabelsAreLower(c, nodes, n);
  }

  lemma RelatedIsCovered(c: D.Config, nodes: seq<Node>, s: T.Snapshot, rule: Rule, u: Node, v: Node)
    requires Describes(c, nodes, s) && IsNormalRule(rule) && SelectorsFit(rule) && !IsLinkedRule(rule)
    requires (u, v) in RelatedPairs(c, nodes, rule)
    ensures AddressPairOf(s, (u, v)) in CoveredPairs(s, rule)
  {
    hide Describes, IsNormalRule, SelectorsFit, CoveredBy, AddressOf, Relates, M.Related, T.CompiledRule;
    var w := CounterpartOf(c, nodes, s, u);
    var x := CounterpartOf(c, nodes, s, v);
    SameRelation(c, s, rule, u, v, w, x);
    assert s.localHostID == c.localHostID by { SameHost(c, nodes, s); }
    assert w in T.Apps(s.workloads) && x in T.LocalApps(s);
    RuleCovers(s, rule, w.ip, x.ip);
  }

  lemma SameHost(c: D.Config, nodes: seq<Node>, s: T.Snapshot)
    requires Describes(c, nodes, s)
    ensures s.localHostID == c.localHostID
  {
    hide Structured, AreNodes;
  }

  lemma CoveredIsRelated(c: D.Config, nodes: seq<Node>, s: T.Snapshot, rule: Rule, src: Addr, dst: Addr)
    requires Describes(c, nodes, s) && IsNormalRule(rule) && SelectorsFit(rule) && !IsLinkedRule(rule)
    requires CoveredBy(T.CompiledRule(s, rule), src, dst)
    ensures exists p :: p in RelatedPairs(c, nodes, rule) && AddressPairOf(s, p) == (src, dst)
  {
    hide Describes, IsNormalRule, SelectorsFit, CoveredBy, AddressOf, Relates, M.Related, T.CompiledRule;
    RuleCovers(s, rule, src, dst);
    var w, x :| w in T.Apps(s.workloads) && x in T.LocalApps(s) && w.ip == src && x.ip == dst &&
      M.Related(s, rule, w, x);
    var u := NodeFor(c, nodes, s, w);
    var v := NodeFor(c, nodes, s, x);
    SameRelation(c, s, rule, u, v, w, x);
    assert s.localHostID == c.localHostID by { SameHost(c, nodes, s); }
    assert (u, v) in RelatedPairs(c, nodes, rule);
    assert AddressPairOf(s, (u, v)) == (src, dst);
  }

  lemma AddressesTellApart(c: D.Config, nodes: seq<Node>, s: T.Snapshot, u: Node, v: Node)
    requires Describes(c, nodes, s) && u in nodes && v in nodes && AddressOf(s, u) == AddressOf(s, v)
    ensures u == v
  {
    hide Structured, AreNodes, Matching, AddressOf, T.UniqueIDs;
    var w := CounterpartOf(c, nodes, s, u);
    var x := CounterpartOf(c, nodes, s, v);
    References(c);
    SameID(c, nodes, u, v);
  }

  ghost function Image<A(!new), B(!new)>(f: A -> B, s: set<A>): set<B> {
    set x | x in s :: f(x)
  }

  lemma {:induction false} ImageSize<A(!new), B(!new)>(f: A -> B, s: set<A>)
    requires forall x, y :: x in s && y in s && f(x) == f(y) ==> x == y
    ensures |Image(f, s)| == |s|
  {
    if s == {} {
      assert Image(f, s) == {};
    } else {
      var a :| a in s;
      ImageSize(f, s - {a});
      assert Image(f, s) == Image(f, s - {a}) + {f(a)};
    }
  }

  lemma CoveredIsImage(c: D.Config, nodes: seq<Node>, s: T.Snapshot, rule: Rule)
    requires Describes(c, nodes, s) && IsNormalRule(rule) && SelectorsFit(rule) && !IsLinkedRule(rule)
    ensures CoveredPairs(s, rule) == AddressPairsOf(s, RelatedPairs(c, nodes, rule))
  {
    hide Describes, IsNormalRule, SelectorsFit, CoveredBy, AddressPairOf, RelatedPairs, T.CompiledRule;
    var image := AddressPairsOf(s, RelatedPairs(c, nodes, rule));
    forall q | q in CoveredPairs(s, rule) ensures q in image { CoveredIsRelated(c, nodes, s, rule, q.0, q.1); }
    forall p | p in RelatedPairs(c, nodes, rule) ensures AddressPairOf(s, p) in CoveredPairs(s, rule) {
      RelatedIsCovered(c, nodes, s, rule, p.0, p.1);
    }
    assert image <= CoveredPairs(s, rule);
  }

  lemma ImageIsAsLarge(c: D.Config, nodes: seq<Node>, s: T.Snapshot, rule: Rule)
    requires Describes(c, nodes, s)
    ensures |AddressPairsOf(s, RelatedPairs(c, nodes, rule))| == |RelatedPairs(c, nodes, rule)|
  {
    hide Describes, AddressOf, Relates;
    var f := p => AddressPairOf(s, p);
    var pairs := RelatedPairs(c, nodes, rule);
    forall p, q | p in pairs && q in pairs && f(p) == f(q) ensures p == q {
      AddressesTellApart(c, nodes, s, p.0, q.0);
      AddressesTellApart(c, nodes, s, p.1, q.1);
    }
    ImageSize(f, pairs);
    forall q ensures q in Image(f, pairs) <==> q in AddressPairsOf(s, pairs) {
      if p :| p in pairs && AddressPairOf(s, p) == q { assert f(p) in Image(f, pairs); }
    }
    assert Image(f, pairs) == AddressPairsOf(s, pairs);
  }

  /** The planner's relationship count of a rule is the number of workload pairs, told apart
      by address, that the rules compiled for it cover; it is zero exactly when none is compiled. */
  lemma PlannerCountsWhatIsEnforced(c: D.Config, nodes: seq<Node>, s: T.Snapshot, rule: Rule)
    requires Describes(c, nodes, s) && IsNormalRule(rule) && SelectorsFit(rule) && !IsLinkedRule(rule)
    ensures |RelatedPairs(c, nodes, rule)| == |CoveredPairs(s, rule)|
    ensures RelatedPairs(c, nodes, rule) == {} <==> T.CompiledRule(s, rule) == []
  {
    assert forall p :: p in rule.ports ==> IsCanonicalPort(p);
    hide Describes, IsNormalRule, SelectorsFit, AddressPairOf, RelatedPairs, IsCanonicalPort, CoveredBy, T.RuleBlocks,
      T.EmitAll;
    CoveredIsImage(c, nodes, s, rule);
    ImageIsAsLarge(c, nodes, s, rule);
    EmptyOrCovering(T.RuleBlocks(s, rule), rule.ports, rule.action);
    if T.CompiledRule(s, rule) != [] {
      var src, dst :| CoveredBy(T.CompiledRule(s, rule), src, dst);
      CoveredIsRelated(c, nodes, s, rule, src, dst);
    } else if p :| p in RelatedPairs(c, nodes, rule) {
      RelatedIsCovered(c, nodes, s, rule, p.0, p.1);
      NothingCovers(AddressPairOf(s, p).0, AddressPairOf(s, p).1);
    }
  }

  /** The two zero-match counts are the same number. */
  lemma {:induction false} ZeroMatchesAgree(c: D.Config, nodes: seq<Node>, s: T.Snapshot, rules: seq<Rule>)
    requires Describes(c, nodes, s)
    requires forall r :: r in rules ==> IsNormalRule(r) && SelectorsFit(r) && !IsLinkedRule(r)
    ensures P.CompilationOf(c, nodes, rules).zeroMatches == T.ZeroMatches(s, rules)
  {
    hide Describes, IsNormalRule, SelectorsFit, IsLinkedRule, RelatedPairs, T.CompiledRule, P.Groups, P.Scopes;
    if rules != [] {
      ZeroMatchesAgree(c, nodes, s, rules[..|rules| - 1]);
      assert rules[|rules| - 1] in rules;
      PlannerCountsWhatIsEnforced(c, nodes, s, rules[|rules| - 1]);
    }
  }

  /** The plan the audit reports and the plan the host enforces count the same rules as
      matching nothing. */
  lemma PlansAgree(c: D.Config, nodes: seq<Node>, s: T.Snapshot, p: P.Plan)
    requires Describes(c, nodes, s) && c.policy == s.policy && IsPrefix4(s.subnet)
    requires PolicyFits(c.policy) && forall r :: r in c.policy.rules ==> !IsLinkedRule(r)
    requires P.IsPlan(p, c, nodes)
    ensures p.compilation.zeroMatches == T.PlanOf(s).zeroMatchCount
  {
    assert Structured(c);
    P.RulesAreNormal(c);
    hide Describes, Structured, IsNormalRule, SelectorsFit, IsLinkedRule, P.CompilationOf, T.ZeroMatches;
    ZeroMatchesAgree(c, nodes, s, c.policy.rules);
  }

  // ---- linked rules ----

  /** The planner reads links both ways. */
  lemma LinkedIsSymmetric(c: D.Config, u: Node, v: Node)
    ensures Linked(c, u, v) <==> Linked(c, v, u)
  {
    hide RootsLinked;
    if RootsLinked(c.services, u.root, v.root) { RootsLinkedSymmetric(c.services, u.root, v.root); }
    if RootsLinked(c.services, v.root, u.root) { RootsLinkedSymmetric(c.services, v.root, u.root); }
  }

  /** The live link tables hold the document's links, each in its own direction. */
  ghost predicate LinksMatch(c: D.Config, s: T.Snapshot) {
    && (forall a, b :: T.HasLink(s.containerLinks, a, b) <==> HasDirectLink(c.workloads, a, b))
    && forall a, b :: T.HasLink(s.serviceLinks, a, b) <==> HasRootLink(c.services, a, b)
  }

  ghost predicate HasDirectLink(ws: seq<D.Workload>, a: string, b: string) {
    exists w :: w in ws && w.id == a && b in w.links
  }

  ghost predicate HasRootLink(services: seq<D.Service>, a: string, b: string) {
    exists s, t :: s in services && t in services && ServiceLinked(s, t) && RootOf(s) == a && RootOf(t) == b
  }

  /** The live compiler follows a container link from `w` to `x`. */
  predicate LiveDirect(s: T.Snapshot, w: T.Workload, x: T.Workload) {
    T.HasLink(s.containerLinks, w.id, x.id)
  }

  /** The live compiler follows a service link from `w` to `x`. */
  predicate LiveService(s: T.Snapshot, w: T.Workload, x: T.Workload) {
    w.primaryServiceID != "" && x.primaryServiceID != "" &&
      T.HasLink(s.serviceLinks, w.primaryServiceID, x.primaryServiceID)
  }

  lemma DirectLinkOf(c: D.Config, nodes: seq<Node>, u: Node, b: string)
    requires Structured(c) && AreNodes(c, nodes) && u in nodes
    ensures HasDirectLink(c.workloads, u.workload.id, b) <==> b in u.workload.links
  {
    hide Structured, IsNode, D.UniqueBy;
    References(c);
    var i :| 0 <= i < |nodes| && nodes[i] == u;
    NodeOf(c, nodes, i);
    assert c.workloads[i] in c.workloads;
    if HasDirectLink(c.workloads, u.workload.id, b) {
      var w :| w in c.workloads && w.id == u.workload.id && b in w.links;
      var j :| 0 <= j < |c.workloads| && c.workloads[j] == w;
      WorkloadsInOrder(c, i, j);
    }
  }

  lemma RootLinksBothWays(services: seq<D.Service>, a: string, b: string)
    ensures RootsLinked(services, a, b) <==> a != b && (HasRootLink(services, a, b) || HasRootLink(services, b, a))
  {
    hide RootOf, ServiceLinked;
    if RootsLinked(services, a, b) {
      var s, t :| s in services && t in services && ServiceLinked(s, t) && Joins(RootOf(s), RootOf(t), a, b);
    }
    if a != b && HasRootLink(services, a, b) {
      var s, t :| s in services && t in services && ServiceLinked(s, t) && RootOf(s) == a && RootOf(t) == b;
      assert Joins(RootOf(s), RootOf(t), a, b);
    }
    if a != b && HasRootLink(services, b, a) {
      var s, t :| s in services && t in services && ServiceLinked(s, t) && RootOf(s) == b && RootOf(t) == a;
      assert Joins(RootOf(s), RootOf(t), a, b);
    }
  }

  /** The planner's linked relation is the live one taken in both directions, without the
      service links inside one root. */
  lemma LinkedIsLiveBothWays(
    c: D.Config, nodes: seq<Node>, s: T.Snapshot, u: Node, v: Node, w: T.Workload, x: T.Workload)
    requires Structured(c) && AreNodes(c, nodes) && LinksMatch(c, s) && u in nodes && v in nodes
    requires SameWorkload(u, w) && SameWorkload(v, x)
    ensures Linked(c, u, v) <==>
      || LiveDirect(s, w, x) || LiveDirect(s, x, w)
      || (w.primaryServiceID != x.primaryServiceID && (LiveService(s, w, x) || LiveService(s, x, w)))
  {
    hide Structured, AreNodes, HasDirectLink, HasRootLink, RootsLinked, T.HasLink;
    DirectLinkOf(c, nodes, u, v.workload.id);
    DirectLinkOf(c, nodes, v, u.workload.id);
    RootLinksBothWays(c.services, u.root, v.root);
  }
}
