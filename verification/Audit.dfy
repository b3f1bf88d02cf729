/** The audit planner's compiler: counters over the workloads of a normalised document. */
module Audit {
  import opened Text
  import opened Selector
  import opened Labels
  import opened Policy
  import opened Document
  import opened DocumentLaws
  import opened Counting

  // ---- what a workload inherits ----

  function RootOf(s: Service): string {
    if s.primaryServiceID != "" then s.primaryServiceID else s.id
  }

  ghost predicate IsSystemStack(stacks: seq<Stack>, id: string) {
    exists s :: s in stacks && s.id == id && s.system
  }

  /** The labels and the root of a workload of service `s`. */
  ghost predicate Inherits(s: Service, w: Workload, labels: LabelMap, root: string) {
    s.id == w.serviceID && labels == s.labels + w.labels && root == RootOf(s)
  }

  ghost predicate IsNode(c: Config, w: Workload, n: Node) {
    && n.workload == w && (n.system <==> IsSystemStack(c.stacks, w.stackID))
    && if w.serviceID == "" then n.labels == w.labels && n.root == ""
       else exists s :: s in c.services && Inherits(s, w, n.labels, n.root)
  }

  ghost predicate AreNodes(c: Config, nodes: seq<Node>) {
    |nodes| == |c.workloads| && forall i :: 0 <= i < |nodes| ==> IsNode(c, c.workloads[i], nodes[i])
  }

  // ---- the relation a rule stands for ----

  predicate DirectlyLinked(u: Workload, v: Workload) {
    v.id in u.links || u.id in v.links
  }

  /** Service `s` links to service `t`. */
  predicate ServiceLinked(s: Service, t: Service) {
    t.id in s.links
  }

  /** An edge from `from` to `to`, entered in both directions, joins `a` to `b`. */
  predicate Joins(from: string, to: string, a: string, b: string) {
    (from == a && to == b) || (from == b && to == a)
  }

  /** Some service under one of the two roots links to one under the other. */
  ghost predicate RootsLinked(services: seq<Service>, a: string, b: string) {
    a != b && exists s, t :: s in services && t in services && ServiceLinked(s, t) && Joins(RootOf(s), RootOf(t), a, b)
  }

  ghost predicate Linked(c: Config, u: Node, v: Node) {
    DirectlyLinked(u.workload, v.workload) ||
    (u.root != "" && v.root != "" && RootsLinked(c.services, u.root, v.root))
  }

  /** A selector that does not parse selects everything: the planner drops the error. */
  ghost predicate Chosen(expression: string, n: Node) {
    ParseSelector(expression).Some? ==> Satisfies(ParseSelector(expression).value.clauses, n.labels)
  }

  ghost predicate Relates(c: Config, rule: Rule, u: Node, v: Node) {
    if rule.within == "stack" then u.workload.stackID == v.workload.stackID
    else if rule.within == "service" then u.root == v.root != ""
    else if rule.within == "linked" then Linked(c, u, v)
    else if rule.between.Some? then
      if rule.between.value.selector != "" then
        Chosen(rule.between.value.selector, u) && Chosen(rule.between.value.selector, v)
      else
        var key := rule.between.value.groupBy;
        key in u.labels && key in v.labels && u.labels[key] == v.labels[key]
    else
      rule.from.Some? && rule.to.Some? && Chosen(rule.from.value, u) && Chosen(rule.to.value, v)
  }

  ghost function AppNodes(nodes: seq<Node>): set<Node> {
    set n | n in nodes && !n.system
  }

  ghost function SystemNodes(nodes: seq<Node>): set<Node> {
    set n | n in nodes && n.system
  }

  ghost function LocalNodes(nodes: seq<Node>, host: string): set<Node> {
    set n | n in nodes && n.workload.hostID == host
  }

  /** The pairs of an application workload and a local application workload the rule relates. */
  ghost function RelatedPairs(c: Config, nodes: seq<Node>, rule: Rule): set<(Node, Node)> {
    set u, v |
      u in AppNodes(nodes) && v in AppNodes(nodes) && v.workload.hostID == c.localHostID && Relates(c, rule, u, v)
    :: (u, v)
  }

  // ---- the lookup tables of newCompiler ----

  ghost predicate SystemTable(table: map<string, bool>, stacks: seq<Stack>) {
    forall s :: s in stacks ==> s.id in table && table[s.id] == s.system
  }

  /** The stack loop of newCompiler. */
  method TabulateStacks(stacks: seq<Stack>) returns (table: map<string, bool>)
    requires UniqueBy(StackID, stacks)
    ensures SystemTable(table, stacks)
  {
    table := map[];
    for i := 0 to |stacks|
      invariant forall k :: 0 <= k < i ==> stacks[k].id in table && table[stacks[k].id] == stacks[k].system
    {
      assert forall k :: 0 <= k < i ==> StackID(stacks[k]) != StackID(stacks[i]);
      table := table[stacks[i].id := stacks[i].system];
    }
  }

  ghost predicate RootTable(roots: map<string, string>, services: seq<Service>) {
    && (forall s :: s in services ==> s.id in roots && roots[s.id] == RootOf(s))
    && forall k :: k in roots ==> exists s :: s in services && s.id == k
  }

  /** The service loop of newCompiler. */
  method TabulateServices(services: seq<Service>) returns (byID: map<string, Service>, roots: map<string, string>)
    requires UniqueBy(ServiceID, services)
    ensures Indexes(ServiceID, byID, services) && RootTable(roots, services)
  {
    hide Indexes, UniqueBy;
    byID, roots := map[], map[];
    NothingIndexed(ServiceID);
    assert services[..0] == [];
    for i := 0 to |services|
      invariant Indexes(ServiceID, byID, services[..i])
      invariant forall k :: 0 <= k < i ==> services[k].id in roots && roots[services[k].id] == RootOf(services[k])
      invariant forall k :: k in roots ==> exists s :: s in services && s.id == k
    {
      var service := services[i];
      NewIdentifier(ServiceID, services, i);
      IndexMore(ServiceID, byID, services[..i], service);
      byID := byID[service.id := service];
      var root := service.id;
      if service.primaryServiceID != "" { root := service.primaryServiceID; }
      assert service in services;
      roots := roots[service.id := root];
    }
    assert services[..|services|] == services;
  }

  lemma NewIdentifier<T(!new)>(id: T -> string, s: seq<T>, i: nat)
    requires UniqueBy(id, s) && i < |s|
    ensures UniqueBy(id, s[..i]) && UniqueBy(id, s[..i] + [s[i]])
    ensures s[..i + 1] == s[..i] + [s[i]]
    ensures forall k :: 0 <= k < i ==> id(s[k]) != id(s[i])
  {
    assert s[..i + 1] == s[..i] + [s[i]];
  }

  // ---- link tables ----

  type Index = map<string, set<string>>

  predicate Edge(index: Index, a: string, b: string) {
    a in index && b in index[a]
  }

  /** addLink */
  function AddLink(index: Index, from: string, to: string): (r: Index)
    ensures forall a, b :: Edge(r, a, b) <==> Edge(index, a, b) || (a == from && b == to)
  {
    index[from := (if from in index then index[from] else {}) + {to}]
  }

  /** Roots of linked services, up to the first `n` services. */
  ghost predicate JoinedBy(roots: map<string, string>, services: seq<Service>, n: nat, a: string, b: string)
    requires n <= |services|
  {
    a != b && exists i, l ::
      0 <= i < n && LinkFrom(roots, services[i], l) && Joins(roots[services[i].id], roots[l], a, b)
  }

  ghost predicate LinkFrom(roots: map<string, string>, s: Service, l: string) {
    s.id in roots && l in roots && l in s.links
  }

  /** Some link of the service joins the two roots. */
  ghost predicate JoinedFrom(roots: map<string, string>, s: Service, a: string, b: string) {
    a != b && exists l :: LinkFrom(roots, s, l) && Joins(roots[s.id], roots[l], a, b)
  }

  /** The inner loop over the links of one service. */
  method AddServiceLinks(index: Index, roots: map<string, string>, service: Service) returns (r: Index)
    requires service.id in roots && forall l :: l in service.links ==> l in roots
    ensures forall a, b :: Edge(r, a, b) <==>
      Edge(index, a, b) || JoinedFrom(roots, service, a, b)
  {
    hide Edge, AddLink;
    var from := roots[service.id];
    r := index;
    for j := 0 to |service.links|
      invariant forall a, b :: Edge(r, a, b) <==>
        Edge(index, a, b) || (a != b && exists k :: 0 <= k < j && Joins(from, roots[service.links[k]], a, b))
    {
      var to := roots[service.links[j]];
      if from == to { continue; }
      r := AddLink(r, from, to);
      r := AddLink(r, to, from);
    }
    forall a, b ensures JoinedFrom(roots, service, a, b) <==>
      (a != b && exists k :: 0 <= k < |service.links| && Joins(from, roots[service.links[k]], a, b)) {
      if l :| LinkFrom(roots, service, l) && Joins(from, roots[l], a, b) {
        var k :| 0 <= k < |service.links| && service.links[k] == l;
      }
      if k :| 0 <= k < |service.links| && Joins(from, roots[service.links[k]], a, b) {
        assert LinkFrom(roots, service, service.links[k]);
      }
    }
  }

  /** The service link loop of newCompiler. */
  method LinkServices(services: seq<Service>, roots: map<string, string>) returns (index: Index)
    requires RootTable(roots, services) && ReferencesResolve(services)
    ensures forall a, b :: Edge(index, a, b) <==> RootsLinked(services, a, b)
  {
    hide Edge;
    index := map[];
    assert forall a, b :: !Edge(index, a, b) by { NoEdges(); }
    for i := 0 to |services|
      invariant forall a, b :: Edge(index, a, b) <==> JoinedBy(roots, services, i, a, b)
    {
      assert services[i] in services;
      LinksHaveRoots(services, roots, services[i]);
      ghost var before := index;
      index := AddServiceLinks(index, roots, services[i]);
      forall a, b
        ensures Edge(index, a, b) <==> JoinedBy(roots, services, i + 1, a, b)
      {
        JoinedMore(roots, services, i, a, b);
      }
    }
    forall a, b ensures JoinedBy(roots, services, |services|, a, b) <==> RootsLinked(services, a, b) {
      JoinedIsLinked(roots, services, a, b);
    }
  }

  lemma NoEdges()
    ensures forall a, b :: !Edge(map[], a, b)
  {
  }

  lemma LinksHaveRoots(services: seq<Service>, roots: map<string, string>, s: Service)
    requires RootTable(roots, services) && ReferencesResolve(services) && s in services
    ensures s.id in roots && forall l :: l in s.links ==> l in roots
  {
    hide PrimaryFits;
    assert ServiceLinksResolve(services, s);
  }

  lemma JoinedMore(roots: map<string, string>, services: seq<Service>, i: nat, a: string, b: string)
    requires i < |services| && services[i].id in roots
    ensures JoinedBy(roots, services, i + 1, a, b) <==>
      JoinedBy(roots, services, i, a, b) ||
      JoinedFrom(roots, services[i], a, b)
  {
    hide Joins;
  }

  lemma JoinedIsLinked(roots: map<string, string>, services: seq<Service>, a: string, b: string)
    requires RootTable(roots, services) && ReferencesResolve(services)
    ensures JoinedBy(roots, services, |services|, a, b) <==> RootsLinked(services, a, b)
  {
    hide PrimaryFits, Joins, RootOf;
    if JoinedBy(roots, services, |services|, a, b) {
      var i, l :| 0 <= i < |services| && LinkFrom(roots, services[i], l) &&
        Joins(roots[services[i].id], roots[l], a, b);
      var t :| t in services && t.id == l;
      assert services[i] in services && ServiceLinked(services[i], t);
    }
    if RootsLinked(services, a, b) {
      var s, t :| s in services && t in services && ServiceLinked(s, t) && Joins(RootOf(s), RootOf(t), a, b);
      var i :| 0 <= i < |services| && services[i] == s;
      assert LinkFrom(roots, services[i], t.id);
    }
  }

  /** The workload link loop of newCompiler. */
  method LinkWorkloads(ws: seq<Workload>) returns (index: Index)
    ensures forall a, b :: Edge(index, a, b) <==> exists i :: 0 <= i < |ws| && LinkHolds(ws[i], a, b)
  {
    hide Edge, AddLink;
    index := map[];
    assert forall a, b :: !Edge(index, a, b) by { NoEdges(); }
    for i := 0 to |ws|
      invariant forall a, b :: Edge(index, a, b) <==> exists k :: 0 <= k < i && LinkHolds(ws[k], a, b)
    {
      var workload := ws[i];
      ghost var before := index;
      for j := 0 to |workload.links|
        invariant forall a, b :: Edge(index, a, b) <==>
          Edge(before, a, b) || exists k :: 0 <= k < j && Joins(workload.id, workload.links[k], a, b)
      {
        index := AddLink(index, workload.id, workload.links[j]);
        index := AddLink(index, workload.links[j], workload.id);
      }
      forall a, b ensures LinkHolds(workload, a, b) <==>
        exists k :: 0 <= k < |workload.links| && Joins(workload.id, workload.links[k], a, b) {
      }
    }
  }

  /** The links of a workload, entered in both directions, join `a` to `b`. */
  predicate LinkHolds(w: Workload, a: string, b: string) {
    (w.id == a && b in w.links) || (w.id == b && a in w.links)
  }

  // ---- the workload loop ----

  /** The two label loops of newCompiler: what `extra` says wins. */
  method Overlay(labels: LabelMap, extra: LabelMap) returns (r: LabelMap)
    ensures r == labels + extra
  {
    r := labels;
    var todo := extra.Keys;
    while todo != {}
      invariant todo <= extra.Keys
      invariant r == labels + (map k | k in extra && k !in todo :: extra[k])
    {
      var key :| key in todo;
      r := r[key := extra[key]];
      todo := todo - {key};
    }
    assert (map k | k in extra && k !in todo :: extra[k]) == extra;
  }

  /** The labels and the root of a workload. */
  method Inherited(c: Config, byID: map<string, Service>, roots: map<string, string>, w: Workload)
    returns (labels: LabelMap, root: string)
    requires Indexes(ServiceID, byID, c.services) && RootTable(roots, c.services)
    requires w in c.workloads && EachWorkloadAccepted(c.stacks, c.services, c.workloads) && CleanWorkload(w) == w
    ensures if w.serviceID == "" then labels == w.labels && root == ""
            else exists s :: s in c.services && Inherits(s, w, labels, root)
  {
    hide Indexes, WorkloadAccepted, UniqueBy, Compatible, CleanWorkload;
    assert ServiceFits(c.services, w);
    labels, root := map[], "";
    if w.serviceID != "" {
      ServiceFound(byID, c.services, w);
      var service := byID[w.serviceID];
      labels := Overlay(labels, service.labels);
      root := roots[w.serviceID];
      assert map[] + service.labels == service.labels;
    }
    ghost var inherited := labels;
    labels := Overlay(labels, w.labels);
    if w.serviceID == "" {
      assert map[] + w.labels == w.labels;
    } else {
      assert Inherits(byID[w.serviceID], w, labels, root);
    }
  }

  lemma ServiceFound(byID: map<string, Service>, services: seq<Service>, w: Workload)
    requires Indexes(ServiceID, byID, services) && ServiceFits(services, w) && w.serviceID != ""
    ensures w.serviceID in byID && byID[w.serviceID] in services && byID[w.serviceID].id == w.serviceID
  {
    hide Compatible;
    var s :| s in services && s.id == w.serviceID;
    assert ServiceID(s) in byID;
  }

  ghost predicate Lists(byRoot: map<string, seq<string>>, root: string, id: string) {
    root in byRoot && id in byRoot[root]
  }

  ghost predicate IsMember(nodes: seq<Node>, root: string, id: string) {
    root != "" && exists n :: n in nodes && !n.system && n.root == root && n.workload.id == id
  }

  /** The application workloads of every root. */
  ghost predicate MembersByRoot(byRoot: map<string, seq<string>>, nodes: seq<Node>) {
    forall root, id :: Lists(byRoot, root, id) <==> IsMember(nodes, root, id)
  }

  lemma MembersMore(byRoot: map<string, seq<string>>, nodes: seq<Node>, n: Node)
    requires MembersByRoot(byRoot, nodes)
    ensures MembersByRoot(
      if n.system || n.root == "" then byRoot
      else byRoot[n.root := (if n.root in byRoot then byRoot[n.root] else []) + [n.workload.id]], nodes + [n])
  {
    var after := if n.system || n.root == "" then byRoot
      else byRoot[n.root := (if n.root in byRoot then byRoot[n.root] else []) + [n.workload.id]];
    forall root, id ensures Lists(after, root, id) <==> IsMember(nodes + [n], root, id) {
      assert Lists(byRoot, root, id) <==> IsMember(nodes, root, id);
      assert IsMember(nodes + [n], root, id) <==>
        IsMember(nodes, root, id) || (root != "" && !n.system && n.root == root && n.workload.id == id) by {
        if root != "" && !n.system && n.root == root && n.workload.id == id { assert n in nodes + [n]; }
      }
    }
  }

  /** Whether each workload is a system one, and whether it is a local one. */
  ghost predicate Flags(system: map<string, bool>, local: map<string, bool>, nodes: seq<Node>, host: string) {
    forall n :: n in nodes ==>
      && n.workload.id in system && system[n.workload.id] == n.system
      && n.workload.id in local && local[n.workload.id] == (n.workload.hostID == host)
  }

  ghost predicate Inventoried(local: nat, system: nat, nonSystem: nat, nodes: seq<Node>, host: string) {
    local == |LocalNodes(nodes, host)| && system == |SystemNodes(nodes)| && nonSystem == |AppNodes(nodes)|
  }

  lemma LocalMore(nodes: seq<Node>, host: string, n: Node)
    requires n !in nodes
    ensures |LocalNodes(nodes + [n], host)| == |LocalNodes(nodes, host)| + if n.workload.hostID == host then 1 else 0
  {
    var before, after := LocalNodes(nodes, host), LocalNodes(nodes + [n], host);
    if n.workload.hostID == host { assert after == before + {n}; } else { assert after == before; }
  }

  lemma SystemMore(nodes: seq<Node>, n: Node)
    requires n !in nodes
    ensures |SystemNodes(nodes + [n])| == |SystemNodes(nodes)| + if n.system then 1 else 0
  {
    var before, after := SystemNodes(nodes), SystemNodes(nodes + [n]);
    if n.system { assert after == before + {n}; } else { assert after == before; }
  }

  lemma AppsMore(nodes: seq<Node>, n: Node)
    requires n !in nodes
    ensures |AppNodes(nodes + [n])| == |AppNodes(nodes)| + if n.system then 0 else 1
  {
    var before, after := AppNodes(nodes), AppNodes(nodes + [n]);
    if n.system { assert after == before; } else { assert after == before + {n}; }
  }

  lemma InventoryMore(local: nat, system: nat, nonSystem: nat, nodes: seq<Node>, host: string, n: Node)
    requires Inventoried(local, system, nonSystem, nodes, host) && n !in nodes
    ensures Inventoried(
      local + if n.workload.hostID == host then 1 else 0, system + if n.system then 1 else 0,
      nonSystem + if n.system then 0 else 1, nodes + [n], host)
  {
    hide LocalNodes, SystemNodes, AppNodes;
    LocalMore(nodes, host, n);
    SystemMore(nodes, n);
    AppsMore(nodes, n);
  }

  datatype Tables = Tables(
    stackAll: map<string, nat>, stackLocal: map<string, nat>, rootAll: map<string, nat>, rootLocal: map<string, nat>,
    byRoot: map<string, seq<string>>, system: map<string, bool>, local: map<string, bool>)

  /** The counters and tables are those of the nodes. */
  ghost predicate Tabulated(t: Tables, nodes: seq<Node>, host: string) {
    && Counts(t.stackAll, nodes, StackKey, Everywhere) && Counts(t.stackLocal, nodes, StackKey, On(host))
    && Counts(t.rootAll, nodes, RootKey, Everywhere) && Counts(t.rootLocal, nodes, RootKey, On(host))
    && MembersByRoot(t.byRoot, nodes) && Flags(t.system, t.local, nodes, host)
  }

  lemma NothingTabulated(host: string)
    ensures Tabulated(Tables(map[], map[], map[], map[], map[], map[], map[]), [], host)
    ensures Inventoried(0, 0, 0, [], host)
  {
    NothingCounted(StackKey, Everywhere);
    NothingCounted(StackKey, On(host));
    NothingCounted(RootKey, Everywhere);
    NothingCounted(RootKey, On(host));
    assert LocalNodes([], host) == {} && SystemNodes([]) == {} && AppNodes([]) == {};
  }

  /** Counting a node under its stack. */
  method CountStack(all: map<string, nat>, local: map<string, nat>, node: Node, ghost nodes: seq<Node>, host: string)
    returns (newAll: map<string, nat>, newLocal: map<string, nat>)
    requires Counts(all, nodes, StackKey, Everywhere) && Counts(local, nodes, StackKey, On(host)) && node !in nodes
    ensures Counts(newAll, nodes + [node], StackKey, Everywhere) && Counts(newLocal, nodes + [node], StackKey, On(host))
  {
    CountMore(all, nodes, StackKey, Everywhere, node);
    CountMore(local, nodes, StackKey, On(host), node);
    hide Counts, Tally;
    newAll, newLocal := all, local;
    if !node.system {
      newAll := Tally(all, node.workload.stackID);
      if node.workload.hostID == host { newLocal := Tally(local, node.workload.stackID); }
    }
  }

  /** Counting and listing a node under its root. */
  method CountRoot(
    all: map<string, nat>, local: map<string, nat>, byRoot: map<string, seq<string>>, node: Node,
    ghost nodes: seq<Node>, host: string)
    returns (newAll: map<string, nat>, newLocal: map<string, nat>, newByRoot: map<string, seq<string>>)
    requires Counts(all, nodes, RootKey, Everywhere) && Counts(local, nodes, RootKey, On(host)) && node !in nodes
    requires MembersByRoot(byRoot, nodes)
    ensures Counts(newAll, nodes + [node], RootKey, Everywhere) && Counts(newLocal, nodes + [node], RootKey, On(host))
    ensures MembersByRoot(newByRoot, nodes + [node])
  {
    CountMore(all, nodes, RootKey, Everywhere, node);
    CountMore(local, nodes, RootKey, On(host), node);
    MembersMore(byRoot, nodes, node);
    hide Counts, Tally, MembersByRoot;
    newAll, newLocal, newByRoot := all, local, byRoot;
    var root := node.root;
    if !node.system && root != "" {
      newAll := Tally(all, root);
      newByRoot := byRoot[root := (if root in byRoot then byRoot[root] else []) + [node.workload.id]];
      if node.workload.hostID == host { newLocal := Tally(local, root); }
    }
  }

  lemma FlagsMore(system: map<string, bool>, local: map<string, bool>, nodes: seq<Node>, host: string, n: Node)
    requires Flags(system, local, nodes, host) && forall m :: m in nodes ==> m.workload.id != n.workload.id
    ensures Flags(
      system[n.workload.id := n.system], local[n.workload.id := n.workload.hostID == host], nodes + [n], host)
  {
  }

  /** The second half of one turn of the workload loop: counting a node. */
  method Tabulate(t: Tables, node: Node, ghost nodes: seq<Node>, host: string) returns (r: Tables)
    requires Tabulated(t, nodes, host) && forall n :: n in nodes ==> n.workload.id != node.workload.id
    ensures Tabulated(r, nodes + [node], host)
  {
    hide Counts, MembersByRoot, Flags;
    FlagsMore(t.system, t.local, nodes, host, node);
    assert node !in nodes;
    var stackAll, stackLocal := CountStack(t.stackAll, t.stackLocal, node, nodes, host);
    var rootAll, rootLocal, byRoot := CountRoot(t.rootAll, t.rootLocal, t.byRoot, node, nodes, host);
    var id := node.workload.id;
    r := Tables(
      stackAll, stackLocal, rootAll, rootLocal, byRoot, t.system[id := node.system],
      t.local[id := node.workload.hostID == host]);
  }

  lemma NodeIDs(c: Config, nodes: seq<Node>, i: nat)
    requires UniqueBy(WorkloadID, c.workloads) && i < |c.workloads| && |nodes| == i
    requires forall k :: 0 <= k < i ==> IsNode(c, c.workloads[k], nodes[k])
    ensures forall n :: n in nodes ==> n.workload.id != c.workloads[i].id
  {
    forall n | n in nodes ensures n.workload.id != c.workloads[i].id {
      var k :| 0 <= k < i && nodes[k] == n;
      assert WorkloadID(c.workloads[k]) != WorkloadID(c.workloads[i]);
    }
  }

  lemma SystemFound(table: map<string, bool>, stacks: seq<Stack>, id: string)
    requires SystemTable(table, stacks) && HasStack(stacks, id)
    ensures id in table && (table[id] <==> IsSystemStack(stacks, id))
  {
  }

  /** The first half of one turn of the workload loop: what the workload inherits. */
  method MakeNode(
    c: Config, stackSystem: map<string, bool>, byID: map<string, Service>, roots: map<string, string>, w: Workload)
    returns (node: Node)
    requires Structured(c) && SystemTable(stackSystem, c.stacks) && w in c.workloads
    requires Indexes(ServiceID, byID, c.services) && RootTable(roots, c.services)
    ensures IsNode(c, w, node)
  {
    hide Indexes, RootTable, SystemTable, Structured;
    WorkloadIsAccepted(c, w);
    hide HasStack, IsSystemStack, EachWorkloadAccepted, CleanWorkload;
    var labels, root := Inherited(c, byID, roots, w);
    SystemFound(stackSystem, c.stacks, w.stackID);
    node := Node(w, labels, stackSystem[w.stackID], root);
  }

  lemma WorkloadIsAccepted(c: Config, w: Workload)
    requires Structured(c) && w in c.workloads
    ensures EachWorkloadAccepted(c.stacks, c.services, c.workloads) && HasStack(c.stacks, w.stackID)
    ensures CleanWorkload(w) == w
  {
    hide LabelsAccepted, LinksAccepted, HasStack, ServiceFits, Lowered;
    assert EachWorkloadAccepted(c.stacks, c.services, c.workloads);
    var i :| 0 <= i < |c.workloads| && c.workloads[i] == w;
    assert CleanWorkloads(c.workloads)[i] == w;
  }

  lemma WorkloadsDiffer(c: Config)
    requires Structured(c)
    ensures UniqueBy(WorkloadID, c.workloads)
  {
  }

  /** The workload loop of newCompiler. */
  method TabulateWorkloads(
    c: Config, stackSystem: map<string, bool>, byID: map<string, Service>, roots: map<string, string>)
    returns (nodes: seq<Node>, t: Tables, local: nat, system: nat, nonSystem: nat)
    requires Structured(c) && SystemTable(stackSystem, c.stacks)
    requires Indexes(ServiceID, byID, c.services) && RootTable(roots, c.services)
    ensures AreNodes(c, nodes) && Tabulated(t, nodes, c.localHostID)
    ensures Inventoried(local, system, nonSystem, nodes, c.localHostID)
  {
    hide Tabulated, Inventoried, Indexes, RootTable, Structured, SystemTable, UniqueBy, IsNode;
    WorkloadsDiffer(c);
    nodes, t := [], Tables(map[], map[], map[], map[], map[], map[], map[]);
    local, system, nonSystem := 0, 0, 0;
    NothingTabulated(c.localHostID);
    for i := 0 to |c.workloads|
      invariant |nodes| == i && forall k :: 0 <= k < i ==> IsNode(c, c.workloads[k], nodes[k])
      invariant Tabulated(t, nodes, c.localHostID) && Inventoried(local, system, nonSystem, nodes, c.localHostID)
    {
      var node := MakeNode(c, stackSystem, byID, roots, c.workloads[i]);
      NodeWorkload(c, c.workloads[i], node);
      NodeIDs(c, nodes, i);
      InventoryMore(local, system, nonSystem, nodes, c.localHostID, node);
      t := Tabulate(t, node, nodes, c.localHostID);
      if node.workload.hostID == c.localHostID { local := local + 1; }
      if node.system { system := system + 1; } else { nonSystem := nonSystem + 1; }
      nodes := nodes + [node];
    }
  }

  lemma NodeWorkload(c: Config, w: Workload, n: Node)
    requires IsNode(c, w, n)
    ensures n.workload == w
  {
  }

  // ---- the linked count ----

  /** The application workloads a linked rule relates to `v`. */
  ghost function LinkedSources(c: Config, nodes: seq<Node>, v: Node): set<Node> {
    set u | u in AppNodes(nodes) && Linked(c, u, v)
  }

  ghost predicate WorkloadEdges(index: Index, ws: seq<Workload>) {
    forall a, b :: Edge(index, a, b) <==> exists i :: 0 <= i < |ws| && LinkHolds(ws[i], a, b)
  }

  ghost predicate ServiceEdges(index: Index, services: seq<Service>) {
    forall a, b :: Edge(index, a, b) <==> RootsLinked(services, a, b)
  }

  lemma NodeOf(c: Config, nodes: seq<Node>, i: nat)
    requires AreNodes(c, nodes) && i < |nodes|
    ensures nodes[i].workload == c.workloads[i] && nodes[i] in nodes
  {
    assert IsNode(c, c.workloads[i], nodes[i]);
  }

  lemma WorkloadsInOrder(c: Config, i: nat, j: nat)
    requires UniqueBy(WorkloadID, c.workloads) && i < |c.workloads| && j < |c.workloads|
    ensures c.workloads[i].id == c.workloads[j].id ==> i == j
  {
    assert WorkloadID(c.workloads[i]) == c.workloads[i].id && WorkloadID(c.workloads[j]) == c.workloads[j].id;
  }

  /** A node is determined by the identifier of its workload. */
  lemma SameID(c: Config, nodes: seq<Node>, u: Node, v: Node)
    requires UniqueBy(WorkloadID, c.workloads) && AreNodes(c, nodes)
    requires u in nodes && v in nodes && u.workload.id == v.workload.id
    ensures u == v
  {
    hide UniqueBy, IsNode;
    var i :| 0 <= i < |nodes| && nodes[i] == u;
    var j :| 0 <= j < |nodes| && nodes[j] == v;
    NodeOf(c, nodes, i);
    NodeOf(c, nodes, j);
    WorkloadsInOrder(c, i, j);
  }

  /** Direct links of a workload, read off the link table. */
  lemma DirectEdges(c: Config, nodes: seq<Node>, index: Index, u: Node, v: Node)
    requires UniqueBy(WorkloadID, c.workloads) && AreNodes(c, nodes) && WorkloadEdges(index, c.workloads)
    requires u in nodes && v in nodes
    ensures Edge(index, v.workload.id, u.workload.id) <==> DirectlyLinked(u.workload, v.workload)
  {
    hide UniqueBy, IsNode, Edge;
    var i :| 0 <= i < |nodes| && nodes[i] == u;
    var j :| 0 <= j < |nodes| && nodes[j] == v;
    NodeOf(c, nodes, i);
    NodeOf(c, nodes, j);
    if DirectlyLinked(u.workload, v.workload) {
      if v.workload.id in u.workload.links { assert LinkHolds(c.workloads[i], v.workload.id, u.workload.id); }
      else { assert LinkHolds(c.workloads[j], v.workload.id, u.workload.id); }
    }
    if Edge(index, v.workload.id, u.workload.id) {
      var k :| 0 <= k < |c.workloads| && LinkHolds(c.workloads[k], v.workload.id, u.workload.id);
      if c.workloads[k].id == v.workload.id { WorkloadsInOrder(c, j, k); } else { WorkloadsInOrder(c, i, k); }
    }
  }

  /** What stands at the other end of a direct link is a workload. */
  lemma EdgeEnds(c: Config, nodes: seq<Node>, index: Index, v: Node, id: string)
    requires WorkloadReferencesResolve(c.workloads) && AreNodes(c, nodes) && WorkloadEdges(index, c.workloads)
    requires v in nodes && Edge(index, v.workload.id, id)
    ensures exists u :: u in nodes && u.workload.id == id
  {
    hide IsNode, Edge;
    var k :| 0 <= k < |c.workloads| && LinkHolds(c.workloads[k], v.workload.id, id);
    NodeOf(c, nodes, k);
    assert c.workloads[k] in c.workloads;
    assert WorkloadLinksResolve(c.workloads, c.workloads[k]);
    if c.workloads[k].id != id {
      var w :| w in c.workloads && w.id == id;
      var m :| 0 <= m < |c.workloads| && c.workloads[m] == w;
      NodeOf(c, nodes, m);
    }
  }

  /** The identifiers of the application workloads directly linked to `v`. */
  ghost predicate IsDirectSource(nodes: seq<Node>, v: Node, id: string) {
    exists u :: u in nodes && !u.system && u.workload.id == id && DirectlyLinked(u.workload, v.workload)
  }

  /** The loop over the direct links of a destination. */
  method DirectSources(
    c: Config, workloadLinks: Index, system: map<string, bool>, local: map<string, bool>, ghost nodes: seq<Node>,
    v: Node)
    returns (sources: set<string>)
    requires UniqueBy(WorkloadID, c.workloads) && WorkloadReferencesResolve(c.workloads) && AreNodes(c, nodes)
    requires WorkloadEdges(workloadLinks, c.workloads) && Flags(system, local, nodes, c.localHostID) && v in nodes
    ensures forall id :: id in sources <==> IsDirectSource(nodes, v, id)
  {
    hide UniqueBy, AreNodes, WorkloadEdges, WorkloadReferencesResolve, DirectlyLinked;
    sources := {};
    var linked := if v.workload.id in workloadLinks then workloadLinks[v.workload.id] else {};
    var todo := linked;
    while todo != {}
      invariant todo <= linked
      invariant forall id :: id in sources <==> id in linked && id !in todo && IsDirectSource(nodes, v, id)
    {
      var source :| source in todo;
      EdgeEnds(c, nodes, workloadLinks, v, source);
      ghost var u :| u in nodes && u.workload.id == source;
      DirectEdges(c, nodes, workloadLinks, u, v);
      if !system[source] { sources := sources + {source}; }
      assert IsDirectSource(nodes, v, source) <==> !u.system by { OnlySource(c, nodes, u, v); }
      todo := todo - {source};
    }
    forall id | IsDirectSource(nodes, v, id) ensures id in linked {
      var u :| u in nodes && !u.system && u.workload.id == id && DirectlyLinked(u.workload, v.workload);
      DirectEdges(c, nodes, workloadLinks, u, v);
    }
  }

  lemma OnlySource(c: Config, nodes: seq<Node>, u: Node, v: Node)
    requires UniqueBy(WorkloadID, c.workloads) && AreNodes(c, nodes) && u in nodes &&
      DirectlyLinked(u.workload, v.workload)
    ensures IsDirectSource(nodes, v, u.workload.id) <==> !u.system
  {
    hide UniqueBy, AreNodes, DirectlyLinked;
    if IsDirectSource(nodes, v, u.workload.id) {
      var x :| x in nodes && !x.system && x.workload.id == u.workload.id && DirectlyLinked(x.workload, v.workload);
      SameID(c, nodes, u, x);
    }
  }

  /** The identifiers of the application workloads whose root is linked to `root`. */
  ghost predicate IsRootSource(services: seq<Service>, nodes: seq<Node>, root: string, id: string) {
    root != "" && exists other :: RootsLinked(services, root, other) && IsMember(nodes, other, id)
  }

  /** The loops over the roots linked to the root of a destination. */
  method AddRootSources(
    services: seq<Service>, serviceLinks: Index, byRoot: map<string, seq<string>>, ghost nodes: seq<Node>,
    root: string, direct: set<string>)
    returns (sources: set<string>)
    requires ServiceEdges(serviceLinks, services) && MembersByRoot(byRoot, nodes)
    ensures forall id :: id in sources <==> id in direct || IsRootSource(services, nodes, root, id)
  {
    hide RootsLinked, IsMember;
    sources := direct;
    if root == "" { return; }
    var linked := if root in serviceLinks then serviceLinks[root] else {};
    var todo := linked;
    while todo != {}
      invariant todo <= linked
      invariant forall id :: id in sources <==>
        id in direct || exists r :: r in linked && r !in todo && Lists(byRoot, r, id)
    {
      var linkedRoot :| linkedRoot in todo;
      var members := if linkedRoot in byRoot then byRoot[linkedRoot] else [];
      ghost var before := sources;
      for j := 0 to |members|
        invariant forall id :: id in sources <==> id in before || id in members[..j]
      {
        assert members[..j + 1] == members[..j] + [members[j]];
        sources := sources + {members[j]};
      }
      assert members[..|members|] == members;
      assert forall id :: id in members <==> Lists(byRoot, linkedRoot, id);
      todo := todo - {linkedRoot};
    }
    forall id ensures (exists r :: r in linked && Lists(byRoot, r, id)) <==> IsRootSource(services, nodes, root, id) {
      if r :| r in linked && Lists(byRoot, r, id) {
        assert Edge(serviceLinks, root, r) && IsMember(nodes, r, id);
      }
      if IsRootSource(services, nodes, root, id) {
        var other :| RootsLinked(services, root, other) && IsMember(nodes, other, id);
        assert Edge(serviceLinks, root, other) && Lists(byRoot, other, id);
      }
    }
  }

  lemma RootsLinkedSymmetric(services: seq<Service>, a: string, b: string)
    requires RootsLinked(services, a, b)
    ensures RootsLinked(services, b, a)
  {
    var s, t :| s in services && t in services && ServiceLinked(s, t) && Joins(RootOf(s), RootOf(t), a, b);
    assert Joins(RootOf(s), RootOf(t), b, a);
  }

  /** The two kinds of sources together are the workloads the rule relates to `v`. */
  lemma SourcesAreLinked(c: Config, nodes: seq<Node>, v: Node, sources: set<string>)
    requires forall id :: id in sources <==> IsDirectSource(nodes, v, id) || IsRootSource(c.services, nodes, v.root, id)
    ensures sources == set u | u in LinkedSources(c, nodes, v) :: u.workload.id
  {
    hide RootsLinked, DirectlyLinked;
    var ids := set u | u in LinkedSources(c, nodes, v) :: u.workload.id;
    forall id | id in sources ensures id in ids {
      if IsDirectSource(nodes, v, id) {
        var u :| u in nodes && !u.system && u.workload.id == id && DirectlyLinked(u.workload, v.workload);
        assert u in LinkedSources(c, nodes, v);
      } else {
        var other :| RootsLinked(c.services, v.root, other) && IsMember(nodes, other, id);
        var u :| u in nodes && !u.system && u.root == other && u.workload.id == id;
        RootsLinkedSymmetric(c.services, v.root, other);
        assert u in LinkedSources(c, nodes, v);
      }
    }
    forall id | id in ids ensures id in sources {
      var u :| u in LinkedSources(c, nodes, v) && u.workload.id == id;
      if !DirectlyLinked(u.workload, v.workload) {
        RootsLinkedSymmetric(c.services, u.root, v.root);
        assert IsMember(nodes, u.root, id);
      }
    }
  }

  /** The linked pairs whose target is among `targets`. */
  ghost function LinkedTo(c: Config, nodes: seq<Node>, targets: seq<Node>): set<(Node, Node)> {
    set u, v |
      u in AppNodes(nodes) && v in targets && !v.system && v.workload.hostID == c.localHostID && Linked(c, u, v)
    :: (u, v)
  }

  lemma LinkedToOther(c: Config, nodes: seq<Node>, targets: seq<Node>, v: Node)
    requires v.system || v.workload.hostID != c.localHostID
    ensures LinkedTo(c, nodes, targets + [v]) == LinkedTo(c, nodes, targets)
  {
    hide Linked, AppNodes;
  }

  lemma LinkedToOneMore(c: Config, nodes: seq<Node>, targets: seq<Node>, v: Node)
    requires v !in targets && !v.system && v.workload.hostID == c.localHostID
    ensures LinkedTo(c, nodes, targets + [v]) == LinkedTo(c, nodes, targets) + Product(LinkedSources(c, nodes, v), {v})
    ensures LinkedTo(c, nodes, targets) !! Product(LinkedSources(c, nodes, v), {v})
  {
    hide Linked, AppNodes;
    var before, after, more :=
      LinkedTo(c, nodes, targets), LinkedTo(c, nodes, targets + [v]), Product(LinkedSources(c, nodes, v), {v});
    forall u, x ensures (u, x) in after <==> (u, x) in before || (u, x) in more {
    }
    forall p | p in before ensures p !in more {
    }
    assert after == before + more;
  }

  lemma LinkedToMore(c: Config, nodes: seq<Node>, targets: seq<Node>, v: Node)
    requires v !in targets
    ensures |LinkedTo(c, nodes, targets + [v])| == |LinkedTo(c, nodes, targets)| +
      if !v.system && v.workload.hostID == c.localHostID then |LinkedSources(c, nodes, v)| else 0
  {
    hide LinkedTo, LinkedSources, Product;
    if !v.system && v.workload.hostID == c.localHostID {
      LinkedToOneMore(c, nodes, targets, v);
      ProductSize(LinkedSources(c, nodes, v), {v});
    } else {
      LinkedToOther(c, nodes, targets, v);
    }
  }

  lemma NodesAreDistinct(c: Config, nodes: seq<Node>, i: nat)
    requires UniqueBy(WorkloadID, c.workloads) && AreNodes(c, nodes) && i < |nodes|
    ensures nodes[i] !in nodes[..i] && nodes[..i + 1] == nodes[..i] + [nodes[i]]
  {
    hide UniqueBy, IsNode;
    if nodes[i] in nodes[..i] {
      var j :| 0 <= j < i && nodes[j] == nodes[i];
      NodeOf(c, nodes, i);
      NodeOf(c, nodes, j);
      WorkloadsInOrder(c, i, j);
    }
  }

  lemma SourceCount(c: Config, nodes: seq<Node>, v: Node)
    requires UniqueBy(WorkloadID, c.workloads) && AreNodes(c, nodes)
    ensures |set u | u in LinkedSources(c, nodes, v) :: u.workload.id| == |LinkedSources(c, nodes, v)|
  {
    hide UniqueBy, AreNodes, Linked;
    forall x, y | x in LinkedSources(c, nodes, v) && y in LinkedSources(c, nodes, v) && x.workload.id == y.workload.id
      ensures x == y
    {
      SameID(c, nodes, x, y);
    }
    IDsOf(LinkedSources(c, nodes, v));
  }

  /** The destination loop of newCompiler. */
  method CountLinked(
    c: Config, nodes: seq<Node>, t: Tables, serviceLinks: Index, workloadLinks: Index)
    returns (count: nat)
    requires UniqueBy(WorkloadID, c.workloads) && WorkloadReferencesResolve(c.workloads) && AreNodes(c, nodes)
    requires WorkloadEdges(workloadLinks, c.workloads) && ServiceEdges(serviceLinks, c.services)
    requires MembersByRoot(t.byRoot, nodes) && Flags(t.system, t.local, nodes, c.localHostID)
    ensures count == |LinkedTo(c, nodes, nodes)|
  {
    hide UniqueBy, WorkloadReferencesResolve, AreNodes, WorkloadEdges, ServiceEdges, MembersByRoot, LinkedTo,
      LinkedSources;
    count := 0;
    NothingLinked(c, nodes);
    for i := 0 to |nodes|
      invariant count == |LinkedTo(c, nodes, nodes[..i])|
    {
      var destination := nodes[i];
      assert destination in nodes;
      NodesAreDistinct(c, nodes, i);
      LinkedToMore(c, nodes, nodes[..i], destination);
      if destination.system || !t.local[destination.workload.id] { continue; }
      var direct := DirectSources(c, workloadLinks, t.system, t.local, nodes, destination);
      var sources := AddRootSources(c.services, serviceLinks, t.byRoot, nodes, destination.root, direct);
      SourcesAreLinked(c, nodes, destination, sources);
      SourceCount(c, nodes, destination);
      count := count + |sources|;
    }
    assert nodes[..|nodes|] == nodes;
  }

  lemma NothingLinked(c: Config, nodes: seq<Node>)
    ensures LinkedTo(c, nodes, nodes[..0]) == {}
  {
  }

  // ---- newCompiler ----

  datatype Compiled = Compiled(
    config: Config, nodes: seq<Node>, withinStack: nat, withinService: nat, withinLinked: nat,
    local: nat, system: nat, nonSystem: nat)

  function Within(form: string): Rule {
    Rule(form, None, None, None, [], "allow")
  }

  /** The counters of newCompiler are the sizes of the relations. */
  ghost predicate IsCompiled(c: Config, r: Compiled) {
    && r.config == c && AreNodes(c, r.nodes)
    && r.withinStack == |RelatedPairs(c, r.nodes, Within("stack"))|
    && r.withinService == |RelatedPairs(c, r.nodes, Within("service"))|
    && r.withinLinked == |RelatedPairs(c, r.nodes, Within("linked"))|
    && Inventoried(r.local, r.system, r.nonSystem, r.nodes, c.localHostID)
  }

  lemma StackPairs(c: Config, nodes: seq<Node>)
    ensures KeyPairs(nodes, StackKey, c.localHostID) == RelatedPairs(c, nodes, Within("stack"))
  {
    hide Linked;
  }

  lemma RootPairs(c: Config, nodes: seq<Node>)
    ensures KeyPairs(nodes, RootKey, c.localHostID) == RelatedPairs(c, nodes, Within("service"))
  {
    hide Linked;
  }

  lemma LinkedPairs(c: Config, nodes: seq<Node>)
    ensures LinkedTo(c, nodes, nodes) == RelatedPairs(c, nodes, Within("linked"))
  {
    hide Linked;
  }

  lemma References(c: Config)
    requires Structured(c)
    ensures UniqueBy(StackID, c.stacks) && UniqueBy(ServiceID, c.services) && UniqueBy(WorkloadID, c.workloads)
    ensures ReferencesResolve(c.services) && WorkloadReferencesResolve(c.workloads)
  {
  }

  /** newCompiler */
  method NewCompiler(c: Config) returns (r: Compiled)
    requires Structured(c)
    ensures IsCompiled(c, r)
  {
    hide Structured, UniqueBy, ReferencesResolve, WorkloadReferencesResolve, AreNodes, Inventoried, RootTable,
      SystemTable, Counts, MembersByRoot, Flags, Edge, RootsLinked, LinkHolds, KeyPairs, LinkedTo, RelatedPairs,
      Indexes;
    References(c);
    var stackSystem := TabulateStacks(c.stacks);
    var byID, roots := TabulateServices(c.services);
    var nodes, t, local, system, nonSystem := TabulateWorkloads(c, stackSystem, byID, roots);
    var withinStack := SumProducts(t.stackAll, t.stackLocal, nodes, StackKey, c.localHostID);
    var withinService := SumProducts(t.rootAll, t.rootLocal, nodes, RootKey, c.localHostID);
    var serviceLinks := LinkServices(c.services, roots);
    var workloadLinks := LinkWorkloads(c.workloads);
    var withinLinked := CountLinked(c, nodes, t, serviceLinks, workloadLinks);
    StackPairs(c, nodes);
    RootPairs(c, nodes);
    LinkedPairs(c, nodes);
    r := Compiled(c, nodes, withinStack, withinService, withinLinked, local, system, nonSystem);
  }
}
