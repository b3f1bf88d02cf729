/** What normalising an audit document does, read off the submitted document: which documents are
    accepted, and what the canonical form keeps of every entity. */
module DocumentReading {
  import opened Ordering
  import opened Text
  import opened Selector
  import opened SelectorReading
  import opened Labels
  import opened Policy
  import opened RuleReading
  import opened Document

  // ---- acceptance ----

  /** A lower-case letter, then lower-case letters, digits and dashes, at most 63 in all. */
  predicate IsIdentifier(s: string) {
    && 1 <= |s| <= 63 && 'a' <= s[0] <= 'z'
    && forall i :: 0 <= i < |s| ==> 'a' <= s[i] <= 'z' || '0' <= s[i] <= '9' || s[i] == '-'
  }

  /** At most 64 labels with proper keys, no two of which differ only by case, and values of at
      most 256 characters without control characters. */
  ghost predicate AreProperLabels(labels: LabelMap) {
    && |labels| <= 64
    && (forall k :: k in labels ==> IsLabelKey(k) && |labels[k]| <= 256)
    && (forall k, i :: k in labels && 0 <= i < |labels[k]| ==> labels[k][i] as int >= 32 && labels[k][i] as int != 127)
    && forall a, b :: a in labels && b in labels && a != b ==> Lower(a) != Lower(b)
  }

  /** At most 128 different identifiers. */
  ghost predicate AreProperLinks(links: seq<string>) {
    && |links| <= 128 && (forall i :: 0 <= i < |links| ==> IsIdentifier(links[i]))
    && forall i, j :: 0 <= i < j < |links| ==> links[i] != links[j]
  }

  ghost predicate IsProperService(c: Config, s: Service) {
    && IsIdentifier(s.id) && AreProperLabels(s.labels) && AreProperLinks(s.links)
    && (exists t :: t in c.stacks && t.id == s.stackID)
    && (s.primaryServiceID != "" ==>
          exists p :: p in c.services && p.id == s.primaryServiceID && p.id != s.id && p.stackID == s.stackID &&
            p.primaryServiceID == "")
    && forall l :: l in s.links ==> l != s.id && exists t :: t in c.services && t.id == l
  }

  /** No label of the workload contradicts one of the service, letter case aside. */
  ghost predicate AgreeOnLabels(w: LabelMap, s: LabelMap) {
    forall k, j :: k in w && j in s && Lower(k) == Lower(j) ==> Lower(w[k]) == Lower(s[j])
  }

  ghost predicate IsProperWorkload(c: Config, w: Workload) {
    && IsIdentifier(w.id) && IsIdentifier(w.hostID) && AreProperLabels(w.labels) && AreProperLinks(w.links)
    && (exists t :: t in c.stacks && t.id == w.stackID)
    && (w.serviceID != "" ==>
          exists s :: s in c.services && s.id == w.serviceID && s.stackID == w.stackID &&
            AgreeOnLabels(w.labels, s.labels))
    && forall l :: l in w.links ==> l != w.id && exists t :: t in c.workloads && t.id == l
  }

  ghost predicate IsAcceptable(c: Config) {
    && c.schema == "pasturestack.network-policy-snapshot/v1" && IsIdentifier(c.localHostID)
    && 1 <= |c.stacks| <= 256 && |c.services| <= 1024 && 1 <= |c.workloads| <= 4096
    && (forall i :: 0 <= i < |c.stacks| ==> IsIdentifier(c.stacks[i].id))
    && (forall i, j :: 0 <= i < j < |c.stacks| ==> c.stacks[i].id != c.stacks[j].id)
    && (forall s :: s in c.services ==> IsProperService(c, s))
    && (forall i, j :: 0 <= i < j < |c.services| ==> c.services[i].id != c.services[j].id)
    && (forall w :: w in c.workloads ==> IsProperWorkload(c, w))
    && (forall i, j :: 0 <= i < j < |c.workloads| ==> c.workloads[i].id != c.workloads[j].id)
    && (exists w :: w in c.workloads && w.hostID == c.localHostID)
    && exists policy :: IsNormalPolicyOf(c.policy, policy)
  }

  lemma IdentifierIs(s: string)
    ensures IsIdentifier(s) <==> IsID(s)
  {
    if IsID(s) { assert forall i :: 0 <= i < |s| ==> s[i] in s; }
  }

  lemma LabelsAreProper(labels: LabelMap)
    ensures AreProperLabels(labels) <==> LabelsAccepted(labels)
  {
    hide Lower, IsLabelKey;
    forall k | k in labels
      ensures IsLabelText(labels[k]) <==>
        |labels[k]| <= 256 &&
        forall i :: 0 <= i < |labels[k]| ==> labels[k][i] as int >= 32 && labels[k][i] as int != 127
    {
      assert forall i :: 0 <= i < |labels[k]| ==> labels[k][i] in labels[k];
    }
  }

  lemma LinksAreProper(links: seq<string>)
    ensures AreProperLinks(links) <==> LinksAccepted(links, MAX_LINKS)
  {
    hide IsIdentifier, IsID;
    forall s { IdentifierIs(s); }
    assert forall i :: 0 <= i < |links| ==> links[i] in links;
  }

  lemma ProperService(c: Config, s: Service)
    ensures IsProperService(c, s) <==>
      ServiceAccepted(c.stacks, s) && PrimaryFits(c.services, s) && ServiceLinksResolve(c.services, s)
  {
    hide IsIdentifier, IsID, AreProperLabels, LabelsAccepted, AreProperLinks, LinksAccepted;
    IdentifierIs(s.id);
    LabelsAreProper(s.labels);
    LinksAreProper(s.links);
  }

  lemma CleanLinks(links: seq<string>)
    ensures forall l :: l in StrList(Elems(links)) <==> l in links
  {
    forall l ensures l in StrList(Elems(links)) <==> l in links {
      assert l in StrList(Elems(links)) <==> l in Elems(StrList(Elems(links)));
    }
  }

  /** Cleaning keeps what a reference looks at. */
  lemma CleanIn(services: seq<Service>, s: Service)
    requires s in services
    ensures CleanService(s) in CleanServices(services)
  {
    hide CleanService;
    var i :| 0 <= i < |services| && services[i] == s;
    assert CleanServices(services)[i] == CleanService(s);
  }

  lemma CleanFrom(services: seq<Service>, t: Service) returns (s: Service)
    requires t in CleanServices(services)
    ensures s in services && t == CleanService(s)
  {
    hide CleanService;
    var i :| 0 <= i < |services| && CleanServices(services)[i] == t;
    s := services[i];
  }

  lemma CleanServiceKeeps(s: Service)
    ensures var t := CleanService(s);
      && t.id == s.id && t.stackID == s.stackID && t.primaryServiceID == s.primaryServiceID
      && forall l :: l in t.links <==> l in s.links
  {
    CleanLinks(s.links);
    hide Lowered;
  }


  lemma PrimaryReference(services: seq<Service>, s: Service)
    ensures PrimaryFits(CleanServices(services), CleanService(s)) <==> PrimaryFits(services, s)
  {
    hide CleanService, CleanServices;
    CleanServiceKeeps(s);
    if PrimaryFits(services, s) && s.primaryServiceID != "" {
      var p :| p in services && p.id == s.primaryServiceID && p.id != s.id && p.stackID == s.stackID &&
        p.primaryServiceID == "";
      CleanIn(services, p);
      CleanServiceKeeps(p);
    }
    if PrimaryFits(CleanServices(services), CleanService(s)) && s.primaryServiceID != "" {
      var t :| t in CleanServices(services) && t.id == s.primaryServiceID && t.id != s.id && t.stackID == s.stackID &&
        t.primaryServiceID == "";
      var p := CleanFrom(services, t);
      CleanServiceKeeps(p);
    }
  }

  lemma ServiceIsCleaned(services: seq<Service>, id: string)
    ensures (exists t :: t in CleanServices(services) && t.id == id) <==> exists t :: t in services && t.id == id
  {
    hide CleanService, CleanServices;
    if t :| t in services && t.id == id {
      CleanIn(services, t);
      CleanServiceKeeps(t);
    }
    if t :| t in CleanServices(services) && t.id == id {
      var s := CleanFrom(services, t);
      CleanServiceKeeps(s);
    }
  }

  lemma ServiceReferences(services: seq<Service>, s: Service)
    ensures PrimaryFits(CleanServices(services), CleanService(s)) <==> PrimaryFits(services, s)
    ensures ServiceLinksResolve(CleanServices(services), CleanService(s)) <==> ServiceLinksResolve(services, s)
  {
    PrimaryReference(services, s);
    CleanServiceKeeps(s);
    hide CleanService, CleanServices, PrimaryFits;
    forall l | l in s.links
      ensures (exists t :: t in CleanServices(services) && t.id == l) <==> exists t :: t in services && t.id == l
    {
      ServiceIsCleaned(services, l);
    }
  }

  lemma ServicesResolve(services: seq<Service>)
    ensures ReferencesResolve(CleanServices(services)) <==>
      forall s :: s in services ==> PrimaryFits(services, s) && ServiceLinksResolve(services, s)
  {
    hide PrimaryFits, ServiceLinksResolve, CleanService, CleanServices;
    if ReferencesResolve(CleanServices(services)) {
      forall s | s in services ensures PrimaryFits(services, s) && ServiceLinksResolve(services, s) {
        CleanIn(services, s);
        ServiceReferences(services, s);
      }
    }
    if forall s :: s in services ==> PrimaryFits(services, s) && ServiceLinksResolve(services, s) {
      forall t | t in CleanServices(services)
        ensures PrimaryFits(CleanServices(services), t) && ServiceLinksResolve(CleanServices(services), t)
      {
        var s := CleanFrom(services, t);
        ServiceReferences(services, s);
      }
    }
  }

  lemma ServicesAsRead(c: Config)
    ensures ServicesAccepted(c.stacks, c.services) <==>
      && (forall s :: s in c.services ==> IsProperService(c, s))
      && (forall i, j :: 0 <= i < j < |c.services| ==> c.services[i].id != c.services[j].id)
  {
    hide IsProperService, ServiceAccepted, PrimaryFits, ServiceLinksResolve, CleanServices, ReferencesResolve;
    ServicesResolve(c.services);
    forall s ensures IsProperService(c, s) <==>
        ServiceAccepted(c.stacks, s) && PrimaryFits(c.services, s) && ServiceLinksResolve(c.services, s)
    {
      ProperService(c, s);
    }
  }

  lemma ProperLabelsLower(labels: LabelMap)
    requires LabelsAccepted(labels)
    ensures HasLowered(labels, Lowered(labels))
  {
    hide Lower, IsLabelKey, IsLabelText, IsLowered, HasLowered;
    ProperAreUnambiguous(labels);
    LoweredHasAll(labels, Lowered(labels));
  }

  lemma ProperAreUnambiguous(labels: LabelMap)
    requires LabelsAccepted(labels)
    ensures Unambiguous(labels)
  {
    hide Lower, IsLabelKey, IsLabelText;
  }

  lemma AgreeIsCompatible(w: LabelMap, s: LabelMap)
    requires LabelsAccepted(w) && LabelsAccepted(s)
    ensures AgreeOnLabels(w, s) <==> Compatible(Lowered(w), Lowered(s))
  {
    hide Lower, LabelsAccepted;
    ProperLabelsLower(w);
    ProperLabelsLower(s);
  }

  lemma CleanWorkloadKeeps(w: Workload)
    ensures var t := CleanWorkload(w);
      && t.id == w.id && t.hostID == w.hostID && t.stackID == w.stackID && t.serviceID == w.serviceID
      && t.labels == Lowered(w.labels) && forall l :: l in t.links <==> l in w.links
  {
    CleanLinks(w.links);
    hide Lowered;
  }

  lemma CleanServiceLabels(s: Service)
    ensures CleanService(s).labels == Lowered(s.labels)
  {
    hide Lowered;
  }

  lemma ServiceFitsAsRead(services: seq<Service>, w: Workload)
    requires LabelsAccepted(w.labels) && forall s :: s in services ==> LabelsAccepted(s.labels)
    ensures ServiceFits(CleanServices(services), CleanWorkload(w)) <==>
      (w.serviceID != "" ==>
        exists s :: s in services && s.id == w.serviceID && s.stackID == w.stackID && AgreeOnLabels(w.labels, s.labels))
  {
    hide CleanService, CleanServices, CleanWorkload, AgreeOnLabels, Compatible, LabelsAccepted, Lowered;
    CleanWorkloadKeeps(w);
    if ServiceFits(CleanServices(services), CleanWorkload(w)) && w.serviceID != "" {
      var t :| t in CleanServices(services) && t.id == w.serviceID && t.stackID == w.stackID &&
        Compatible(CleanWorkload(w).labels, t.labels);
      var s := CleanFrom(services, t);
      CleanServiceKeeps(s);
      CleanServiceLabels(s);
      AgreeIsCompatible(w.labels, s.labels);
    }
    if s :| s in services && s.id == w.serviceID && s.stackID == w.stackID && AgreeOnLabels(w.labels, s.labels) {
      CleanIn(services, s);
      CleanServiceKeeps(s);
      CleanServiceLabels(s);
      AgreeIsCompatible(w.labels, s.labels);
    }
  }

  lemma CleanWorkloadIn(ws: seq<Workload>, w: Workload)
    requires w in ws
    ensures CleanWorkload(w) in CleanWorkloads(ws)
  {
    hide CleanWorkload;
    var i :| 0 <= i < |ws| && ws[i] == w;
    assert CleanWorkloads(ws)[i] == CleanWorkload(w);
  }

  lemma CleanWorkloadFrom(ws: seq<Workload>, t: Workload) returns (w: Workload)
    requires t in CleanWorkloads(ws)
    ensures w in ws && t == CleanWorkload(w)
  {
    hide CleanWorkload;
    var i :| 0 <= i < |ws| && CleanWorkloads(ws)[i] == t;
    w := ws[i];
  }

  lemma WorkloadIsCleaned(ws: seq<Workload>, id: string)
    ensures (exists t :: t in CleanWorkloads(ws) && t.id == id) <==> exists t :: t in ws && t.id == id
  {
    hide CleanWorkload, CleanWorkloads, Lowered;
    if t :| t in ws && t.id == id {
      CleanWorkloadIn(ws, t);
      CleanWorkloadKeeps(t);
    }
    if t :| t in CleanWorkloads(ws) && t.id == id {
      var w := CleanWorkloadFrom(ws, t);
      CleanWorkloadKeeps(w);
    }
  }

  lemma WorkloadReferences(ws: seq<Workload>, w: Workload)
    ensures WorkloadLinksResolve(CleanWorkloads(ws), CleanWorkload(w)) <==> WorkloadLinksResolve(ws, w)
  {
    hide CleanWorkload, CleanWorkloads, Lowered;
    CleanWorkloadKeeps(w);
    forall l | l in w.links
      ensures (exists t :: t in CleanWorkloads(ws) && t.id == l) <==> exists t :: t in ws && t.id == l
    {
      WorkloadIsCleaned(ws, l);
    }
  }

  lemma WorkloadsResolve(ws: seq<Workload>)
    ensures WorkloadReferencesResolve(CleanWorkloads(ws)) <==> forall w :: w in ws ==> WorkloadLinksResolve(ws, w)
  {
    hide WorkloadLinksResolve, CleanWorkload, CleanWorkloads;
    if WorkloadReferencesResolve(CleanWorkloads(ws)) {
      forall w | w in ws ensures WorkloadLinksResolve(ws, w) {
        CleanWorkloadIn(ws, w);
        WorkloadReferences(ws, w);
      }
    }
    if forall w :: w in ws ==> WorkloadLinksResolve(ws, w) {
      forall t | t in CleanWorkloads(ws) ensures WorkloadLinksResolve(CleanWorkloads(ws), t) {
        var w := CleanWorkloadFrom(ws, t);
        WorkloadReferences(ws, w);
      }
    }
  }

  lemma ProperWorkload(c: Config, w: Workload)
    requires forall s :: s in c.services ==> LabelsAccepted(s.labels)
    ensures IsProperWorkload(c, w) <==>
      WorkloadAccepted(c.stacks, w) && ServiceFits(CleanServices(c.services), CleanWorkload(w)) &&
      WorkloadLinksResolve(c.workloads, w)
  {
    hide IsIdentifier, IsID, AreProperLabels, LabelsAccepted, AreProperLinks, LinksAccepted, ServiceFits,
      AgreeOnLabels, CleanServices,
      CleanWorkload;
    IdentifierIs(w.id);
    IdentifierIs(w.hostID);
    LabelsAreProper(w.labels);
    LinksAreProper(w.links);
    if LabelsAccepted(w.labels) { ServiceFitsAsRead(c.services, w); }
  }

  lemma WorkloadsAsRead(c: Config)
    requires forall s :: s in c.services ==> LabelsAccepted(s.labels)
    ensures WorkloadsAccepted(c.stacks, c.services, c.workloads) <==>
      && (forall w :: w in c.workloads ==> IsProperWorkload(c, w))
      && (forall i, j :: 0 <= i < j < |c.workloads| ==> c.workloads[i].id != c.workloads[j].id)
  {
    hide IsProperWorkload, WorkloadAccepted, ServiceFits, WorkloadLinksResolve, CleanServices, CleanWorkload,
      CleanWorkloads,
      LabelsAccepted, WorkloadReferencesResolve;
    WorkloadsResolve(c.workloads);
    forall w { ProperWorkload(c, w); }
  }

  lemma ServiceLabelsAccepted(c: Config)
    requires ServicesAccepted(c.stacks, c.services)
    ensures forall s :: s in c.services ==> LabelsAccepted(s.labels)
  {
    hide LabelsAccepted, LinksAccepted, IsID, ReferencesResolve, CleanServices;
  }

  lemma StacksAsRead(stacks: seq<Stack>)
    ensures StacksAccepted(stacks) <==>
      && (forall i :: 0 <= i < |stacks| ==> IsIdentifier(stacks[i].id))
      && (forall i, j :: 0 <= i < j < |stacks| ==> stacks[i].id != stacks[j].id)
  {
    hide IsIdentifier, IsID;
    forall i | 0 <= i < |stacks|
      ensures IsIdentifier(stacks[i].id) <==> IsID(stacks[i].id)
    {
      IdentifierIs(stacks[i].id);
    }
    assert forall i :: 0 <= i < |stacks| ==> stacks[i] in stacks;
  }

  /** normalize accepts exactly the acceptable documents. */
  lemma AcceptableIsAccepted(c: Config)
    ensures IsAcceptable(c) <==> Accepted(c)
  {
    hide IsIdentifier, IsID, IsProperService, IsProperWorkload, StacksAccepted, ServicesAccepted, WorkloadsAccepted,
      PolicyAccepted,
      IsNormalPolicyOf, LabelsAccepted;
    IdentifierIs(c.localHostID);
    StacksAsRead(c.stacks);
    ServicesAsRead(c);
    if ServicesAccepted(c.stacks, c.services) {
      ServiceLabelsAccepted(c);
      WorkloadsAsRead(c);
    }
    SomeNormalPolicy(c.policy);
  }

  // ---- the canonical form ----

  /** `t` says what `s` says: the same service with lower-cased labels and ascending links. */
  ghost predicate IsCanonicalService(s: Service, t: Service) {
    && t.id == s.id && t.stackID == s.stackID && t.primaryServiceID == s.primaryServiceID
    && HasLowered(s.labels, t.labels) && (forall l :: l in t.links <==> l in s.links) && Ascending(StrLess, t.links)
  }

  ghost predicate IsCanonicalWorkload(w: Workload, t: Workload) {
    && t.id == w.id && t.hostID == w.hostID && t.stackID == w.stackID && t.serviceID == w.serviceID
    && HasLowered(w.labels, t.labels) && (forall l :: l in t.links <==> l in w.links) && Ascending(StrLess, t.links)
  }

  /** Every submitted entity is there once and says the same, nothing else is there, and every
      list is in the order of identifiers. */
  ghost predicate IsCanonicalOf(n: Config, c: Config) {
    && n.schema == c.schema && n.localHostID == c.localHostID
    && AreCanonicalStacks(c.stacks, n.stacks) && AreCanonicalServices(c.services, n.services)
    && AreCanonicalWorkloads(c.workloads, n.workloads) && IsNormalPolicyOf(c.policy, n.policy)
  }

  ghost predicate AreCanonicalStacks(submitted: seq<Stack>, canonical: seq<Stack>) {
    && |canonical| == |submitted| && (forall s :: s in canonical <==> s in submitted)
    && forall i, j :: 0 <= i < j < |canonical| ==> StrLess(canonical[i].id, canonical[j].id)
  }

  ghost predicate AreCanonicalServices(submitted: seq<Service>, canonical: seq<Service>) {
    && |canonical| == |submitted|
    && (forall i, j :: 0 <= i < j < |canonical| ==> StrLess(canonical[i].id, canonical[j].id))
    && (forall s :: s in submitted ==> exists t :: t in canonical && IsCanonicalService(s, t))
    && (forall t :: t in canonical ==> exists s :: s in submitted && IsCanonicalService(s, t))
  }

  ghost predicate AreCanonicalWorkloads(submitted: seq<Workload>, canonical: seq<Workload>) {
    && |canonical| == |submitted|
    && (forall i, j :: 0 <= i < j < |canonical| ==> StrLess(canonical[i].id, canonical[j].id))
    && (forall w :: w in submitted ==> exists t :: t in canonical && IsCanonicalWorkload(w, t))
    && (forall t :: t in canonical ==> exists w :: w in submitted && IsCanonicalWorkload(w, t))
  }

  lemma CleanIsCanonical(s: Service)
    requires LabelsAccepted(s.labels)
    ensures IsCanonicalService(s, CleanService(s))
  {
    assert CleanService(s).links == StrList(Elems(s.links));
    hide CleanService, LabelsAccepted, HasLowered, StrLess;
    CleanServiceKeeps(s);
    CleanServiceLabels(s);
    ProperLabelsLower(s.labels);
  }

  lemma CleanWorkloadIsCanonical(w: Workload)
    requires LabelsAccepted(w.labels)
    ensures IsCanonicalWorkload(w, CleanWorkload(w))
  {
    assert CleanWorkload(w).links == StrList(Elems(w.links));
    hide CleanWorkload, LabelsAccepted, HasLowered, StrLess;
    CleanWorkloadKeeps(w);
    ProperLabelsLower(w.labels);
  }

  lemma SameInOrder<T(!new)>(id: T -> string, s: seq<T>, r: seq<T>)
    requires IsArranged(id, s, r)
    ensures |r| == |s| && (forall x :: x in r <==> x in s)
    ensures forall i, j :: 0 <= i < j < |r| ==> StrLess(id(r[i]), id(r[j]))
  {
    hide StrLess;
    assert |r| == |multiset(r)| == |multiset(s)| == |s|;
    forall x ensures x in r <==> x in s { assert (x in r <==> x in multiset(r)) && (x in s <==> x in multiset(s)); }
  }

  lemma ServicesAreCanonical(c: Config, services: seq<Service>)
    requires ServicesAccepted(c.stacks, c.services) && IsArranged(ServiceID, CleanServices(c.services), services)
    ensures AreCanonicalServices(c.services, services)
  {
    hide ServicesAccepted, IsArranged, CleanService, CleanServices, IsCanonicalService, LabelsAccepted, StrLess;
    ServiceLabelsAccepted(c);
    SameInOrder(ServiceID, CleanServices(c.services), services);
    forall s | s in c.services ensures exists t :: t in services && IsCanonicalService(s, t) {
      CleanIn(c.services, s);
      CleanIsCanonical(s);
    }
    forall t | t in services ensures exists s :: s in c.services && IsCanonicalService(s, t) {
      var s := CleanFrom(c.services, t);
      CleanIsCanonical(s);
    }
    assert forall i :: 0 <= i < |services| ==> ServiceID(services[i]) == services[i].id;
  }

  lemma WorkloadLabelsAccepted(c: Config)
    requires WorkloadsAccepted(c.stacks, c.services, c.workloads)
    ensures forall w :: w in c.workloads ==> LabelsAccepted(w.labels)
  {
    hide LabelsAccepted, LinksAccepted, IsID, ServiceFits, CleanServices, CleanWorkload, WorkloadReferencesResolve;
  }

  lemma WorkloadsAreCanonical(c: Config, workloads: seq<Workload>)
    requires WorkloadsAccepted(c.stacks, c.services, c.workloads)
    requires IsArranged(WorkloadID, CleanWorkloads(c.workloads), workloads)
    ensures AreCanonicalWorkloads(c.workloads, workloads)
  {
    hide WorkloadsAccepted, IsArranged, CleanWorkload, CleanWorkloads, IsCanonicalWorkload, LabelsAccepted, StrLess;
    WorkloadLabelsAccepted(c);
    SameInOrder(WorkloadID, CleanWorkloads(c.workloads), workloads);
    forall w | w in c.workloads ensures exists t :: t in workloads && IsCanonicalWorkload(w, t) {
      CleanWorkloadIn(c.workloads, w);
      CleanWorkloadIsCanonical(w);
    }
    forall t | t in workloads ensures exists w :: w in c.workloads && IsCanonicalWorkload(w, t) {
      var w := CleanWorkloadFrom(c.workloads, t);
      CleanWorkloadIsCanonical(w);
    }
    assert forall i :: 0 <= i < |workloads| ==> WorkloadID(workloads[i]) == workloads[i].id;
  }

  lemma StacksAreCanonical(c: seq<Stack>, n: seq<Stack>)
    requires IsArranged(StackID, c, n)
    ensures AreCanonicalStacks(c, n)
  {
    hide IsArranged, StrLess;
    SameInOrder(StackID, c, n);
    assert forall i :: 0 <= i < |n| ==> StackID(n[i]) == n[i].id;
  }

  /** The canonical form of an accepted document keeps all that was submitted. */
  lemma NormalFormKeeps(n: Config, c: Config)
    requires Accepted(c) && IsNormalFormOfConfig(n, c)
    ensures IsCanonicalOf(n, c)
  {
    hide IsID, StacksAccepted, ServicesAccepted, WorkloadsAccepted, PolicyAccepted, HasLocal, IsArranged,
      IsNormalFormOf,
      CleanServices, CleanWorkloads, AreCanonicalStacks, AreCanonicalServices, AreCanonicalWorkloads, IsNormalPolicyOf;
    StacksAreCanonical(c.stacks, n.stacks);
    ServicesAreCanonical(c, n.services);
    WorkloadsAreCanonical(c, n.workloads);
    PolicyAsRead(c.policy, n.policy);
  }
}
