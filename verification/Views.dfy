/** Merging the redundant views of one container. */
module Views {
  import opened Ordering
  import opened Text
  import opened Labels

  datatype View = View(
    uuid: string, hostUUID: string, stackUUID: string, serviceUUID: string, networkUUID: string,
    primaryIP: string, state: string, system: bool, labels: LabelMap, links: seq<string>)

  /** The identity fields the merge reconciles. */
  function Fields(v: View): (r: seq<string>)
    ensures |r| == 5
  {
    [v.hostUUID, v.stackUUID, v.serviceUUID, v.networkUUID, v.primaryIP]
  }

  function WithFields(v: View, fields: seq<string>): View
    requires |fields| == 5
  {
    v.(hostUUID := fields[0], stackUUID := fields[1], serviceUUID := fields[2], networkUUID := fields[3],
       primaryIP := fields[4])
  }

  /** appendUnique */
  method AppendUnique(values: seq<string>, value: string) returns (r: seq<string>)
    ensures r == if value in values then values else values + [value]
  {
    for i := 0 to |values|
      invariant value !in values[..i]
    {
      if values[i] == value { return values; }
    }
    return values + [value];
  }

  // ---- the merge of two views ----

  predicate FieldsAgree(a: View, b: View) {
    forall i :: 0 <= i < 5 ==> Fields(a)[i] == "" || Fields(b)[i] == "" || Fields(a)[i] == Fields(b)[i]
  }

  predicate LabelsAgree(a: View, b: View) {
    forall k :: k in a.labels && k in b.labels ==> a.labels[k] == b.labels[k]
  }

  predicate Agree(a: View, b: View) {
    FieldsAgree(a, b) && LabelsAgree(a, b)
  }

  function JoinedFields(a: View, b: View): (r: seq<string>)
    ensures |r| == 5
    ensures forall i :: 0 <= i < 5 ==> r[i] == if Fields(a)[i] == "" then Fields(b)[i] else Fields(a)[i]
  {
    seq(5, i requires 0 <= i < 5 => if Fields(a)[i] == "" then Fields(b)[i] else Fields(a)[i])
  }

  function JoinedLinks(existing: seq<string>, more: seq<string>): seq<string> {
    if more == [] then existing
    else
      var front, last := JoinedLinks(existing, more[..|more| - 1]), more[|more| - 1];
      if last == "" || last in front then front else front + [last]
  }

  /** The merged view of two that agree. */
  function Merged(a: View, b: View): View {
    WithFields(a, JoinedFields(a, b)).(
      state := if a.state == "" || b.state == "running" then b.state else a.state,
      system := a.system || b.system,
      labels := a.labels + b.labels,
      links := Sort(StrLess, JoinedLinks(a.links, b.links)))
  }

  /** The field loop of mergeContainerViews. */
  method MergeFields(existing: View, candidate: View) returns (r: Option<seq<string>>)
    ensures r == if FieldsAgree(existing, candidate) then Some(JoinedFields(existing, candidate)) else None
  {
    var fields := Fields(existing);
    for i := 0 to 5
      invariant |fields| == 5
      invariant forall k :: 0 <= k < i ==>
        (Fields(existing)[k] == "" || Fields(candidate)[k] == "" || Fields(existing)[k] == Fields(candidate)[k])
      invariant forall k :: 0 <= k < i ==> fields[k] == JoinedFields(existing, candidate)[k]
      invariant forall k :: i <= k < 5 ==> fields[k] == Fields(existing)[k]
    {
      var value := Fields(candidate)[i];
      if fields[i] == "" {
        fields := fields[i := value];
      } else if value != "" && fields[i] != value {
        return None;
      }
    }
    assert fields == JoinedFields(existing, candidate);
    return Some(fields);
  }

  /** The label loop, over a Go map. */
  method MergeLabels(existing: LabelMap, candidate: LabelMap) returns (r: Option<LabelMap>)
    ensures r == if forall k :: k in existing && k in candidate ==> existing[k] == candidate[k]
                 then Some(existing + candidate) else None
  {
    var labels := existing;
    var todo := candidate.Keys;
    while todo != {}
      invariant todo <= candidate.Keys
      invariant forall k :: k in existing && k in candidate && k !in todo ==> existing[k] == candidate[k]
      invariant labels == existing + (map k | k in candidate && k !in todo :: candidate[k])
    {
      var key :| key in todo;
      if key in labels && labels[key] != candidate[key] { return None; }
      labels := labels[key := candidate[key]];
      todo := todo - {key};
    }
    assert (map k | k in candidate && k !in todo :: candidate[k]) == candidate;
    return Some(labels);
  }

  /** Two views of one container have no two values for a field or a label. */
  ghost predicate NoContradiction(v: View, w: View) {
    && (v.hostUUID == "" || w.hostUUID == "" || v.hostUUID == w.hostUUID)
    && (v.stackUUID == "" || w.stackUUID == "" || v.stackUUID == w.stackUUID)
    && (v.serviceUUID == "" || w.serviceUUID == "" || v.serviceUUID == w.serviceUUID)
    && (v.networkUUID == "" || w.networkUUID == "" || v.networkUUID == w.networkUUID)
    && (v.primaryIP == "" || w.primaryIP == "" || v.primaryIP == w.primaryIP)
    && forall k :: k in v.labels && k in w.labels ==> v.labels[k] == w.labels[k]
  }

  /** What the merge of two views says, field by field: what the first says, or else the second;
      the labels of both; the links of both, sorted. */
  ghost predicate IsMergeOf(v: View, w: View, r: View) {
    && r.uuid == v.uuid
    && r.hostUUID == (if v.hostUUID == "" then w.hostUUID else v.hostUUID)
    && r.stackUUID == (if v.stackUUID == "" then w.stackUUID else v.stackUUID)
    && r.serviceUUID == (if v.serviceUUID == "" then w.serviceUUID else v.serviceUUID)
    && r.networkUUID == (if v.networkUUID == "" then w.networkUUID else v.networkUUID)
    && r.primaryIP == (if v.primaryIP == "" then w.primaryIP else v.primaryIP)
    && r.state == (if w.state == "running" || v.state == "" then w.state else v.state)
    && (r.system <==> v.system || w.system)
    && (forall k :: k in r.labels <==> k in v.labels || k in w.labels)
    && (forall k :: k in v.labels ==> r.labels[k] == v.labels[k])
    && (forall k :: k in w.labels ==> r.labels[k] == w.labels[k])
    && Sorted(StrLess, r.links) && (forall l :: l != "" ==> (l in r.links <==> l in v.links || l in w.links))
  }

  lemma AgreeIs()
    ensures forall v, w :: Agree(v, w) <==> NoContradiction(v, w)
  {
    forall v: View, w: View ensures Agree(v, w) <==> NoContradiction(v, w) {
      var a, b := Fields(v), Fields(w);
      assert a == [v.hostUUID, v.stackUUID, v.serviceUUID, v.networkUUID, v.primaryIP];
      assert b == [w.hostUUID, w.stackUUID, w.serviceUUID, w.networkUUID, w.primaryIP];
      hide Fields;
      if FieldsAgree(v, w) {
        assert a[0] == "" || b[0] == "" || a[0] == b[0];
        assert a[1] == "" || b[1] == "" || a[1] == b[1];
        assert a[2] == "" || b[2] == "" || a[2] == b[2];
        assert a[3] == "" || b[3] == "" || a[3] == b[3];
        assert a[4] == "" || b[4] == "" || a[4] == b[4];
      }
    }
  }

  lemma SortedLinks(existing: seq<string>, more: seq<string>)
    ensures var r := Sort(StrLess, JoinedLinks(existing, more));
      Sorted(StrLess, r) && forall l :: l != "" ==> (l in r <==> l in existing || l in more)
  {
    var links := JoinedLinks(existing, more);
    StringsAreOrdered();
    SortSorts(StrLess, links);
    MultisetElems(Sort(StrLess, links), links);
    forall l | l != "" ensures l in Sort(StrLess, links) <==> l in existing || l in more {
      JoinedLinksAre(existing, more, l);
      assert (l in links <==> l in Elems(links)) && (l in Sort(StrLess, links) <==> l in Elems(Sort(StrLess, links)));
    }
  }

  lemma MergedIs(v: View, w: View)
    requires Agree(v, w)
    ensures IsMergeOf(v, w, Merged(v, w))
  {
    SortedLinks(v.links, w.links);
    hide Sort, JoinedLinks, StrLess, Sorted;
    var a, b := Fields(v), Fields(w);
    assert a == [v.hostUUID, v.stackUUID, v.serviceUUID, v.networkUUID, v.primaryIP];
    assert b == [w.hostUUID, w.stackUUID, w.serviceUUID, w.networkUUID, w.primaryIP];
  }

  /** mergeContainerViews */
  method MergeContainerViews(existing: View, candidate: View) returns (r: Option<View>)
    ensures r.Some? <==> NoContradiction(existing, candidate)
    ensures r.Some? ==> IsMergeOf(existing, candidate, r.value)
    ensures r == if Agree(existing, candidate) then Some(Merged(existing, candidate)) else None
  {
    hide StrLess, Sort, NoContradiction, IsMergeOf;
    AgreeIs();
    var fields := MergeFields(existing, candidate);
    if fields.None? { return None; }
    var merged := WithFields(existing, fields.value);
    if merged.state == "" || candidate.state == "running" {
      merged := merged.(state := candidate.state);
    }
    merged := merged.(system := merged.system || candidate.system);
    var labels := MergeLabels(merged.labels, candidate.labels);
    if labels.None? { return None; }
    merged := merged.(labels := labels.value);
    var links := existing.links;
    for i := 0 to |candidate.links|
      invariant links == JoinedLinks(existing.links, candidate.links[..i])
    {
      assert candidate.links[..i + 1][..i] == candidate.links[..i];
      if candidate.links[i] != "" {
        links := AppendUnique(links, candidate.links[i]);
      }
    }
    assert candidate.links[..|candidate.links|] == candidate.links;
    MergedIs(existing, candidate);
    return Some(merged.(links := Sort(StrLess, links)));
  }

  // ---- folding the views of one container ----

  /** The views of a container merged one after the other, as canonicalizeServiceVariants
      meets them. */
  function Fold(views: seq<View>): Option<View>
    requires views != []
  {
    if |views| == 1 then Some(views[0])
    else
      var front, last := Fold(views[..|views| - 1]), views[|views| - 1];
      if front.Some? && Agree(front.value, last) then Some(Merged(front.value, last)) else None
  }

  /** No two views contradict each other. */
  ghost predicate Consistent(views: set<View>) {
    forall v, w :: v in views && w in views ==> Agree(v, w)
  }

  /** `r` is the join of the views: the one non-empty value of every field, the union of
      labels and of non-empty links, the disjunction of `system`, and running when one is. */
  ghost predicate IsJoin(views: set<View>, r: View) {
    && (forall i, v :: 0 <= i < 5 && v in views ==> Fields(v)[i] == "" || Fields(v)[i] == Fields(r)[i])
    && (forall i :: 0 <= i < 5 ==> Fields(r)[i] == "" || exists v :: v in views && Fields(v)[i] == Fields(r)[i])
    && (forall v, k :: v in views && k in v.labels ==> k in r.labels && r.labels[k] == v.labels[k])
    && (forall k :: k in r.labels ==> exists v :: v in views && k in v.labels)
    && (r.system <==> exists v :: v in views && v.system)
    && (r.state == "running" <==> exists v :: v in views && v.state == "running")
    && (forall l :: l != "" ==> (l in r.links <==> exists v :: v in views && l in v.links))
  }

  lemma {:induction false} JoinedLinksAre(existing: seq<string>, more: seq<string>, l: string)
    requires l != ""
    ensures l in JoinedLinks(existing, more) <==> l in existing || l in more
  {
    if more != [] {
      JoinedLinksAre(existing, more[..|more| - 1], l);
      assert more == more[..|more| - 1] + [more[|more| - 1]];
    }
  }

  lemma MergedLinks(a: View, b: View, l: string)
    requires l != ""
    ensures l in Merged(a, b).links <==> l in a.links || l in b.links
  {
    var joined := JoinedLinks(a.links, b.links);
    JoinedLinksAre(a.links, b.links, l);
    MultisetElems(Sort(StrLess, joined), joined);
    assert l in Sort(StrLess, joined) <==> l in Elems(Sort(StrLess, joined));
    assert l in joined <==> l in Elems(joined);
    hide StrLess, Sort;
  }

  lemma AgreesWithJoin(views: set<View>, r: View, v: View)
    requires IsJoin(views, r)
    ensures Agree(r, v) <==> forall w :: w in views ==> Agree(w, v)
  {
    hide Fields;
    if Agree(r, v) {
      forall w | w in views ensures FieldsAgree(w, v) {
        forall i | 0 <= i < 5 ensures Fields(w)[i] == "" || Fields(v)[i] == "" || Fields(w)[i] == Fields(v)[i] {
          assert Fields(w)[i] == "" || Fields(w)[i] == Fields(r)[i];
        }
      }
      forall w | w in views ensures LabelsAgree(w, v) { }
    }
    if forall w :: w in views ==> Agree(w, v) {
      forall i | 0 <= i < 5 ensures Fields(r)[i] == "" || Fields(v)[i] == "" || Fields(r)[i] == Fields(v)[i] {
        if Fields(r)[i] != "" {
          var w :| w in views && Fields(w)[i] == Fields(r)[i];
          assert Agree(w, v);
        }
      }
      forall k | k in r.labels && k in v.labels ensures r.labels[k] == v.labels[k] {
        var w :| w in views && k in w.labels;
        assert Agree(w, v);
      }
    }
  }

  lemma JoinFields(views: set<View>, r: View, v: View)
    requires IsJoin(views, r) && Agree(r, v)
    ensures var m := Merged(r, v);
      && (forall i, w :: 0 <= i < 5 && w in views + {v} ==> Fields(w)[i] == "" || Fields(w)[i] == Fields(m)[i])
      && (forall i :: 0 <= i < 5 ==> Fields(m)[i] == "" || exists w :: w in views + {v} && Fields(w)[i] == Fields(m)[i])
  {
    var m := Merged(r, v);
    assert Fields(m) == JoinedFields(r, v);
    hide Fields, JoinedFields, Merged, LabelsAgree;
    forall i, w | 0 <= i < 5 && w in views + {v} ensures Fields(w)[i] == "" || Fields(w)[i] == Fields(m)[i] {
      assert w == v || Fields(w)[i] == "" || Fields(w)[i] == Fields(r)[i];
    }
    forall i | 0 <= i < 5 ensures Fields(m)[i] == "" || exists w :: w in views + {v} && Fields(w)[i] == Fields(m)[i] {
      if Fields(r)[i] != "" {
        var w :| w in views && Fields(w)[i] == Fields(r)[i];
        assert w in views + {v};
      } else {
        assert v in views + {v};
      }
    }
  }

  lemma JoinLabels(views: set<View>, r: View, v: View)
    requires IsJoin(views, r) && LabelsAgree(r, v)
    ensures forall w, k :: w in views + {v} && k in w.labels ==>
      k in (r.labels + v.labels) && (r.labels + v.labels)[k] == w.labels[k]
    ensures forall k :: k in (r.labels + v.labels) ==> exists w :: w in views + {v} && k in w.labels
  {
    hide Fields;
    var all := views + {v};
    assert v in all && forall w :: w in views ==> w in all;
    forall k | k in r.labels + v.labels ensures exists w :: w in all && k in w.labels {
      if k !in v.labels {
        var w :| w in views && k in w.labels;
        assert w in all;
      }
    }
  }

  lemma JoinFlags(views: set<View>, r: View, v: View)
    requires IsJoin(views, r)
    ensures r.system || v.system <==> exists w :: w in views + {v} && w.system
    ensures r.state == "running" || v.state == "running" <==> exists w :: w in views + {v} && w.state == "running"
  {
    hide Fields;
    var all := views + {v};
    assert v in all && forall w :: w in views ==> w in all;
    if r.system { var w :| w in views && w.system; assert w in all; }
    if r.state == "running" { var w :| w in views && w.state == "running"; assert w in all; }
  }

  lemma MergedParts(r: View, v: View)
    ensures var m := Merged(r, v);
      && m.labels == r.labels + v.labels && m.system == (r.system || v.system)
      && (m.state == "running" <==> r.state == "running" || v.state == "running")
  {
    hide JoinedFields, JoinedLinks, Sort;
  }

  lemma JoinLinks(views: set<View>, r: View, v: View)
    requires IsJoin(views, r)
    ensures forall l :: l != "" ==> (l in Merged(r, v).links <==> exists w :: w in views + {v} && l in w.links)
  {
    hide Merged;
    var all := views + {v};
    assert v in all && forall w :: w in views ==> w in all;
    forall l | l != "" ensures l in Merged(r, v).links <==> exists w :: w in all && l in w.links {
      MergedLinks(r, v, l);
      if l in r.links { var w :| w in views && l in w.links; assert w in all; }
    }
  }

  lemma JoinNext(views: set<View>, r: View, v: View)
    requires IsJoin(views, r) && Agree(r, v)
    ensures IsJoin(views + {v}, Merged(r, v))
  {
    hide Fields, Merged, Agree;
    JoinFields(views, r, v);
    AgreeParts(r, v);
    JoinLabels(views, r, v);
    JoinFlags(views, r, v);
    MergedParts(r, v);
    JoinLinks(views, r, v);
  }

  lemma AgreeParts(r: View, v: View)
    requires Agree(r, v)
    ensures LabelsAgree(r, v)
  {
  }

  lemma JoinOfOne(v: View)
    ensures IsJoin({v}, v) && Agree(v, v)
  {
    assert v in {v};
  }

  lemma AgreeIsSymmetric(v: View, w: View)
    ensures Agree(v, w) <==> Agree(w, v)
  {
    hide Fields;
  }

  lemma ConsistentNext(views: set<View>, v: View)
    ensures Consistent(views + {v}) <==> Consistent(views) && forall w :: w in views ==> Agree(w, v)
  {
    JoinOfOne(v);
    forall w { AgreeIsSymmetric(v, w); }
    hide Agree;
  }

  /** Folding succeeds exactly when no two views contradict each other, and then gives
      their join: both are properties of the set of views, not of their order. */
  lemma {:induction false} FoldIsJoin(views: seq<View>)
    requires views != []
    ensures Fold(views).Some? <==> Consistent(Elems(views))
    ensures Fold(views).Some? ==> IsJoin(Elems(views), Fold(views).value)
  {
    hide Agree, IsJoin, Merged, Consistent;
    if |views| == 1 {
      JoinOfOne(views[0]);
      assert Elems(views) == {} + {views[0]} == {views[0]};
      ConsistentNext({}, views[0]);
      assert Consistent({}) by { NoneInconsistent(); }
    } else {
      var front, last := views[..|views| - 1], views[|views| - 1];
      assert views == front + [last];
      assert Elems(views) == Elems(front) + {last};
      FoldIsJoin(front);
      ConsistentNext(Elems(front), last);
      if Fold(front).Some? {
        AgreesWithJoin(Elems(front), Fold(front).value, last);
        if Agree(Fold(front).value, last) { JoinNext(Elems(front), Fold(front).value, last); }
      }
    }
  }

  lemma NoneInconsistent()
    ensures Consistent({})
  {
  }

  /** What later stages can tell about a merged view of one container: MetadataOrder shows that
      workloads and links depend on nothing else. */
  ghost predicate SameView(a: View, b: View) {
    && Fields(a) == Fields(b) && a.labels == b.labels && a.system == b.system
    && (a.state == "running" <==> b.state == "running")
    && forall l :: l != "" ==> (l in a.links <==> l in b.links)
  }

  /** Any two orders of the same views are both rejected or merge to the same view. */
  lemma MergeIsOrderIndependent(a: seq<View>, b: seq<View>)
    requires a != [] && b != [] && Elems(a) == Elems(b)
    ensures Fold(a).Some? <==> Fold(b).Some?
    ensures Fold(a).Some? ==> SameView(Fold(a).value, Fold(b).value)
  {
    FoldIsJoin(a);
    FoldIsJoin(b);
    if Fold(a).Some? {
      var r, s := Fold(a).value, Fold(b).value;
      JoinIsUnique(Elems(a), r, s);
    }
  }

  lemma JoinIsUnique(views: set<View>, r: View, s: View)
    requires IsJoin(views, r) && IsJoin(views, s)
    ensures SameView(r, s)
  {
    forall i | 0 <= i < 5 ensures Fields(r)[i] == Fields(s)[i] {
      if Fields(r)[i] != "" { var v :| v in views && Fields(v)[i] == Fields(r)[i]; }
      if Fields(s)[i] != "" { var v :| v in views && Fields(v)[i] == Fields(s)[i]; }
    }
    assert r.labels.Keys == s.labels.Keys;
    hide Fields;
  }
}
