/** One input whose plan, and whose verdict on a packet, depends on the order in which Go
    ranges over a label map: the server's labels `A` and `a` differ only by case. */
module LabelChoice {
  import opened Ordering
  import opened Text
  import opened Network
  import opened Firewall
  import opened Selector
  import opened SelectorLaws
  import opened Labels
  import opened Policy
  import opened Topology
  import opened Meaning
  import opened Metadata
  import opened MetadataLaws
  import opened Example

  // ---- the rule ----

  function DenyX(): Rule {
    Rule("", None, Some("a=x"), Some("a=x"), [], "deny")
  }

  /** From the client on its host to the server on this one. */
  function Request(): Packet {
    Packet(ClientAddress(), ServerAddress(), "tcp", 80, false)
  }

  function IsX(): Clause {
    Clause("a", "=", ["x"])
  }

  lemma SelectorIsRead()
    ensures ParseSelector("a=x") == Some(Parsed("a=x", [IsX()])) && Submitted("a=x") == Some([IsX()])
    ensures IsCanonicalSelector("a=x")
  {
    assert ValidClause(IsX());
    assert ([IsX()])[1..] == [] && ClauseText(IsX()) == "a=x";
    assert ValidSelector([IsX()]) && CanonicalText([IsX()]) == "a=x";
    PrintThenParse([IsX()]);
    hide Scan, ParseClause, Sort, ClauseText;
    assert multiset(Submitted("a=x").value) == multiset([IsX()]);
    OnlyOne(Submitted("a=x").value, IsX());
  }

  lemma OnlyOne<T>(s: seq<T>, x: T)
    requires multiset(s) == multiset([x])
    ensures s == [x]
  {
    assert |s| == |multiset(s)| == 1;
    assert s[0] in multiset(s);
  }

  lemma RuleIsNormal()
    ensures NormalRule(DenyX()) == Some(DenyX()) && IsNormalRule(DenyX())
  {
    SelectorIsRead();
    hide ParseSelector, IsCanonicalSelector, StrLess;
    assert IsNormalDirected(DenyX());
    NormalPortsFixed([]);
  }

  lemma LabelsAreLower(value: string)
    requires IsLower(value)
    ensures Lowered(map["a" := value]) == map["a" := value]
  {
    LowerOfLower("a");
    LowerOfLower(value);
    hide Lower, IsLowered, Unambiguous;
    LowerSingleton("a", value);
    LoweredAgree(map["a" := value], map["a" := value], Lowered(map["a" := value]));
  }

  lemma HoldsOfX(value: string)
    ensures Satisfies([IsX()], map["a" := value]) <==> value == "x"
  {
    assert IsX() in [IsX()];
    assert Holds(IsX(), map["a" := value]) <==> value == "x";
    hide Holds, IsX;
  }

  lemma XIsSelected(value: string)
    requires IsLower(value)
    ensures Selects("a=x", map["a" := value]) <==> value == "x"
  {
    hide Submitted, Lowered, ParseSelector, IsCanonicalSelector, Satisfies, IsX, IsLowered, Holds;
    SelectorIsRead();
    LabelsAreLower(value);
    HoldsOfX(value);
  }

  // ---- what the two snapshots decide ----

  lemma XRelates(value: string)
    requires value == "x" || value == "y"
    ensures Related(Outcome(value, DenyX()), DenyX(), ClientWorkload(), ServerWorkload(value)) <==> value == "x"
  {
    XIsSelected("x");
    XIsSelected(value);
    hide Selects;
  }

  lemma OutcomeApplies(value: string)
    requires value == "x" || value == "y"
    ensures Applies(Outcome(value, DenyX()), DenyX(), Request()) <==> value == "x"
  {
    var s := Outcome(value, DenyX());
    XRelates(value);
    OutcomeWorkloads(value, DenyX());
    assert DenyX().ports == [];
    hide Related, Apps, LocalApps, DenyX, Outcome;
    assert ClientWorkload() in Apps(s.workloads) && ServerWorkload(value) in LocalApps(s);
  }

  lemma OutcomeVerdict(value: string)
    requires value == "x" || value == "y"
    ensures Verdict(Outcome(value, DenyX()), Request()) == if value == "x" then "deny" else "allow"
  {
    var s := Outcome(value, DenyX());
    OutcomeApplies(value);
    OutcomeWorkloads(value, DenyX());
    hide Apps, LocalApps, Systems, Applies;
    assert FirstApplying(s, [DenyX()], Request()) == if value == "x" then Some("deny") else None by {
      assert ([DenyX()])[1..] == [];
    }
    assert ServerWorkload(value).ip in Addrs({ServerWorkload(value)}) && Addrs(Systems(s.workloads)) == {};
  }

  lemma OutcomeAccepted(value: string)
    ensures Accepted(Outcome(value, DenyX()))
  {
    SelectorIsRead();
    AddressesAreInside();
    OutcomeWorkloads(value, DenyX());
    hide ParseSelector, Submitted, Apps, LocalApps, Contains, IsPrefix4, Subnet;
    assert RuleAccepted(Outcome(value, DenyX()), DenyX());
  }

  lemma OutcomeIsNormal(value: string)
    ensures IsPrefix4(Outcome(value, DenyX()).subnet) && IsNormalPolicy(Outcome(value, DenyX()).policy)
  {
    RuleIsNormal();
    AddressesAreInside();
    hide IsNormalRule, Subnet, IsPrefix4, DenyX;
  }

  lemma OutcomeCompiles(value: string)
    requires value == "x" || value == "y"
    ensures IsPrefix4(Outcome(value, DenyX()).subnet)
    ensures Decide(PlanOf(Outcome(value, DenyX())), Request()) == if value == "x" then "deny" else "allow"
  {
    hide IsNormalPolicy, Verdict, PlanOf, Decide, Outcome, IsPrefix4, Request, DenyX;
    OutcomeIsNormal(value);
    OutcomeVerdict(value);
    CompilationPreservesMeaning(Outcome(value, DenyX()), Request());
  }

  /** One input, two snapshots buildSnapshot may return, and a packet from another host that
      the plan compiled from one drops and the plan compiled from the other lets pass. */
  lemma LabelOrderChangesVerdict()
    ensures exists s1, s2 ::
      IsSnapshotOf(s1, ShopInput(DenyX())) && IsSnapshotOf(s2, ShopInput(DenyX())) && Accepted(s1) && Accepted(s2) &&
      PlanOf(s1) != PlanOf(s2) && Decide(PlanOf(s1), Request()) == "deny" && Decide(PlanOf(s2), Request()) == "allow"
  {
    hide IsSnapshotOf, RuleAccepted, WorkloadsAccepted, PlanOf, Decide, Request, Outcome, NormalRule, IsNormalRule;
    var s1, s2 := Outcome("x", DenyX()), Outcome("y", DenyX());
    RuleIsNormal();
    OutcomeIsSnapshot("x", DenyX(), DenyX());
    OutcomeIsSnapshot("y", DenyX(), DenyX());
    hide DenyX, ShopInput;
    OutcomeAccepted("x");
    OutcomeAccepted("y");
    OutcomeCompiles("x");
    OutcomeCompiles("y");
    assert PlanOf(s1) != PlanOf(s2);
  }

  /** So the labels of the server do not have one outcome. */
  lemma TwinsAreNotFixed()
    ensures IsSelected(ShopInput(DenyX()).networks, Report(DenyX()))
    ensures IsCandidate(Report(DenyX())) && ServicesAccepted(ShopInput(DenyX()).stacks)
    ensures !LabelsFixed(ContextOf(Report(DenyX()), ShopInput(DenyX()).stacks))
  {
    hide IsSnapshotOf, ContextOf, RuleAccepted, WorkloadsAccepted, PlanOf, LabelsFixed, VariantsAccepted, VariantsMerge,
      LabelsDetermined, Report, Shop, Decide, Request, IsCandidate, IsSelected, DenyX;
    LabelOrderChangesVerdict();
    var input := ShopInput(DenyX());
    var s1, s2 :| IsSnapshotOf(s1, input) && IsSnapshotOf(s2, input) && Accepted(s1) && Accepted(s2) &&
      PlanOf(s1) != PlanOf(s2);
    ReportIsSelected(DenyX());
    MetadataDeterminesPlan(s1, s2, input, Report(DenyX()));
  }
}
