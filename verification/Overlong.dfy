/** Inputs whose canonical selectors exceed the limit of the parser: the compiler refuses a
    policy that buildSnapshot normalised, and a normalised document is not accepted again. */
module Overlong {
  import opened Ordering
  import opened Text
  import opened Selector
  import opened SelectorLaws
  import opened Labels
  import opened Policy
  import opened Topology
  import opened Metadata
  import opened MetadataLaws
  import opened Example
  import D = Document

  // ---- the rule ----

  /** 1024 bytes, accepted. */
  function Tight(): string {
    TightText(LongClause())
  }

  /** What is printed for it: 1025 bytes. */
  function Canonical(): string {
    ClauseText(LongClause())
  }

  function DenyAmong(selector: string): Rule {
    Rule("", None, Some(selector), Some(selector), [], "deny")
  }

  lemma TextsAre()
    ensures ParseSelector(Tight()) == Some(Parsed(Canonical(), [LongClause()])) && ParseSelector(Canonical()).None?
  {
    hide ParseSelector, TightText, ClauseText, LongClause;
    TightTextIsAccepted();
  }

  lemma NoPorts()
    ensures NormalPorts([]) == Some([])
  {
    NormalPortsFixed([]);
  }

  lemma RuleIsLengthened()
    ensures NormalRule(DenyAmong(Tight())) == Some(DenyAmong(Canonical())) && IsNormalRule(DenyAmong(Canonical()))
    ensures NormalRule(DenyAmong(Canonical())).None? && ParseSelector(Canonical()).None?
  {
    TextsAre();
    hide ParseSelector, Tight, Canonical, IsNormalRule, NormalPorts, AreNormalPorts;
    assert NormalPorts([]) == Some([]) by { NoPorts(); }
    NormalRuleIs(DenyAmong(Tight()));
  }

  // ---- the live pipeline ----

  lemma OutcomeIsRefused(value: string)
    ensures !Accepted(Outcome(value, DenyAmong(Canonical())))
  {
    RuleIsLengthened();
    OutcomeWorkloads(value, DenyAmong(Canonical()));
    hide ParseSelector, Canonical, Apps, WorkloadsAccepted, NormalRule, IsNormalRule;
    var s := Outcome(value, DenyAmong(Canonical()));
    assert DenyAmong(Canonical()) in s.policy.rules && !RuleAccepted(s, DenyAmong(Canonical()));
  }

  /** An input with a known host for which buildSnapshot succeeds and every snapshot it may
      return is refused by the compiler. */
  lemma CompilerRefusesNormalPolicy()
    ensures exists s, input ::
      && IsSnapshotOf(s, input) && input.host != "" && !Accepted(s)
      && forall s2 :: IsSnapshotOf(s2, input) ==> !Accepted(s2)
  {
    hide IsSnapshotOf, Accepted, Outcome, NormalRule, IsNormalRule, DenyAmong;
    RuleIsLengthened();
    var input, s := ShopInput(DenyAmong(Tight())), Outcome("x", DenyAmong(Canonical()));
    assert input.host != "";
    OutcomeIsSnapshot("x", DenyAmong(Tight()), DenyAmong(Canonical()));
    OutcomeIsRefused("x");
    hide ShopInput;
    forall s2 | IsSnapshotOf(s2, input) ensures !Accepted(s2) { MetadataDeterminesAcceptance(s, s2, input); }
  }

  // ---- the audit document ----

  function TheStack(): D.Stack {
    D.Stack("k", false)
  }

  function TheWorkload(): D.Workload {
    D.Workload("w", "h", "k", "", map[], [])
  }

  function TheDocument(selector: string): D.Config {
    D.Config(D.INPUT_SCHEMA, "h", [TheStack()], [], [TheWorkload()], Policy("allow", [DenyAmong(selector)]))
  }

  lemma NothingToClean()
    ensures D.CleanWorkload(TheWorkload()) == TheWorkload()
  {
    assert IsLowered(map[], Lowered(map[]));
    assert Lowered(map[]) == map[];
    hide Lowered;
    assert Elems<string>([]) == {};
    StrListIs([]);
  }

  lemma OneOfEach()
    ensures D.CleanServices([]) == [] && D.CleanWorkloads([TheWorkload()]) == [TheWorkload()]
    ensures D.IsArranged(D.StackID, [TheStack()], [TheStack()])
    ensures D.IsArranged(D.ServiceID, [], [])
    ensures D.IsArranged(D.WorkloadID, [TheWorkload()], [TheWorkload()])
  {
    NothingToClean();
    hide D.CleanWorkload, TheWorkload, TheStack;
  }

  lemma PartsAreAccepted()
    ensures D.StacksAccepted([TheStack()]) && D.ServicesAccepted([TheStack()], [])
    ensures D.WorkloadsAccepted([TheStack()], [], [TheWorkload()]) && D.HasLocal([TheWorkload()], "h") && D.IsID("h")
  {
    OneOfEach();
    NothingToClean();
    hide D.CleanWorkload, D.CleanWorkloads, D.CleanServices;
    assert TheStack() in [TheStack()] && TheWorkload() in [TheWorkload()];
  }

  lemma PolicyIsLengthened()
    ensures var submitted, normal := Policy("allow", [DenyAmong(Tight())]), Policy("allow", [DenyAmong(Canonical())]);
      PolicyAccepted(submitted) && IsNormalFormOf(normal, submitted) && !PolicyAccepted(normal)
  {
    RuleIsLengthened();
    hide NormalRule, DenyAmong;
    assert DenyAmong(Canonical()) in [DenyAmong(Canonical())];
  }

  /** An accepted document whose canonical form is refused. */
  lemma NormalisingTwiceFails()
    ensures exists c, n :: D.Accepted(c) && D.IsNormalFormOfConfig(n, c) && !D.Accepted(n)
  {
    hide D.StacksAccepted, D.ServicesAccepted, D.WorkloadsAccepted, D.HasLocal, D.IsID, D.CleanWorkloads,
      D.CleanServices, D.IsArranged, PolicyAccepted, IsNormalFormOf, TheStack, TheWorkload, DenyAmong;
    OneOfEach();
    PartsAreAccepted();
    PolicyIsLengthened();
    assert D.Accepted(TheDocument(Tight()));
    assert D.IsNormalFormOfConfig(TheDocument(Canonical()), TheDocument(Tight()));
    assert !D.Accepted(TheDocument(Canonical()));
  }
}
