/** What Compile may return when some labels have several lower-cased forms: every call of
    MatchSelector lowers the labels anew, and may answer for any of them. */
module Choices {
  import opened Network
  import opened Firewall
  import opened Labels
  import opened Policy
  import opened Topology

  /** `chosen` are the workloads of `apps` for which the selector was answered with yes. */
  ghost predicate MayChoose(selector: string, apps: set<Workload>, chosen: set<Workload>) {
    chosen <= apps && forall w :: w in apps ==> MayAnswer(selector, w.labels, w in chosen)
  }

  /** The block of a selector used on both sides: one answer for each workload. */
  ghost predicate IsBetweenBlock(s: Snapshot, selector: string, chosen: set<Workload>, b: Block) {
    MayChoose(selector, Apps(s.workloads), chosen) && b == Block(Addrs(chosen), Addrs(OnHost(chosen, s.localHostID)))
  }

  /** The block of a directed rule: the sides are answered independently. */
  ghost predicate IsDirectedBlock(
    s: Snapshot, from: string, to: string, sources: set<Workload>, targets: set<Workload>, b: Block)
  {
    && MayChoose(from, Apps(s.workloads), sources) && MayChoose(to, LocalApps(s), targets)
    && b == Block(Addrs(sources), Addrs(targets))
  }

  predicate UsesSelector(rule: Rule) {
    rule.within == "" && rule.between.Some? && rule.between.value.selector != ""
  }

  predicate IsDirected(rule: Rule) {
    rule.within == "" && rule.between.None? && rule.from.Some? && rule.to.Some?
  }

  /** Blocks the compiler may emit for the rule. */
  ghost predicate MayEmit(s: Snapshot, rule: Rule, blocks: seq<Block>) {
    if UsesSelector(rule) then
      exists chosen, b :: blocks == [b] && IsBetweenBlock(s, rule.between.value.selector, chosen, b)
    else if IsDirected(rule) then
      exists sources, targets, b ::
        blocks == [b] && IsDirectedBlock(s, rule.from.value, rule.to.value, sources, targets, b)
    else blocks == RuleBlocks(s, rule)
  }

  ghost predicate MayEmitAll(s: Snapshot, rules: seq<Rule>, choices: seq<seq<Block>>) {
    |choices| == |rules| && forall i :: 0 <= i < |rules| ==> MayEmit(s, rules[i], choices[i])
  }

  ghost function EmitChosen(rules: seq<Rule>, choices: seq<seq<Block>>): seq<FirewallRule>
    requires |choices| == |rules|
  {
    if rules == [] then []
    else
      var n := |rules| - 1;
      EmitChosen(rules[..n], choices[..n]) + EmitAll(choices[n], rules[n].ports, rules[n].action)
  }

  /** How many rules emit nothing. */
  ghost function EmitNothing(rules: seq<Rule>, choices: seq<seq<Block>>): nat
    requires |choices| == |rules|
  {
    if rules == [] then 0
    else
      var n := |rules| - 1;
      EmitNothing(rules[..n], choices[..n]) +
        if EmitAll(choices[n], rules[n].ports, rules[n].action) == [] then 1 else 0
  }

  /** The plan that these choices lead to. */
  ghost function ChosenPlan(s: Snapshot, choices: seq<seq<Block>>): FirewallPlan
    requires IsPrefix4(s.subnet) && |choices| == |s.policy.rules|
  {
    var plan := FirewallPlan(
      Masked(s.subnet), Blank, s.policy.defaultAction,
      SystemRule(s) + EmitChosen(s.policy.rules, choices) + DefaultRule(s), |s.workloads|, |LocalApps(s)|,
      |s.policy.rules|, EmitNothing(s.policy.rules, choices), false);
    plan.(digest := DigestPlan(plan))
  }

  /** A plan Compile may return. */
  ghost predicate IsPossiblePlan(s: Snapshot, plan: FirewallPlan) {
    IsPrefix4(s.subnet) && exists choices :: MayEmitAll(s, s.policy.rules, choices) && plan == ChosenPlan(s, choices)
  }

  // ---- one more workload ----

  lemma ChooseNext(selector: string, apps: set<Workload>, chosen: set<Workload>, w: Workload, answer: bool)
    requires MayChoose(selector, apps, chosen) && MayAnswer(selector, w.labels, answer)
    ensures MayChoose(selector, apps + {w}, if answer then chosen + {w} else chosen)
  {
    hide MayAnswer;
  }

  lemma NobodyChosen(selector: string)
    ensures MayChoose(selector, {}, {})
  {
  }

  // ---- one more rule ----

  lemma {:induction false} EmitChosenNext(rules: seq<Rule>, choices: seq<seq<Block>>, i: nat, blocks: seq<Block>)
    requires i < |rules| && |choices| == i
    ensures EmitChosen(rules[..i + 1], choices + [blocks]) ==
      EmitChosen(rules[..i], choices) + EmitAll(blocks, rules[i].ports, rules[i].action)
    ensures EmitNothing(rules[..i + 1], choices + [blocks]) ==
      EmitNothing(rules[..i], choices) + if EmitAll(blocks, rules[i].ports, rules[i].action) == [] then 1 else 0
  {
    hide EmitAll;
    assert rules[..i + 1][..i] == rules[..i] && (choices + [blocks])[..i] == choices;
  }

  // ---- determined labels leave no choice ----

  lemma ChoiceIsDetermined(s: Snapshot, selector: string, apps: set<Workload>, chosen: set<Workload>)
    requires LabelsDetermined(s) && apps <= Apps(s.workloads) && MayChoose(selector, apps, chosen)
    ensures forall w :: w in chosen <==> w in apps && Selects(selector, w.labels)
  {
    hide MayAnswer, Selects, Unambiguous;
    forall w | w in apps ensures w in chosen <==> Selects(selector, w.labels) {
      assert w in Apps(s.workloads);
      AnswerIsDetermined(selector, w.labels, w in chosen);
    }
  }

  lemma BlockIsDetermined(s: Snapshot, selector: string, chosen: set<Workload>, b: Block)
    requires LabelsDetermined(s) && IsBetweenBlock(s, selector, chosen, b)
    ensures b == SelectorBlock(s, selector, selector)
  {
    hide Selects, LabelsDetermined, MayChoose, Addrs;
    ChoiceIsDetermined(s, selector, Apps(s.workloads), chosen);
    assert chosen == Selected(s.workloads, selector);
  }

  lemma DirectedIsDetermined(
    s: Snapshot, from: string, to: string, sources: set<Workload>, targets: set<Workload>, b: Block)
    requires LabelsDetermined(s) && IsDirectedBlock(s, from, to, sources, targets, b)
    ensures b == SelectorBlock(s, from, to)
  {
    hide Selects, LabelsDetermined, MayChoose, Addrs;
    ChoiceIsDetermined(s, from, Apps(s.workloads), sources);
    ChoiceIsDetermined(s, to, LocalApps(s), targets);
    assert sources == Selected(s.workloads, from);
    assert targets == OnHost(Selected(s.workloads, to), s.localHostID);
  }

  lemma EmissionIsDetermined(s: Snapshot, rule: Rule, blocks: seq<Block>)
    requires LabelsDetermined(s) && MayEmit(s, rule, blocks)
    ensures blocks == RuleBlocks(s, rule)
  {
    hide LabelsDetermined, IsBetweenBlock, IsDirectedBlock, SelectorBlock, WithinBlocks, KeyedBlocks;
    if UsesSelector(rule) {
      var chosen, b :| blocks == [b] && IsBetweenBlock(s, rule.between.value.selector, chosen, b);
      BlockIsDetermined(s, rule.between.value.selector, chosen, b);
    } else if IsDirected(rule) {
      var sources, targets, b :| blocks == [b] &&
        IsDirectedBlock(s, rule.from.value, rule.to.value, sources, targets, b);
      DirectedIsDetermined(s, rule.from.value, rule.to.value, sources, targets, b);
    }
  }

  lemma {:induction false} EmissionsAreDetermined(s: Snapshot, rules: seq<Rule>, choices: seq<seq<Block>>)
    requires LabelsDetermined(s) && MayEmitAll(s, rules, choices)
    ensures EmitChosen(rules, choices) == CompiledRules(s, rules) &&
      EmitNothing(rules, choices) == ZeroMatches(s, rules)
  {
    hide LabelsDetermined, MayEmit, EmitAll, RuleBlocks;
    if rules != [] {
      var n := |rules| - 1;
      EmissionsAreDetermined(s, rules[..n], choices[..n]);
      EmissionIsDetermined(s, rules[n], choices[n]);
    }
  }

  /** When labels are determined there is one possible plan. */
  lemma OnePossiblePlan(s: Snapshot, plan: FirewallPlan)
    requires LabelsDetermined(s) && IsPossiblePlan(s, plan)
    ensures plan == PlanOf(s)
  {
    hide LabelsDetermined, MayEmit, EmitChosen, EmitNothing, CompiledRules, ZeroMatches, SystemRule, DefaultRule,
      Masked;
    var choices :| MayEmitAll(s, s.policy.rules, choices) && plan == ChosenPlan(s, choices);
    EmissionsAreDetermined(s, s.policy.rules, choices);
  }
}
