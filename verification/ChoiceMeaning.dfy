/** What the possible plans of Compile decide: each one what the policy says, read directly
    under the answers of MatchSelector that it was compiled from. */
module ChoiceMeaning {
  import opened Text
  import opened Network
  import opened Firewall
  import opened Policy
  import opened Topology
  import opened Meaning
  import opened Choices

  // ---- the direct reading under given answers ----

  /** The workloads for which the selectors of one rule were answered with yes, as sources and
      as local targets. */
  datatype Answers = Answers(sources: set<Workload>, targets: set<Workload>)

  /** The labels allow these answers. A selector between workloads is answered once for each. */
  ghost predicate AreAllowed(s: Snapshot, rule: Rule, a: Answers) {
    if UsesSelector(rule) then
      MayChoose(rule.between.value.selector, Apps(s.workloads), a.sources) &&
        a.targets == OnHost(a.sources, s.localHostID)
    else if IsDirected(rule) then
      MayChoose(rule.from.value, Apps(s.workloads), a.sources) && MayChoose(rule.to.value, LocalApps(s), a.targets)
    else a == Answers({}, {})
  }

  ghost predicate AllAllowed(s: Snapshot, rules: seq<Rule>, answers: seq<Answers>) {
    |answers| == |rules| && forall i :: 0 <= i < |rules| ==> AreAllowed(s, rules[i], answers[i])
  }

  /** As Related, with the answers for the selectors. */
  ghost predicate RelatedUnder(s: Snapshot, rule: Rule, a: Answers, w: Workload, v: Workload) {
    if UsesSelector(rule) || IsDirected(rule) then w in a.sources && v in a.targets else Related(s, rule, w, v)
  }

  ghost predicate RelatesUnder(s: Snapshot, rule: Rule, a: Answers, src: Addr, dst: Addr) {
    exists w, v ::
      w in Apps(s.workloads) && v in LocalApps(s) && w.ip == src && v.ip == dst && RelatedUnder(s, rule, a, w, v)
  }

  ghost predicate AppliesUnder(s: Snapshot, rule: Rule, a: Answers, pkt: Packet) {
    RelatesUnder(s, rule, a, pkt.src, pkt.dst) && PortsAdmit(rule.ports, pkt)
  }

  ghost function FirstUnder(s: Snapshot, rules: seq<Rule>, answers: seq<Answers>, pkt: Packet): Option<string>
    requires |answers| == |rules|
  {
    if rules == [] then None
    else if AppliesUnder(s, rules[0], answers[0], pkt) then Some(rules[0].action)
    else FirstUnder(s, rules[1..], answers[1..], pkt)
  }

  /** As Verdict, with the answers for the selectors. */
  ghost function VerdictUnder(s: Snapshot, answers: seq<Answers>, pkt: Packet): string
    requires |answers| == |s.policy.rules|
  {
    if pkt.src in Addrs(Systems(s.workloads)) then "allow"
    else
      var first := FirstUnder(s, s.policy.rules, answers, pkt);
      if first.Some? then first.value
      else if pkt.dst in Addrs(LocalApps(s)) then s.policy.defaultAction
      else "allow"
  }

  // ---- answers and blocks ----

  ghost function BlocksUnder(s: Snapshot, rule: Rule, a: Answers): seq<Block> {
    if UsesSelector(rule) || IsDirected(rule) then [Block(Addrs(a.sources), Addrs(a.targets))] else RuleBlocks(s, rule)
  }

  ghost function AllBlocksUnder(s: Snapshot, rules: seq<Rule>, answers: seq<Answers>): (r: seq<seq<Block>>)
    requires |answers| == |rules|
    ensures |r| == |rules| && forall i :: 0 <= i < |rules| ==> r[i] == BlocksUnder(s, rules[i], answers[i])
  {
    seq(|rules|, i requires 0 <= i < |rules| => BlocksUnder(s, rules[i], answers[i]))
  }

  /** The blocks a rule may emit are those of the answers the labels allow. */
  lemma EmissionsAreAnswers(s: Snapshot, rule: Rule, blocks: seq<Block>)
    ensures MayEmit(s, rule, blocks) <==> exists a :: AreAllowed(s, rule, a) && blocks == BlocksUnder(s, rule, a)
  {
    hide MayChoose, Addrs, OnHost, LocalApps, Apps, RuleBlocks;
    if MayEmit(s, rule, blocks) {
      if UsesSelector(rule) {
        var chosen, b :| blocks == [b] && IsBetweenBlock(s, rule.between.value.selector, chosen, b);
        var a := Answers(chosen, OnHost(chosen, s.localHostID));
        assert AreAllowed(s, rule, a) && blocks == BlocksUnder(s, rule, a);
      } else if IsDirected(rule) {
        var sources, targets, b :| blocks == [b] &&
          IsDirectedBlock(s, rule.from.value, rule.to.value, sources, targets, b);
        var a := Answers(sources, targets);
        assert AreAllowed(s, rule, a) && blocks == BlocksUnder(s, rule, a);
      } else {
        assert AreAllowed(s, rule, Answers({}, {})) && blocks == BlocksUnder(s, rule, Answers({}, {}));
      }
    }
    if a :| AreAllowed(s, rule, a) && blocks == BlocksUnder(s, rule, a) { AnswersEmit(s, rule, a); }
  }

  lemma AnswersEmit(s: Snapshot, rule: Rule, a: Answers)
    requires AreAllowed(s, rule, a)
    ensures MayEmit(s, rule, BlocksUnder(s, rule, a))
  {
    hide MayChoose, Addrs, OnHost, LocalApps, Apps, RuleBlocks;
    var b := Block(Addrs(a.sources), Addrs(a.targets));
    if UsesSelector(rule) {
      assert IsBetweenBlock(s, rule.between.value.selector, a.sources, b);
    } else if IsDirected(rule) {
      assert IsDirectedBlock(s, rule.from.value, rule.to.value, a.sources, a.targets, b);
    }
  }

  lemma {:induction false} AnswersOf(
    s: Snapshot, rules: seq<Rule>, choices: seq<seq<Block>>)
    returns (answers: seq<Answers>)
    requires MayEmitAll(s, rules, choices)
    ensures AllAllowed(s, rules, answers) && choices == AllBlocksUnder(s, rules, answers)
  {
    hide MayEmit, AreAllowed, BlocksUnder;
    answers := [];
    if rules != [] {
      var n := |rules| - 1;
      var front := AnswersOf(s, rules[..n], choices[..n]);
      EmissionsAreAnswers(s, rules[n], choices[n]);
      var a :| AreAllowed(s, rules[n], a) && choices[n] == BlocksUnder(s, rules[n], a);
      answers := front + [a];
      OneMoreAnswer(s, rules, choices, front, a);
    }
  }

  lemma OneMoreAnswer(s: Snapshot, rules: seq<Rule>, choices: seq<seq<Block>>, front: seq<Answers>, a: Answers)
    requires rules != [] && |choices| == |rules|
    requires var n := |rules| - 1;
      && AllAllowed(s, rules[..n], front) && choices[..n] == AllBlocksUnder(s, rules[..n], front)
      && AreAllowed(s, rules[n], a) && choices[n] == BlocksUnder(s, rules[n], a)
    ensures AllAllowed(s, rules, front + [a]) && choices == AllBlocksUnder(s, rules, front + [a])
  {
    hide AreAllowed, BlocksUnder;
    var n := |rules| - 1;
    forall i | 0 <= i < |rules|
      ensures AreAllowed(s, rules[i], (front + [a])[i]) && choices[i] == BlocksUnder(s, rules[i], (front + [a])[i])
    {
      if i < n { assert rules[..n][i] == rules[i] && choices[..n][i] == choices[i]; }
    }
  }

  /** The plans Compile may return are those of the answers the labels allow. */
  lemma PossiblePlansAreAnswers(s: Snapshot, plan: FirewallPlan)
    requires IsPrefix4(s.subnet)
    ensures IsPossiblePlan(s, plan) <==>
      exists answers ::
        AllAllowed(s, s.policy.rules, answers) && plan == ChosenPlan(s, AllBlocksUnder(s, s.policy.rules, answers))
  {
    hide MayEmit, AreAllowed, BlocksUnder, EmitChosen, EmitNothing, SystemRule, DefaultRule, Masked, IsPrefix4;
    var rules := s.policy.rules;
    if IsPossiblePlan(s, plan) {
      var choices :| MayEmitAll(s, rules, choices) && plan == ChosenPlan(s, choices);
      var answers := AnswersOf(s, rules, choices);
    }
    if answers :| AllAllowed(s, rules, answers) && plan == ChosenPlan(s, AllBlocksUnder(s, rules, answers)) {
      forall i | 0 <= i < |rules| ensures MayEmit(s, rules[i], BlocksUnder(s, rules[i], answers[i])) {
        AnswersEmit(s, rules[i], answers[i]);
      }
      assert MayEmitAll(s, rules, AllBlocksUnder(s, rules, answers));
    }
  }

  // ---- what they decide ----

  lemma AnswersAreApps(s: Snapshot, rule: Rule, a: Answers)
    requires AreAllowed(s, rule, a)
    ensures a.sources <= Apps(s.workloads) && a.targets <= LocalApps(s)
  {
  }

  lemma PairsOf(s: Snapshot, a: Answers, pkt: Packet)
    requires a.sources <= Apps(s.workloads) && a.targets <= LocalApps(s)
    ensures Covered([Block(Addrs(a.sources), Addrs(a.targets))], pkt) <==>
      exists w, v :: w in Apps(s.workloads) && v in LocalApps(s) && w.ip == pkt.src && v.ip == pkt.dst &&
        w in a.sources && v in a.targets
  {
    hide Apps, LocalApps;
    var b := Block(Addrs(a.sources), Addrs(a.targets));
    assert Covered([b], pkt) <==> InBlock(b, pkt) by {
      hide Addrs, InBlock;
      if InBlock(b, pkt) { assert InBlock([b][0], pkt); }
    }
    hide Covered;
  }

  lemma SelectorsRelate(s: Snapshot, rule: Rule, a: Answers, pkt: Packet)
    requires (UsesSelector(rule) || IsDirected(rule)) && AreAllowed(s, rule, a)
    ensures Covered(BlocksUnder(s, rule, a), pkt) <==> RelatesUnder(s, rule, a, pkt.src, pkt.dst)
  {
    hide AreAllowed, Apps, LocalApps, Addrs, Covered, RuleBlocks, Related, UsesSelector, IsDirected;
    AnswersAreApps(s, rule, a);
    PairsOf(s, a, pkt);
    assert BlocksUnder(s, rule, a) == [Block(Addrs(a.sources), Addrs(a.targets))];
    assert forall w, v :: RelatedUnder(s, rule, a, w, v) <==> w in a.sources && v in a.targets;
    hide BlocksUnder, RelatedUnder;
  }

  lemma OthersRelate(s: Snapshot, rule: Rule, a: Answers, pkt: Packet)
    requires !UsesSelector(rule) && !IsDirected(rule) && IsNormalRule(rule)
    ensures Covered(BlocksUnder(s, rule, a), pkt) <==> RelatesUnder(s, rule, a, pkt.src, pkt.dst)
  {
    hide Apps, LocalApps, Covered, RuleBlocks, Related, UsesSelector, IsDirected, IsNormalRule, IsWithin;
    FormIsKnown(rule);
    BlocksMeaning(s, rule, pkt);
  }

  lemma BlocksUnderMeaning(s: Snapshot, rule: Rule, a: Answers, pkt: Packet)
    requires IsNormalRule(rule) && AreAllowed(s, rule, a)
    ensures Covered(BlocksUnder(s, rule, a), pkt) <==> RelatesUnder(s, rule, a, pkt.src, pkt.dst)
  {
    hide AreAllowed, Covered, BlocksUnder, RelatesUnder, IsNormalRule, UsesSelector, IsDirected;
    if UsesSelector(rule) || IsDirected(rule) {
      SelectorsRelate(s, rule, a, pkt);
    } else {
      OthersRelate(s, rule, a, pkt);
    }
  }

  lemma FormIsKnown(rule: Rule)
    requires IsNormalRule(rule)
    ensures rule.within == "" || IsWithin(rule.within)
    ensures rule.within != "" || rule.between.Some? || (rule.from.Some? && rule.to.Some?)
  {
    hide IsNormalBetween, IsCanonicalSelector, AreNormalPorts;
  }

  lemma RuleDecidesUnder(s: Snapshot, rule: Rule, a: Answers, pkt: Packet)
    requires IsNormalRule(rule) && AreAllowed(s, rule, a)
    ensures FirstMatch(EmitAll(BlocksUnder(s, rule, a), rule.ports, rule.action), pkt) ==
      if AppliesUnder(s, rule, a, pkt) then Some(rule.action) else None
  {
    assert forall p :: p in rule.ports ==> IsCanonicalPort(p);
    hide IsCanonicalPort, IsNormalRule, AreAllowed, BlocksUnder, EmitAll, RelatesUnder, Covered, PortsAdmit;
    BlocksUnderMeaning(s, rule, a, pkt);
    EmitAllDecides(BlocksUnder(s, rule, a), rule.ports, rule.action, pkt);
  }

  lemma {:induction false} FirstUnderSnoc(
    s: Snapshot, rules: seq<Rule>, answers: seq<Answers>, last: Rule, a: Answers, pkt: Packet)
    requires |answers| == |rules|
    ensures FirstUnder(s, rules + [last], answers + [a], pkt) ==
      OrElse(FirstUnder(s, rules, answers, pkt), if AppliesUnder(s, last, a, pkt) then Some(last.action) else None)
  {
    hide AppliesUnder;
    if rules == [] {
      assert ([] + [last])[1..] == [] && ([] + [last])[0] == last && ([] + [a])[0] == a;
    } else {
      FirstUnderSnoc(s, rules[1..], answers[1..], last, a, pkt);
      assert (rules + [last])[1..] == rules[1..] + [last] && (answers + [a])[1..] == answers[1..] + [a];
    }
  }

  lemma {:induction false} RulesDecideUnder(s: Snapshot, rules: seq<Rule>, answers: seq<Answers>, pkt: Packet)
    requires AllAllowed(s, rules, answers) && forall r :: r in rules ==> IsNormalRule(r)
    ensures FirstMatch(EmitChosen(rules, AllBlocksUnder(s, rules, answers)), pkt) == FirstUnder(s, rules, answers, pkt)
  {
    hide IsNormalRule, AreAllowed, AppliesUnder, BlocksUnder, EmitAll;
    if rules != [] {
      var n := |rules| - 1;
      var blocks := AllBlocksUnder(s, rules, answers);
      assert rules == rules[..n] + [rules[n]] && answers == answers[..n] + [answers[n]];
      assert blocks[..n] == AllBlocksUnder(s, rules[..n], answers[..n]);
      RulesDecideUnder(s, rules[..n], answers[..n], pkt);
      RuleDecidesUnder(s, rules[n], answers[n], pkt);
      FirstMatchConcat(EmitChosen(rules[..n], blocks[..n]), EmitAll(blocks[n], rules[n].ports, rules[n].action), pkt);
      FirstUnderSnoc(s, rules[..n], answers[..n], rules[n], answers[n], pkt);
    }
  }

  lemma ChosenPlanDecides(s: Snapshot, answers: seq<Answers>, pkt: Packet)
    requires IsPrefix4(s.subnet) && IsNormalPolicy(s.policy) && AllAllowed(s, s.policy.rules, answers)
    ensures Decide(ChosenPlan(s, AllBlocksUnder(s, s.policy.rules, answers)), pkt) == VerdictUnder(s, answers, pkt)
  {
    hide SystemRule, DefaultRule, EmitChosen, EmitNothing, FirstUnder, IsNormalRule, Addrs, AreAllowed, AllBlocksUnder;
    var rules := EmitChosen(s.policy.rules, AllBlocksUnder(s, s.policy.rules, answers));
    OuterRulesDecide(s, pkt);
    RulesDecideUnder(s, s.policy.rules, answers, pkt);
    FirstMatchConcat(SystemRule(s) + rules, DefaultRule(s), pkt);
    FirstMatchConcat(SystemRule(s), rules, pkt);
  }

  /** Every plan Compile may return decides all packets as the policy does, read directly under
      some answers the labels allow. */
  lemma PossiblePlanMeansAnswers(s: Snapshot, plan: FirewallPlan) returns (answers: seq<Answers>)
    requires IsPossiblePlan(s, plan) && IsNormalPolicy(s.policy)
    ensures AllAllowed(s, s.policy.rules, answers) && forall pkt :: Decide(plan, pkt) == VerdictUnder(s, answers, pkt)
  {
    hide IsPossiblePlan, Decide, VerdictUnder, AreAllowed, ChosenPlan, AllBlocksUnder, IsNormalPolicy, IsPrefix4;
    assert IsPrefix4(s.subnet) by { PossiblePlanHasPrefix(s, plan); }
    PossiblePlansAreAnswers(s, plan);
    answers :| AllAllowed(s, s.policy.rules, answers) &&
      plan == ChosenPlan(s, AllBlocksUnder(s, s.policy.rules, answers));
    forall pkt { ChosenPlanDecides(s, answers, pkt); }
  }

  lemma PossiblePlanHasPrefix(s: Snapshot, plan: FirewallPlan)
    requires IsPossiblePlan(s, plan)
    ensures IsPrefix4(s.subnet)
  {
    hide IsPrefix4;
  }

  /** And for all such answers there is a plan it may return that does. */
  lemma AnswersHavePossiblePlan(s: Snapshot, answers: seq<Answers>) returns (plan: FirewallPlan)
    requires IsPrefix4(s.subnet) && IsNormalPolicy(s.policy) && AllAllowed(s, s.policy.rules, answers)
    ensures IsPossiblePlan(s, plan) && forall pkt :: Decide(plan, pkt) == VerdictUnder(s, answers, pkt)
  {
    hide IsPossiblePlan, Decide, VerdictUnder, AreAllowed, ChosenPlan, AllBlocksUnder, IsNormalPolicy, IsPrefix4;
    plan := ChosenPlan(s, AllBlocksUnder(s, s.policy.rules, answers));
    PossiblePlansAreAnswers(s, plan);
    forall pkt { ChosenPlanDecides(s, answers, pkt); }
  }
}
