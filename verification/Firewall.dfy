/** The compiled plan and what it decides: the first matching rule wins. */
module Firewall {
  import opened Text
  import opened Network

  datatype PortMatch = PortMatch(number: nat, protocol: string)

  /** An empty address list constrains nothing, as a nil slice does in the source. */
  datatype FirewallRule = FirewallRule(
    sources: seq<Addr>, destinations: seq<Addr>, port: Option<PortMatch>, action: string)

  /** SHA-256 over the encoded plan, taken to be injective. */
  datatype Digest = Blank | Sha(plan: FirewallPlan)

  datatype FirewallPlan = FirewallPlan(
    subnet: Prefix,
    digest: Digest,
    defaultAction: string,
    rules: seq<FirewallRule>,
    workloadCount: nat,
    localWorkloadCount: nat,
    policyRuleCount: nat,
    zeroMatchCount: nat,
    failOpen: bool)

  function DigestPlan(plan: FirewallPlan): Digest {
    Sha(plan.(digest := Blank))
  }

  function FailOpenPlan(previous: FirewallPlan): FirewallPlan {
    var plan := FirewallPlan(
      previous.subnet, Blank, "allow", [], previous.workloadCount, previous.localWorkloadCount,
      previous.policyRuleCount, previous.zeroMatchCount, true);
    plan.(digest := DigestPlan(plan))
  }

  predicate IsAction(action: string) {
    action == "allow" || action == "deny"
  }

  predicate PortMatches(port: Option<PortMatch>, pkt: Packet) {
    port.None? || (pkt.protocol == port.value.protocol && pkt.port == port.value.number)
  }

  predicate RuleMatches(rule: FirewallRule, pkt: Packet) {
    && (rule.sources == [] || pkt.src in rule.sources)
    && (rule.destinations == [] || pkt.dst in rule.destinations)
    && PortMatches(rule.port, pkt)
  }

  /** The action of the first rule that matches. */
  function FirstMatch(rules: seq<FirewallRule>, pkt: Packet): Option<string> {
    if rules == [] then None
    else if RuleMatches(rules[0], pkt) then Some(rules[0].action)
    else FirstMatch(rules[1..], pkt)
  }

  function OrElse(first: Option<string>, second: Option<string>): Option<string> {
    if first.Some? then first else second
  }

  /** What a plan decides for a packet between two subnet addresses. */
  function Decide(plan: FirewallPlan, pkt: Packet): string {
    var first := FirstMatch(plan.rules, pkt);
    if first.Some? then first.value else "allow"
  }

  lemma {:induction false} FirstMatchConcat(a: seq<FirewallRule>, b: seq<FirewallRule>, pkt: Packet)
    ensures FirstMatch(a + b, pkt) == OrElse(FirstMatch(a, pkt), FirstMatch(b, pkt))
  {
    if a == [] {
      assert a + b == b;
    } else {
      assert (a + b)[1..] == a[1..] + b;
      FirstMatchConcat(a[1..], b, pkt);
    }
  }

  /** Rules with one common action decide together: some rule matches, or none does. */
  lemma {:induction false} FirstMatchUniform(rules: seq<FirewallRule>, action: string, pkt: Packet)
    requires forall r :: r in rules ==> r.action == action
    ensures FirstMatch(rules, pkt) == if exists r :: r in rules && RuleMatches(r, pkt) then Some(action) else None
  {
    if rules != [] {
      FirstMatchUniform(rules[1..], action, pkt);
      assert rules == [rules[0]] + rules[1..];
    }
  }
}
