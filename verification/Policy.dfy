/** Policy rules, and their validation and canonical form. */
module Policy {
  import opened Ordering
  import opened Text
  import opened Firewall
  import opened Selector
  import opened SelectorLaws

  datatype Between = Between(selector: string, groupBy: string)

  datatype Rule = Rule(
    within: string, between: Option<Between>, from: Option<string>, to: Option<string>,
    ports: seq<string>, action: string)

  datatype Policy = Policy(defaultAction: string, rules: seq<Rule>)

  const MAX_RULES := 256
  const MAX_PORTS := 64

  // ---- ports ----

  /** strconv.Atoi: an optional sign and decimal digits. */
  function Atoi(s: string): Option<int> {
    if s != [] && (s[0] == '+' || s[0] == '-') then
      if !IsDigits(s[1..]) then None
      else
        var n: int := NatOf(s[1..]);
        Some(if s[0] == '-' then -n else n)
    else if IsDigits(s) then Some(NatOf(s)) else None
  }

  predicate IsProtocol(p: string) {
    p == "tcp" || p == "udp"
  }

  /** One entry of normalizePorts. */
  function CanonicalPort(port: string): Option<string> {
    var parts := Split(port, '/');
    var number := Atoi(parts[0]);
    if |parts| > 2 || number.None? || number.value < 1 || number.value > 65535 then None
    else if |parts| == 1 then Some(Itoa(number.value))
    else if IsProtocol(Lower(parts[1])) then Some(Itoa(number.value) + ("/" + Lower(parts[1])))
    else None
  }

  /** A port as it is printed: its number, and its protocol if it is limited to one. */
  function PortText(number: nat, protocol: Option<string>): string {
    match protocol
    case None => Itoa(number)
    case Some(p) => Itoa(number) + ("/" + p)
  }

  predicate IsPortText(text: string, number: nat, protocol: Option<string>) {
    1 <= number <= 65535 && (protocol.Some? ==> IsProtocol(protocol.value)) && text == PortText(number, protocol)
  }

  ghost predicate IsCanonicalPort(text: string) {
    exists number: nat, protocol: Option<string> :: IsPortText(text, number, protocol)
  }

  ghost function CanonicalPorts(ports: seq<string>): Option<set<string>> {
    if ports == [] then Some({})
    else
      var front := CanonicalPorts(ports[..|ports| - 1]);
      var last := CanonicalPort(ports[|ports| - 1]);
      if front.None? || last.None? || last.value in front.value then None else Some(front.value + {last.value})
  }

  ghost function NormalPorts(ports: seq<string>): Option<seq<string>> {
    var set_ := CanonicalPorts(ports);
    if |ports| > MAX_PORTS || set_.None? then None else Some(StrList(set_.value))
  }

  lemma {:induction false} CanonicalPortsPrefix(ports: seq<string>, i: nat)
    requires i <= |ports| && CanonicalPorts(ports).Some?
    ensures CanonicalPorts(ports[..i]).Some?
  {
    hide CanonicalPort;
    if i < |ports| {
      CanonicalPortsPrefix(ports[..|ports| - 1], i);
      assert ports[..|ports| - 1][..i] == ports[..i];
    } else {
      assert ports[..i] == ports;
    }
  }

  /** normalizePorts */
  method NormalizePorts(ports: seq<string>) returns (r: Option<seq<string>>)
    ensures r == NormalPorts(ports)
  {
    hide CanonicalPort;
    if |ports| > MAX_PORTS { return None; }
    var normalized: seq<string> := [];
    var seen := {};
    for i := 0 to |ports|
      invariant CanonicalPorts(ports[..i]) == Some(seen)
      invariant Elems(normalized) == seen && Distinct(normalized)
    {
      assert ports[..i + 1][..i] == ports[..i];
      var canonical := CanonicalPort(ports[i]);
      if canonical.None? || canonical.value in seen {
        assert CanonicalPorts(ports[..i + 1]).None?;
        if CanonicalPorts(ports).Some? { CanonicalPortsPrefix(ports, i + 1); }
        return None;
      }
      assert canonical.value !in Elems(normalized);
      seen := seen + {canonical.value};
      normalized := normalized + [canonical.value];
    }
    assert ports[..|ports|] == ports;
    SortStrings(normalized);
    return Some(Sort(StrLess, normalized));
  }

  lemma PortTextIsInjective(n1: nat, p1: Option<string>, n2: nat, p2: Option<string>)
    requires PortText(n1, p1) == PortText(n2, p2)
    ensures n1 == n2 && p1 == p2
  {
    var text := PortText(n1, p1);
    DigitsAvoid(Itoa(n1), '/');
    DigitsAvoid(Itoa(n2), '/');
    hide Itoa;
    assert p1.Some? ==> text[|Itoa(n1)|] == '/';
    assert p2.Some? ==> text[|Itoa(n2)|] == '/';
    if p1.Some? && p2.Some? {
      assert Itoa(n1) + ['/'] + p1.value == text == Itoa(n2) + ['/'] + p2.value;
      FirstSeparator(Itoa(n1), p1.value, Itoa(n2), p2.value, '/');
    }
    ItoaIsInjective(n1, n2);
  }

  lemma DigitsAvoid(s: string, c: char)
    requires IsDigits(s) && !IsDigit(c)
    ensures c !in s
  {
  }

  /** A canonical port is its own canonical form. */
  lemma CanonicalPortOf(text: string, number: nat, protocol: Option<string>)
    requires IsPortText(text, number, protocol)
    ensures CanonicalPort(text) == Some(text)
    ensures Split(text, '/') == [Itoa(number)] + if protocol.None? then [] else [protocol.value]
  {
    AtoiOfItoa(number);
    SplitPort(number, protocol);
    hide Itoa, NatOf, Atoi, Split;
    if protocol.Some? { LowerOfLower(protocol.value); }
  }

  lemma AtoiOfItoa(number: nat)
    ensures Atoi(Itoa(number)) == Some(number)
  {
    assert Itoa(number)[0] in Itoa(number);
  }

  lemma SplitPort(number: nat, protocol: Option<string>)
    requires protocol.Some? ==> IsProtocol(protocol.value)
    ensures Split(PortText(number, protocol), '/') == [Itoa(number)] + if protocol.None? then [] else [protocol.value]
  {
    var digits := Itoa(number);
    DigitsAvoid(digits, '/');
    hide Itoa, NatOf, Split;
    match protocol {
      case None =>
        SplitUndoesJoin([digits], '/');
      case Some(p) =>
        assert Join([p], '/') == p && ([digits, p])[1..] == [p];
        assert Join([digits, p], '/') == PortText(number, protocol);
        SplitUndoesJoin([digits, p], '/');
    }
  }

  lemma CanonicalPortIs(port: string)
    requires CanonicalPort(port).Some?
    ensures IsCanonicalPort(CanonicalPort(port).value)
  {
    var parts := Split(port, '/');
    var number := Atoi(parts[0]).value;
    var text := CanonicalPort(port).value;
    hide Split, Itoa, Lower;
    if |parts| == 1 {
      assert IsPortText(text, number, None);
    } else {
      assert IsPortText(text, number, Some(Lower(parts[1])));
    }
  }

  lemma {:induction false} CanonicalPortsAre(ports: seq<string>)
    requires CanonicalPorts(ports).Some?
    ensures forall p :: p in CanonicalPorts(ports).value ==> IsCanonicalPort(p)
    ensures |CanonicalPorts(ports).value| == |ports|
  {
    hide CanonicalPort, IsCanonicalPort;
    if ports != [] {
      CanonicalPortsAre(ports[..|ports| - 1]);
      CanonicalPortIs(ports[|ports| - 1]);
    }
  }

  /** Normalised ports: canonical, ascending, bounded. */
  ghost predicate AreNormalPorts(ports: seq<string>) {
    |ports| <= MAX_PORTS && Ascending(StrLess, ports) && forall p :: p in ports ==> IsCanonicalPort(p)
  }

  lemma {:induction false} AscendingLength(s: seq<string>)
    requires Distinct(s)
    ensures |Elems(s)| == |s|
  {
    if s != [] {
      AscendingLength(s[1..]);
      assert s == [s[0]] + s[1..];
      assert Elems(s) == {s[0]} + Elems(s[1..]);
    }
  }

  lemma NormalPortsAre(ports: seq<string>)
    requires NormalPorts(ports).Some?
    ensures AreNormalPorts(NormalPorts(ports).value) && |NormalPorts(ports).value| == |ports|
  {
    hide IsCanonicalPort, CanonicalPorts, StrLess;
    CanonicalPortsAre(ports);
    var r := NormalPorts(ports).value;
    forall p | p in r ensures IsCanonicalPort(p) { assert p in Elems(r); }
    SortedValues(r);
    AscendingLength(r);
  }

  lemma CanonicalPortFixed(text: string)
    requires IsCanonicalPort(text)
    ensures CanonicalPort(text) == Some(text)
  {
    hide CanonicalPort;
    var n: nat, p: Option<string> :| IsPortText(text, n, p);
    CanonicalPortOf(text, n, p);
  }

  lemma {:induction false} CanonicalPortsFixed(ports: seq<string>)
    requires Distinct(ports) && forall p :: p in ports ==> IsCanonicalPort(p)
    ensures CanonicalPorts(ports) == Some(Elems(ports))
  {
    hide CanonicalPort;
    if ports != [] {
      var front, last := ports[..|ports| - 1], ports[|ports| - 1];
      CanonicalPortsFixed(front);
      assert last in ports;
      CanonicalPortFixed(last);
      hide IsCanonicalPort;
      assert ports == front + [last];
      assert Elems(ports) == Elems(front) + {last};
      assert last !in front;
    } else {
      assert Elems(ports) == {};
    }
  }

  /** Normalising normal ports returns them. */
  lemma NormalPortsFixed(ports: seq<string>)
    requires AreNormalPorts(ports)
    ensures NormalPorts(ports) == Some(ports)
  {
    hide IsCanonicalPort, CanonicalPorts, StrLess;
    SortedValues(ports);
    CanonicalPortsFixed(ports);
    StrListIs(ports);
  }

  // ---- rules ----

  predicate IsWithin(within: string) {
    within == "stack" || within == "service" || within == "linked"
  }

  /** How many of the three rule forms a rule uses. */
  function Forms(rule: Rule): nat {
    (if rule.within != "" then 1 else 0) + (if rule.between.Some? then 1 else 0) +
    (if rule.from.Some? || rule.to.Some? then 1 else 0)
  }

  ghost function NormalBetween(between: Between): Option<Between> {
    if (between.selector != "") == (between.groupBy != "") then None
    else if between.selector != "" then
      var canonical := CanonicalSelector(between.selector);
      if canonical.None? then None else Some(Between(canonical.value, ""))
    else if IsLabelKey(between.groupBy) then Some(Between("", Lower(between.groupBy)))
    else None
  }

  ghost function NormalRule(rule: Rule): Option<Rule> {
    if !IsAction(rule.action) || Forms(rule) != 1 then None
    else if rule.within != "" then
      if IsWithin(rule.within) && rule.ports == [] then Some(Rule(rule.within, None, None, None, [], rule.action))
      else None
    else if rule.between.Some? then
      var between := NormalBetween(rule.between.value);
      if rule.ports == [] && between.Some? then Some(Rule("", between, None, None, [], rule.action)) else None
    else if rule.from.None? || rule.to.None? then None
    else
      var from, to := CanonicalSelector(rule.from.value), CanonicalSelector(rule.to.value);
      var ports := NormalPorts(rule.ports);
      if from.None? || to.None? || ports.None? then None else Some(Rule("", None, from, to, ports.value, rule.action))
  }

  /** normalizeRule */
  method NormalizeRule(rule: Rule) returns (r: Option<Rule>)
    ensures r == NormalRule(rule)
  {
    hide ParseSelector, NormalPorts, IsLabelKey;
    if !IsAction(rule.action) { return None; }
    var forms := 0;
    if rule.within != "" { forms := forms + 1; }
    if rule.between.Some? { forms := forms + 1; }
    if rule.from.Some? || rule.to.Some? { forms := forms + 1; }
    if forms != 1 { return None; }
    if rule.within != "" {
      if !IsWithin(rule.within) { return None; }
      if |rule.ports| != 0 { return None; }
      return Some(Rule(rule.within, None, None, None, [], rule.action));
    }
    if rule.between.Some? {
      if rule.from.Some? || rule.to.Some? || |rule.ports| != 0 { return None; }
      var hasSelector := rule.between.value.selector != "";
      var hasGroup := rule.between.value.groupBy != "";
      if hasSelector == hasGroup { return None; }
      if hasSelector {
        var parsed := Parse(rule.between.value.selector);
        if parsed.None? { return None; }
        return Some(Rule("", Some(Between(parsed.value.canonical, "")), None, None, [], rule.action));
      }
      if !IsLabelKey(rule.between.value.groupBy) { return None; }
      return Some(Rule("", Some(Between("", Lower(rule.between.value.groupBy))), None, None, [], rule.action));
    }
    if rule.from.None? || rule.to.None? { return None; }
    var from := Parse(rule.from.value);
    if from.None? { return None; }
    var to := Parse(rule.to.value);
    if to.None? { return None; }
    var ports := NormalizePorts(rule.ports);
    if ports.None? { return None; }
    return Some(Rule("", None, Some(from.value.canonical), Some(to.value.canonical), ports.value, rule.action));
  }

  ghost predicate IsCanonicalSelector(text: string) {
    exists cs :: ValidSelector(cs) && text == CanonicalText(cs)
  }

  ghost predicate IsNormalBetween(b: Between) {
    if b.selector != "" then b.groupBy == "" && IsCanonicalSelector(b.selector)
    else IsLabelKey(b.groupBy) && IsLower(b.groupBy)
  }

  ghost predicate IsNormalDirected(rule: Rule) {
    && rule.from.Some? && rule.to.Some? && AreNormalPorts(rule.ports)
    && IsCanonicalSelector(rule.from.value) && IsCanonicalSelector(rule.to.value)
  }

  /** Rules in the form normalizeRule returns. */
  ghost predicate IsNormalRule(rule: Rule) {
    && IsAction(rule.action) && Forms(rule) == 1
    && (rule.within != "" ==> IsWithin(rule.within) && rule.ports == [])
    && (rule.between.Some? ==> rule.ports == [] && IsNormalBetween(rule.between.value))
    && (rule.from.Some? || rule.to.Some? ==> IsNormalDirected(rule))
  }

  function SelectorsOf(rule: Rule): seq<string> {
    (if rule.between.Some? && rule.between.value.selector != "" then [rule.between.value.selector] else []) +
    (if rule.from.Some? then [rule.from.value] else []) + (if rule.to.Some? then [rule.to.value] else [])
  }

  /** The canonical selectors of a rule are short enough to be parsed again. */
  predicate SelectorsFit(rule: Rule) {
    forall e :: e in SelectorsOf(rule) ==> |e| <= MAX_LENGTH
  }

  lemma CanonicalSelectorIs(selector: string)
    requires CanonicalSelector(selector).Some?
    ensures IsCanonicalSelector(CanonicalSelector(selector).value)
  {
    hide ParseSelector, ValidSelector, CanonicalText;
    ParsedIsValid(selector);
  }

  lemma CanonicalSelectorFixed(text: string)
    requires IsCanonicalSelector(text)
    ensures CanonicalSelector(text) == if |text| <= MAX_LENGTH then Some(text) else None
    ensures text != ""
  {
    var cs :| ValidSelector(cs) && text == CanonicalText(cs);
    assert cs[0] in cs;
    TextIsTrimmed(cs[0]);
    FirstIsCounted(Texts(cs));
    hide ParseSelector, ValidSelector, CanonicalText;
    PrintThenParse(cs);
  }

  lemma NormalRuleIs(rule: Rule)
    requires NormalRule(rule).Some?
    ensures IsNormalRule(NormalRule(rule).value)
  {
    hide CanonicalSelector, IsCanonicalSelector, NormalPorts, AreNormalPorts;
    if rule.between.Some? {
      if rule.between.value.selector != "" {
        CanonicalSelectorIs(rule.between.value.selector);
        CanonicalSelectorFixed(CanonicalSelector(rule.between.value.selector).value);
      } else {
        LowerKey(rule.between.value.groupBy);
      }
    } else if rule.within == "" {
      CanonicalSelectorIs(rule.from.value);
      CanonicalSelectorIs(rule.to.value);
      NormalPortsAre(rule.ports);
    }
  }

  /** Normalising a normal rule succeeds exactly when its selectors fit, and returns it. */
  lemma NormalRuleFixed(rule: Rule)
    requires IsNormalRule(rule)
    ensures NormalRule(rule) == if SelectorsFit(rule) then Some(rule) else None
  {
    hide CanonicalSelector, IsCanonicalSelector, NormalPorts, AreNormalPorts, IsLabelKey;
    if rule.between.Some? {
      if rule.between.value.selector != "" {
        CanonicalSelectorFixed(rule.between.value.selector);
        assert SelectorsOf(rule) == [rule.between.value.selector];
      } else {
        LowerOfLower(rule.between.value.groupBy);
        LabelKeyIsNotEmpty(rule.between.value.groupBy);
        assert SelectorsOf(rule) == [];
      }
    } else if rule.within == "" {
      CanonicalSelectorFixed(rule.from.value);
      CanonicalSelectorFixed(rule.to.value);
      NormalPortsFixed(rule.ports);
      assert SelectorsOf(rule) == [rule.from.value, rule.to.value];
    } else {
      assert SelectorsOf(rule) == [];
    }
  }

  lemma LabelKeyIsNotEmpty(key: string)
    ensures IsLabelKey(key) ==> key != ""
  {
  }

  ghost predicate IsNormalPolicy(policy: Policy) {
    |policy.rules| <= MAX_RULES && IsAction(policy.defaultAction) && forall r :: r in policy.rules ==> IsNormalRule(r)
  }

  ghost predicate PolicyAccepted(input: Policy) {
    && |input.rules| <= MAX_RULES && IsAction(input.defaultAction)
    && forall rule :: rule in input.rules ==> NormalRule(rule).Some?
  }

  /** `output` is `input` with every rule replaced by its normal form, in the same order. */
  ghost predicate IsNormalFormOf(output: Policy, input: Policy) {
    && output.defaultAction == input.defaultAction && |output.rules| == |input.rules|
    && forall i :: 0 <= i < |input.rules| ==> Some(output.rules[i]) == NormalRule(input.rules[i])
  }

  /** NormalizePolicy */
  method NormalizePolicy(input: Policy) returns (r: Option<Policy>)
    ensures r.Some? <==> PolicyAccepted(input)
    ensures r.Some? ==> IsNormalFormOf(r.value, input)
    ensures r.Some? ==> IsNormalPolicy(r.value)
  {
    hide NormalRule, IsNormalRule;
    if |input.rules| > MAX_RULES { return None; }
    if !IsAction(input.defaultAction) { return None; }
    var rules: seq<Rule> := [];
    for i := 0 to |input.rules|
      invariant |rules| == i
      invariant forall k :: 0 <= k < i ==> NormalRule(input.rules[k]) == Some(rules[k])
      invariant forall k :: 0 <= k < i ==> IsNormalRule(rules[k])
    {
      var normalized := NormalizeRule(input.rules[i]);
      if normalized.None? { return None; }
      NormalRuleIs(input.rules[i]);
      rules := rules + [normalized.value];
    }
    return Some(Policy(input.defaultAction, rules));
  }
}
