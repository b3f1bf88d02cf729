/** What normalising a rule does, read off the submitted rule: which rules are accepted, and what
    their normal forms are. */
module RuleReading {
  import opened Ordering
  import opened Text
  import opened Selector
  import opened SelectorLaws
  import opened Grammar
  import opened SelectorReading
  import opened Policy

  // ---- ports ----

  /** Decimal digits, with or without a plus sign, for `n`. */
  ghost predicate IsNumeral(head: string, n: nat) {
    exists digits :: IsDigits(digits) && NatOf(digits) == n && (head == digits || head == "+" + digits)
  }

  /** The text is a port number, alone or with a protocol in any letter case. */
  ghost predicate ReadsPort(text: string, n: nat, p: Option<string>) {
    && 1 <= n <= 65535 && (p.Some? ==> p.value == "tcp" || p.value == "udp")
    && exists head, tail :: IsNumeral(head, n) && text == head + tail &&
         if p.None? then tail == "" else |tail| == 4 && tail[0] == '/' && Lower(tail[1..]) == p.value
  }

  lemma AtoiReads(head: string, n: nat)
    requires n > 0
    ensures Atoi(head) == Some(n) <==> IsNumeral(head, n)
  {
    if Atoi(head) == Some(n) {
      if head[0] == '+' { assert head == "+" + head[1..]; }
    }
    if digits :| IsDigits(digits) && NatOf(digits) == n && (head == digits || head == "+" + digits) {
      assert digits[0] in digits;
      if head == "+" + digits { assert head[1..] == digits; }
    }
    hide NatOf;
  }

  lemma NumeralHasNoSlash(head: string, n: nat)
    requires IsNumeral(head, n)
    ensures '/' !in head
  {
    var digits :| IsDigits(digits) && NatOf(digits) == n && (head == digits || head == "+" + digits);
    DigitsAvoid(digits, '/');
    hide NatOf;
  }

  lemma SplitsIn(text: string, head: string, tail: string)
    requires '/' !in head && text == head + tail && (tail == "" || tail[0] == '/')
    ensures tail == "" ==> Split(text, '/') == [head]
    ensures tail != "" && '/' !in tail[1..] ==> Split(text, '/') == [head, tail[1..]]
  {
    hide Split;
    if tail == "" {
      assert text == head;
      SplitNone(text, '/');
    } else if '/' !in tail[1..] {
      assert text == head + ['/'] + tail[1..];
      SplitFirst(head, tail[1..], '/');
      SplitNone(tail[1..], '/');
    }
  }

  lemma ProtocolHasNoSlash(tail: string, p: string)
    requires Lower(tail) == p && (p == "tcp" || p == "udp")
    ensures '/' !in tail && |tail| == 3
  {
    assert forall i :: 0 <= i < |tail| ==> LowerChar(tail[i]) == p[i];
  }

  lemma PortPrinted(text: string, n: nat, p: Option<string>)
    requires ReadsPort(text, n, p)
    ensures CanonicalPort(text) == Some(PortText(n, p))
  {
    hide Split, Atoi, Itoa, IsNumeral;
    var head, tail :| IsNumeral(head, n) && text == head + tail &&
      if p.None? then tail == "" else |tail| == 4 && tail[0] == '/' && Lower(tail[1..]) == p.value;
    NumeralHasNoSlash(head, n);
    if p.Some? { ProtocolHasNoSlash(tail[1..], p.value); }
    SplitsIn(text, head, tail);
    AtoiReads(head, n);
  }

  lemma PortScanned(text: string) returns (n: nat, p: Option<string>)
    requires CanonicalPort(text).Some?
    ensures ReadsPort(text, n, p) && CanonicalPort(text).value == PortText(n, p)
  {
    hide Split, Atoi, Itoa, IsNumeral, ReadsPort, Lower;
    var parts := Split(text, '/');
    n := Atoi(parts[0]).value;
    AtoiReads(parts[0], n);
    PartsRead(text, n);
    p := if |parts| == 1 then None else Some(Lower(parts[1]));
  }

  lemma PartsRead(text: string, n: nat)
    requires 1 <= n <= 65535 && IsNumeral(Split(text, '/')[0], n) && |Split(text, '/')| <= 2
    ensures |Split(text, '/')| == 1 ==> ReadsPort(text, n, None)
    ensures |Split(text, '/')| == 2 && IsProtocol(Lower(Split(text, '/')[1])) ==>
      ReadsPort(text, n, Some(Lower(Split(text, '/')[1])))
  {
    hide Split, IsNumeral;
    var parts := Split(text, '/');
    JoinUndoesSplit(text, '/');
    if |parts| == 1 {
      assert text == parts[0] + "";
    } else {
      var tail := "/" + parts[1];
      assert parts[1..] == [parts[1]] && tail[1..] == parts[1];
      assert text == parts[0] + ['/'] + parts[1] == parts[0] + tail;
    }
  }

  /** The printed form of a port that can be read, and only of those. */
  lemma PortAsRead(text: string, canonical: string)
    ensures CanonicalPort(text) == Some(canonical) <==>
      exists n, p :: ReadsPort(text, n, p) && canonical == PortText(n, p)
  {
    hide ReadsPort, CanonicalPort, PortText;
    if CanonicalPort(text) == Some(canonical) { var n, p := PortScanned(text); }
    if n, p :| ReadsPort(text, n, p) && canonical == PortText(n, p) { PortPrinted(text, n, p); }
  }

  /** The canonical ports are those the submitted ones read as, each once, ascending. */
  ghost predicate ArePortsOf(ports: seq<string>, canonical: seq<string>) {
    && |ports| <= 64 && |canonical| == |ports| && Ascending(StrLess, canonical)
    && (forall text :: text in ports ==> ReadsInto(text, canonical))
    && (forall c :: c in canonical ==> IsReadFrom(c, ports))
  }

  ghost predicate ReadsInto(text: string, canonical: seq<string>) {
    exists n, p :: ReadsPort(text, n, p) && PortText(n, p) in canonical
  }

  ghost predicate IsReadFrom(c: string, ports: seq<string>) {
    exists text, n, p :: text in ports && ReadsPort(text, n, p) && c == PortText(n, p)
  }

  lemma {:induction false} CanonicalPortsAsRead(ports: seq<string>)
    ensures CanonicalPorts(ports).Some? ==>
      && |CanonicalPorts(ports).value| == |ports|
      && (forall text :: text in ports ==>
            CanonicalPort(text).Some? && CanonicalPort(text).value in CanonicalPorts(ports).value)
      && (forall c :: c in CanonicalPorts(ports).value ==>
            exists text :: text in ports && CanonicalPort(text) == Some(c))
  {
    hide CanonicalPort;
    if ports != [] {
      var front, last := ports[..|ports| - 1], ports[|ports| - 1];
      assert ports == front + [last];
      CanonicalPortsAsRead(front);
    }
  }

  /** The set of canonical ports there is, if there is one for each port. */
  ghost predicate Matches(ports: seq<string>, canonical: set<string>) {
    && |canonical| == |ports|
    && (forall text :: text in ports ==> CanonicalPort(text).Some? && CanonicalPort(text).value in canonical)
    && (forall c :: c in canonical ==> exists text :: text in ports && CanonicalPort(text) == Some(c))
  }

  lemma MatchesFewer(front: seq<string>, last: string, canonical: set<string>)
    requires Matches(front + [last], canonical)
    ensures CanonicalPort(last).Some? && Matches(front, canonical - {CanonicalPort(last).value})
  {
    hide CanonicalPort;
    assert last in front + [last];
    var c := CanonicalPort(last).value;
    var keys := set text | text in front :: CanonicalPort(text);
    KeysAreFew(front);
    if exists text :: text in front && CanonicalPort(text) == Some(c) {
      assert canonical <= Values(keys);
      SomeValues(keys);
      SubsetSize(canonical, Values(keys));
      assert false;
    }
    forall text | text in front ensures CanonicalPort(text).Some? && CanonicalPort(text).value in canonical - {c} {
      assert text in front + [last];
    }
    forall d | d in canonical - {c} ensures exists text :: text in front && CanonicalPort(text) == Some(d) {
      var text :| text in front + [last] && CanonicalPort(text) == Some(d);
      assert text in front;
    }
  }

  lemma {:induction false} KeysAreFew(ports: seq<string>)
    ensures |set text | text in ports :: CanonicalPort(text)| <= |ports|
  {
    hide CanonicalPort;
    if ports != [] {
      var front, last := ports[..|ports| - 1], ports[|ports| - 1];
      assert ports == front + [last];
      KeysAreFew(front);
      assert (set text | text in ports :: CanonicalPort(text)) ==
        (set text | text in front :: CanonicalPort(text)) + {CanonicalPort(last)};
    } else {
      assert (set text | text in ports :: CanonicalPort(text)) == {};
    }
  }

  ghost function Values(keys: set<Option<string>>): set<string> {
    set k | k in keys && k.Some? :: k.value
  }

  lemma {:induction false} SomeValues(keys: set<Option<string>>)
    ensures |Values(keys)| <= |keys|
  {
    if keys == {} {
      assert Values(keys) == {};
    } else {
      var k :| k in keys;
      SomeValues(keys - {k});
      assert Values(keys) == Values(keys - {k}) + if k.Some? then {k.value} else {};
    }
  }

  lemma {:induction false} MatchesIsCanonical(ports: seq<string>, canonical: set<string>)
    requires Matches(ports, canonical)
    ensures CanonicalPorts(ports) == Some(canonical)
  {
    hide CanonicalPort, Matches;
    if ports == [] {
      NoneMatch(canonical);
    } else {
      var front, last := ports[..|ports| - 1], ports[|ports| - 1];
      assert ports == front + [last];
      MatchesFewer(front, last, canonical);
      var c := CanonicalPort(last).value;
      MatchesIsCanonical(front, canonical - {c});
      LastIsThere(ports, last, canonical);
      assert canonical - {c} + {c} == canonical;
    }
  }

  lemma NoneMatch(canonical: set<string>)
    requires Matches([], canonical)
    ensures canonical == {}
  {
    hide CanonicalPort;
  }

  lemma LastIsThere(ports: seq<string>, last: string, canonical: set<string>)
    requires Matches(ports, canonical) && last in ports && CanonicalPort(last).Some?
    ensures CanonicalPort(last).value in canonical
  {
    hide CanonicalPort;
  }

  lemma PortReadsInto(text: string, canonical: seq<string>)
    ensures ReadsInto(text, canonical) <==> CanonicalPort(text).Some? && CanonicalPort(text).value in canonical
  {
    hide CanonicalPort, ReadsPort, PortText;
    if CanonicalPort(text).Some? { var n, p := PortScanned(text); }
    if n, p :| ReadsPort(text, n, p) && PortText(n, p) in canonical { PortPrinted(text, n, p); }
  }

  lemma PortIsReadFrom(c: string, ports: seq<string>)
    ensures IsReadFrom(c, ports) <==> exists text :: text in ports && CanonicalPort(text) == Some(c)
  {
    hide CanonicalPort, ReadsPort, PortText;
    if text :| text in ports && CanonicalPort(text) == Some(c) { var n, p := PortScanned(text); }
    if text, n, p :| text in ports && ReadsPort(text, n, p) && c == PortText(n, p) { PortPrinted(text, n, p); }
  }

  lemma PortsReadInto(ports: seq<string>, canonical: seq<string>, values: set<string>)
    requires forall c :: c in canonical <==> c in values
    ensures (forall text :: text in ports ==> ReadsInto(text, canonical)) <==>
      forall text :: text in ports ==> CanonicalPort(text).Some? && CanonicalPort(text).value in values
  {
    hide CanonicalPort, ReadsInto;
    forall text | text in ports
      ensures ReadsInto(text, canonical) <==> CanonicalPort(text).Some? && CanonicalPort(text).value in values
    {
      PortReadsInto(text, canonical);
    }
  }

  lemma PortsAreReadFrom(ports: seq<string>, canonical: seq<string>, values: set<string>)
    requires forall c :: c in canonical <==> c in values
    ensures (forall c :: c in canonical ==> IsReadFrom(c, ports)) <==>
      forall c :: c in values ==> exists text :: text in ports && CanonicalPort(text) == Some(c)
  {
    hide CanonicalPort, IsReadFrom;
    forall c | c in values
      ensures IsReadFrom(c, ports) <==> exists text :: text in ports && CanonicalPort(text) == Some(c)
    {
      PortIsReadFrom(c, ports);
    }
  }

  lemma PortsMatch(ports: seq<string>, canonical: seq<string>)
    requires Distinct(canonical) && |canonical| == |ports|
    ensures Matches(ports, Elems(canonical)) <==>
      && (forall text :: text in ports ==> ReadsInto(text, canonical))
      && (forall c :: c in canonical ==> IsReadFrom(c, ports))
  {
    hide CanonicalPort, ReadsInto, IsReadFrom, Distinct;
    AscendingLength(canonical);
    PortsReadInto(ports, canonical, Elems(canonical));
    PortsAreReadFrom(ports, canonical, Elems(canonical));
  }

  lemma NormalPortsAsRead(ports: seq<string>, canonical: seq<string>)
    ensures NormalPorts(ports) == Some(canonical) <==> ArePortsOf(ports, canonical)
  {
    hide CanonicalPort, CanonicalPorts, ReadsInto, IsReadFrom, StrLess, Elems, Matches;
    if NormalPorts(ports) == Some(canonical) {
      CanonicalPortsMatch(ports);
      SortedValues(canonical);
      AscendingLength(canonical);
      hide Ascending, Distinct;
      PortsMatch(ports, canonical);
    }
    if ArePortsOf(ports, canonical) {
      SortedValues(canonical);
      PortsMatch(ports, canonical);
      MatchesIsCanonical(ports, Elems(canonical));
      StrListIs(canonical);
    }
  }

  lemma CanonicalPortsMatch(ports: seq<string>)
    requires CanonicalPorts(ports).Some?
    ensures Matches(ports, CanonicalPorts(ports).value) && |CanonicalPorts(ports).value| == |ports|
  {
    hide CanonicalPort, CanonicalPorts;
    CanonicalPortsAsRead(ports);
  }

  // ---- selectors ----

  /** The texts of the clauses a reading stands for, each once, ascending, joined by commas. */
  ghost predicate IsCanonicalFor(expression: string, canonical: string) {
    exists ps, cs :: IsReading(expression, ps) && DenotesAll(ps, cs) &&
      canonical == Join(StrList(Elems(Selector.Texts(cs))), ',')
  }

  lemma DenotedOnce(ps: seq<Part>, cs: seq<Clause>, ds: seq<Clause>)
    requires DenotesAll(ps, cs) && DenotesAll(ps, ds)
    ensures cs == ds
  {
    hide WrittenText, Denotes, ParseClause;
    forall i | 0 <= i < |cs| ensures cs[i] == ds[i] {
      assert PartDenotes(ps[i], cs[i]) && PartDenotes(ps[i], ds[i]);
      WrittenIsRead(ps[i].clause, cs[i]);
      WrittenIsRead(ps[i].clause, ds[i]);
    }
  }

  lemma SelectorAsRead(expression: string, canonical: string)
    ensures CanonicalSelector(expression) == Some(canonical) <==> IsCanonicalFor(expression, canonical)
  {
    hide PartDenotes, ExpressionText, Submitted, ClauseText, DenotesAll, Distinct;
    if Submitted(expression).Some? {
      var cs := Submitted(expression).value;
      var ps := ReadExpressionIsWritten(expression, cs);
      ReadingIsSubmitted(expression, ps, cs);
      SubmittedText(expression);
    }
    if IsCanonicalFor(expression, canonical) {
      var ps, cs :| IsReading(expression, ps) && DenotesAll(ps, cs) &&
        canonical == Join(StrList(Elems(Selector.Texts(cs))), ',');
      var ds :| DenotesAll(ps, ds) && Distinct(ds);
      DenotedOnce(ps, cs, ds);
      ReadingIsSubmitted(expression, ps, cs);
      SubmittedText(expression);
    }
  }

  // ---- rules ----

  /** `normal` is the normal form of a rule among a stack, a service or links. */
  ghost predicate IsWithinOf(rule: Rule, normal: Rule) {
    && (rule.within == "stack" || rule.within == "service" || rule.within == "linked")
    && rule.between.None? && rule.from.None? && rule.to.None? && rule.ports == []
    && normal == rule
  }

  /** Of a rule between the workloads of a selector, or of every value of a label. */
  ghost predicate IsBetweenOf(rule: Rule, normal: Rule) {
    && rule.within == "" && rule.between.Some? && rule.from.None? && rule.to.None? && rule.ports == []
    && normal == rule.(between := normal.between) && normal.between.Some?
    && var submitted, canonical := rule.between.value, normal.between.value;
       if submitted.groupBy == "" then
         canonical.groupBy == "" && IsCanonicalFor(submitted.selector, canonical.selector)
       else
         && submitted.selector == "" && IsLabelKey(submitted.groupBy)
         && canonical.selector == "" && canonical.groupBy == Lower(submitted.groupBy)
  }

  /** Of a rule from one selector to another. */
  ghost predicate IsDirectedOf(rule: Rule, normal: Rule) {
    && rule.within == "" && rule.between.None? && rule.from.Some? && rule.to.Some?
    && normal == rule.(from := normal.from, to := normal.to, ports := normal.ports)
    && normal.from.Some? && IsCanonicalFor(rule.from.value, normal.from.value)
    && normal.to.Some? && IsCanonicalFor(rule.to.value, normal.to.value)
    && ArePortsOf(rule.ports, normal.ports)
  }

  /** The rule is acceptable, and this is its normal form: the action and the form are kept, and
      every part is replaced by its canonical text. */
  ghost predicate IsNormalOf(rule: Rule, normal: Rule) {
    && (rule.action == "allow" || rule.action == "deny")
    && (IsWithinOf(rule, normal) || IsBetweenOf(rule, normal) || IsDirectedOf(rule, normal))
  }

  lemma EmptyIsNotCanonical(canonical: string)
    ensures !IsCanonicalFor("", canonical)
  {
    hide DenotesAll, ExpressionText;
  }

  lemma BetweenAsRead(rule: Rule, normal: Rule)
    requires rule.within == "" && rule.between.Some? && rule.from.None? && rule.to.None?
    requires rule.action == "allow" || rule.action == "deny"
    ensures NormalRule(rule) == Some(normal) <==> IsBetweenOf(rule, normal)
  {
    hide CanonicalSelector, IsCanonicalFor, IsLabelKey, NormalPorts, ArePortsOf, Lower;
    var submitted := rule.between.value;
    EmptyIsNotCanonical(if normal.between.Some? then normal.between.value.selector else "");
    forall c ensures CanonicalSelector(submitted.selector) == Some(c) <==> IsCanonicalFor(submitted.selector, c) {
      SelectorAsRead(submitted.selector, c);
    }
    if NormalRule(rule) == Some(normal) { assert normal.between == NormalBetween(submitted); }
  }

  lemma DirectedAsRead(rule: Rule, normal: Rule)
    requires rule.within == "" && rule.between.None? && (rule.from.Some? || rule.to.Some?)
    requires rule.action == "allow" || rule.action == "deny"
    ensures NormalRule(rule) == Some(normal) <==> IsDirectedOf(rule, normal)
  {
    hide CanonicalSelector, IsCanonicalFor, IsLabelKey, NormalPorts, ArePortsOf, Lower;
    if rule.from.Some? && rule.to.Some? {
      forall e, c ensures CanonicalSelector(e) == Some(c) <==> IsCanonicalFor(e, c) { SelectorAsRead(e, c); }
      forall c
        ensures NormalPorts(rule.ports) == Some(c) <==> ArePortsOf(rule.ports, c)
      {
        NormalPortsAsRead(rule.ports, c);
      }
    }
  }

  /** normalizeRule accepts exactly the rules that have a normal form by this reading, and
      returns it. */
  lemma RuleAsRead(rule: Rule, normal: Rule)
    ensures NormalRule(rule) == Some(normal) <==> IsNormalOf(rule, normal)
  {
    hide CanonicalSelector, IsCanonicalFor, IsLabelKey, NormalPorts, ArePortsOf, Lower, NormalBetween;
    if rule.action == "allow" || rule.action == "deny" {
      if rule.within == "" && rule.between.Some? && rule.from.None? && rule.to.None? {
        BetweenAsRead(rule, normal);
      } else if rule.within == "" && rule.between.None? && (rule.from.Some? || rule.to.Some?) {
        DirectedAsRead(rule, normal);
      }
    }
  }

  /** NormalizePolicy accepts at most 256 rules that all have a normal form, and a default that is
      an action. */
  ghost predicate IsNormalPolicyOf(input: Policy, output: Policy) {
    && |input.rules| <= 256 && (input.defaultAction == "allow" || input.defaultAction == "deny")
    && output.defaultAction == input.defaultAction && |output.rules| == |input.rules|
    && forall i :: 0 <= i < |input.rules| ==> IsNormalOf(input.rules[i], output.rules[i])
  }

  lemma PolicyAsRead(input: Policy, output: Policy)
    ensures PolicyAccepted(input) && IsNormalFormOf(output, input) <==> IsNormalPolicyOf(input, output)
  {
    hide NormalRule, IsNormalOf;
    forall rule, normal
      ensures NormalRule(rule) == Some(normal) <==> IsNormalOf(rule, normal)
    {
      RuleAsRead(rule, normal);
    }
    if IsNormalPolicyOf(input, output) {
      forall rule | rule in input.rules ensures NormalRule(rule).Some? {
        var i :| 0 <= i < |input.rules| && input.rules[i] == rule;
        assert NormalRule(rule) == Some(output.rules[i]);
      }
    }
  }

  /** A policy is accepted exactly when it has a normal form. */
  lemma SomeNormalPolicy(input: Policy)
    ensures PolicyAccepted(input) <==> exists policy :: IsNormalPolicyOf(input, policy)
  {
    hide NormalRule, IsNormalOf, IsNormalPolicyOf;
    if PolicyAccepted(input) {
      var rules := seq(|input.rules|, i requires 0 <= i < |input.rules| => NormalRule(input.rules[i]).value);
      var policy := input.(rules := rules);
      assert IsNormalFormOf(policy, input);
      PolicyAsRead(input, policy);
    }
    if policy :| IsNormalPolicyOf(input, policy) { PolicyAsRead(input, policy); }
  }
}
