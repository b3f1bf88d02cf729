/** The selector language: parser, canonical printer and evaluator. */
module Selector {
  import opened Ordering
  import opened Text

  datatype Clause = Clause(key: string, op: string, values: seq<string>)

  /** What parsing an expression returns: its canonical text and its clauses in that order. */
  datatype Parsed = Parsed(canonical: string, clauses: seq<Clause>)

  const MAX_LENGTH := 1024
  const MAX_CLAUSES := 32

  // ---- the four patterns, as matchers ----

  predicate IsAlnum(c: char) {
    'A' <= c <= 'Z' || 'a' <= c <= 'z' || IsDigit(c)
  }

  predicate IsKeyChar(c: char) {
    IsAlnum(c) || c == '.' || c == '_' || c == '/' || c == '-'
  }

  predicate IsValueChar(c: char) {
    IsKeyChar(c) || c == ':'
  }

  /** labelKeyPattern */
  predicate IsLabelKey(s: string) {
    1 <= |s| <= 127 && IsAlnum(s[0]) && forall c :: c in s ==> IsKeyChar(c)
  }

  /** labelValuePattern */
  predicate IsLabelValue(s: string) {
    1 <= |s| <= 256 && IsAlnum(s[0]) && forall c :: c in s ==> IsValueChar(c)
  }

  /** The longest prefix of key characters. A key is followed by none in any of the
      patterns, so this is the only way their first group can match. */
  function KeyRun(s: string): (k: string)
    ensures k <= s
    ensures forall c :: c in k ==> IsKeyChar(c)
    ensures |k| < |s| ==> !IsKeyChar(s[|k|])
  {
    if s != [] && IsKeyChar(s[0]) then [s[0]] + KeyRun(s[1..]) else []
  }

  /** The longest prefix without white space: the `\S+` group. */
  function WordRun(s: string): (w: string)
    ensures w <= s
    ensures forall c :: c in w ==> !IsRegexSpace(c)
  {
    if s != [] && !IsRegexSpace(s[0]) then [s[0]] + WordRun(s[1..]) else []
  }

  function SkipSpace(s: string): (r: string)
    ensures |r| <= |s|
  {
    if s != [] && IsRegexSpace(s[0]) then SkipSpace(s[1..]) else s
  }

  datatype SetMatch = SetMatch(key: string, op: string, inner: string)

  function MatchSetTail(key: string, op: string, tail: string): Option<SetMatch> {
    var t := SkipSpace(tail);
    if |t| >= 2 && t[0] == '(' && t[|t| - 1] == ')' && '(' !in t[1..|t| - 1] && ')' !in t[1..|t| - 1]
    then Some(SetMatch(key, op, t[1..|t| - 1]))
    else None
  }

  /** setClausePattern */
  function MatchSet(part: string): Option<SetMatch> {
    var key := KeyRun(part);
    var rest := part[|key|..];
    if !IsLabelKey(key) || rest == [] || !IsRegexSpace(rest[0]) then None
    else
      var body := SkipSpace(rest);
      if |body| >= 5 && Lower(body[..5]) == "notin" then MatchSetTail(key, "notin", body[5..])
      else if |body| >= 2 && Lower(body[..2]) == "in" then MatchSetTail(key, "in", body[2..])
      else None
  }

  datatype BinaryMatch = BinaryMatch(key: string, op: string, value: string)

  function MatchOperand(key: string, op: string, tail: string): Option<BinaryMatch> {
    var t := SkipSpace(tail);
    var value := WordRun(t);
    if value != [] && SkipSpace(t[|value|..]) == [] then Some(BinaryMatch(key, op, value)) else None
  }

  /** binaryPattern. The pattern can also read `a==` as `a` `=` `=`; that operand is no
      label value, so the clause is refused either way. */
  function MatchBinary(part: string): Option<BinaryMatch> {
    var key := KeyRun(part);
    var rest := SkipSpace(part[|key|..]);
    if !IsLabelKey(key) then None
    else if |rest| >= 2 && rest[..2] == "==" then MatchOperand(key, "==", rest[2..])
    else if |rest| >= 2 && rest[..2] == "!=" then MatchOperand(key, "!=", rest[2..])
    else if |rest| >= 1 && rest[0] == '=' then MatchOperand(key, "=", rest[1..])
    else None
  }

  // ---- one clause ----

  /** canonicalClause. No clause of the parser has an operator without a value. */
  function ClauseText(c: Clause): string {
    if c.op == "exists" then c.key
    else if c.op == "in" || c.op == "notin" then c.key + (" " + c.op + " (" + Join(c.values, ',') + ")")
    else c.key + (c.op + if c.values == [] then [] else c.values[0])
  }

  function CleanValue(raw: string): string {
    Lower(Trim(raw))
  }

  function Cleaned(raw: seq<string>): (r: seq<string>)
    ensures |r| == |raw|
    ensures forall i :: 0 <= i < |raw| ==> r[i] == CleanValue(raw[i])
  {
    if raw == [] then [] else [CleanValue(raw[0])] + Cleaned(raw[1..])
  }

  /** The values of a set clause: each valid, no two equal, sorted. */
  ghost function SetValues(inner: string): Option<seq<string>> {
    var values := Cleaned(Split(inner, ','));
    if (forall v :: v in values ==> IsLabelValue(v)) && Distinct(values)
    then Some(Sort(StrLess, values))
    else None
  }

  ghost function ParseClause(part: string): Option<Clause> {
    var m := MatchSet(part);
    if m.Some? then
      var values := SetValues(m.value.inner);
      if values.Some? then Some(Clause(Lower(m.value.key), m.value.op, values.value)) else None
    else
      var b := MatchBinary(part);
      if b.Some? then
        var value := Lower(b.value.value);
        if IsLabelValue(value)
        then Some(Clause(Lower(b.value.key), if b.value.op == "==" then "=" else b.value.op, [value]))
        else None
      else if IsLabelKey(part) then Some(Clause(Lower(part), "exists", []))
      else None
  }

  predicate IsSetClause(c: Clause) {
    c.op == "in" || c.op == "notin"
  }

  /** The clauses the parser produces. */
  ghost predicate ValidClause(c: Clause) {
    && IsLabelKey(c.key) && IsLower(c.key)
    && (forall v :: v in c.values ==> IsLabelValue(v) && IsLower(v))
    && match c.op
       case "exists" => c.values == []
       case "=" => |c.values| == 1
       case "!=" => |c.values| == 1
       case "in" => |c.values| >= 1 && Ascending(StrLess, c.values)
       case "notin" => |c.values| >= 1 && Ascending(StrLess, c.values)
       case _ => false
  }

  /** The value loop of parseSelectorClause. */
  method ParseSetValues(inner: string) returns (r: Option<seq<string>>)
    ensures r == SetValues(inner)
  {
    var raw := Split(inner, ',');
    hide CleanValue, IsLabelValue, Distinct, Elems, Cleaned, Split, Sort;
    NothingListed<string>();
    ghost var cleaned := Cleaned(raw);
    var values := [];
    var seen := {};
    for i := 0 to |raw|
      invariant values == cleaned[..i] && seen == Elems(values)
      invariant forall v :: v in values ==> IsLabelValue(v)
      invariant Distinct(values)
    {
      var value := CleanValue(raw[i]);
      assert value == cleaned[i];
      if !IsLabelValue(value) { return None; }
      ElemsPlus(values, value);
      DistinctMore(values, value);
      assert cleaned[..i + 1] == cleaned[..i] + [cleaned[i]];
      if value in seen {
        DistinctPrefix(cleaned, i + 1);
        return None;
      }
      seen := seen + {value};
      values := values + [value];
    }
    assert values == cleaned;
    return Some(Sort(StrLess, values));
  }

  /** parseSelectorClause */
  method ParseSelectorClause(part: string) returns (r: Option<Clause>)
    ensures r == ParseClause(part)
  {
    var m := MatchSet(part);
    if m.Some? {
      var values := ParseSetValues(m.value.inner);
      if values.None? { return None; }
      return Some(Clause(Lower(m.value.key), m.value.op, values.value));
    }
    var b := MatchBinary(part);
    if b.Some? {
      var value := Lower(b.value.value);
      if !IsLabelValue(value) { return None; }
      return Some(Clause(Lower(b.value.key), if b.value.op == "==" then "=" else b.value.op, [value]));
    }
    if IsLabelKey(part) { return Some(Clause(Lower(part), "exists", [])); }
    return None;
  }

  // ---- the whole expression ----

  /** What remains of splitSelector when `cur` is the clause read so far, `rest` the
      unread text and `depth` the number of open parentheses. */
  function Scan(cur: string, rest: string, depth: nat): Option<seq<string>>
    decreases |rest|
  {
    if rest == [] then
      if depth == 0 && Trim(cur) != [] then Some([Trim(cur)]) else None
    else if rest[0] == '(' then
      if depth == 0 then Scan(cur + "(", rest[1..], 1) else None
    else if rest[0] == ')' then
      if depth > 0 then Scan(cur + ")", rest[1..], depth - 1) else None
    else if rest[0] == ',' && depth == 0 then
      if Trim(cur) == [] then None
      else
        var later := Scan([], rest[1..], 0);
        if later.None? then None else Some([Trim(cur)] + later.value)
    else Scan(cur + [rest[0]], rest[1..], depth)
  }

  /** The number of open parentheses after a character; none when it may not stand here. */
  function DepthAfter(c: char, depth: nat): Option<nat> {
    if c == '(' then if depth == 0 then Some(1) else None
    else if c == ')' then if depth > 0 then Some(depth - 1) else None
    else Some(depth)
  }

  function PartFirst(part: string, later: Option<seq<string>>): Option<seq<string>> {
    if part == [] then None else Prepend([part], later)
  }

  lemma ScanStep(cur: string, rest: string, depth: nat)
    requires rest != []
    ensures Scan(cur, rest, depth) ==
      if rest[0] == ',' && depth == 0 then
        PartFirst(Trim(cur), Scan([], rest[1..], 0))
      else if DepthAfter(rest[0], depth).None? then None
      else Scan(cur + [rest[0]], rest[1..], DepthAfter(rest[0], depth).value)
  {
    hide Trim;
  }

  function Prepend(parts: seq<string>, later: Option<seq<string>>): Option<seq<string>> {
    if later.None? then None else Some(parts + later.value)
  }

  lemma PrependPart(parts: seq<string>, part: string, later: Option<seq<string>>)
    ensures Prepend(parts, Prepend([part], later)) == Prepend(parts + [part], later)
  {
    if later.Some? { assert parts + ([part] + later.value) == parts + [part] + later.value; }
  }

  /** splitSelector */
  method SplitSelector(expression: string) returns (r: Option<seq<string>>)
    ensures r == Scan([], expression, 0)
  {
    hide Trim;
    var parts: seq<string> := [];
    var start := 0;
    var depth := 0;
    ghost var whole := Scan([], expression, 0);
    assert expression[0..0] == [] && expression[0..] == expression;
    assert whole.Some? ==> [] + whole.value == whole.value;
    for index := 0 to |expression|
      invariant 0 <= start <= index && 0 <= depth <= 1
      invariant whole == Prepend(parts, Scan(expression[start..index], expression[index..], depth))
    {
      ghost var cur, rest := expression[start..index], expression[index..];
      var c := expression[index];
      assert rest[0] == c && rest[1..] == expression[index + 1..];
      assert cur + [c] == expression[start..index + 1];
      if c == '(' {
        depth := depth + 1;
        if depth > 1 { return None; }
      } else if c == ')' {
        if depth == 0 { return None; }
        depth := depth - 1;
      } else if c == ',' {
        if depth == 0 {
          var part := Trim(expression[start..index]);
          if part == "" { return None; }
          PrependPart(parts, part, Scan([], expression[index + 1..], 0));
          assert Scan(cur, rest, 0) == Prepend([part], Scan([], expression[index + 1..], 0));
          parts := parts + [part];
          start := index + 1;
          assert expression[start..index + 1] == [];
        }
      }
    }
    assert expression[|expression|..] == [];
    assert expression[start..|expression|] == expression[start..];
    if depth != 0 { return None; }
    var part := Trim(expression[start..]);
    if part == "" { return None; }
    return Some(parts + [part]);
  }

  predicate ClauseLess(a: Clause, b: Clause) {
    StrLess(ClauseText(a), ClauseText(b))
  }

  function Texts(cs: seq<Clause>): (r: seq<string>)
    ensures |r| == |cs|
    ensures forall i :: 0 <= i < |cs| ==> r[i] == ClauseText(cs[i])
  {
    if cs == [] then [] else Texts(cs[..|cs| - 1]) + [ClauseText(cs[|cs| - 1])]
  }

  /** The clauses of the parts, in submitted order; none when a part is no clause or
      two parts have the same canonical text. */
  ghost function ClausesOf(parts: seq<string>): Option<seq<Clause>> {
    if parts == [] then Some([])
    else
      var front := ClausesOf(parts[..|parts| - 1]);
      var last := ParseClause(parts[|parts| - 1]);
      if front.None? || last.None? || ClauseText(last.value) in Texts(front.value) then None
      else Some(front.value + [last.value])
  }

  ghost function Submitted(expression: string): Option<seq<Clause>> {
    if |expression| == 0 || |expression| > MAX_LENGTH then None
    else
      var parts := Scan([], expression, 0);
      if parts.None? || |parts.value| > MAX_CLAUSES then None else ClausesOf(parts.value)
  }

  ghost function ParseSelector(expression: string): Option<Parsed> {
    var cs := Submitted(expression);
    if cs.None? then None
    else Some(Parsed(Join(Sort(StrLess, Texts(cs.value)), ','), Sort(ClauseLess, cs.value)))
  }

  /** The canonical text of an expression. */
  ghost function CanonicalSelector(selector: string): Option<string> {
    var p := ParseSelector(selector);
    if p.None? then None else Some(p.value.canonical)
  }

  lemma {:induction false} ClausesOfPrefix(parts: seq<string>, i: nat)
    requires i <= |parts| && ClausesOf(parts).Some?
    ensures ClausesOf(parts[..i]).Some?
  {
    hide ParseClause;
    if i < |parts| {
      ClausesOfPrefix(parts[..|parts| - 1], i);
      assert parts[..|parts| - 1][..i] == parts[..i];
    } else {
      assert parts[..i] == parts;
    }
  }

  /** The clause loop of parseSelector. */
  method ParseClauses(parts: seq<string>) returns (r: Option<seq<Clause>>, texts: seq<string>)
    ensures r == ClausesOf(parts)
    ensures r.Some? ==> texts == Texts(r.value)
  {
    hide ParseClause, ClauseText;
    var clauses: seq<Clause> := [];
    texts := [];
    var seen := {};
    for i := 0 to |parts|
      invariant ClausesOf(parts[..i]) == Some(clauses)
      invariant texts == Texts(clauses) && seen == Elems(texts)
    {
      ghost var upTo := parts[..i + 1];
      assert upTo[..i] == parts[..i];
      var clause := ParseSelectorClause(parts[i]);
      var known := clause.Some? && ClauseText(clause.value) in seen;
      if clause.None? || known {
        assert ClausesOf(upTo).None?;
        if ClausesOf(parts).Some? { ClausesOfPrefix(parts, i + 1); }
        return None, texts;
      }
      var text := ClauseText(clause.value);
      seen := seen + {text};
      assert (clauses + [clause.value])[..|clauses|] == clauses;
      clauses := clauses + [clause.value];
      texts := texts + [text];
    }
    assert parts[..|parts|] == parts;
    return Some(clauses), texts;
  }

  /** parseSelector */
  method Parse(expression: string) returns (r: Option<Parsed>)
    ensures r == ParseSelector(expression)
  {
    hide ParseClause, ClauseText, Scan, ClausesOf;
    if |expression| == 0 || |expression| > MAX_LENGTH { return None; }
    var parts := SplitSelector(expression);
    if parts.None? { return None; }
    if |parts.value| > MAX_CLAUSES { return None; }
    var clauses, texts := ParseClauses(parts.value);
    if clauses.None? { return None; }
    return Some(Parsed(Join(Sort(StrLess, texts), ','), Sort(ClauseLess, clauses.value)));
  }

  // ---- evaluation ----

  /** One clause against a label map: the key must be present, even for a negative test. */
  predicate Holds(c: Clause, labels: map<string, string>) {
    c.key in labels &&
    match c.op
    case "exists" => true
    case "=" => c.values != [] && labels[c.key] == c.values[0]
    case "!=" => c.values != [] && labels[c.key] != c.values[0]
    case "in" => labels[c.key] in c.values
    case "notin" => labels[c.key] !in c.values
    case _ => false
  }

  /** What a clause asks of the value: one of those listed, or none of them; a clause without
      values asks nothing. */
  predicate Tests(c: Clause, value: string) {
    if c.op == "!=" || c.op == "notin" then forall v :: v in c.values ==> value != v
    else c.values == [] || exists v :: v in c.values && value == v
  }

  lemma HoldsByTest(c: Clause, labels: map<string, string>)
    requires ValidClause(c)
    ensures Holds(c, labels) <==> c.key in labels && Tests(c, labels[c.key])
  {
    hide IsLabelKey, IsLabelValue, StrLess;
    if |c.values| == 1 {
      assert c.values[0] in c.values && forall v :: v in c.values ==> v == c.values[0];
    }
  }

  lemma LessUpTo(values: seq<string>, target: string, h: nat)
    requires Ascending(StrLess, values) && h < |values| && StrLess(values[h], target)
    ensures forall k :: 0 <= k <= h ==> StrLess(values[k], target)
  {
    hide StrLess;
    StringsAreOrdered();
    assert forall k :: 0 <= k < h ==> StrLess(values[k], values[h]);
  }

  lemma NotLessFrom(values: seq<string>, target: string, h: nat)
    requires Ascending(StrLess, values) && h < |values| && !StrLess(values[h], target)
    ensures forall k :: h <= k < |values| ==> !StrLess(values[k], target)
  {
    hide StrLess;
    StringsAreOrdered();
    assert forall k :: h < k < |values| ==> StrLess(values[h], values[k]);
  }

  /** sort.SearchStrings: the least index whose element is not less than the target. */
  method SearchStrings(values: seq<string>, target: string) returns (index: nat)
    requires Ascending(StrLess, values)
    ensures index <= |values|
    ensures forall i :: 0 <= i < index ==> StrLess(values[i], target)
    ensures forall i :: index <= i < |values| ==> !StrLess(values[i], target)
  {
    hide StrLess;
    var i, j := 0, |values|;
    while i < j
      invariant 0 <= i <= j <= |values|
      invariant forall k :: 0 <= k < i ==> StrLess(values[k], target)
      invariant forall k :: j <= k < |values| ==> !StrLess(values[k], target)
    {
      var h := (i + j) / 2;
      if StrLess(values[h], target) {
        LessUpTo(values, target, h);
        i := h + 1;
      } else {
        NotLessFrom(values, target, h);
        j := h;
      }
    }
    index := i;
  }

  /** containsString */
  method ContainsString(values: seq<string>, target: string) returns (found: bool)
    requires Ascending(StrLess, values)
    ensures found <==> target in values
  {
    StringsAreOrdered();
    var index := SearchStrings(values, target);
    found := index < |values| && values[index] == target;
    assert forall k :: index < k < |values| ==> StrLess(values[index], values[k]);
  }

  /** parsedSelector.matches */
  method Matches(selector: seq<Clause>, labels: map<string, string>) returns (ok: bool)
    requires forall c :: c in selector ==> ValidClause(c)
    ensures ok <==> forall c :: c in selector ==> c.key in labels && Tests(c, labels[c.key])
    ensures ok <==> forall c :: c in selector ==> Holds(c, labels)
  {
    forall c | c in selector ensures Holds(c, labels) <==> c.key in labels && Tests(c, labels[c.key]) {
      HoldsByTest(c, labels);
    }
    for i := 0 to |selector|
      invariant forall k :: 0 <= k < i ==> Holds(selector[k], labels)
    {
      var clause := selector[i];
      assert clause in selector && ValidClause(clause);
      if clause.key !in labels { return false; }
      var value := labels[clause.key];
      match clause.op {
        case "exists" =>
        case "=" =>
          if value != clause.values[0] { return false; }
        case "!=" =>
          if value == clause.values[0] { return false; }
        case "in" =>
          var found := ContainsString(clause.values, value);
          if !found { return false; }
        case "notin" =>
          var found := ContainsString(clause.values, value);
          if found { return false; }
        case _ => return false;
      }
    }
    return true;
  }
}
