/** The selector parser and printer undo each other. */
module SelectorLaws {
  import opened Ordering
  import opened Text
  import opened Selector

  // ---- matchers on printed text ----

  lemma {:induction false} KeyRunOf(k: string, rest: string)
    requires forall c :: c in k ==> IsKeyChar(c)
    requires rest == [] || !IsKeyChar(rest[0])
    ensures KeyRun(k + rest) == k && (k + rest)[|k|..] == rest
  {
    if k == [] {
      assert k + rest == rest;
    } else {
      assert (k + rest)[1..] == k[1..] + rest;
      KeyRunOf(k[1..], rest);
      assert k == [k[0]] + k[1..];
    }
  }

  lemma {:induction false} WordRunOf(w: string)
    requires forall c :: c in w ==> !IsRegexSpace(c)
    ensures WordRun(w) == w
  {
    if w != [] { WordRunOf(w[1..]); }
  }

  lemma KeyAlone(c: Clause)
    requires ValidClause(c) && c.op == "exists"
    ensures ParseClause(ClauseText(c)) == Some(c)
  {
    KeyRunOf(c.key, []);
    assert c.key + [] == c.key;
    LowerOfLower(c.key);
  }

  lemma ComparisonIsNoSet(key: string, rest: string)
    requires IsLabelKey(key) && rest != [] && !IsKeyChar(rest[0]) && !IsRegexSpace(rest[0])
    ensures MatchSet(key + rest).None?
  {
    KeyRunOf(key, rest);
    hide KeyRun, SkipSpace;
  }

  lemma ComparisonText(c: Clause)
    requires ValidClause(c) && (c.op == "=" || c.op == "!=")
    ensures ParseClause(ClauseText(c)) == Some(c)
  {
    var v := c.values[0];
    var rest := c.op + v;
    var part := c.key + rest;
    assert v in c.values;
    assert MatchSet(part).None? by { ComparisonIsNoSet(c.key, rest); }
    hide MatchSet, MatchBinary, KeyRun, IsLabelKey;
    OperandOf(c, v);
    LowerOfLower(c.key);
    LowerOfLower(v);
    assert c.values == [v];
  }

  lemma OperandAlone(key: string, op: string, v: string)
    requires IsLabelValue(v)
    ensures MatchOperand(key, op, v) == Some(BinaryMatch(key, op, v))
  {
    assert v[0] in v;
    assert SkipSpace(v) == v;
    forall ch | ch in v ensures !IsRegexSpace(ch) { assert IsValueChar(ch); }
    WordRunOf(v);
    assert v[|v|..] == [];
  }

  lemma ValueStart(v: string)
    requires IsLabelValue(v)
    ensures v != [] && v[0] != '=' && !IsKeyChar('=') && !IsKeyChar('!')
  {
  }

  lemma OperandOf(c: Clause, v: string)
    requires ValidClause(c) && (c.op == "=" || c.op == "!=") && IsLabelValue(v)
    ensures MatchBinary(c.key + (c.op + v)) == Some(BinaryMatch(c.key, c.op, v))
  {
    var rest := c.op + v;
    hide MatchOperand, KeyRun, IsLabelValue, Ascending;
    KeyRunOf(c.key, rest);
    ValueStart(v);
    assert SkipSpace(rest) == rest;
    OperandAlone(c.key, c.op, v);
    hide SkipSpace;
    if c.op == "=" {
      assert rest[1..] == v;
      assert rest[..2] != "==" && rest[..2] != "!=" by { assert rest[1] == v[0] && rest[0] == '='; }
    } else {
      assert rest[..2] == "!=" && rest[2..] == v;
    }
  }

  lemma {:induction false} JoinAvoids(parts: seq<string>, c: char)
    requires c != ',' && forall p :: p in parts ==> c !in p
    ensures c !in Join(parts, ',')
  {
    if |parts| > 1 {
      assert forall p :: p in parts[1..] ==> p in parts;
      JoinAvoids(parts[1..], c);
    }
  }

  lemma CleanedValue(v: string)
    requires IsLabelValue(v) && IsLower(v)
    ensures CleanValue(v) == v
  {
    assert v[|v| - 1] in v;
    assert IsValueChar(v[|v| - 1]) && !IsSpace(v[|v| - 1]);
    assert !IsSpace(v[0]);
    hide Trim, Lower, IsLower, IsLabelValue, IsSpace;
    LowerOfLower(v);
  }

  lemma {:induction false} CleanedValues(values: seq<string>)
    requires forall v :: v in values ==> IsLabelValue(v) && IsLower(v)
    ensures Cleaned(values) == values
  {
    hide CleanValue;
    forall i | 0 <= i < |values| ensures CleanValue(values[i]) == values[i] {
      assert values[i] in values;
      CleanedValue(values[i]);
    }
  }

  lemma SortedValues(values: seq<string>)
    requires Ascending(StrLess, values)
    ensures Distinct(values) && Sort(StrLess, values) == values
  {
    StringsAreOrdered();
    forall i, j | 0 <= i < j < |values| ensures values[i] != values[j] {
      assert StrLess(values[i], values[j]);
    }
    SortStrings(values);
    StrListIs(values);
  }

  lemma SetValuesOf(values: seq<string>)
    requires |values| >= 1 && Ascending(StrLess, values)
    requires forall v :: v in values ==> IsLabelValue(v) && IsLower(v)
    ensures SetValues(Join(values, ',')) == Some(values)
  {
    hide CleanValue, Split, Sort, Join, Cleaned, StrLess;
    forall v | v in values ensures ',' !in v {
      assert forall ch :: ch in v ==> IsValueChar(ch);
    }
    SplitUndoesJoin(values, ',');
    CleanedValues(values);
    SortedValues(values);
  }

  lemma MatchSetTailOf(key: string, op: string, inner: string)
    requires '(' !in inner && ')' !in inner
    ensures MatchSetTail(key, op, " (" + inner + ")") == Some(SetMatch(key, op, inner))
  {
    var tail := " (" + inner + ")";
    var open := "(" + inner + ")";
    assert tail[1..] == open && SkipSpace(open) == open;
    assert open[1..|open| - 1] == inner;
  }

  lemma MatchSetOf(key: string, op: string, inner: string)
    requires IsLabelKey(key) && (op == "in" || op == "notin")
    requires '(' !in inner && ')' !in inner
    ensures MatchSet(key + (" " + op + " (" + inner + ")")) == Some(SetMatch(key, op, inner))
  {
    hide MatchSetTail;
    var tail := " (" + inner + ")";
    var body := op + tail;
    var rest := " " + op + " (" + inner + ")";
    assert rest == [' '] + body && rest[1..] == body;
    KeyRunOf(key, rest);
    assert SkipSpace(body) == body;
    assert body[|op|..] == tail && body[..|op|] == op;
    MatchSetTailOf(key, op, inner);
    LowerOfLower(op);
    if op == "in" {
      assert Lower(body[..5])[0] == 'i' != "notin"[0];
    }
  }

  lemma SetText(c: Clause)
    requires ValidClause(c) && IsSetClause(c)
    ensures ParseClause(ClauseText(c)) == Some(c)
  {
    hide CleanValue;
    forall v | v in c.values ensures '(' !in v && ')' !in v {
      assert forall ch :: ch in v ==> IsValueChar(ch);
    }
    JoinAvoids(c.values, '(');
    JoinAvoids(c.values, ')');
    MatchSetOf(c.key, c.op, Join(c.values, ','));
    SetValuesOf(c.values);
    LowerOfLower(c.key);
  }

  /** Parsing the canonical text of a clause gives the clause back. */
  lemma ClauseRoundTrip(c: Clause)
    requires ValidClause(c)
    ensures ParseClause(ClauseText(c)) == Some(c)
  {
    if c.op == "exists" { KeyAlone(c); }
    else if IsSetClause(c) { SetText(c); }
    else { ComparisonText(c); }
  }

  /** Distinct clauses have distinct canonical text. */
  lemma ClauseTextIsInjective(a: Clause, b: Clause)
    requires ValidClause(a) && ValidClause(b) && ClauseText(a) == ClauseText(b)
    ensures a == b
  {
    hide ParseClause;
    ClauseRoundTrip(a);
    ClauseRoundTrip(b);
  }

  // ---- what the parser produces ----

  lemma MatchSetLength(part: string)
    requires MatchSet(part).Some?
    ensures var m := MatchSet(part).value;
      IsLabelKey(m.key) && (m.op == "in" || m.op == "notin") &&
      |m.key| + 1 + |m.op| + 2 + |m.inner| <= |part|
  {
  }

  lemma CleanShortens(raw: string)
    ensures |CleanValue(raw)| <= |raw| && IsLower(CleanValue(raw))
  {
    LowerIsIdempotent(Trim(raw));
  }

  lemma {:induction false} CleanedLength(raw: seq<string>)
    ensures TotalLength(Cleaned(raw)) <= TotalLength(raw)
  {
    hide CleanValue;
    if raw != [] {
      CleanShortens(raw[0]);
      CleanedLength(raw[1..]);
      assert Cleaned(raw)[1..] == Cleaned(raw[1..]);
    }
  }

  lemma SetValuesAre(inner: string)
    requires SetValues(inner).Some?
    ensures var values := SetValues(inner).value;
      |values| >= 1 && Ascending(StrLess, values) &&
      (forall v :: v in values ==> IsLabelValue(v) && IsLower(v)) &&
      |Join(values, ',')| <= |inner|
  {
    hide IsLabelValue, StrLess, Join, Split, Sort, CleanValue, Cleaned, TotalLength, IsLower;
    var raw := Split(inner, ',');
    var cleaned := Cleaned(raw);
    var values := SetValues(inner).value;
    SortStrings(cleaned);
    MultisetElems(values, cleaned);
    forall v | v in values ensures IsLabelValue(v) && IsLower(v) {
      var i :| 0 <= i < |cleaned| && cleaned[i] == v by { assert v in Elems(cleaned); }
      CleanShortens(raw[i]);
    }
    SplitLength(inner, ',');
    CleanedLength(raw);
    TotalLengthPermuted(values, cleaned);
    JoinLength(values, ',');
  }

  lemma LowerKey(key: string)
    requires IsLabelKey(key)
    ensures IsLabelKey(Lower(key)) && IsLower(Lower(key))
  {
    var k := Lower(key);
    forall i | 0 <= i < |k| ensures IsKeyChar(k[i]) {
      assert key[i] in key;
    }
    LowerIsIdempotent(key);
  }

  lemma SetClauseIsValid(part: string)
    requires MatchSet(part).Some? && ParseClause(part).Some?
    ensures var c := ParseClause(part).value;
      ValidClause(c) && IsSetClause(c) && |ClauseText(c)| <= |part| + 1
  {
    hide IsLabelKey, IsLabelValue, MatchSet, SetValues, MatchBinary, StrLess, Join;
    MatchSetLength(part);
    SetValuesAre(MatchSet(part).value.inner);
    LowerKey(MatchSet(part).value.key);
  }

  lemma OtherClauseIsValid(part: string)
    requires MatchSet(part).None? && ParseClause(part).Some?
    ensures var c := ParseClause(part).value;
      ValidClause(c) && !IsSetClause(c) && |ClauseText(c)| <= |part|
  {
    hide MatchSet, IsLabelValue;
    var b := MatchBinary(part);
    if b.Some? {
      LowerKey(b.value.key);
      LowerIsIdempotent(b.value.value);
    } else {
      LowerKey(part);
    }
  }

  function SetCost(c: Clause): nat {
    if IsSetClause(c) then 1 else 0
  }

  /** Every accepted clause is valid, and its canonical text is longer than the submitted
      one by at most the blank a set clause may gain. */
  lemma ClauseIsValid(part: string)
    requires ParseClause(part).Some?
    ensures var c := ParseClause(part).value;
      ValidClause(c) && |ClauseText(c)| <= |part| + SetCost(c)
  {
    hide ParseClause, ClauseText, ValidClause;
    if MatchSet(part).Some? { SetClauseIsValid(part); } else { OtherClauseIsValid(part); }
  }

  // ---- splitting printed text ----

  /** Text without separators, or without parentheses inside one, joins the current clause. */
  lemma {:induction false} ScanText(cur: string, t: string, rest: string, depth: nat)
    requires '(' !in t && ')' !in t && (',' !in t || depth > 0)
    ensures Scan(cur, t + rest, depth) == Scan(cur + t, rest, depth)
    decreases |t|
  {
    hide Trim;
    if t == [] {
      assert t + rest == rest && cur + t == cur;
    } else {
      assert t[0] in t && forall c :: c in t[1..] ==> c in t;
      assert (t + rest)[0] == t[0] && (t + rest)[1..] == t[1..] + rest;
      ScanText(cur + [t[0]], t[1..], rest, depth);
      assert cur + [t[0]] + t[1..] == cur + t;
    }
  }

  lemma ScanSetClause(head: string, inner: string, rest: string)
    requires '(' !in head && ')' !in head && ',' !in head
    requires '(' !in inner && ')' !in inner
    ensures Scan([], head + "(" + inner + ")" + rest, 0) == Scan(head + "(" + inner + ")", rest, 0)
  {
    hide Trim;
    var close := ")" + rest;
    var open := "(" + (inner + close);
    assert head + "(" + inner + ")" + rest == head + open;
    ScanText([], head, open, 0);
    assert [] + head == head && open[1..] == inner + close;
    ScanText(head + "(", inner, close, 1);
    assert close[1..] == rest;
  }

  /** A clause's canonical text is read back as one part. */
  lemma ScanSetText(c: Clause, rest: string)
    requires ValidClause(c) && IsSetClause(c)
    ensures Scan([], ClauseText(c) + rest, 0) == Scan(ClauseText(c), rest, 0)
  {
    hide Scan, Trim, Join, StrLess;
    var head := c.key + " " + c.op + " ";
    var inner := Join(c.values, ',');
    assert ClauseText(c) == head + "(" + inner + ")";
    ValuesAvoid(c.values);
    JoinAvoids(c.values, '(');
    JoinAvoids(c.values, ')');
    ScanSetClause(head, inner, rest);
  }

  lemma ValuesAvoid(values: seq<string>)
    requires forall v :: v in values ==> IsLabelValue(v)
    ensures forall v :: v in values ==> '(' !in v && ')' !in v
  {
    forall v | v in values ensures '(' !in v && ')' !in v { assert forall ch :: ch in v ==> IsValueChar(ch); }
  }

  lemma ScanClause(c: Clause, rest: string)
    requires ValidClause(c)
    ensures Scan([], ClauseText(c) + rest, 0) == Scan(ClauseText(c), rest, 0)
  {
    hide Scan, Trim, Join, StrLess;
    if IsSetClause(c) {
      ScanSetText(c, rest);
    } else {
      var text := ClauseText(c);
      assert c.op == "=" || c.op == "!=" ==> c.values[0] in c.values;
      ScanText([], text, rest, 0);
      assert [] + text == text;
    }
  }

  lemma TextIsTrimmed(c: Clause)
    requires ValidClause(c)
    ensures ClauseText(c) != [] && Trim(ClauseText(c)) == ClauseText(c)
  {
    hide Trim, Join, StrLess;
    var text := ClauseText(c);
    assert text[0] == c.key[0] && !IsSpace(text[0]);
    var last := text[|text| - 1];
    if IsSetClause(c) {
      assert last == ')';
    } else if c.op == "exists" {
      assert last in c.key && IsKeyChar(last);
    } else {
      var v := c.values[0];
      assert v in c.values && last == v[|v| - 1] && v[|v| - 1] in v;
      assert IsValueChar(last);
    }
  }

  /** The clause lists the parser returns. */
  ghost predicate ValidSelector(cs: seq<Clause>) {
    && 1 <= |cs| <= MAX_CLAUSES
    && (forall c :: c in cs ==> ValidClause(c))
    && Ascending(StrLess, Texts(cs))
  }

  /** The canonical text of a clause list. */
  function CanonicalText(cs: seq<Clause>): string {
    Join(Texts(cs), ',')
  }

  lemma JoinStep(parts: seq<string>)
    requires |parts| > 1
    ensures Join(parts, ',') == parts[0] + ([','] + Join(parts[1..], ','))
  {
    var rest := Join(parts[1..], ',');
    assert parts[0] + [','] + rest == parts[0] + ([','] + rest);
  }

  lemma CanonicalFirst(cs: seq<Clause>)
    requires |cs| > 1
    ensures CanonicalText(cs) == ClauseText(cs[0]) + ([','] + CanonicalText(cs[1..]))
    ensures Texts(cs) == [ClauseText(cs[0])] + Texts(cs[1..])
  {
    hide ClauseText, Texts, Join;
    assert cs == [cs[0]] + cs[1..];
    TextsFirst(cs[0], cs[1..]);
    assert Texts(cs)[1..] == Texts(cs[1..]);
    JoinStep(Texts(cs));
  }

  lemma CanonicalOne(c: Clause)
    ensures CanonicalText([c]) == ClauseText(c) && Texts([c]) == [ClauseText(c)]
  {
    hide ClauseText;
  }

  lemma ScanStops(text: string)
    requires text != [] && Trim(text) == text
    ensures Scan(text, [], 0) == Some([text])
    ensures forall rest :: Scan(text, [','] + rest, 0) == Prepend([text], Scan([], rest, 0))
  {
    hide Trim;
    forall rest ensures Scan(text, [','] + rest, 0) == Prepend([text], Scan([], rest, 0)) {
      assert ([','] + rest)[1..] == rest;
    }
  }

  lemma {:induction false} ScanCanonical(cs: seq<Clause>)
    requires cs != [] && forall c :: c in cs ==> ValidClause(c)
    ensures Scan([], CanonicalText(cs), 0) == Some(Texts(cs))
  {
    hide Trim, ValidClause, ClauseText, CanonicalText, Scan, Texts;
    var text := ClauseText(cs[0]);
    TextIsTrimmed(cs[0]);
    ScanStops(text);
    if |cs| == 1 {
      assert cs == [cs[0]] && text + [] == text;
      CanonicalOne(cs[0]);
      ScanClause(cs[0], []);
    } else {
      assert forall c :: c in cs[1..] ==> c in cs;
      ScanCanonical(cs[1..]);
      CanonicalFirst(cs);
      ScanClause(cs[0], [','] + CanonicalText(cs[1..]));
    }
  }

  lemma ClausesOfLast(front: seq<Clause>, last: Clause)
    requires Distinct(Texts(front + [last])) && ValidClause(last)
    requires ClausesOf(Texts(front)) == Some(front)
    ensures ClausesOf(Texts(front + [last])) == Some(front + [last])
  {
    hide ParseClause, ValidClause, ClauseText, Texts;
    var texts := Texts(front + [last]);
    assert texts == Texts(front) + [ClauseText(last)];
    assert texts[..|front|] == Texts(front);
    assert forall i :: 0 <= i < |front| ==> texts[i] != texts[|front|];
    ClauseRoundTrip(last);
  }

  lemma {:induction false} ClausesOfTexts(cs: seq<Clause>)
    requires Distinct(Texts(cs)) && forall c :: c in cs ==> ValidClause(c)
    ensures ClausesOf(Texts(cs)) == Some(cs)
  {
    hide ParseClause, ValidClause, ClauseText;
    if cs != [] {
      var front, last := cs[..|cs| - 1], cs[|cs| - 1];
      assert cs == front + [last];
      forall i, j | 0 <= i < j < |front| ensures Texts(front)[i] != Texts(front)[j] {
        assert Texts(cs)[i] != Texts(cs)[j];
      }
      hide Texts, ClausesOf;
      ClausesOfTexts(front);
      ClausesOfLast(front, last);
    }
  }

  // ---- sorting clauses by their text ----

  lemma TextsFirst(x: Clause, s: seq<Clause>)
    ensures Texts([x] + s) == [ClauseText(x)] + Texts(s)
  {
    hide ClauseText;
  }

  lemma {:induction false} InsertTexts(x: Clause, s: seq<Clause>)
    ensures Texts(Insert(ClauseLess, x, s)) == Insert(StrLess, ClauseText(x), Texts(s))
  {
    hide ClauseText, StrLess, Texts;
    TextsFirst(x, s);
    if s == [] {
      assert Texts([]) == [] && [x] + [] == [x];
    } else {
      var first, later := s[0], s[1..];
      assert s == [first] + later;
      TextsFirst(first, later);
      assert Texts(s)[1..] == Texts(later);
      if !ClauseLess(x, first) {
        InsertTexts(x, later);
        TextsFirst(first, Insert(ClauseLess, x, later));
      }
    }
  }

  lemma {:induction false} SortTexts(s: seq<Clause>)
    ensures Texts(Sort(ClauseLess, s)) == Sort(StrLess, Texts(s))
  {
    hide ClauseText, StrLess, Insert;
    if s != [] {
      SortTexts(s[..|s| - 1]);
      InsertTexts(s[|s| - 1], Sort(ClauseLess, s[..|s| - 1]));
      assert Texts(s)[..|s| - 1] == Texts(s[..|s| - 1]);
    }
  }

  lemma SortValidSelector(cs: seq<Clause>)
    requires ValidSelector(cs)
    ensures Sort(ClauseLess, cs) == cs && Sort(StrLess, Texts(cs)) == Texts(cs) && Distinct(Texts(cs))
  {
    hide ClauseText, ValidClause, StrLess, Texts, Sort;
    SortedValues(Texts(cs));
    StringsAreOrdered();
    forall i, j | 0 <= i < j < |cs| ensures !ClauseLess(cs[j], cs[i]) {
      assert StrLess(Texts(cs)[i], Texts(cs)[j]);
    }
    SortFixesSorted(ClauseLess, cs);
  }

  /** The printer's output is read back as printed, exactly when it is short enough. */
  lemma PrintThenParse(cs: seq<Clause>)
    requires ValidSelector(cs)
    ensures ParseSelector(CanonicalText(cs)) ==
      if |CanonicalText(cs)| <= MAX_LENGTH then Some(Parsed(CanonicalText(cs), cs)) else None
  {
    hide ClauseText, ValidClause, ParseClause, Scan, Join, Sort, Texts;
    ScanCanonical(cs);
    SortValidSelector(cs);
    ClausesOfTexts(cs);
    JoinLength(Texts(cs), ',');
    TextIsTrimmed(cs[0]);
    FirstIsCounted(Texts(cs));
  }

  lemma FirstIsCounted(parts: seq<string>)
    requires parts != []
    ensures |Join(parts, ',')| >= |parts[0]|
  {
  }

  // ---- every accepted expression ----

  lemma {:induction false} ScanLength(cur: string, rest: string, depth: nat)
    requires Scan(cur, rest, depth).Some?
    ensures var parts := Scan(cur, rest, depth).value;
      parts != [] && TotalLength(parts) + |parts| <= |cur| + |rest| + 1
    decreases |rest|
  {
    hide Trim;
    if rest == [] {
      TrimShortens(cur);
      assert ([Trim(cur)])[1..] == [];
    } else if rest[0] == ',' && depth == 0 {
      TrimShortens(cur);
      ScanLength([], rest[1..], 0);
      var later := Scan([], rest[1..], 0).value;
      assert ([Trim(cur)] + later)[1..] == later;
    } else {
      ScanLength(cur + [rest[0]], rest[1..], if rest[0] == '(' then 1 else if rest[0] == ')' then depth - 1 else depth);
    }
  }

  lemma TrimShortens(s: string)
    ensures |Trim(s)| <= |s|
  {
  }

  function SetClauseCount(cs: seq<Clause>): (n: nat)
    ensures n <= |cs|
  {
    if cs == [] then 0 else SetClauseCount(cs[..|cs| - 1]) + SetCost(cs[|cs| - 1])
  }

  lemma {:induction false} ClausesOfAre(parts: seq<string>)
    requires ClausesOf(parts).Some?
    ensures var cs := ClausesOf(parts).value;
      |cs| == |parts| && (forall c :: c in cs ==> ValidClause(c)) && Distinct(Texts(cs)) &&
      TotalLength(Texts(cs)) <= TotalLength(parts) + SetClauseCount(cs)
  {
    hide ParseClause, ValidClause, ClauseText, IsSetClause;
    if parts != [] {
      var front, part := parts[..|parts| - 1], parts[|parts| - 1];
      ClausesOfAre(front);
      ClauseIsValid(part);
      var cs, c := ClausesOf(front).value, ParseClause(part).value;
      assert ClausesOf(parts).value == cs + [c];
      assert SetClauseCount(cs + [c]) == SetClauseCount(cs) + SetCost(c) by { assert (cs + [c])[..|cs|] == cs; }
      hide ClausesOf, Texts, SetClauseCount, SetCost, TotalLength;
      assert parts == front + [part];
      assert Texts(cs + [c]) == Texts(cs) + [ClauseText(c)];
      TotalLengthSnoc(front, part);
      TotalLengthSnoc(Texts(cs), ClauseText(c));
    }
  }

  /** What parsing returns: a valid clause list and its text, longer than the submitted
      expression by at most one byte per set clause. */
  lemma ParsedIsValid(expression: string)
    requires ParseSelector(expression).Some?
    ensures var p := ParseSelector(expression).value;
      ValidSelector(p.clauses) && p.canonical == CanonicalText(p.clauses)
    ensures |ParseSelector(expression).value.canonical|
         <= |expression| + SetClauseCount(Submitted(expression).value)
    ensures |ParseSelector(expression).value.canonical| <= |expression| + MAX_CLAUSES
    ensures multiset(ParseSelector(expression).value.clauses) == multiset(Submitted(expression).value)
  {
    hide ValidClause, ClauseText, ClausesOf, Scan, Join, Sort, Texts, StrLess, SetClauseCount, TotalLength;
    var parts := Scan([], expression, 0).value;
    ScanLength([], expression, 0);
    ClausesOfAre(parts);
    var cs := ClausesOf(parts).value;
    var p := ParseSelector(expression).value;
    SortTexts(cs);
    SortStrings(Texts(cs));
    forall c | c in p.clauses ensures ValidClause(c) {
      MultisetElems(p.clauses, cs);
      assert c in Elems(p.clauses);
    }
    TotalLengthPermuted(Texts(cs), Sort(StrLess, Texts(cs)));
    JoinLength(Sort(StrLess, Texts(cs)), ',');
  }

  /** Parsing the canonical text of an accepted expression succeeds exactly when that text
      is within the length limit, and then returns the same text and the same clauses. */
  lemma ParseThenParse(expression: string)
    requires ParseSelector(expression).Some?
    ensures var p := ParseSelector(expression).value;
      ParseSelector(p.canonical) == if |p.canonical| <= MAX_LENGTH then Some(p) else None
    ensures |expression| <= MAX_LENGTH - MAX_CLAUSES ==>
      ParseSelector(ParseSelector(expression).value.canonical) == ParseSelector(expression)
  {
    hide ParseSelector, CanonicalText, ValidSelector;
    ParsedIsValid(expression);
    PrintThenParse(ParseSelector(expression).value.clauses);
  }

  // ---- the limit is met for real ----

  /** A set clause written without the blank the printer adds. */
  function TightText(c: Clause): string {
    c.key + (" in(" + Join(c.values, ',') + ")")
  }

  lemma MatchTight(key: string, inner: string)
    requires IsLabelKey(key) && '(' !in inner && ')' !in inner
    ensures MatchSet(key + (" in(" + inner + ")")) == Some(SetMatch(key, "in", inner))
  {
    var open := "(" + inner + ")";
    var body := "in" + open;
    var rest := " in(" + inner + ")";
    assert rest == [' '] + body && rest[1..] == body;
    KeyRunOf(key, rest);
    assert SkipSpace(body) == body && body[..2] == "in" && body[2..] == open;
    LowerOfLower("in");
    assert |body| >= 5 ==> Lower(body[..5])[0] == 'i' != "notin"[0];
    assert SkipSpace(open) == open && open[1..|open| - 1] == inner;
  }

  lemma TightClause(c: Clause)
    requires ValidClause(c) && c.op == "in"
    ensures ParseClause(TightText(c)) == Some(c)
  {
    hide Join, StrLess;
    NoParentheses(c);
    MatchTight(c.key, Join(c.values, ','));
    SetValuesOf(c.values);
    LowerOfLower(c.key);
  }

  /** A set clause of exactly 1025 canonical bytes parses when written tightly in 1024,
      and its canonical text is then refused. */
  lemma OverlongCanonical(c: Clause)
    requires ValidClause(c) && c.op == "in" && |ClauseText(c)| == MAX_LENGTH + 1
    ensures ParseSelector(TightText(c)) == Some(Parsed(ClauseText(c), [c]))
    ensures ParseSelector(ClauseText(c)).None?
  {
    hide ParseClause, ParseSelector, Join, ClauseText;
    TightClause(c);
    NoParentheses(c);
    TightScan(c, c.key + " in", Join(c.values, ','));
    TightParse(c);
  }

  lemma NoParentheses(c: Clause)
    requires ValidClause(c) && c.op == "in"
    ensures '(' !in Join(c.values, ',') && ')' !in Join(c.values, ',')
    ensures '(' !in c.key && ')' !in c.key && ',' !in c.key
  {
    hide Join;
    ValuesAvoid(c.values);
    JoinAvoids(c.values, '(');
    JoinAvoids(c.values, ')');
  }

  lemma TightScan(c: Clause, head: string, inner: string)
    requires IsLabelKey(c.key) && head == c.key + " in" && inner == Join(c.values, ',')
    requires '(' !in c.key && ')' !in c.key && ',' !in c.key && '(' !in inner && ')' !in inner
    ensures Scan([], TightText(c), 0) == Some([TightText(c)])
  {
    hide Join;
    var t := TightText(c);
    assert t == head + "(" + inner + ")" && t + [] == t;
    assert t[0] == c.key[0] && !IsSpace(t[0]) && t[|t| - 1] == ')';
    hide TightText, Scan, Trim, IsLabelKey;
    ScanSetClause(head, inner, []);
    ScanEnd(t);
  }

  lemma ScanEnd(t: string)
    requires t != [] && !IsSpace(t[0]) && !IsSpace(t[|t| - 1])
    ensures Scan(t, [], 0) == Some([t])
  {
  }

  lemma OneClause(part: string, c: Clause)
    requires ParseClause(part) == Some(c)
    ensures ClausesOf([part]) == Some([c])
  {
    hide ParseClause, ClauseText;
    assert ([part])[..|[part]| - 1] == [] && ClausesOf([]) == Some([]);
    assert [] + [c] == [c] && Texts([]) == [];
  }

  lemma SingleClause(part: string, c: Clause)
    requires Scan([], part, 0) == Some([part]) && ParseClause(part) == Some(c)
    requires 1 <= |part| <= MAX_LENGTH
    ensures ParseSelector(part) == Some(Parsed(ClauseText(c), [c]))
  {
    hide ParseClause, Scan, ClausesOf, ClauseText, Texts, Sort;
    OneClause(part, c);
    assert Texts([c]) == [ClauseText(c)];
    SortFixesSorted(ClauseLess, [c]);
    SortFixesSorted(StrLess, Texts([c]));
  }

  lemma TightParse(c: Clause)
    requires Scan([], TightText(c), 0) == Some([TightText(c)]) && ParseClause(TightText(c)) == Some(c)
    requires ValidClause(c) && c.op == "in" && |ClauseText(c)| == MAX_LENGTH + 1
    ensures ParseSelector(TightText(c)) == Some(Parsed(ClauseText(c), [c]))
    ensures ParseSelector(ClauseText(c)).None?
  {
    hide ParseClause, ValidClause, Scan, Join;
    assert |TightText(c)| == MAX_LENGTH;
    hide ClauseText, TightText;
    SingleClause(TightText(c), c);
  }

  function Repeat(ch: char, n: nat): (r: string)
    ensures |r| == n && forall i :: 0 <= i < n ==> r[i] == ch
  {
    seq(n, _ => ch)
  }

  /** A clause whose canonical text has 1025 bytes. */
  function LongClause(): Clause {
    Clause("k", "in", [Repeat('a', 256), Repeat('b', 256), Repeat('c', 256), Repeat('d', 247)])
  }

  lemma RepeatIsValue(ch: char, n: nat)
    requires 'a' <= ch <= 'z' && 1 <= n <= 256
    ensures IsLabelValue(Repeat(ch, n)) && IsLower(Repeat(ch, n))
  {
  }

  lemma RepeatLess(a: char, n: nat, b: char, m: nat)
    requires a < b && n > 0 && m > 0
    ensures StrLess(Repeat(a, n), Repeat(b, m))
  {
  }

  lemma FourAscending(a: string, b: string, c: string, d: string)
    requires StrLess(a, b) && StrLess(b, c) && StrLess(c, d)
    ensures Ascending(StrLess, [a, b, c, d])
  {
    hide StrLess;
    StringsAreOrdered();
  }

  lemma LongClauseIsValid()
    ensures ValidClause(LongClause())
  {
    hide Repeat, StrLess, IsLabelValue, IsLower, Ascending;
    RepeatIsValue('a', 256);
    RepeatIsValue('b', 256);
    RepeatIsValue('c', 256);
    RepeatIsValue('d', 247);
    RepeatLess('a', 256, 'b', 256);
    RepeatLess('b', 256, 'c', 256);
    RepeatLess('c', 256, 'd', 247);
    FourAscending(Repeat('a', 256), Repeat('b', 256), Repeat('c', 256), Repeat('d', 247));
    assert IsLower("k") by { LowerLetter('k'); }
  }

  lemma LowerLetter(ch: char)
    requires 'a' <= ch <= 'z'
    ensures IsLower([ch])
  {
  }

  lemma LongClauseLength()
    ensures |ClauseText(LongClause())| == MAX_LENGTH + 1
  {
    var a, b, d, f := Repeat('a', 256), Repeat('b', 256), Repeat('c', 256), Repeat('d', 247);
    hide Repeat;
    assert ([a, b, d, f])[1..] == [b, d, f] && ([b, d, f])[1..] == [d, f] && ([d, f])[1..] == [f];
    assert |Join([d, f], ',')| == 504;
    assert |Join([b, d, f], ',')| == 761;
    assert |Join(LongClause().values, ',')| == 1018;
  }

  /** Its tight spelling is accepted, and its canonical text is not. */
  lemma TightTextIsAccepted()
    ensures ParseSelector(TightText(LongClause())) == Some(Parsed(ClauseText(LongClause()), [LongClause()]))
    ensures ParseSelector(ClauseText(LongClause())).None?
  {
    hide ParseSelector, ClauseText, ValidClause, LongClause, TightText;
    LongClauseIsValid();
    LongClauseLength();
    assert LongClause().op == "in" by { LongClauseIsSet(); }
    OverlongCanonical(LongClause());
  }

  lemma LongClauseIsSet()
    ensures LongClause().op == "in"
  {
    hide Repeat;
  }

  /** So the length bound in ParseThenParse is needed: an expression is accepted and its
      canonical text is not. */
  lemma CanonicalTextCanBeRefused()
    ensures exists e :: ParseSelector(e).Some? && ParseSelector(ParseSelector(e).value.canonical).None?
  {
    hide ParseSelector, ClauseText, LongClause, TightText;
    TightTextIsAccepted();
  }
}
