/** The selector language as a grammar: what a clause and an expression may look like, and
    what they denote. The parser accepts exactly these texts, with exactly these meanings. */
module Grammar {
  import opened Ordering
  import opened Text
  import opened Selector
  import opened SelectorLaws

  predicate IsBlank(s: string) {
    forall c :: c in s ==> IsSpace(c)
  }

  /** White space that the patterns skip inside a clause. */
  predicate IsRegexBlank(s: string) {
    forall c :: c in s ==> IsRegexSpace(c)
  }

  /** A text with white space around it. */
  datatype Padded = Padded(before: string, text: string, after: string)

  function Unpad(p: Padded): string {
    p.before + p.text + p.after
  }

  function Contents(ps: seq<Padded>): (r: seq<string>)
    ensures |r| == |ps| && forall i :: 0 <= i < |r| ==> r[i] == ps[i].text
  {
    seq(|ps|, i requires 0 <= i < |ps| => ps[i].text)
  }

  function Unpads(ps: seq<Padded>): (r: seq<string>)
    ensures |r| == |ps| && forall i :: 0 <= i < |r| ==> r[i] == Unpad(ps[i])
  {
    seq(|ps|, i requires 0 <= i < |ps| => Unpad(ps[i]))
  }

  predicate HasBlankPadding(p: Padded) {
    IsBlank(p.before) && IsBlank(p.after)
  }

  /** The ways to write a clause. Blanks stand around an operator, before the parenthesis and
      around the values of a set. */
  datatype Written =
    | Bare(key: string)
    | Comparison(key: string, before: string, op: string, after: string, value: string)
    | InSet(key: string, before: string, word: string, after: string, values: seq<Padded>)

  function WrittenText(w: Written): string {
    match w
    case Bare(key) => key
    case Comparison(key, before, op, after, value) => key + (before + (op + (after + value)))
    case InSet(key, before, word, after, values) =>
      key + (before + (word + (after + ("(" + Join(Unpads(values), ',') + ")"))))
  }

  predicate IsComparison(op: string) {
    op == "=" || op == "==" || op == "!="
  }

  function LowerAll(s: seq<string>): (r: seq<string>)
    ensures |r| == |s| && forall i :: 0 <= i < |r| ==> r[i] == Lower(s[i])
  {
    Each(Lower, s)
  }

  /** The values of a set, in any letter case and any order, none twice. */
  ghost predicate DenotesValues(values: seq<Padded>, denoted: seq<string>) {
    && values != []
    && (forall p :: p in values ==> HasBlankPadding(p) && IsLabelValue(p.text))
    && Distinct(LowerAll(Contents(values)))
    && Ascending(StrLess, denoted) && Elems(denoted) == Elems(LowerAll(Contents(values)))
  }

  /** The clause a written clause stands for. */
  ghost predicate Denotes(w: Written, c: Clause) {
    && IsLabelKey(w.key) && c.key == Lower(w.key)
    && match w
       case Bare(_) => c.op == "exists" && c.values == []
       case Comparison(_, before, op, after, value) =>
         && IsRegexBlank(before) && IsRegexBlank(after) && IsComparison(op) && IsLabelValue(value)
         && c.op == (if op == "!=" then "!=" else "=") && c.values == [Lower(value)]
       case InSet(_, before, word, after, values) =>
         && before != [] && IsRegexBlank(before) && IsRegexBlank(after)
         && IsSetClause(c) && c.op == Lower(word) && DenotesValues(values, c.values)
  }

  // ---- blanks ----

  lemma {:induction false} SkipBlank(b: string, rest: string)
    requires IsRegexBlank(b) && (rest == [] || !IsRegexSpace(rest[0]))
    ensures SkipSpace(b + rest) == rest
  {
    if b == [] {
      assert b + rest == rest;
    } else {
      assert b[0] in b && (b + rest)[1..] == b[1..] + rest;
      SkipBlank(b[1..], rest);
    }
  }

  /** What SkipSpace skips. */
  lemma SkipSpaceStep(s: string)
    ensures SkipSpace(s) == if s != [] && IsRegexSpace(s[0]) then SkipSpace(s[1..]) else s
  {
    hide IsRegexSpace;
  }

  lemma RegexBlankBefore(s: string, b: string, t: string)
    requires s != [] && IsRegexSpace(s[0]) && IsRegexBlank(b) && s[1..] == b + t
    ensures IsRegexBlank([s[0]] + b) && s == [s[0]] + b + t
  {
    hide IsRegexSpace;
    assert s == [s[0]] + s[1..];
  }

  lemma {:induction false} SkippedIsBlank(s: string) returns (b: string)
    ensures IsRegexBlank(b) && s == b + SkipSpace(s)
    ensures SkipSpace(s) == [] || !IsRegexSpace(SkipSpace(s)[0])
  {
    hide IsRegexSpace, SkipSpace;
    b := "";
    SkipSpaceStep(s);
    if s != [] && IsRegexSpace(s[0]) {
      var c := SkippedIsBlank(s[1..]);
      RegexBlankBefore(s, c, SkipSpace(s[1..]));
      return [s[0]] + c;
    }
  }

  lemma {:induction false} TrimLeftBlank(b: string, t: string)
    requires IsBlank(b) && (t == [] || !IsSpace(t[0]))
    ensures TrimLeft(b + t) == t
  {
    if b == [] {
      assert b + t == t;
    } else {
      assert b[0] in b && (b + t)[1..] == b[1..] + t;
      TrimLeftBlank(b[1..], t);
    }
  }

  lemma {:induction false} TrimRightBlank(t: string, b: string)
    requires IsBlank(b) && (t == [] || !IsSpace(t[|t| - 1]))
    ensures TrimRight(t + b) == t
  {
    if b == [] {
      assert t + b == t;
    } else {
      assert b[|b| - 1] in b && (t + b)[..|t + b| - 1] == t + b[..|b| - 1];
      TrimRightBlank(t, b[..|b| - 1]);
    }
  }

  /** Trimming removes the padding of a text that does not start or end with white space. */
  lemma TrimUnpads(p: Padded)
    requires HasBlankPadding(p) && p.text != [] && !IsSpace(p.text[0]) && !IsSpace(p.text[|p.text| - 1])
    ensures Trim(Unpad(p)) == p.text
  {
    hide TrimLeft, TrimRight, IsSpace;
    assert Unpad(p) == p.before + (p.text + p.after);
    TrimLeftBlank(p.before, p.text + p.after);
    TrimRightBlank(p.text, p.after);
  }

  lemma BlankBefore(s: string, b: string, t: string)
    requires s != [] && IsSpace(s[0]) && IsBlank(b) && s[1..] == b + t
    ensures IsBlank([s[0]] + b) && s == [s[0]] + b + t
  {
    hide IsSpace;
    assert s == [s[0]] + s[1..];
  }

  lemma BlankAfter(s: string, b: string, t: string)
    requires s != [] && IsSpace(s[|s| - 1]) && IsBlank(b) && s[..|s| - 1] == t + b
    ensures IsBlank(b + [s[|s| - 1]]) && s == t + (b + [s[|s| - 1]])
  {
    hide IsSpace;
    assert s == s[..|s| - 1] + [s[|s| - 1]];
  }

  lemma {:induction false} TrimLeftRest(s: string) returns (b: string)
    ensures IsBlank(b) && s == b + TrimLeft(s)
  {
    hide IsSpace, TrimLeft;
    b := "";
    TrimLeftStep(s);
    if s != [] && IsSpace(s[0]) {
      var c := TrimLeftRest(s[1..]);
      BlankBefore(s, c, TrimLeft(s[1..]));
      return [s[0]] + c;
    }
  }

  lemma {:induction false} TrimRightRest(s: string) returns (b: string)
    ensures IsBlank(b) && s == TrimRight(s) + b
  {
    hide IsSpace;
    b := "";
    if s != [] && IsSpace(s[|s| - 1]) {
      var c := TrimRightRest(s[..|s| - 1]);
      BlankAfter(s, c, TrimRight(s[..|s| - 1]));
      return c + [s[|s| - 1]];
    }
  }

  lemma Associate(a: string, b: string, c: string)
    ensures a + b + c == a + (b + c)
  {
  }

  /** Every text is a trimmed one with white space around it. */
  lemma PaddingOf(s: string) returns (p: Padded)
    ensures HasBlankPadding(p) && Unpad(p) == s && p.text == Trim(s)
  {
    assert Trim(s) == TrimRight(TrimLeft(s));
    hide Trim, TrimLeft, TrimRight, IsBlank, IsSpace;
    var before := TrimLeftRest(s);
    var after := TrimRightRest(TrimLeft(s));
    p := Padded(before, Trim(s), after);
    Associate(before, Trim(s), after);
  }

  // ---- label values ----

  lemma LabelValueLowers(s: string)
    ensures IsLabelValue(Lower(s)) <==> IsLabelValue(s)
  {
    if IsLabelValue(s) {
      forall c | c in Lower(s) ensures IsValueChar(c) {
        var i :| 0 <= i < |s| && Lower(s)[i] == c;
        assert s[i] in s;
      }
    }
    if IsLabelValue(Lower(s)) {
      forall c | c in s ensures IsValueChar(c) {
        var i :| 0 <= i < |s| && s[i] == c;
        assert Lower(s)[i] in Lower(s);
      }
    }
  }

  lemma ValueHasNoSpace(v: string)
    requires IsLabelValue(v)
    ensures v != [] && !IsSpace(v[0]) && !IsSpace(v[|v| - 1])
    ensures forall c :: c in v ==> IsValueChar(c) && !IsRegexSpace(c) && c != ',' && c != '(' && c != ')' && c != '='
  {
    assert v[|v| - 1] in v && v[0] in v;
    assert forall c :: IsValueChar(c) ==> !IsSpace(c);
  }

  lemma BlankAvoids(b: string)
    requires IsBlank(b)
    ensures ',' !in b && '(' !in b && ')' !in b
  {
  }

  lemma RegexBlankIsBlank(b: string)
    requires IsRegexBlank(b)
    ensures IsBlank(b)
  {
  }

  // ---- comparisons ----

  lemma OperandPadded(key: string, op: string, b: string, v: string)
    requires IsRegexBlank(b) && IsLabelValue(v)
    ensures MatchOperand(key, op, b + v) == Some(BinaryMatch(key, op, v))
  {
    ValueHasNoSpace(v);
    SkipBlank(b, v);
    WordRunOf(v);
    assert v[|v|..] == [];
    hide IsLabelValue, IsSpace;
  }

  lemma OperatorRead(key: string, op: string, tail: string)
    requires IsComparison(op) && tail != [] && tail[0] != '='
    ensures var rest := op + tail;
      (if |rest| >= 2 && rest[..2] == "==" then MatchOperand(key, "==", rest[2..])
       else if |rest| >= 2 && rest[..2] == "!=" then MatchOperand(key, "!=", rest[2..])
       else if |rest| >= 1 && rest[0] == '=' then MatchOperand(key, "=", rest[1..])
       else None) == MatchOperand(key, op, tail)
  {
    hide MatchOperand;
    var rest := op + tail;
    if op == "=" {
      assert rest[..2] == ['=', tail[0]] && rest[1..] == tail;
    } else {
      assert rest[..2] == op && rest[2..] == tail;
    }
  }

  lemma BinaryIsRead(key: string, before: string, op: string, after: string, value: string)
    requires IsLabelKey(key) && IsRegexBlank(before) && IsRegexBlank(after) && IsComparison(op) && IsLabelValue(value)
    ensures var part := key + (before + (op + (after + value)));
      MatchBinary(part) == Some(BinaryMatch(key, op, value)) && MatchSet(part).None?
  {
    var tail := after + value;
    var rest := before + (op + tail);
    ValueHasNoSpace(value);
    assert tail[0] != '=' by { if after != [] { assert after[0] in after; } }
    assert !IsKeyChar(rest[0]) by { if before != [] { assert before[0] in before; } }
    hide IsLabelKey, IsLabelValue, IsRegexBlank, MatchOperand, KeyRun, SkipSpace, IsKeyChar;
    KeyRunOf(key, rest);
    SkipBlank(before, op + tail);
    OperatorRead(key, op, tail);
    OperandPadded(key, op, after, value);
    NoSetKeyword(rest, before, op + tail);
  }

  lemma ComparisonIsRead(w: Written, c: Clause)
    requires w.Comparison? && Denotes(w, c)
    ensures ParseClause(WrittenText(w)) == Some(c)
  {
    hide MatchSet, MatchBinary, IsLabelKey, IsLabelValue, Lower, IsRegexBlank;
    BinaryIsRead(w.key, w.before, w.op, w.after, w.value);
    LabelValueLowers(w.value);
  }

  /** No set keyword starts with an operator. */
  lemma NoSetKeyword(rest: string, b: string, t: string)
    requires rest == b + t && IsRegexBlank(b) && t != [] && (t[0] == '=' || t[0] == '!')
    ensures SkipSpace(rest) == t
    ensures |t| >= 5 ==> Lower(t[..5]) != "notin"
    ensures |t| >= 2 ==> Lower(t[..2]) != "in"
  {
    SkipBlank(b, t);
    assert |t| >= 5 ==> Lower(t[..5])[0] == t[0];
    assert |t| >= 2 ==> Lower(t[..2])[0] == t[0];
  }

  // ---- sets ----

  lemma UnpadsAvoid(values: seq<Padded>, c: char)
    requires forall p :: p in values ==> HasBlankPadding(p) && IsLabelValue(p.text)
    requires c == ',' || c == '(' || c == ')'
    ensures forall u :: u in Unpads(values) ==> c !in u
  {
    forall u | u in Unpads(values) ensures c !in u {
      var i :| 0 <= i < |values| && Unpads(values)[i] == u;
      assert values[i] in values;
      ValueHasNoSpace(values[i].text);
      BlankAvoids(values[i].before);
      BlankAvoids(values[i].after);
    }
  }

  lemma CleanedUnpads(values: seq<Padded>)
    requires forall p :: p in values ==> HasBlankPadding(p) && IsLabelValue(p.text)
    ensures Cleaned(Unpads(values)) == LowerAll(Contents(values))
  {
    hide Trim, IsSpace, IsBlank, Lower, IsLabelValue;
    forall i | 0 <= i < |values| ensures CleanValue(Unpad(values[i])) == Lower(values[i].text) {
      assert values[i] in values;
      ValueHasNoSpace(values[i].text);
      TrimUnpads(values[i]);
    }
  }

  lemma LowerValuesAreValid(texts: seq<string>)
    ensures (forall t :: t in texts ==> IsLabelValue(t)) <==> (forall v :: v in LowerAll(texts) ==> IsLabelValue(v))
  {
    hide IsLabelValue, Lower;
    forall i | 0 <= i < |texts|
      ensures IsLabelValue(Lower(texts[i])) <==> IsLabelValue(texts[i])
    {
      LabelValueLowers(texts[i]);
    }
    assert forall i :: 0 <= i < |texts| ==> texts[i] in texts && LowerAll(texts)[i] in LowerAll(texts);
  }

  /** The value loop reads what the written values denote. */
  lemma ValuesAreRead(values: seq<Padded>, denoted: seq<string>)
    requires DenotesValues(values, denoted)
    ensures SetValues(Join(Unpads(values), ',')) == Some(denoted)
  {
    var texts := Contents(values);
    assert forall t :: t in texts ==> IsLabelValue(t) by {
      forall t | t in texts ensures IsLabelValue(t) {
        var i :| 0 <= i < |values| && texts[i] == t;
        assert values[i] in values;
      }
    }
    hide IsLabelValue, HasBlankPadding, Split, Join, Sort, Cleaned, StrLess, CleanValue;
    UnpadsAvoid(values, ',');
    SplitUndoesJoin(Unpads(values), ',');
    CleanedUnpads(values);
    LowerValuesAreValid(texts);
    SortStrings(LowerAll(texts));
    StrListIs(denoted);
  }

  lemma SetTailRead(key: string, op: string, b: string, inner: string)
    requires IsRegexBlank(b) && '(' !in inner && ')' !in inner
    ensures MatchSetTail(key, op, b + ("(" + inner + ")")) == Some(SetMatch(key, op, inner))
  {
    var open := "(" + inner + ")";
    SkipBlank(b, open);
    assert open[1..|open| - 1] == inner;
  }

  /** A set keyword in any letter case, between blanks. */
  lemma KeywordRead(key: string, b: string, word: string, tail: string)
    requires IsLabelKey(key) && b != [] && IsRegexBlank(b) && (Lower(word) == "in" || Lower(word) == "notin")
    ensures MatchSet(key + (b + (word + tail))) == MatchSetTail(key, Lower(word), tail)
  {
    hide MatchSetTail;
    var body := word + tail;
    var rest := b + body;
    assert |word| == |Lower(word)|;
    assert b[0] in b && rest[0] == b[0] && !IsKeyChar(b[0]);
    KeyRunOf(key, rest);
    assert LowerChar(word[0]) == Lower(word)[0];
    assert !IsRegexSpace(word[0]);
    SkipBlank(b, body);
    assert body[..|word|] == word && body[|word|..] == tail;
    if Lower(word) == "in" {
      assert |body| >= 5 ==> Lower(body[..5])[0] == 'i' != "notin"[0];
    }
    hide KeyRun, SkipSpace, IsLabelKey;
  }

  lemma SetIsRead(w: Written, c: Clause)
    requires w.InSet? && Denotes(w, c)
    ensures ParseClause(WrittenText(w)) == Some(c)
  {
    hide IsLabelKey, MatchSet, SetValues, Lower, IsRegexBlank, Join, MatchSetTail, DenotesValues;
    var inner := Join(Unpads(w.values), ',');
    assert '(' !in inner && ')' !in inner by { SetInnerAvoids(w.values, c.values); }
    KeywordRead(w.key, w.before, w.word, w.after + ("(" + inner + ")"));
    SetTailRead(w.key, c.op, w.after, inner);
    ValuesAreRead(w.values, c.values);
  }

  lemma SetInnerAvoids(values: seq<Padded>, denoted: seq<string>)
    requires DenotesValues(values, denoted)
    ensures '(' !in Join(Unpads(values), ',') && ')' !in Join(Unpads(values), ',')
  {
    hide IsLabelValue, HasBlankPadding, Join;
    UnpadsAvoid(values, '(');
    UnpadsAvoid(values, ')');
    JoinAvoids(Unpads(values), '(');
    JoinAvoids(Unpads(values), ')');
  }

  lemma BareIsRead(w: Written, c: Clause)
    requires w.Bare? && Denotes(w, c)
    ensures ParseClause(WrittenText(w)) == Some(c)
  {
    KeyRunOf(w.key, []);
    assert w.key + [] == w.key;
  }

  /** Whatever is written is read as what it denotes. */
  lemma WrittenIsRead(w: Written, c: Clause)
    requires Denotes(w, c)
    ensures ParseClause(WrittenText(w)) == Some(c)
  {
    hide Denotes, ParseClause, WrittenText;
    match w {
      case Bare(_) => BareIsRead(w, c);
      case Comparison(_, _, _, _, _) => ComparisonIsRead(w, c);
      case InSet(_, _, _, _, _) => SetIsRead(w, c);
    }
  }

  // ---- nothing else is read ----

  lemma {:induction false} PaddingsOf(raw: seq<string>) returns (ps: seq<Padded>)
    ensures |ps| == |raw| && Unpads(ps) == raw
    ensures forall i :: 0 <= i < |ps| ==> HasBlankPadding(ps[i]) && ps[i].text == Trim(raw[i])
  {
    hide Trim, HasBlankPadding;
    if raw == [] {
      ps := [];
    } else {
      ps := PaddingsOf(raw[1..]);
      var p := PaddingOf(raw[0]);
      assert forall i :: 0 < i < |raw| ==> raw[i] == raw[1..][i - 1] && Unpads(ps)[i - 1] == raw[i];
      ps := [p] + ps;
    }
  }

  /** The values of an accepted set are written values. */
  lemma ContentsAreCleaned(values: seq<Padded>, raw: seq<string>)
    requires |values| == |raw| && forall i :: 0 <= i < |values| ==> values[i].text == Trim(raw[i])
    ensures LowerAll(Contents(values)) == Cleaned(raw)
  {
    hide Trim, Lower;
  }

  lemma TextsAreContents(values: seq<Padded>)
    requires forall t :: t in Contents(values) ==> IsLabelValue(t)
    ensures forall p :: p in values ==> IsLabelValue(p.text)
  {
    hide IsLabelValue;
    forall p | p in values ensures p.text in Contents(values) {
      var i :| 0 <= i < |values| && values[i] == p;
      assert Contents(values)[i] in Contents(values);
    }
  }

  lemma ValuesAreWritten(inner: string) returns (values: seq<Padded>)
    requires SetValues(inner).Some?
    ensures Join(Unpads(values), ',') == inner && DenotesValues(values, SetValues(inner).value)
  {
    hide IsLabelValue, HasBlankPadding, Split, Sort, StrLess, Trim, Lower, Cleaned, Contents, LowerAll, Join, Unpads;
    var raw := Split(inner, ',');
    JoinUndoesSplit(inner, ',');
    values := PaddingsOf(raw);
    ContentsAreCleaned(values, raw);
    LowerValuesAreValid(Contents(values));
    TextsAreContents(values);
    SortStrings(Cleaned(raw));
  }

  lemma SetTailParts(key: string, op: string, tail: string) returns (after: string, inner: string)
    requires MatchSetTail(key, op, tail).Some?
    ensures IsRegexBlank(after) && tail == after + ("(" + inner + ")")
    ensures MatchSetTail(key, op, tail) == Some(SetMatch(key, op, inner))
  {
    after := SkippedIsBlank(tail);
    var t := SkipSpace(tail);
    inner := t[1..|t| - 1];
    assert t == "(" + inner + ")";
  }

  lemma KeywordParts(part: string) returns (key: string, before: string, word: string, tail: string)
    requires MatchSet(part).Some?
    ensures part == key + (before + (word + tail)) && IsLabelKey(key) && before != [] && IsRegexBlank(before)
    ensures (Lower(word) == "in" || Lower(word) == "notin") && MatchSet(part) == MatchSetTail(key, Lower(word), tail)
  {
    hide MatchSetTail, IsLabelKey;
    key := KeyRun(part);
    var rest := part[|key|..];
    before := SkippedIsBlank(rest);
    var body := SkipSpace(rest);
    var n := if |body| >= 5 && Lower(body[..5]) == "notin" then 5 else 2;
    word, tail := body[..n], body[n..];
    assert body == word + tail;
  }

  lemma SetIsWritten(part: string, c: Clause) returns (w: Written)
    requires ParseClause(part) == Some(c) && MatchSet(part).Some?
    ensures WrittenText(w) == part && Denotes(w, c)
  {
    hide MatchSet, SetValues, IsLabelKey, Lower, IsRegexBlank, DenotesValues, Join, MatchSetTail;
    var key, before, word, tail := KeywordParts(part);
    var after, inner := SetTailParts(key, Lower(word), tail);
    var values := ValuesAreWritten(inner);
    w := InSet(key, before, word, after, values);
  }

  lemma OperandParts(key: string, op: string, tail: string) returns (after: string, rest: string)
    requires MatchOperand(key, op, tail).Some?
    ensures var v := MatchOperand(key, op, tail).value.value;
      tail == after + (v + rest) && IsRegexBlank(after) && IsRegexBlank(rest)
    ensures MatchOperand(key, op, tail).value.key == key && MatchOperand(key, op, tail).value.op == op
  {
    var t := SkipSpace(tail);
    var v := WordRun(t);
    rest := t[|v|..];
    assert MatchOperand(key, op, tail) == Some(BinaryMatch(key, op, v)) && SkipSpace(rest) == [];
    assert t == v + rest;
    hide SkipSpace, WordRun, IsRegexBlank, MatchOperand, IsRegexSpace;
    after := SkippedIsBlank(tail);
    var blank := SkippedIsBlank(rest);
    assert rest == blank;
  }

  lemma OperatorParts(part: string) returns (key: string, before: string, op: string, tail: string)
    requires MatchBinary(part).Some?
    ensures part == key + (before + (op + tail)) && IsLabelKey(key) && IsRegexBlank(before) && IsComparison(op)
    ensures MatchBinary(part) == MatchOperand(key, op, tail)
  {
    hide MatchOperand, IsLabelKey;
    key := KeyRun(part);
    before := SkippedIsBlank(part[|key|..]);
    var rest := SkipSpace(part[|key|..]);
    op := if |rest| >= 2 && (rest[..2] == "==" || rest[..2] == "!=") then rest[..2] else "=";
    tail := rest[|op|..];
    assert rest == op + tail;
  }

  lemma ComparisonIsWritten(part: string, c: Clause) returns (w: Written)
    requires part != [] && !IsSpace(part[|part| - 1])
    requires ParseClause(part) == Some(c) && MatchSet(part).None? && MatchBinary(part).Some?
    ensures WrittenText(w) == part && Denotes(w, c)
  {
    hide MatchSet, MatchBinary, MatchOperand, IsLabelKey, IsLabelValue, Lower, IsRegexBlank;
    var key, before, op, tail := OperatorParts(part);
    var after, rest := OperandParts(key, op, tail);
    var v := MatchBinary(part).value.value;
    var front := key + (before + (op + (after + v)));
    assert part == front + rest;
    BlankLast(front, rest);
    assert v + rest == v;
    LabelValueLowers(v);
    w := Comparison(key, before, op, after, v);
  }

  lemma BlankLast(front: string, rest: string)
    requires IsRegexBlank(rest)
    ensures rest == [] || IsSpace((front + rest)[|front + rest| - 1])
  {
    assert rest == [] || rest[|rest| - 1] in rest;
  }

  /** Whatever is read was written, by the rules of the grammar. */
  lemma ReadIsWritten(part: string, c: Clause) returns (w: Written)
    requires part != [] && !IsSpace(part[|part| - 1])
    requires ParseClause(part) == Some(c)
    ensures WrittenText(w) == part && Denotes(w, c)
  {
    if MatchSet(part).Some? {
      w := SetIsWritten(part, c);
    } else if MatchBinary(part).Some? {
      w := ComparisonIsWritten(part, c);
    } else {
      w := Bare(part);
    }
  }

  /** parseSelectorClause accepts exactly the texts the grammar writes, with the meaning it
      gives them. splitSelector trims what it hands over. */
  lemma ClauseGrammar(part: string, c: Clause)
    requires part != [] && !IsSpace(part[|part| - 1])
    ensures ParseClause(part) == Some(c) <==> exists w :: WrittenText(w) == part && Denotes(w, c)
  {
    hide ParseClause, Denotes, WrittenText;
    if ParseClause(part) == Some(c) {
      var w := ReadIsWritten(part, c);
    }
    if w :| WrittenText(w) == part && Denotes(w, c) { WrittenIsRead(w, c); }
  }

  // ---- the whole expression ----

  /** A written clause with white space around it. */
  datatype Part = Part(before: string, clause: Written, after: string)

  function PartOf(p: Part): string {
    p.before + (WrittenText(p.clause) + p.after)
  }

  function PartsOf(ps: seq<Part>): (r: seq<string>)
    ensures |r| == |ps| && forall i :: 0 <= i < |r| ==> r[i] == PartOf(ps[i])
  {
    seq(|ps|, i requires 0 <= i < |ps| => PartOf(ps[i]))
  }

  function ExpressionText(ps: seq<Part>): string {
    Join(PartsOf(ps), ',')
  }

  ghost predicate PartDenotes(p: Part, c: Clause) {
    IsBlank(p.before) && IsBlank(p.after) && Denotes(p.clause, c)
  }

  /** The clauses a written expression stands for, in order. */
  ghost predicate DenotesAll(ps: seq<Part>, cs: seq<Clause>) {
    |ps| == |cs| && ps != [] && forall i :: 0 <= i < |ps| ==> PartDenotes(ps[i], cs[i])
  }

  lemma KeyAvoids(key: string)
    requires IsLabelKey(key)
    ensures '(' !in key && ')' !in key && ',' !in key && !IsSpace(key[0]) && !IsSpace(key[|key| - 1])
  {
    assert key[|key| - 1] in key;
    assert forall c :: IsKeyChar(c) ==> !IsSpace(c);
  }

  lemma LowerAvoidsSeparators(word: string)
    requires Lower(word) == "in" || Lower(word) == "notin"
    ensures '(' !in word && ')' !in word && ',' !in word
  {
    forall i | 0 <= i < |word| ensures word[i] != '(' && word[i] != ')' && word[i] != ',' {
      assert Lower(word)[i] == LowerChar(word[i]);
      assert |word| == |Lower(word)|;
      assert Lower(word)[i] in Lower(word);
    }
  }

  predicate EndsInText(t: string) {
    t != [] && !IsSpace(t[|t| - 1])
  }

  lemma EndsLater(a: string, t: string)
    requires EndsInText(t)
    ensures EndsInText(a + t)
  {
    hide IsSpace;
  }

  lemma KeyEnds(key: string)
    requires IsLabelKey(key)
    ensures EndsInText(key)
  {
    KeyAvoids(key);
  }

  lemma KeyStarts(key: string)
    requires IsLabelKey(key)
    ensures key != [] && !IsSpace(key[0])
  {
    KeyAvoids(key);
  }

  lemma ValueEnds(value: string)
    requires IsLabelValue(value)
    ensures EndsInText(value)
  {
    ValueHasNoSpace(value);
  }

  lemma ParenthesisEnds(t: string)
    ensures EndsInText(t + ")")
  {
  }

  lemma EndIsNoSpace(t: string)
    requires EndsInText(t)
    ensures t != [] && !IsSpace(t[|t| - 1])
  {
  }

  lemma StartsWithKey(w: Written)
    requires w.key != []
    ensures WrittenText(w) != [] && WrittenText(w)[0] == w.key[0]
  {
    hide Join, Unpads;
  }

  /** Written clauses neither start nor end with white space. */
  lemma WrittenIsTrimmed(w: Written, c: Clause)
    requires Denotes(w, c)
    ensures var t := WrittenText(w); t != [] && !IsSpace(t[0]) && !IsSpace(t[|t| - 1])
  {
    hide IsSpace, IsLabelKey, IsLabelValue, DenotesValues, IsRegexBlank, Unpads, Join, Lower, EndsInText;
    KeyEnds(w.key);
    KeyStarts(w.key);
    match w {
      case Bare(_) =>
      case Comparison(key, before, op, after, value) =>
        ValueEnds(value);
        EndsLater(after, value);
        EndsLater(op, after + value);
        EndsLater(before, op + (after + value));
        EndsLater(key, before + (op + (after + value)));
      case InSet(key, before, word, after, values) =>
        var set_ := "(" + Join(Unpads(values), ',') + ")";
        ParenthesisEnds("(" + Join(Unpads(values), ','));
        EndsLater(after, set_);
        EndsLater(word, after + set_);
        EndsLater(before, word + (after + set_));
        EndsLater(key, before + (word + (after + set_)));
    }
    StartsWithKey(w);
    EndIsNoSpace(WrittenText(w));
  }

  lemma PartTrims(p: Part, c: Clause)
    requires PartDenotes(p, c)
    ensures Trim(PartOf(p)) == WrittenText(p.clause) && WrittenText(p.clause) != []
  {
    hide Denotes, WrittenText, Trim, IsSpace;
    WrittenIsTrimmed(p.clause, c);
    var padded := Padded(p.before, WrittenText(p.clause), p.after);
    assert Unpad(padded) == PartOf(p);
    TrimUnpads(padded);
  }

  predicate AvoidsSeparators(s: string) {
    '(' !in s && ')' !in s && ',' !in s
  }

  lemma ComparisonAvoids(w: Written, c: Clause)
    requires Denotes(w, c) && w.Comparison?
    ensures AvoidsSeparators(WrittenText(w))
  {
    KeyAvoids(w.key);
    RegexBlankIsBlank(w.before);
    RegexBlankIsBlank(w.after);
    BlankAvoids(w.before);
    BlankAvoids(w.after);
    ValueHasNoSpace(w.value);
    assert AvoidsSeparators(w.op);
    hide IsRegexBlank, IsLabelKey, IsLabelValue, Lower;
  }

  lemma SimplePartScans(p: Part, c: Clause, rest: string)
    requires PartDenotes(p, c) && !p.clause.InSet?
    ensures Scan([], PartOf(p) + rest, 0) == Scan(PartOf(p), rest, 0)
  {
    hide Scan, IsRegexBlank, IsLabelKey, IsLabelValue, Lower, WrittenText;
    BlankAvoids(p.before);
    BlankAvoids(p.after);
    hide IsBlank;
    assert AvoidsSeparators(WrittenText(p.clause)) by {
      if p.clause.Comparison? { ComparisonAvoids(p.clause, c); } else { BareAvoids(p.clause, c); }
    }
    ScanText([], PartOf(p), rest, 0);
    assert [] + PartOf(p) == PartOf(p);
  }

  lemma BareAvoids(w: Written, c: Clause)
    requires Denotes(w, c) && w.Bare?
    ensures AvoidsSeparators(WrittenText(w))
  {
    KeyAvoids(w.key);
  }

  lemma SetPartScans(p: Part, c: Clause, rest: string)
    requires PartDenotes(p, c) && p.clause.InSet?
    ensures Scan([], PartOf(p) + rest, 0) == Scan(PartOf(p), rest, 0)
  {
    var w := p.clause;
    BlankAvoids(p.before);
    BlankAvoids(p.after);
    KeyAvoids(w.key);
    RegexBlankIsBlank(w.before);
    RegexBlankIsBlank(w.after);
    BlankAvoids(w.before);
    BlankAvoids(w.after);
    LowerAvoidsSeparators(w.word);
    SetInnerAvoids(w.values, c.values);
    hide Scan, IsBlank, IsRegexBlank, IsLabelKey, Lower, DenotesValues, Join;
    var head := p.before + (w.key + (w.before + (w.word + w.after)));
    var inner := Join(Unpads(w.values), ',');
    var closed := head + "(" + inner + ")";
    assert '(' !in head && ')' !in head && ',' !in head;
    assert PartOf(p) == closed + p.after;
    assert PartOf(p) + rest == closed + (p.after + rest);
    ScanSetClause(head, inner, p.after + rest);
    ScanText(closed, p.after, rest, 0);
  }

  /** The splitter takes a written part as one. */
  lemma PartScans(p: Part, c: Clause, rest: string)
    requires PartDenotes(p, c)
    ensures Scan([], PartOf(p) + rest, 0) == Scan(PartOf(p), rest, 0)
  {
    hide Scan, PartDenotes, PartOf;
    if p.clause.InSet? { SetPartScans(p, c, rest); } else { SimplePartScans(p, c, rest); }
  }

  function WrittenTexts(ps: seq<Part>): (r: seq<string>)
    ensures |r| == |ps| && forall i :: 0 <= i < |r| ==> r[i] == WrittenText(ps[i].clause)
  {
    seq(|ps|, i requires 0 <= i < |ps| => WrittenText(ps[i].clause))
  }

  lemma {:induction false} ExpressionScans(ps: seq<Part>, cs: seq<Clause>)
    requires DenotesAll(ps, cs)
    ensures Scan([], ExpressionText(ps), 0) == Some(WrittenTexts(ps))
  {
    hide PartDenotes, PartOf, WrittenText, Trim;
    var p := ps[0];
    assert PartDenotes(p, cs[0]);
    PartTrims(p, cs[0]);
    assert PartsOf(ps)[0] == PartOf(p);
    if |ps| == 1 {
      assert ExpressionText(ps) == PartOf(p) + [];
      PartScans(p, cs[0], []);
      assert WrittenTexts(ps) == [WrittenText(p.clause)];
    } else {
      assert PartsOf(ps)[1..] == PartsOf(ps[1..]);
      var later := ExpressionText(ps[1..]);
      assert ExpressionText(ps) == PartOf(p) + ([','] + later);
      PartScans(p, cs[0], [','] + later);
      assert ([','] + later)[1..] == later;
      ExpressionScans(ps[1..], cs[1..]);
      assert WrittenTexts(ps) == [WrittenText(p.clause)] + WrittenTexts(ps[1..]);
    }
  }

  /** What the splitter returns are the trimmed pieces of the text between its commas. */
  lemma ScanStop(cur: string, depth: nat)
    requires Scan(cur, [], depth).Some?
    ensures Scan(cur, [], depth).value == [Trim(cur)] && Trim(cur) != [] && Join([cur], ',') == cur
  {
    hide Trim;
  }

  lemma JoinFirst(cur: string, later: seq<string>, rest: string)
    requires rest != [] && rest[0] == ',' && later != [] && Join(later, ',') == [] + rest[1..]
    ensures Join([cur] + later, ',') == cur + rest
  {
    assert ([cur] + later)[1..] == later && rest == [','] + rest[1..];
  }

  lemma {:induction false} ScanPieces(cur: string, rest: string, depth: nat) returns (raw: seq<string>)
    requires Scan(cur, rest, depth).Some?
    ensures var parts := Scan(cur, rest, depth).value;
      raw != [] && |raw| == |parts| && Join(raw, ',') == cur + rest &&
      forall i :: 0 <= i < |raw| ==> Trim(raw[i]) == parts[i] && parts[i] != []
    decreases |rest|
  {
    hide Trim, Scan, Join;
    if rest == [] {
      ScanStop(cur, depth);
      assert cur + rest == cur;
      raw := [cur];
    } else if rest[0] == ',' && depth == 0 {
      ScanStep(cur, rest, depth);
      var later := ScanPieces([], rest[1..], 0);
      JoinFirst(cur, later, rest);
      raw := [cur] + later;
    } else {
      ScanStep(cur, rest, depth);
      assert cur + [rest[0]] + rest[1..] == cur + rest;
      raw := ScanPieces(cur + [rest[0]], rest[1..], DepthAfter(rest[0], depth).value);
    }
  }

  ghost predicate AreReadAs(parts: seq<string>, cs: seq<Clause>) {
    |parts| == |cs| && forall i :: 0 <= i < |parts| ==> ParseClause(parts[i]) == Some(cs[i])
  }

  lemma OneMoreRead(parts: seq<string>, cs: seq<Clause>)
    requires parts != [] && cs != []
    ensures AreReadAs(parts, cs) <==>
      AreReadAs(parts[..|parts| - 1], cs[..|cs| - 1]) && ParseClause(parts[|parts| - 1]) == Some(cs[|cs| - 1])
  {
    hide ParseClause;
  }

  /** The clause loop accepts exactly clauses of which no two have one canonical text. */
  lemma {:induction false} ClausesAre(parts: seq<string>, cs: seq<Clause>)
    ensures ClausesOf(parts) == Some(cs) <==> AreReadAs(parts, cs) && Distinct(Selector.Texts(cs))
  {
    hide ParseClause, ClauseText, AreReadAs, Distinct;
    if parts != [] && cs != [] {
      var cFront, cLast := cs[..|cs| - 1], cs[|cs| - 1];
      ClausesAre(parts[..|parts| - 1], cFront);
      assert cs == cFront + [cLast];
      OneMoreRead(parts, cs);
      DistinctMore(Selector.Texts(cFront), ClauseText(cLast));
      assert Selector.Texts(cs) == Selector.Texts(cFront) + [ClauseText(cLast)];
    } else {
      NoneRead(parts, cs);
    }
  }

  lemma NoneRead(parts: seq<string>, cs: seq<Clause>)
    requires parts == [] || cs == []
    ensures ClausesOf(parts) == Some(cs) <==> parts == [] && cs == []
    ensures AreReadAs(parts, cs) && Distinct(Selector.Texts(cs)) <==> parts == [] && cs == []
  {
    hide ParseClause, ClauseText;
  }

  lemma PieceIsWritten(raw: string, c: Clause) returns (p: Part)
    requires Trim(raw) != [] && ParseClause(Trim(raw)) == Some(c)
    ensures PartOf(p) == raw && PartDenotes(p, c)
  {
    hide Trim, ParseClause, WrittenText, Denotes, IsBlank, IsSpace;
    var padded := PaddingOf(raw);
    var w := ReadIsWritten(Trim(raw), c);
    p := Part(padded.before, w, padded.after);
    assert PartOf(p) == Unpad(padded);
  }

  lemma OneMorePiece(raw: seq<string>, cs: seq<Clause>, p: Part, ps: seq<Part>)
    requires |raw| == |cs| && raw != [] && PartOf(p) == raw[0] && PartDenotes(p, cs[0])
    requires if |raw| == 1 then ps == [] else PartsOf(ps) == raw[1..] && DenotesAll(ps, cs[1..])
    ensures PartsOf([p] + ps) == raw && DenotesAll([p] + ps, cs)
  {
    hide PartOf, PartDenotes;
    assert |raw| > 1 ==> |ps| == |PartsOf(ps)| == |raw| - 1;
    forall i | 0 <= i < |raw| ensures PartOf(([p] + ps)[i]) == raw[i] && PartDenotes(([p] + ps)[i], cs[i]) {
      if i > 0 { assert PartsOf(ps)[i - 1] == raw[1..][i - 1] && PartDenotes(ps[i - 1], cs[1..][i - 1]); }
    }
  }

  lemma {:induction false} PiecesAreWritten(raw: seq<string>, cs: seq<Clause>) returns (ps: seq<Part>)
    requires |raw| == |cs| && raw != []
    requires forall i :: 0 <= i < |raw| ==> Trim(raw[i]) != [] && ParseClause(Trim(raw[i])) == Some(cs[i])
    ensures PartsOf(ps) == raw && DenotesAll(ps, cs)
  {
    hide Trim, ParseClause, PartOf, PartsOf, PartDenotes, DenotesAll;
    var p := PieceIsWritten(raw[0], cs[0]);
    ps := [];
    if |raw| > 1 { ps := PiecesAreWritten(raw[1..], cs[1..]); }
    OneMorePiece(raw, cs, p, ps);
    ps := [p] + ps;
  }

  /** A written expression is read as the clauses it denotes, or refused for their number or
      for two of one canonical text. */
  lemma WrittenExpressionIsRead(ps: seq<Part>, cs: seq<Clause>)
    requires DenotesAll(ps, cs) && 1 <= |ExpressionText(ps)| <= MAX_LENGTH
    ensures Submitted(ExpressionText(ps)) ==
      if |cs| <= MAX_CLAUSES && Distinct(Selector.Texts(cs)) then Some(cs) else None
  {
    hide Scan, ClausesOf, ParseClause, WrittenText, Denotes, ClauseText;
    ExpressionScans(ps, cs);
    var texts := WrittenTexts(ps);
    forall i | 0 <= i < |ps| ensures ParseClause(texts[i]) == Some(cs[i]) {
      assert PartDenotes(ps[i], cs[i]);
      WrittenIsRead(ps[i].clause, cs[i]);
    }
    ClausesAre(texts, cs);
    if ClausesOf(texts).Some? {
      var read := ClausesOf(texts).value;
      ClausesAre(texts, read);
      assert forall i :: 0 <= i < |texts| ==> Some(read[i]) == ParseClause(texts[i]) == Some(cs[i]);
      assert read == cs;
    }
  }

  lemma ReadExpressionIsWritten(expression: string, cs: seq<Clause>) returns (ps: seq<Part>)
    requires Submitted(expression) == Some(cs)
    ensures ExpressionText(ps) == expression && DenotesAll(ps, cs)
    ensures |cs| <= MAX_CLAUSES && Distinct(Selector.Texts(cs))
  {
    var raw := ScanPieces([], expression, 0);
    hide Scan, ClausesOf, ParseClause, ClauseText, Trim;
    assert [] + expression == expression;
    ClausesAre(Scan([], expression, 0).value, cs);
    ps := PiecesAreWritten(raw, cs);
  }

  /** parseSelector accepts exactly the expressions of the grammar: written clauses with blanks
      around them, separated by commas, within both limits and without two clauses of one
      canonical text; and takes them for the clauses they denote. */
  lemma SelectorGrammar(expression: string, cs: seq<Clause>)
    ensures Submitted(expression) == Some(cs) <==>
      && 1 <= |expression| <= MAX_LENGTH && |cs| <= MAX_CLAUSES && Distinct(Selector.Texts(cs))
      && exists ps :: ExpressionText(ps) == expression && DenotesAll(ps, cs)
  {
    if Submitted(expression) == Some(cs) {
      var ps := ReadExpressionIsWritten(expression, cs);
    }
    hide Submitted, DenotesAll, ExpressionText, ClauseText;
    if 1 <= |expression| <= MAX_LENGTH && |cs| <= MAX_CLAUSES && Distinct(Selector.Texts(cs)) {
      if ps :| ExpressionText(ps) == expression && DenotesAll(ps, cs) { WrittenExpressionIsRead(ps, cs); }
    }
  }

  // ---- spellings ----

  /** Both texts are within the limit and write the same clauses, in whatever order and in
      whatever way. */
  ghost predicate WrittenAlike(a: string, b: string) {
    && 1 <= |a| <= MAX_LENGTH && 1 <= |b| <= MAX_LENGTH
    && exists ps, qs, ca, cb ::
      ExpressionText(ps) == a && ExpressionText(qs) == b && DenotesAll(ps, ca) && DenotesAll(qs, cb) &&
         multiset(ca) == multiset(cb)
  }

  lemma TextsPermuted(a: seq<Clause>, b: seq<Clause>)
    requires multiset(a) == multiset(b)
    ensures |a| == |b| && Elems(Selector.Texts(a)) == Elems(Selector.Texts(b))
    ensures Distinct(Selector.Texts(a)) <==> Distinct(Selector.Texts(b))
  {
    hide ClauseText;
    assert |a| == |multiset(a)| == |multiset(b)| == |b|;
    EachPermuted(ClauseText, a, b);
    assert Selector.Texts(a) == Each(ClauseText, a) && Selector.Texts(b) == Each(ClauseText, b);
    MultisetElems(Selector.Texts(a), Selector.Texts(b));
    if Distinct(Selector.Texts(a)) { MultisetDistinct(Selector.Texts(a), Selector.Texts(b)); }
    if Distinct(Selector.Texts(b)) { MultisetDistinct(Selector.Texts(b), Selector.Texts(a)); }
  }

  lemma SubmittedText(expression: string)
    requires Submitted(expression).Some?
    ensures CanonicalSelector(expression) ==
      Some(Join(StrList(Elems(Selector.Texts(Submitted(expression).value))), ','))
  {
    var cs := Submitted(expression).value;
    var ps := ReadExpressionIsWritten(expression, cs);
    hide Submitted, ClauseText, DenotesAll, ExpressionText;
    SortStrings(Selector.Texts(cs));
  }

  /** However the same clauses are written, they are refused together or have one canonical text. */
  lemma WrittenAlikeIsTheSame(a: string, b: string)
    requires WrittenAlike(a, b)
    ensures CanonicalSelector(a) == CanonicalSelector(b)
  {
    hide DenotesAll, ExpressionText, ClauseText, Submitted, Distinct;
    var ps, qs, ca, cb :| ExpressionText(ps) == a && ExpressionText(qs) == b && DenotesAll(ps, ca) &&
      DenotesAll(qs, cb) && multiset(ca) == multiset(cb);
    WrittenExpressionIsRead(ps, ca);
    WrittenExpressionIsRead(qs, cb);
    TextsPermuted(ca, cb);
    if Submitted(a).Some? {
      SubmittedText(a);
      SubmittedText(b);
    }
  }

  /** And only the same clauses have one canonical text. */
  lemma SameTextIsWrittenAlike(a: string, b: string)
    requires CanonicalSelector(a).Some? && CanonicalSelector(a) == CanonicalSelector(b)
    ensures WrittenAlike(a, b)
  {
    var ps := ReadExpressionIsWritten(a, Submitted(a).value);
    var qs := ReadExpressionIsWritten(b, Submitted(b).value);
    assert 1 <= |a| <= MAX_LENGTH && 1 <= |b| <= MAX_LENGTH;
    var pa, pb := ParseSelector(a).value, ParseSelector(b).value;
    hide Submitted, DenotesAll, ExpressionText, ParseSelector, ValidSelector, CanonicalText, ClauseText;
    ParsedIsValid(a);
    ParsedIsValid(b);
    CanonicalTextTells(pa.clauses, pb.clauses);
  }

  lemma {:induction false} TextsTell(a: seq<Clause>, b: seq<Clause>)
    requires (forall c :: c in a ==> ValidClause(c)) && (forall c :: c in b ==> ValidClause(c))
    requires Selector.Texts(a) == Selector.Texts(b)
    ensures a == b
  {
    hide ClauseText, ValidClause;
    assert |a| == |Selector.Texts(a)| == |Selector.Texts(b)| == |b|;
    forall i | 0 <= i < |a| ensures a[i] == b[i] {
      assert Selector.Texts(a)[i] == Selector.Texts(b)[i];
      ClauseTextIsInjective(a[i], b[i]);
    }
  }

  /** The canonical text determines the clauses, of whatever length it is. */
  lemma CanonicalTextTells(a: seq<Clause>, b: seq<Clause>)
    requires ValidSelector(a) && ValidSelector(b) && CanonicalText(a) == CanonicalText(b)
    ensures a == b
  {
    ScanCanonical(a);
    ScanCanonical(b);
    hide Scan, ClauseText, ValidClause;
    TextsTell(a, b);
  }
}
