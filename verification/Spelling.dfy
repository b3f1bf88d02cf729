/** What does not reach the canonical form of selectors, ports and rules: letter case, the order
    of clauses, of the values of a set and of ports, blanks around and inside clauses, and `==`
    for `=`. */
module Spelling {
  import opened Ordering
  import opened Text
  import opened Selector
  import opened Policy
  import Grammar

  function LowerEach(s: seq<string>): (r: seq<string>)
    ensures |r| == |s| && forall i :: 0 <= i < |s| ==> r[i] == Lower(s[i])
  {
    Each(Lower, s)
  }

  // ---- Lower commutes with reading ----

  lemma LowerSlices(s: string, i: nat, j: nat)
    requires i <= j <= |s|
    ensures Lower(s)[i..j] == Lower(s[i..j]) && Lower(s)[i..] == Lower(s[i..]) && Lower(s)[..i] == Lower(s[..i])
  {
  }

  lemma LowerFirst(s: string)
    ensures s != [] ==> Lower(s)[0] == LowerChar(s[0]) && Lower(s)[1..] == Lower(s[1..])
    ensures s == [] ==> Lower(s) == []
  {
  }

  lemma LowerConcat(a: string, b: string)
    ensures Lower(a + b) == Lower(a) + Lower(b)
  {
  }

  lemma LowerAvoids(s: string, c: char)
    requires !('A' <= c <= 'Z') && !('a' <= c <= 'z')
    ensures c in Lower(s) <==> c in s
  {
    if c in s {
      var i :| 0 <= i < |s| && s[i] == c;
      assert Lower(s)[i] == c;
    }
  }

  lemma {:induction false} TrimLeftLowers(s: string)
    ensures TrimLeft(Lower(s)) == Lower(TrimLeft(s))
  {
    LowerFirst(s);
    assert s != [] ==> (IsSpace(LowerChar(s[0])) <==> IsSpace(s[0]));
    hide Lower, TrimLeft, IsSpace, LowerChar;
    TrimLeftStep(s);
    TrimLeftStep(Lower(s));
    if s != [] && IsSpace(s[0]) { TrimLeftLowers(s[1..]); }
  }

  lemma {:induction false} TrimRightLowers(s: string)
    ensures TrimRight(Lower(s)) == Lower(TrimRight(s))
  {
    if s != [] && IsSpace(s[|s| - 1]) {
      LowerSlices(s, |s| - 1, |s|);
      hide Lower;
      TrimRightLowers(s[..|s| - 1]);
      assert TrimRight(s) == TrimRight(s[..|s| - 1]);
    }
  }

  lemma TrimLowers(s: string)
    ensures Trim(Lower(s)) == Lower(Trim(s))
  {
    hide Lower, TrimLeft, TrimRight;
    TrimLeftLowers(s);
    TrimRightLowers(TrimLeft(s));
  }

  lemma LowerJoined(x: string, sep: char, rest: string)
    requires !('A' <= sep <= 'Z')
    ensures Lower(x + [sep] + rest) == Lower(x) + [sep] + Lower(rest)
  {
    LowerConcat(x + [sep], rest);
    LowerConcat(x, [sep]);
    assert Lower([sep]) == [sep];
    hide Lower;
  }

  lemma LowerEachFirst(x: string, rest: seq<string>)
    ensures LowerEach([x] + rest) == [Lower(x)] + LowerEach(rest)
  {
    hide Lower;
  }

  lemma {:induction false} SplitLowers(s: string, sep: char)
    requires !('A' <= sep <= 'Z') && !('a' <= sep <= 'z')
    ensures Split(Lower(s), sep) == LowerEach(Split(s, sep))
    decreases |s|
  {
    hide Lower, Split, LowerEach;
    LowerAvoids(s, sep);
    if sep in s {
      var x, rest := AtSeparator(s, sep);
      LowerJoined(x, sep, rest);
      LowerAvoids(x, sep);
      SplitFirst(x, rest, sep);
      SplitFirst(Lower(x), Lower(rest), sep);
      SplitLowers(rest, sep);
      LowerEachFirst(x, Split(rest, sep));
    } else {
      SplitNone(s, sep);
      SplitNone(Lower(s), sep);
      assert LowerEach([s]) == [Lower(s)];
    }
  }

  lemma {:induction false} KeyRunLowers(s: string)
    ensures KeyRun(Lower(s)) == Lower(KeyRun(s))
  {
    if s != [] && IsKeyChar(s[0]) {
      KeyRunLowers(s[1..]);
      LowerSlices(s, 1, |s|);
      LowerConcat([s[0]], KeyRun(s[1..]));
    }
  }

  lemma {:induction false} WordRunLowers(s: string)
    ensures WordRun(Lower(s)) == Lower(WordRun(s))
  {
    if s != [] && !IsRegexSpace(s[0]) {
      WordRunLowers(s[1..]);
      LowerSlices(s, 1, |s|);
      LowerConcat([s[0]], WordRun(s[1..]));
    }
  }

  lemma {:induction false} SkipSpaceLowers(s: string)
    ensures SkipSpace(Lower(s)) == Lower(SkipSpace(s))
  {
    if s != [] && IsRegexSpace(s[0]) {
      SkipSpaceLowers(s[1..]);
      LowerSlices(s, 1, |s|);
    }
  }

  lemma LabelKeyLowers(s: string)
    ensures IsLabelKey(Lower(s)) <==> IsLabelKey(s)
  {
    if IsLabelKey(s) {
      forall c | c in Lower(s) ensures IsKeyChar(c) {
        var i :| 0 <= i < |s| && Lower(s)[i] == c;
        assert s[i] in s;
      }
    }
    if IsLabelKey(Lower(s)) {
      forall c | c in s ensures IsKeyChar(c) {
        var i :| 0 <= i < |s| && s[i] == c;
        assert Lower(s)[i] in Lower(s);
      }
    }
  }

  // ---- one clause ----

  function LowerSet(m: Option<SetMatch>): Option<SetMatch> {
    if m.None? then None else Some(SetMatch(Lower(m.value.key), m.value.op, Lower(m.value.inner)))
  }

  lemma MatchSetTailLowers(key: string, op: string, tail: string)
    ensures MatchSetTail(Lower(key), op, Lower(tail)) == LowerSet(MatchSetTail(key, op, tail))
  {
    SkipSpaceLowers(tail);
    var t := SkipSpace(tail);
    if |t| >= 2 {
      LowerSlices(t, 1, |t| - 1);
      LowerAvoids(t[1..|t| - 1], '(');
      LowerAvoids(t[1..|t| - 1], ')');
    }
  }

  lemma MatchSetLowers(part: string)
    ensures MatchSet(Lower(part)) == LowerSet(MatchSet(part))
  {
    KeyRunLowers(part);
    var key := KeyRun(part);
    LabelKeyLowers(key);
    LowerSlices(part, |key|, |part|);
    var rest := part[|key|..];
    SkipSpaceLowers(rest);
    var body := SkipSpace(rest);
    if |body| >= 2 {
      LowerSlices(body, 2, |body|);
      LowerIsIdempotent(body[..2]);
      MatchSetTailLowers(key, "in", body[2..]);
    }
    if |body| >= 5 {
      LowerSlices(body, 5, |body|);
      LowerIsIdempotent(body[..5]);
      MatchSetTailLowers(key, "notin", body[5..]);
    }
    hide Lower, KeyRun, SkipSpace, IsLabelKey, MatchSetTail;
    assert rest != [] ==> Lower(rest)[0] == LowerChar(rest[0]);
  }

  function LowerBinary(m: Option<BinaryMatch>): Option<BinaryMatch> {
    if m.None? then None else Some(BinaryMatch(Lower(m.value.key), m.value.op, Lower(m.value.value)))
  }

  lemma MatchOperandLowers(key: string, op: string, tail: string)
    ensures MatchOperand(Lower(key), op, Lower(tail)) == LowerBinary(MatchOperand(key, op, tail))
  {
    SkipSpaceLowers(tail);
    var t := SkipSpace(tail);
    WordRunLowers(t);
    var value := WordRun(t);
    LowerSlices(t, |value|, |t|);
    SkipSpaceLowers(t[|value|..]);
  }

  lemma OperatorLowers(rest: string)
    ensures |rest| >= 2 ==>
      (Lower(rest)[..2] == "==" <==> rest[..2] == "==") && (Lower(rest)[..2] == "!=" <==> rest[..2] == "!=")
    ensures |rest| >= 1 ==> (Lower(rest)[0] == '=' <==> rest[0] == '=')
  {
    if |rest| >= 2 {
      assert rest[..2] == [rest[0], rest[1]] && Lower(rest)[..2] == [LowerChar(rest[0]), LowerChar(rest[1])];
    }
  }

  lemma MatchBinaryLowers(part: string)
    ensures MatchBinary(Lower(part)) == LowerBinary(MatchBinary(part))
  {
    KeyRunLowers(part);
    var key := KeyRun(part);
    LabelKeyLowers(key);
    LowerSlices(part, |key|, |part|);
    hide KeyRun, SkipSpace, IsLabelKey, MatchOperand, Lower;
    SkipSpaceLowers(part[|key|..]);
    var rest := SkipSpace(part[|key|..]);
    OperatorLowers(rest);
    if |rest| >= 1 {
      LowerSlices(rest, 1, |rest|);
      MatchOperandLowers(key, "=", rest[1..]);
    }
    if |rest| >= 2 {
      LowerSlices(rest, 2, |rest|);
      MatchOperandLowers(key, "==", rest[2..]);
      MatchOperandLowers(key, "!=", rest[2..]);
    }
  }

  lemma {:induction false} CleanedLowers(raw: seq<string>)
    ensures Cleaned(LowerEach(raw)) == Cleaned(raw)
  {
    forall i | 0 <= i < |raw| ensures CleanValue(Lower(raw[i])) == CleanValue(raw[i]) {
      TrimLowers(raw[i]);
      LowerIsIdempotent(Trim(raw[i]));
    }
  }

  lemma SetValuesLower(inner: string)
    ensures SetValues(Lower(inner)) == SetValues(inner)
  {
    hide Lower, Split, IsLabelValue, Cleaned, StrLess;
    SplitLowers(inner, ',');
    CleanedLowers(Split(inner, ','));
  }

  /** A clause reads the same in any letter case. */
  lemma ClauseIgnoresCase(part: string)
    ensures ParseClause(Lower(part)) == ParseClause(part)
  {
    hide Lower, MatchSet, MatchBinary, SetValues, IsLabelValue, IsLabelKey, IsLower;
    MatchSetLowers(part);
    MatchBinaryLowers(part);
    LabelKeyLowers(part);
    LowerIsIdempotent(part);
    var m := MatchSet(part);
    if m.Some? {
      SetValuesLower(m.value.inner);
      LowerIsIdempotent(m.value.key);
    }
    var b := MatchBinary(part);
    if b.Some? {
      LowerIsIdempotent(b.value.key);
      LowerIsIdempotent(b.value.value);
    }
  }

  // ---- the whole expression ----

  function LowerParts(parts: Option<seq<string>>): Option<seq<string>> {
    if parts.None? then None else Some(LowerEach(parts.value))
  }

  lemma LowerMore(s: string, c: char)
    ensures Lower(s + [c]) == Lower(s) + [LowerChar(c)]
  {
  }

  lemma PrependLowers(part: string, later: Option<seq<string>>)
    ensures LowerParts(Prepend([part], later)) == Prepend([Lower(part)], LowerParts(later))
  {
    hide Lower;
    if later.Some? { assert LowerEach([part] + later.value) == [Lower(part)] + LowerEach(later.value); }
  }

  lemma PartLowers(part: string, later: Option<seq<string>>)
    ensures LowerParts(PartFirst(part, later)) == PartFirst(Lower(part), LowerParts(later))
  {
    if part != [] { PrependLowers(part, later); }
    hide Lower, Prepend;
  }

  ghost predicate ScanCommutes(cur: string, rest: string, depth: nat) {
    Scan(Lower(cur), Lower(rest), depth) == LowerParts(Scan(cur, rest, depth))
  }

  lemma ScanEndLowers(cur: string, depth: nat)
    ensures ScanCommutes(cur, [], depth)
  {
    TrimLowers(cur);
    LowerFirst([]);
    hide Lower, Trim;
    assert LowerEach([Trim(cur)]) == [Lower(Trim(cur))];
  }

  lemma ScanCommaLowers(cur: string, rest: string)
    requires rest != [] && rest[0] == ',' && ScanCommutes([], rest[1..], 0)
    ensures ScanCommutes(cur, rest, 0)
  {
    hide Scan, Lower, Trim, PartFirst, LowerParts;
    TrimLowers(cur);
    LowerFirst(rest);
    LowerFirst([]);
    ScanStep(cur, rest, 0);
    ScanStep(Lower(cur), Lower(rest), 0);
    PartLowers(Trim(cur), Scan([], rest[1..], 0));
  }

  lemma ScanCharLowers(cur: string, rest: string, depth: nat)
    requires rest != [] && (rest[0] != ',' || depth > 0)
    requires DepthAfter(rest[0], depth).Some? ==>
      ScanCommutes(cur + [rest[0]], rest[1..], DepthAfter(rest[0], depth).value)
    ensures ScanCommutes(cur, rest, depth)
  {
    LowerFirst(rest);
    LowerMore(cur, rest[0]);
    ScanStep(cur, rest, depth);
    ScanStep(Lower(cur), Lower(rest), depth);
    hide Scan, Lower, Trim;
  }

  lemma {:induction false} ScanLowers(cur: string, rest: string, depth: nat)
    ensures ScanCommutes(cur, rest, depth)
    decreases |rest|
  {
    hide ScanCommutes;
    if rest == [] {
      ScanEndLowers(cur, depth);
    } else if rest[0] == ',' && depth == 0 {
      ScanLowers([], rest[1..], 0);
      ScanCommaLowers(cur, rest);
    } else {
      var next := DepthAfter(rest[0], depth);
      if next.Some? { ScanLowers(cur + [rest[0]], rest[1..], next.value); }
      ScanCharLowers(cur, rest, depth);
    }
  }

  /** The canonical text of one clause; empty for what is no clause. */
  ghost function PartText(part: string): string {
    var c := ParseClause(part);
    if c.None? then "" else ClauseText(c.value)
  }

  lemma PartIgnoresCase(part: string)
    ensures PartText(Lower(part)) == PartText(part)
  {
    ClauseIgnoresCase(part);
  }

  ghost predicate AreClauses(parts: seq<string>) {
    forall p :: p in parts ==> ParseClause(p).Some?
  }

  /** Parts parse together exactly when each does and no two have the same canonical text. */
  lemma {:induction false} ClausesOfParts(parts: seq<string>)
    ensures ClausesOf(parts).Some? <==> AreClauses(parts) && Distinct(Each(PartText, parts))
    ensures ClausesOf(parts).Some? ==> Texts(ClausesOf(parts).value) == Each(PartText, parts)
  {
    hide ParseClause, ClauseText;
    if parts != [] {
      var front, last := parts[..|parts| - 1], parts[|parts| - 1];
      ClausesOfParts(front);
      assert parts == front + [last];
      assert Each(PartText, parts) == Each(PartText, front) + [PartText(last)];
      DistinctMore(Each(PartText, front), PartText(last));
      assert AreClauses(parts) <==> AreClauses(front) && ParseClause(last).Some?;
      if ClausesOf(parts).Some? {
        var cs := ClausesOf(parts).value;
        assert cs[..|cs| - 1] == ClausesOf(front).value;
      }
    }
  }

  lemma EachIgnoresCase(parts: seq<string>)
    ensures Each(PartText, LowerEach(parts)) == Each(PartText, parts)
    ensures AreClauses(LowerEach(parts)) <==> AreClauses(parts)
  {
    forall i | 0 <= i < |parts|
      ensures PartText(Lower(parts[i])) == PartText(parts[i]) && ParseClause(Lower(parts[i])) == ParseClause(parts[i])
    {
      PartIgnoresCase(parts[i]);
      ClauseIgnoresCase(parts[i]);
    }
    hide Lower, ParseClause, PartText;
    assert forall i :: 0 <= i < |parts| ==> parts[i] in parts && LowerEach(parts)[i] in LowerEach(parts);
  }

  ghost function TextOf(parts: seq<string>): Option<string> {
    if ClausesOf(parts).None? then None else Some(Join(StrList(Elems(Each(PartText, parts))), ','))
  }

  lemma SameTexts(a: seq<string>, b: seq<string>)
    requires multiset(Each(PartText, a)) == multiset(Each(PartText, b))
    requires AreClauses(a) <==> AreClauses(b)
    ensures TextOf(a) == TextOf(b)
  {
    hide PartText, ParseClause;
    ClausesOfParts(a);
    ClausesOfParts(b);
    hide ClausesOf, AreClauses;
    MultisetElems(Each(PartText, a), Each(PartText, b));
    if Distinct(Each(PartText, a)) { MultisetDistinct(Each(PartText, a), Each(PartText, b)); }
    if Distinct(Each(PartText, b)) { MultisetDistinct(Each(PartText, b), Each(PartText, a)); }
  }

  lemma ClausesPermuted(a: seq<string>, b: seq<string>)
    requires multiset(a) == multiset(b)
    ensures AreClauses(a) <==> AreClauses(b)
  {
    hide ParseClause;
    assert forall p :: (p in a <==> p in multiset(a)) && (p in b <==> p in multiset(b));
  }

  /** The canonical text depends on the clauses as a set, whatever their order and letter case. */
  lemma TextIgnoresOrderAndCase(a: seq<string>, b: seq<string>)
    requires multiset(LowerEach(a)) == multiset(LowerEach(b))
    ensures TextOf(a) == TextOf(b)
  {
    hide PartText, AreClauses, ClausesOf, Lower;
    var la, lb := LowerEach(a), LowerEach(b);
    EachPermuted(PartText, la, lb);
    ClausesPermuted(la, lb);
    EachIgnoresCase(a);
    EachIgnoresCase(b);
    SameTexts(a, b);
  }

  /** The same clauses in any order, any letter case and any blanks around them, whether or
      not they are clauses. */
  ghost predicate SameParts(a: string, b: string) {
    && 1 <= |a| <= MAX_LENGTH && 1 <= |b| <= MAX_LENGTH && Scan([], a, 0).Some? && Scan([], b, 0).Some?
    && multiset(LowerEach(Scan([], a, 0).value)) == multiset(LowerEach(Scan([], b, 0).value))
  }

  /** Two spellings of one selector: in any letter case; or with the same parts; or, by the
      grammar, with the same clauses in any order and written in any way: with any blanks around
      and inside them, `==` for `=`, and the values of a set in any order. */
  ghost predicate SameSelector(a: string, b: string) {
    Lower(a) == Lower(b) || SameParts(a, b) || Grammar.WrittenAlike(a, b)
  }

  lemma CanonicalIsText(expression: string)
    requires 1 <= |expression| <= MAX_LENGTH && Scan([], expression, 0).Some?
    ensures var parts := Scan([], expression, 0).value;
      CanonicalSelector(expression) == if |parts| <= MAX_CLAUSES then TextOf(parts) else None
  {
    hide Scan, ClausesOf, PartText;
    var parts := Scan([], expression, 0).value;
    ClausesOfParts(parts);
    if ClausesOf(parts).Some? { SortStrings(Each(PartText, parts)); }
  }

  lemma SameCaseSameParts(a: string, b: string)
    requires Lower(a) == Lower(b)
    ensures |a| == |b| && LowerParts(Scan([], a, 0)) == LowerParts(Scan([], b, 0))
  {
    assert |a| == |Lower(a)| == |Lower(b)| == |b|;
    assert Lower([]) == [];
    ScanLowers([], a, 0);
    ScanLowers([], b, 0);
  }

  lemma SamePartsAreTheSame(a: string, b: string)
    requires SameParts(a, b)
    ensures CanonicalSelector(a) == CanonicalSelector(b)
  {
    hide Lower, TextOf;
    CanonicalIsText(a);
    CanonicalIsText(b);
    var pa, pb := Scan([], a, 0).value, Scan([], b, 0).value;
    hide Scan;
    TextIgnoresOrderAndCase(pa, pb);
    assert |pa| == |LowerEach(pa)| == |multiset(LowerEach(pa))| == |multiset(LowerEach(pb))| == |LowerEach(pb)| == |pb|;
  }

  /** Spellings of one selector are refused together or have one canonical text. */
  lemma SpellingDoesNotMatter(a: string, b: string)
    requires SameSelector(a, b)
    ensures CanonicalSelector(a) == CanonicalSelector(b)
  {
    hide Lower, Grammar.WrittenAlike, ClausesOf;
    if Lower(a) == Lower(b) { SameCaseSameParts(a, b); }
    hide Scan;
    if Lower(a) == Lower(b) && 1 <= |a| <= MAX_LENGTH && Scan([], a, 0).Some? { assert SameParts(a, b); }
    if SameParts(a, b) {
      SamePartsAreTheSame(a, b);
    } else if Grammar.WrittenAlike(a, b) {
      Grammar.WrittenAlikeIsTheSame(a, b);
    }
  }

  /** Accepted expressions have one canonical text exactly when they are spellings of one selector. */
  lemma SpellingIsExact(a: string, b: string)
    requires CanonicalSelector(a).Some? && CanonicalSelector(b).Some?
    ensures CanonicalSelector(a) == CanonicalSelector(b) <==> SameSelector(a, b)
  {
    hide SameSelector, ParseSelector, Grammar.WrittenAlike;
    if SameSelector(a, b) { SpellingDoesNotMatter(a, b); }
    if CanonicalSelector(a) == CanonicalSelector(b) {
      Grammar.SameTextIsWrittenAlike(a, b);
      WrittenAlikeIsSpelling(a, b);
    }
  }

  lemma WrittenAlikeIsSpelling(a: string, b: string)
    requires Grammar.WrittenAlike(a, b)
    ensures SameSelector(a, b)
  {
  }

  /** Blanks around an operator, a doubled equals sign, blanks before a parenthesis and around
      values, the order of values and letter case are matters of spelling. */
  lemma SpellingsOfOneClause()
    ensures SameSelector("a == b", "a=b")
    ensures SameSelector("k in( y ,x)", "K IN (x,y)")
  {
    hide SameParts, Scan;
    ComparisonSpellings();
    SetSpellings();
  }

  lemma TwoWritings(w: Grammar.Written, x: Grammar.Written, c: Clause)
    requires Grammar.PartDenotes(Grammar.Part("", w, ""), c) && Grammar.PartDenotes(Grammar.Part("", x, ""), c)
    requires 1 <= |Grammar.WrittenText(w)| <= MAX_LENGTH && 1 <= |Grammar.WrittenText(x)| <= MAX_LENGTH
    ensures Grammar.WrittenAlike(Grammar.WrittenText(w), Grammar.WrittenText(x))
  {
    hide Grammar.PartDenotes, Grammar.ExpressionText, Grammar.WrittenText;
    AloneText(w);
    AloneText(x);
    assert Grammar.DenotesAll([Grammar.Part("", w, "")], [c]);
    assert Grammar.DenotesAll([Grammar.Part("", x, "")], [c]);
  }

  lemma ComparisonSpellings()
    ensures Grammar.WrittenAlike("a == b", "a=b")
  {
    var c := Clause("a", "=", ["b"]);
    var w, x := Grammar.Comparison("a", " ", "==", " ", "b"), Grammar.Comparison("a", "", "=", "", "b");
    assert Lower("a") == "a" && Lower("b") == "b";
    assert Grammar.PartDenotes(Grammar.Part("", w, ""), c) && Grammar.PartDenotes(Grammar.Part("", x, ""), c);
    assert Grammar.WrittenText(w) == "a == b" && Grammar.WrittenText(x) == "a=b";
    hide Grammar.WrittenAlike, Grammar.PartDenotes, Grammar.WrittenText;
    TwoWritings(w, x, c);
  }

  lemma SetSpellings()
    ensures Grammar.WrittenAlike("k in( y ,x)", "K IN (x,y)")
  {
    hide Grammar.DenotesValues, Grammar.PartDenotes, Grammar.WrittenText, Grammar.WrittenAlike, Lower;
    var ys, xs, yt := Grammar.Padded(" ", "y", " "), Grammar.Padded("", "x", ""), Grammar.Padded("", "y", "");
    SetDenotes([ys, xs]);
    SetDenotes([xs, yt]);
    SetTexts();
    SetPartDenotes("k", "in", "", [ys, xs]);
    SetPartDenotes("K", "IN", " ", [xs, yt]);
    TwoWritings(Grammar.InSet("k", " ", "in", "", [ys, xs]), Grammar.InSet("K", " ", "IN", " ", [xs, yt]),
                Clause("k", "in", ["x", "y"]));
  }

  lemma SetPartDenotes(key: string, word: string, after: string, values: seq<Grammar.Padded>)
    requires (key == "k" || key == "K") && (word == "in" || word == "IN") && (after == "" || after == " ")
    requires Grammar.DenotesValues(values, ["x", "y"])
    ensures Grammar.PartDenotes(
      Grammar.Part("", Grammar.InSet(key, " ", word, after, values), ""), Clause("k", "in", ["x", "y"]))
  {
    hide Grammar.DenotesValues;
    assert Lower(key) == "k" && Lower(word) == "in";
  }

  lemma SetDenotes(values: seq<Grammar.Padded>)
    requires |values| == 2 && (forall p :: p in values ==> Grammar.HasBlankPadding(p))
    requires (values[0].text == "x" && values[1].text == "y") || (values[0].text == "y" && values[1].text == "x")
    ensures Grammar.DenotesValues(values, ["x", "y"])
  {
    assert Lower("x") == "x" && Lower("y") == "y";
    var texts := Grammar.LowerAll(Grammar.Contents(values));
    assert texts == [values[0].text, values[1].text];
    assert StrLess("x", "y");
    assert Elems(texts) == {"x", "y"} && Elems(["x", "y"]) == {"x", "y"};
  }

  lemma AloneText(w: Grammar.Written)
    ensures Grammar.ExpressionText([Grammar.Part("", w, "")]) == Grammar.WrittenText(w)
  {
    hide Grammar.WrittenText;
    var p := Grammar.Part("", w, "");
    assert Grammar.PartsOf([p]) == [Grammar.PartOf(p)];
    assert [] + (Grammar.WrittenText(w) + []) == Grammar.WrittenText(w);
  }

  lemma PairText(a: Grammar.Padded, b: Grammar.Padded)
    ensures Join(Grammar.Unpads([a, b]), ',') == Grammar.Unpad(a) + "," + Grammar.Unpad(b)
  {
    hide Grammar.Unpad;
    var texts := Grammar.Unpads([a, b]);
    assert texts[1..] == [Grammar.Unpad(b)];
  }

  lemma SetText(key: string, word: string, after: string, values: seq<Grammar.Padded>, inner: string)
    requires Join(Grammar.Unpads(values), ',') == inner
    ensures Grammar.WrittenText(Grammar.InSet(key, " ", word, after, values)) ==
      key + (" " + (word + (after + ("(" + inner + ")"))))
  {
    hide Grammar.Unpads, Join;
  }

  lemma SetTexts()
    ensures var ys, xs := Grammar.Padded(" ", "y", " "), Grammar.Padded("", "x", "");
      Grammar.WrittenText(Grammar.InSet("k", " ", "in", "", [ys, xs])) == "k in( y ,x)"
    ensures var xs, yt := Grammar.Padded("", "x", ""), Grammar.Padded("", "y", "");
      Grammar.WrittenText(Grammar.InSet("K", " ", "IN", " ", [xs, yt])) == "K IN (x,y)"
  {
    hide Grammar.Unpads, Join, Grammar.WrittenText;
    var ys, xs, yt := Grammar.Padded(" ", "y", " "), Grammar.Padded("", "x", ""), Grammar.Padded("", "y", "");
    PairText(ys, xs);
    SetText("k", "in", "", [ys, xs], " y ,x");
    PairText(xs, yt);
    SetText("K", "IN", " ", [xs, yt], "x,y");
  }

  // ---- ports ----

  lemma DigitsLower(s: string)
    ensures IsDigits(Lower(s)) <==> IsDigits(s)
    ensures IsDigits(s) ==> Lower(s) == s
  {
    if IsDigits(s) {
      forall i | 0 <= i < |s| ensures LowerChar(s[i]) == s[i] { assert s[i] in s; }
    }
    if IsDigits(Lower(s)) {
      forall c | c in s ensures IsDigit(c) {
        var i :| 0 <= i < |s| && s[i] == c;
        assert Lower(s)[i] in Lower(s);
      }
    }
  }

  lemma AtoiIgnoresCase(s: string)
    ensures Atoi(Lower(s)) == Atoi(s)
  {
    DigitsLower(s);
    LowerFirst(s);
    if s != [] { DigitsLower(s[1..]); }
    hide Lower, NatOf, IsDigits;
  }

  lemma PortIgnoresCase(port: string)
    ensures CanonicalPort(Lower(port)) == CanonicalPort(port)
  {
    SplitLowers(port, '/');
    var parts := Split(port, '/');
    AtoiIgnoresCase(parts[0]);
    if |parts| == 2 { LowerIsIdempotent(parts[1]); }
    hide Lower, Split, Atoi, Itoa;
  }

  ghost function PortKey(port: string): string {
    var c := CanonicalPort(port);
    if c.None? then "" else c.value
  }

  ghost predicate ArePorts(ports: seq<string>) {
    forall p :: p in ports ==> CanonicalPort(p).Some?
  }

  lemma PortsMore(front: seq<string>, last: string)
    ensures ArePorts(front + [last]) <==> ArePorts(front) && CanonicalPort(last).Some?
    ensures Each(PortKey, front + [last]) == Each(PortKey, front) + [PortKey(last)]
    ensures Elems(Each(PortKey, front + [last])) == Elems(Each(PortKey, front)) + {PortKey(last)}
    ensures PortKey(last) in Elems(Each(PortKey, front)) <==> PortKey(last) in Each(PortKey, front)
  {
    hide CanonicalPort, PortKey;
    assert Each(PortKey, front + [last]) == Each(PortKey, front) + [PortKey(last)];
  }

  lemma CanonicalPortsStep(front: seq<string>, last: string)
    ensures CanonicalPorts(front + [last]) ==
      var seen, next := CanonicalPorts(front), CanonicalPort(last);
      if seen.None? || next.None? || next.value in seen.value then None else Some(seen.value + {next.value})
  {
    hide CanonicalPort;
    var ports := front + [last];
    assert ports[..|ports| - 1] == front;
  }

  lemma {:induction false} CanonicalPortsOf(ports: seq<string>)
    ensures CanonicalPorts(ports).Some? <==> ArePorts(ports) && Distinct(Each(PortKey, ports))
    ensures CanonicalPorts(ports).Some? ==> CanonicalPorts(ports).value == Elems(Each(PortKey, ports))
  {
    if ports != [] {
      hide CanonicalPort, CanonicalPorts, ArePorts, Each, Distinct, Elems;
      var front, last := ports[..|ports| - 1], ports[|ports| - 1];
      assert ports == front + [last];
      CanonicalPortsOf(front);
      CanonicalPortsStep(front, last);
      PortsMore(front, last);
      DistinctMore(Each(PortKey, front), PortKey(last));
    }
  }

  /** The same ports in any order and any letter case. */
  ghost predicate SamePorts(a: seq<string>, b: seq<string>) {
    multiset(LowerEach(a)) == multiset(LowerEach(b))
  }

  lemma PortsIgnoreCase(ports: seq<string>)
    ensures Each(PortKey, LowerEach(ports)) == Each(PortKey, ports)
    ensures ArePorts(LowerEach(ports)) <==> ArePorts(ports)
  {
    forall i | 0 <= i < |ports|
      ensures CanonicalPort(Lower(ports[i])) == CanonicalPort(ports[i])
    {
      PortIgnoresCase(ports[i]);
    }
    hide Lower, CanonicalPort;
    assert forall i :: 0 <= i < |ports| ==> ports[i] in ports && LowerEach(ports)[i] in LowerEach(ports);
  }

  lemma PortSpellingDoesNotMatter(a: seq<string>, b: seq<string>)
    requires SamePorts(a, b)
    ensures NormalPorts(a) == NormalPorts(b)
  {
    var la, lb := LowerEach(a), LowerEach(b);
    assert |a| == |la| == |multiset(la)| == |multiset(lb)| == |lb| == |b|;
    hide Lower, PortKey, CanonicalPort, CanonicalPorts, StrLess;
    EachPermuted(PortKey, la, lb);
    PortsPermuted(la, lb);
    PortsIgnoreCase(a);
    PortsIgnoreCase(b);
    CanonicalPortsOf(a);
    CanonicalPortsOf(b);
    var ka, kb := Each(PortKey, a), Each(PortKey, b);
    MultisetElems(ka, kb);
    if Distinct(ka) { MultisetDistinct(ka, kb); }
    if Distinct(kb) { MultisetDistinct(kb, ka); }
  }

  lemma PortsPermuted(a: seq<string>, b: seq<string>)
    requires multiset(a) == multiset(b)
    ensures ArePorts(a) <==> ArePorts(b)
  {
    hide CanonicalPort;
    assert forall p :: (p in a <==> p in multiset(a)) && (p in b <==> p in multiset(b));
  }

  // ---- rules ----

  ghost predicate SameEndpoint(a: Option<string>, b: Option<string>) {
    (a.Some? <==> b.Some?) && (a.Some? ==> SameSelector(a.value, b.value))
  }

  ghost predicate SameBetween(a: Between, b: Between) {
    && (if a.selector == "" then b.selector == "" else b.selector != "" && SameSelector(a.selector, b.selector))
    && Lower(a.groupBy) == Lower(b.groupBy)
  }

  /** Two spellings of one rule. */
  ghost predicate SameRule(a: Rule, b: Rule) {
    && a.within == b.within && a.action == b.action
    && (a.between.Some? <==> b.between.Some?) && (a.between.Some? ==> SameBetween(a.between.value, b.between.value))
    && SameEndpoint(a.from, b.from) && SameEndpoint(a.to, b.to)
    && SamePorts(a.ports, b.ports)
  }

  lemma SameBetweenForm(a: Between, b: Between)
    requires SameBetween(a, b)
    ensures NormalBetween(a) == NormalBetween(b)
  {
    hide SameSelector, ParseSelector;
    assert |a.groupBy| == |Lower(a.groupBy)| == |Lower(b.groupBy)| == |b.groupBy|;
    LabelKeyLowers(a.groupBy);
    LabelKeyLowers(b.groupBy);
    if a.selector != "" { SpellingDoesNotMatter(a.selector, b.selector); }
    hide Lower, IsLabelKey;
  }

  /** Spellings of one rule are refused together or have one normal form. */
  lemma RuleSpellingDoesNotMatter(a: Rule, b: Rule)
    requires SameRule(a, b)
    ensures NormalRule(a) == NormalRule(b)
  {
    hide SameSelector, ParseSelector, NormalBetween, NormalPorts;
    if a.between.Some? { SameBetweenForm(a.between.value, b.between.value); }
    if a.from.Some? { SpellingDoesNotMatter(a.from.value, b.from.value); }
    if a.to.Some? { SpellingDoesNotMatter(a.to.value, b.to.value); }
    PortSpellingDoesNotMatter(a.ports, b.ports);
    var la, lb := LowerEach(a.ports), LowerEach(b.ports);
    assert |a.ports| == |la| == |multiset(la)| == |multiset(lb)| == |lb| == |b.ports|;
  }
}
