/** What a selector says about labels, read off its written text: the clauses are those of the
    grammar, and no clause list of the parser is involved. */
module SelectorReading {
  import opened Ordering
  import opened Text
  import opened Selector
  import opened SelectorLaws
  import opened Grammar

  /** Some label has this key, in any letter case, and a value such as this. */
  ghost predicate SomeLabel(labels: map<string, string>, key: string, such: string -> bool) {
    exists k :: k in labels && Lower(k) == Lower(key) && such(Lower(labels[k]))
  }

  /** What one written clause says: of a bare key that it is there, of a comparison that the value
      is or is not the one written, of a set that the value is among those written or among none
      of them; always that the key is there. Letter case does not matter. */
  ghost predicate Means(w: Written, labels: map<string, string>) {
    match w
    case Bare(key) => SomeLabel(labels, key, v => true)
    case Comparison(key, _, op, _, value) =>
      if op == "!=" then SomeLabel(labels, key, v => v != Lower(value))
      else SomeLabel(labels, key, v => v == Lower(value))
    case InSet(key, _, word, _, values) =>
      if Lower(word) == "in" then SomeLabel(labels, key, v => exists p :: p in values && v == Lower(p.text))
      else SomeLabel(labels, key, v => forall p :: p in values ==> v != Lower(p.text))
  }

  /** `ps` is a way to read the expression: its text, at most 1024 bytes of at most 32 written
      clauses, no two of which say the same. */
  ghost predicate IsReading(expression: string, ps: seq<Part>) {
    && 1 <= |expression| <= 1024 && |ps| <= 32 && ExpressionText(ps) == expression
    && exists cs :: DenotesAll(ps, cs) && Distinct(cs)
  }

  /** Every clause of a reading holds. */
  ghost predicate MeansAll(ps: seq<Part>, labels: map<string, string>) {
    forall i :: 0 <= i < |ps| ==> Means(ps[i].clause, labels)
  }

  /** The expression can be read, and what it says is so. */
  ghost predicate Says(expression: string, labels: map<string, string>) {
    exists ps :: IsReading(expression, ps) && MeansAll(ps, labels)
  }

  /** `lowered` has every lower-cased entry and no other. */
  ghost predicate HasLowered(labels: map<string, string>, lowered: map<string, string>) {
    && (forall k :: k in labels ==> Lower(k) in lowered && lowered[Lower(k)] == Lower(labels[k]))
    && (forall l :: l in lowered ==> exists k :: k in labels && Lower(k) == l)
  }

  // ---- readings are what the parser accepts ----

  lemma DistinctTexts(cs: seq<Clause>)
    requires forall c :: c in cs ==> ValidClause(c)
    ensures Distinct(cs) <==> Distinct(Selector.Texts(cs))
  {
    hide ClauseText, ValidClause;
    forall i, j | 0 <= i < j < |cs| ensures cs[i] == cs[j] <==> Selector.Texts(cs)[i] == Selector.Texts(cs)[j] {
      if ClauseText(cs[i]) == ClauseText(cs[j]) { ClauseTextIsInjective(cs[i], cs[j]); }
    }
  }

  lemma DenotedIsValid(w: Written, c: Clause)
    requires Denotes(w, c)
    ensures ValidClause(c)
  {
    hide ParseClause, WrittenText, Denotes, ValidClause;
    WrittenIsRead(w, c);
    ClauseIsValid(WrittenText(w));
  }

  lemma AllDenotedValid(ps: seq<Part>, cs: seq<Clause>)
    requires DenotesAll(ps, cs)
    ensures forall c :: c in cs ==> ValidClause(c)
  {
    hide Denotes, ValidClause;
    forall i | 0 <= i < |cs| ensures ValidClause(cs[i]) { DenotedIsValid(ps[i].clause, cs[i]); }
  }

  lemma ReadingIsSubmitted(expression: string, ps: seq<Part>, cs: seq<Clause>)
    requires DenotesAll(ps, cs) && ExpressionText(ps) == expression
    ensures IsReading(expression, ps) && Distinct(cs) ==> Submitted(expression) == Some(cs)
    ensures Submitted(expression) == Some(cs) ==> IsReading(expression, ps) && Distinct(cs)
  {
    hide PartDenotes, ExpressionText, Submitted, ValidClause, ClauseText;
    AllDenotedValid(ps, cs);
    DistinctTexts(cs);
    SelectorGrammar(expression, cs);
  }

  /** The parser accepts an expression exactly when it can be read. */
  lemma AcceptedIsReadable(expression: string)
    ensures ParseSelector(expression).Some? <==> exists ps :: IsReading(expression, ps)
  {
    hide PartDenotes, ExpressionText, Submitted, ClauseText;
    if Submitted(expression).Some? {
      var ps := ReadExpressionIsWritten(expression, Submitted(expression).value);
      ReadingIsSubmitted(expression, ps, Submitted(expression).value);
    }
    if ps :| IsReading(expression, ps) {
      var cs :| DenotesAll(ps, cs) && Distinct(cs);
      ReadingIsSubmitted(expression, ps, cs);
    }
  }

  // ---- clauses hold as they read ----

  lemma ComparisonMeans(w: Written, c: Clause, labels: map<string, string>, lowered: map<string, string>)
    requires w.Comparison? && Denotes(w, c) && HasLowered(labels, lowered)
    ensures Holds(c, lowered) <==> Means(w, labels)
  {
    hide Lower, IsLabelKey, IsLabelValue, IsRegexBlank;
    KeyThere(w.key, labels, lowered);
  }

  lemma BareMeans(w: Written, c: Clause, labels: map<string, string>, lowered: map<string, string>)
    requires w.Bare? && Denotes(w, c) && HasLowered(labels, lowered)
    ensures Holds(c, lowered) <==> Means(w, labels)
  {
    hide Lower, IsLabelKey;
    KeyThere(w.key, labels, lowered);
  }

  lemma KeyThere(key: string, labels: map<string, string>, lowered: map<string, string>)
    requires HasLowered(labels, lowered)
    ensures Lower(key) in lowered <==> exists k :: k in labels && Lower(k) == Lower(key)
    ensures forall k :: k in labels && Lower(k) == Lower(key) ==> lowered[Lower(key)] == Lower(labels[k])
  {
    hide Lower;
  }

  lemma ValuesAreThose(values: seq<Padded>, denoted: seq<string>, v: string)
    requires DenotesValues(values, denoted)
    ensures v in denoted <==> exists p :: p in values && v == Lower(p.text)
  {
    var texts := LowerAll(Contents(values));
    assert v in denoted <==> v in Elems(denoted);
    assert v in texts <==> v in Elems(texts);
    hide DenotesValues, Lower;
    if v in texts {
      var i :| 0 <= i < |texts| && texts[i] == v;
      assert values[i] in values;
    }
    if p :| p in values && v == Lower(p.text) {
      var i :| 0 <= i < |values| && values[i] == p;
      assert texts[i] == v;
    }
  }

  lemma SetMeans(w: Written, c: Clause, labels: map<string, string>, lowered: map<string, string>)
    requires w.InSet? && Denotes(w, c) && HasLowered(labels, lowered)
    ensures Holds(c, lowered) <==> Means(w, labels)
  {
    hide Lower, IsLabelKey, IsRegexBlank, DenotesValues;
    KeyThere(w.key, labels, lowered);
    forall v { ValuesAreThose(w.values, c.values, v); }
  }

  lemma WrittenMeans(w: Written, c: Clause, labels: map<string, string>, lowered: map<string, string>)
    requires Denotes(w, c) && HasLowered(labels, lowered)
    ensures Holds(c, lowered) <==> Means(w, labels)
  {
    hide Denotes, Holds, Means, HasLowered;
    match w {
      case Bare(_) => BareMeans(w, c, labels, lowered);
      case Comparison(_, _, _, _, _) => ComparisonMeans(w, c, labels, lowered);
      case InSet(_, _, _, _, _) => SetMeans(w, c, labels, lowered);
    }
  }

  /** The clauses of the parser hold of lowered labels exactly when every reading of the
      expression says so of the labels. */
  lemma ReadingMeans(expression: string, ps: seq<Part>, labels: map<string, string>, lowered: map<string, string>)
    requires IsReading(expression, ps) && HasLowered(labels, lowered)
    ensures Submitted(expression).Some?
    ensures (forall c :: c in Submitted(expression).value ==> Holds(c, lowered)) <==> MeansAll(ps, labels)
  {
    hide Denotes, Holds, Means, HasLowered, Submitted, ExpressionText, Distinct;
    var cs :| DenotesAll(ps, cs) && Distinct(cs);
    ReadingIsSubmitted(expression, ps, cs);
    forall i | 0 <= i < |ps| ensures Holds(cs[i], lowered) <==> Means(ps[i].clause, labels) {
      assert PartDenotes(ps[i], cs[i]);
      WrittenMeans(ps[i].clause, cs[i], labels, lowered);
    }
  }
}
