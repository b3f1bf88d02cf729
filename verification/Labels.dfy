/** Lower-cased label maps, and a selector matched against one. */
module Labels {
  import opened Ordering
  import opened Text
  import opened Selector
  import opened SelectorLaws
  import opened SelectorReading

  type LabelMap = map<string, string>

  /** `lowered` is a map the lower-casing loop over `labels` can produce: every key comes
      out, with the value of some entry whose key lowers to it. Which one depends on the
      order in which Go ranges over the map. */
  ghost predicate IsLowered(labels: LabelMap, lowered: LabelMap) {
    && (forall k :: k in labels ==> Lower(k) in lowered)
    && (forall l :: l in lowered ==> exists k :: k in labels && Lower(k) == l && Lower(labels[k]) == lowered[l])
  }

  /** No two entries whose keys differ only by case disagree on the lowered value. */
  ghost predicate Unambiguous(labels: LabelMap) {
    forall a, b :: a in labels && b in labels && Lower(a) == Lower(b) ==> Lower(labels[a]) == Lower(labels[b])
  }

  /** normalizeRuntimeLabels, and the label loop of MatchSelector */
  method LowerLabels(labels: LabelMap) returns (lowered: LabelMap)
    ensures IsLowered(labels, lowered)
  {
    hide Lower;
    lowered := map[];
    var todo := labels.Keys;
    while todo != {}
      invariant todo <= labels.Keys
      invariant forall k :: k in labels && k !in todo ==> Lower(k) in lowered
      invariant forall l :: l in lowered ==> exists k :: k in labels && Lower(k) == l && Lower(labels[k]) == lowered[l]
    {
      var key :| key in todo;
      lowered := lowered[Lower(key) := Lower(labels[key])];
      todo := todo - {key};
    }
  }

  ghost function LowerKeys(labels: LabelMap): set<string> {
    set k | k in labels :: Lower(k)
  }

  ghost function ValueUnder(labels: LabelMap, lowerKey: string): string
    requires lowerKey in LowerKeys(labels)
  {
    var k :| k in labels && Lower(k) == lowerKey;
    Lower(labels[k])
  }

  /** One such map, chosen once and for all. */
  ghost function Lowered(labels: LabelMap): (lowered: LabelMap)
    ensures IsLowered(labels, lowered)
  {
    hide Lower;
    map l | l in LowerKeys(labels) :: ValueUnder(labels, l)
  }

  lemma LoweredAgree(labels: LabelMap, a: LabelMap, b: LabelMap)
    requires Unambiguous(labels) && IsLowered(labels, a) && IsLowered(labels, b)
    ensures a == b
  {
    hide Lower;
    assert a.Keys == b.Keys;
    forall l | l in a ensures a[l] == b[l] {
      var k :| k in labels && Lower(k) == l && Lower(labels[k]) == a[l];
      var k2 :| k2 in labels && Lower(k2) == l && Lower(labels[k2]) == b[l];
    }
  }

  lemma LoweredWith(labels: LabelMap, x: string) returns (lowered: LabelMap)
    requires x in labels
    ensures IsLowered(labels, lowered) && Lower(x) in lowered && lowered[Lower(x)] == Lower(labels[x])
  {
    hide Lower;
    lowered := Lowered(labels)[Lower(x) := Lower(labels[x])];
  }

  /** Lower-casing labels has one outcome exactly when no case-insensitive duplicate
      carries two values. */
  lemma LoweringIsDetermined(labels: LabelMap)
    ensures (forall a, b :: IsLowered(labels, a) && IsLowered(labels, b) ==> a == b) <==> Unambiguous(labels)
  {
    hide Lower, IsLowered;
    if Unambiguous(labels) {
      forall a, b | IsLowered(labels, a) && IsLowered(labels, b) ensures a == b { LoweredAgree(labels, a, b); }
    } else {
      var x, y :| x in labels && y in labels && Lower(x) == Lower(y) && Lower(labels[x]) != Lower(labels[y]);
      var a := LoweredWith(labels, x);
      var b := LoweredWith(labels, y);
      assert a != b;
    }
  }

  /** Every clause holds. */
  ghost predicate Satisfies(cs: seq<Clause>, labels: LabelMap) {
    forall c :: c in cs ==> Holds(c, labels)
  }

  /** The plain meaning of an expression: it parses, and every clause as submitted holds
      of the lowered labels. */
  ghost predicate Selects(expression: string, labels: LabelMap) {
    Submitted(expression).Some? && Satisfies(Submitted(expression).value, Lowered(labels))
  }

  /** An answer MatchSelector may give: the one for some map the lower-casing loop can produce. */
  ghost predicate MayAnswer(expression: string, labels: LabelMap, answer: bool) {
    Submitted(expression).Some? &&
    exists lowered :: IsLowered(labels, lowered) && (answer <==> Satisfies(Submitted(expression).value, lowered))
  }

  /** On unambiguous labels that is the plain meaning. */
  lemma AnswerIsDetermined(expression: string, labels: LabelMap, answer: bool)
    requires Unambiguous(labels) && MayAnswer(expression, labels, answer)
    ensures answer <==> Selects(expression, labels)
  {
    hide IsLowered, Submitted, Holds, Unambiguous, Satisfies;
    var lowered :| IsLowered(labels, lowered) && (answer <==> Satisfies(Submitted(expression).value, lowered));
    LoweredAgree(labels, lowered, Lowered(labels));
  }

  // ---- answers as the text reads ----

  /** `chosen` has one entry of `labels` for every key, up to letter case. */
  ghost predicate IsChoice(labels: LabelMap, chosen: LabelMap) {
    && (forall k :: k in chosen ==> k in labels && chosen[k] == labels[k])
    && (forall k :: k in labels ==> exists j :: j in chosen && Lower(j) == Lower(k))
    && (forall a, b :: a in chosen && b in chosen && Lower(a) == Lower(b) ==> a == b)
  }

  /** `answer` is what the expression says of the labels, by any reading of it. */
  ghost predicate IsAnswer(expression: string, labels: LabelMap, answer: bool) {
    forall ps :: IsReading(expression, ps) ==> (answer <==> MeansAll(ps, labels))
  }

  ghost function ChosenKeys(labels: LabelMap, lowered: LabelMap): set<string>
    requires IsLowered(labels, lowered)
  {
    set l | l in lowered :: KeyFor(labels, lowered, l)
  }

  /** One key for every lower-cased one, that of the entry that has come out. */
  ghost predicate AreChosen(labels: LabelMap, lowered: LabelMap, keys: set<string>) {
    && (forall k :: k in keys ==> k in labels && Lower(k) in lowered && Lower(labels[k]) == lowered[Lower(k)])
    && (forall l :: l in lowered ==> exists k :: k in keys && Lower(k) == l)
    && (forall a, b :: a in keys && b in keys && Lower(a) == Lower(b) ==> a == b)
  }

  lemma ChosenKeysAre(labels: LabelMap, lowered: LabelMap)
    requires IsLowered(labels, lowered)
    ensures AreChosen(labels, lowered, ChosenKeys(labels, lowered))
  {
    hide Lower, IsLowered;
    forall l | l in lowered ensures exists k :: k in ChosenKeys(labels, lowered) && Lower(k) == l {
      assert KeyFor(labels, lowered, l) in ChosenKeys(labels, lowered);
    }
  }

  lemma ChosenIsChoice(labels: LabelMap, lowered: LabelMap, keys: set<string>, chosen: LabelMap)
    requires AreChosen(labels, lowered, keys) && forall k :: k in labels ==> Lower(k) in lowered
    requires chosen.Keys == keys && forall k :: k in keys ==> k in labels && chosen[k] == labels[k]
    ensures IsChoice(labels, chosen)
  {
    hide Lower, AreChosen;
    assert forall a, b :: a in chosen && b in chosen && Lower(a) == Lower(b) ==> a == b by {
      ChosenOnce(labels, lowered, keys);
    }
    forall k | k in labels ensures exists j :: j in chosen && Lower(j) == Lower(k) {
      var j := ChosenFor(labels, lowered, keys, Lower(k));
      assert j in chosen;
    }
  }

  lemma ChosenOnce(labels: LabelMap, lowered: LabelMap, keys: set<string>)
    requires AreChosen(labels, lowered, keys)
    ensures forall a, b :: a in keys && b in keys && Lower(a) == Lower(b) ==> a == b
  {
    hide Lower;
  }

  lemma ChosenFor(labels: LabelMap, lowered: LabelMap, keys: set<string>, l: string) returns (j: string)
    requires AreChosen(labels, lowered, keys) && l in lowered
    ensures j in keys && Lower(j) == l
  {
    hide Lower;
    j :| j in keys && Lower(j) == l;
  }

  lemma ChosenHasLowered(labels: LabelMap, lowered: LabelMap, keys: set<string>, chosen: LabelMap)
    requires AreChosen(labels, lowered, keys)
    requires chosen.Keys == keys && forall k :: k in keys ==> k in labels && chosen[k] == labels[k]
    ensures HasLowered(chosen, lowered)
  {
    hide Lower;
    assert forall k :: k in chosen ==> Lower(k) in lowered && lowered[Lower(k)] == Lower(chosen[k]);
    hide AreChosen;
    forall l | l in lowered ensures exists k :: k in chosen && Lower(k) == l {
      var j := ChosenFor(labels, lowered, keys, l);
      assert j in chosen;
    }
  }

  lemma ChosenAreLabels(labels: LabelMap, lowered: LabelMap, keys: set<string>)
    requires AreChosen(labels, lowered, keys)
    ensures forall k :: k in keys ==> k in labels
  {
    hide Lower;
  }

  lemma AllLowered(labels: LabelMap, lowered: LabelMap)
    requires IsLowered(labels, lowered)
    ensures forall k :: k in labels ==> Lower(k) in lowered
  {
    hide Lower;
  }

  lemma ChoiceOf(labels: LabelMap, lowered: LabelMap) returns (chosen: LabelMap)
    requires IsLowered(labels, lowered)
    ensures IsChoice(labels, chosen) && HasLowered(chosen, lowered)
  {
    hide Lower, IsLowered, ChosenKeys, AreChosen, IsChoice, HasLowered;
    AllLowered(labels, lowered);
    ChosenKeysAre(labels, lowered);
    var keys := ChosenKeys(labels, lowered);
    ChosenAreLabels(labels, lowered, keys);
    chosen := map k | k in keys :: labels[k];
    ChosenIsChoice(labels, lowered, keys, chosen);
    ChosenHasLowered(labels, lowered, keys, chosen);
  }

  /** The key whose entry has come out under a lower-cased one. */
  ghost function KeyFor(labels: LabelMap, lowered: LabelMap, l: string): (k: string)
    requires IsLowered(labels, lowered) && l in lowered
    ensures k in labels && Lower(k) == l && Lower(labels[k]) == lowered[l]
  {
    hide Lower;
    var k :| k in labels && Lower(k) == l && Lower(labels[k]) == lowered[l];
    k
  }

  lemma LoweredHasAll(labels: LabelMap, lowered: LabelMap)
    requires Unambiguous(labels) && IsLowered(labels, lowered)
    ensures HasLowered(labels, lowered)
  {
    hide Lower;
  }

  /** Every answer is what the text says of one entry for each key. */
  lemma AnswerReads(expression: string, labels: LabelMap, answer: bool)
    requires MayAnswer(expression, labels, answer)
    ensures exists chosen :: IsChoice(labels, chosen) && IsAnswer(expression, chosen, answer)
  {
    hide IsLowered, Submitted, Holds, IsReading, MeansAll, HasLowered, IsChoice;
    var lowered :| IsLowered(labels, lowered) && (answer <==> Satisfies(Submitted(expression).value, lowered));
    var chosen := ChoiceOf(labels, lowered);
    forall ps | IsReading(expression, ps) ensures answer <==> MeansAll(ps, chosen) {
      ReadingMeans(expression, ps, chosen, lowered);
    }
  }

  /** On unambiguous labels the plain meaning is what the text says of the labels themselves, by
      any reading of it. */
  lemma SelectsAsRead(expression: string, labels: LabelMap)
    requires Unambiguous(labels)
    ensures Selects(expression, labels) <==> Says(expression, labels)
    ensures IsAnswer(expression, labels, Selects(expression, labels))
  {
    hide IsLowered, Submitted, Holds, IsReading, MeansAll, HasLowered, Unambiguous;
    LoweredHasAll(labels, Lowered(labels));
    forall ps | IsReading(expression, ps) ensures Selects(expression, labels) <==> MeansAll(ps, labels) {
      ReadingMeans(expression, ps, labels, Lowered(labels));
    }
    ClausesAreSubmitted(expression);
    AcceptedIsReadable(expression);
    hide ParseSelector;
  }

  /** MatchSelector, without the error texts: none when the expression is refused. */
  method MatchSelector(expression: string, labels: LabelMap) returns (r: Option<bool>)
    ensures r.Some? <==> exists ps :: IsReading(expression, ps)
    ensures r.Some? ==> exists chosen :: IsChoice(labels, chosen) && IsAnswer(expression, chosen, r.value)
    ensures r.Some? && Unambiguous(labels) ==> IsAnswer(expression, labels, r.value)
    ensures r.Some? <==> ParseSelector(expression).Some?
    ensures r.Some? ==> MayAnswer(expression, labels, r.value)
    ensures Unambiguous(labels) && r.Some? ==> (r.value <==> Selects(expression, labels))
  {
    hide ParseSelector, IsLowered, Submitted, Holds, ValidClause, IsReading, IsChoice, IsAnswer, Unambiguous;
    AcceptedIsReadable(expression);
    var parsed := Parse(expression);
    if parsed.None? { return None; }
    ParsedIsValid(expression);
    ClausesAreSubmitted(expression);
    var lowered := LowerLabels(labels);
    var ok := Matches(parsed.value.clauses, lowered);
    MultisetElems(parsed.value.clauses, Submitted(expression).value);
    assert forall c :: c in Submitted(expression).value <==> c in Elems(parsed.value.clauses);
    AnswerReads(expression, labels, ok);
    if Unambiguous(labels) {
      LoweredAgree(labels, lowered, Lowered(labels));
      SelectsAsRead(expression, labels);
    }
    return Some(ok);
  }

  lemma ClausesAreSubmitted(expression: string)
    ensures ParseSelector(expression).Some? <==> Submitted(expression).Some?
  {
    hide Submitted;
  }

  lemma SameClauses(a: seq<Clause>, b: seq<Clause>, labels: LabelMap)
    requires multiset(a) == multiset(b)
    ensures Satisfies(a, labels) <==> Satisfies(b, labels)
  {
    hide Holds;
    MultisetElems(a, b);
    assert forall c :: (c in a <==> c in Elems(a)) && (c in b <==> c in Elems(b));
  }

  /** The canonical text selects what the expression selects, whenever it is within the limit. */
  lemma CanonicalSelectsTheSame(expression: string, labels: LabelMap)
    requires ParseSelector(expression).Some? && |ParseSelector(expression).value.canonical| <= MAX_LENGTH
    ensures Selects(ParseSelector(expression).value.canonical, labels) <==> Selects(expression, labels)
  {
    hide IsLowered, Submitted, Satisfies, ParseSelector, ValidSelector, CanonicalText;
    var canonical := ParseSelector(expression).value.canonical;
    ParseThenParse(expression);
    ParsedIsValid(expression);
    ParsedIsValid(canonical);
    ClausesAreSubmitted(expression);
    ClausesAreSubmitted(canonical);
    SameClauses(Submitted(expression).value, Submitted(canonical).value, Lowered(labels));
  }
}
