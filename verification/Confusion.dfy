/** Confusion counts, and the two things they are added up over: the fields a case states, and the
    labels an axis is answered with. */
module Confusion {
  import opened Options
  import opened Ratios
  import opened Tallies

  datatype Counts = Counts(truePositives: nat, falsePositives: nat, falseNegatives: nat) {
    function Plus(other: Counts): Counts {
      Counts(truePositives + other.truePositives,
             falsePositives + other.falsePositives,
             falseNegatives + other.falseNegatives)
    }

    /** Hits among all predictions. */
    function Precision(): real {
      Ratio(truePositives, truePositives + falsePositives)
    }

    /** Hits among all that had to be found. */
    function Recall(): real {
      Ratio(truePositives, truePositives + falseNegatives)
    }

    function F1(): real {
      Ratio(2 * truePositives, 2 * truePositives + falsePositives + falseNegatives)
    }
  }

  const NOTHING := Counts(0, 0, 0)

  // ---------------------------------------------------------------- the three proportions

  /** F1 is the harmonic mean of precision and recall as soon as anything was right. */
  lemma F1IsTheHarmonicMean(c: Counts)
    requires c.truePositives > 0
    ensures c.Precision() > 0.0 && c.Recall() > 0.0
    ensures c.F1() * (c.Precision() + c.Recall()) == 2.0 * c.Precision() * c.Recall()
  {
    var t, p, n := c.truePositives as real, c.falsePositives as real, c.falseNegatives as real;
    Quotient(t, t + p);
    Quotient(t, t + n);
    Quotient(2.0 * t, 2.0 * t + p + n);
    Harmonic(t, t + p, t + n, c.Precision(), c.Recall(), c.F1());
  }

  lemma Harmonic(t: real, a: real, b: real, p: real, r: real, f: real)
    requires t > 0.0 && a > 0.0 && b > 0.0
    requires p * a == t && r * b == t && f * (a + b) == 2.0 * t
    ensures f * (p + r) == 2.0 * p * r
  {
    Undone(a, t, p);
    Undone(b, t, r);
    Undone(a + b, 2.0 * t, f);
    var pr := p * r;
    assert p * (r * b) == pr * b && r * (p * a) == pr * a;
    assert (p + r) * t == pr * (a + b);
    var s := p + r;
    assert (f * s) * (a + b) == (f * (a + b)) * s == 2.0 * (s * t) == (2.0 * pr) * (a + b);
    Cancelled(f * s, 2.0 * pr, a + b);
  }

  lemma Undone(d: real, n: real, q: real)
    requires d > 0.0 && n > 0.0 && q * d == n
    ensures q > 0.0
  {
  }

  lemma Cancelled(x: real, y: real, d: real)
    requires d > 0.0 && x * d == y * d
    ensures x == y
  {
    Unscaled(x, y, d);
    Unscaled(y, x, d);
  }

  lemma ProportionsOf(c: Counts)
    ensures 0.0 <= c.Precision() <= 1.0 && 0.0 <= c.Recall() <= 1.0 && 0.0 <= c.F1() <= 1.0
    ensures c.F1() == 1.0 <==> c.truePositives > 0 && c.falsePositives == 0 && c.falseNegatives == 0
    ensures c.Recall() == 1.0 <==> c.truePositives > 0 && c.falseNegatives == 0
    ensures c.Precision() == 1.0 <==> c.truePositives > 0 && c.falsePositives == 0
  {
    RatioIsAProportion(c.truePositives, c.truePositives + c.falsePositives);
    RatioIsAProportion(c.truePositives, c.truePositives + c.falseNegatives);
    RatioIsAProportion(2 * c.truePositives, 2 * c.truePositives + c.falsePositives + c.falseNegatives);
  }

  // ---------------------------------------------------------------- the fields of a case

  /** A value, or the statement that there is none. */
  datatype Scalar<V> = Absent | Given(value: V)

  datatype Field<V> = Field(name: string, truth: Scalar<V>)

  /** Absent from the mapping and mapped to nothing read alike. */
  function Answer<V>(predicted: map<string, Scalar<V>>, name: string): Scalar<V> {
    if name in predicted then predicted[name] else Absent
  }

  /** One field of one case, with what was answered for it. */
  datatype Question<V> = Question(field: Field<V>, answer: Scalar<V>)

  function Asked<V>(fields: seq<Field<V>>, predicted: map<string, Scalar<V>>): (questions: seq<Question<V>>)
    ensures |questions| == |fields|
  {
    seq(|fields|, i requires 0 <= i < |fields| => Question(fields[i], Answer(predicted, fields[i].name)))
  }

  datatype Judgement = Right | Wrong | Missed | RightlyLeft

  /** How one field was answered: a value where the case states there is none is invented, and wrong. */
  function Judge<V>(question: Question<V>, agrees: (V, V) -> bool): Judgement {
    match (question.field.truth, question.answer)
    case (Absent, Absent) => RightlyLeft
    case (Absent, Given(_)) => Wrong
    case (Given(_), Absent) => Missed
    case (Given(t), Given(a)) => if agrees(t, a) then Right else Wrong
  }

  function Judged<V>(judgements: set<Judgement>, agrees: (V, V) -> bool): Question<V> -> bool {
    (question: Question<V>) => Judge(question, agrees) in judgements
  }

  const FOUND := {Right}
  const INVENTED := {Wrong}
  const LOST := {Wrong, Missed}

  /** Right fields are found, wrong ones are both predicted in vain and lost, missed ones lost. */
  function Score<V>(questions: seq<Question<V>>, agrees: (V, V) -> bool): Counts {
    Counts(Count(questions, Judged(FOUND, agrees)),
           Count(questions, Judged(INVENTED, agrees)),
           Count(questions, Judged(LOST, agrees)))
  }

  lemma ScoreConcat<V>(a: seq<Question<V>>, b: seq<Question<V>>, agrees: (V, V) -> bool)
    ensures Score(a + b, agrees) == Score(a, agrees).Plus(Score(b, agrees))
  {
    hide Judge, Count;
    CountConcat(a, b, Judged(FOUND, agrees));
    CountConcat(a, b, Judged(INVENTED, agrees));
    CountConcat(a, b, Judged(LOST, agrees));
  }

  function Worth<V>(question: Question<V>, agrees: (V, V) -> bool): Counts {
    match Judge(question, agrees)
    case Right => Counts(1, 0, 0)
    case Wrong => Counts(0, 1, 1)
    case Missed => Counts(0, 0, 1)
    case RightlyLeft => NOTHING
  }

  lemma ScoreOfOne<V>(question: Question<V>, agrees: (V, V) -> bool)
    ensures Score([question], agrees) == Worth(question, agrees)
  {
    assert [question][1..] == [];
    assert forall judgements :: Count([question], Judged(judgements, agrees))
                             == if Judge(question, agrees) in judgements then 1 else 0;
  }

  /** The fields in their mapping's order, one after the other. */
  method FieldCounts<V>(expected: seq<Field<V>>, predicted: map<string, Scalar<V>>, agrees: (V, V) -> bool)
    returns (counts: Counts)
    ensures counts == Score(Asked(expected, predicted), agrees)
  {
    counts := NOTHING;
    ghost var asked := Asked(expected, predicted);
    assert Score(asked[..0], agrees) == NOTHING;
    hide Score;
    for i := 0 to |expected|
      invariant counts == Score(asked[..i], agrees)
    {
      var field := expected[i];
      var answer := Answer(predicted, field.name);
      assert asked[..i + 1] == asked[..i] + [asked[i]];
      ScoreConcat(asked[..i], [asked[i]], agrees);
      ScoreOfOne(asked[i], agrees);
      if field.truth.Absent? {
        if answer.Given? {
          counts := counts.Plus(Counts(0, 1, 1));
        }
      } else if answer.Absent? {
        counts := counts.Plus(Counts(0, 0, 1));
      } else if agrees(field.truth.value, answer.value) {
        counts := counts.Plus(Counts(1, 0, 0));
      } else {
        counts := counts.Plus(Counts(0, 1, 1));
      }
    }
    assert asked[..|expected|] == asked;
  }

  function IsAnswered<V>(): Question<V> -> bool {
    (question: Question<V>) => question.answer.Given?
  }

  /** What is predicted is what was answered with a value, and what is found or lost is every field
      but those rightly left out. */
  lemma FieldsAreConserved<V>(questions: seq<Question<V>>, agrees: (V, V) -> bool)
    ensures var c := Score(questions, agrees);
            && c.truePositives + c.falsePositives == Count(questions, IsAnswered())
            && c.truePositives + c.falseNegatives + Count(questions, Judged({RightlyLeft}, agrees)) == |questions|
  {
    CountOfEither(questions, Judged(FOUND, agrees), Judged(INVENTED, agrees), IsAnswered());
    CountOfEither(questions, Judged(FOUND, agrees), Judged(LOST, agrees), Judged({Right, Wrong, Missed}, agrees));
    CountOfEither(questions, Judged({Right, Wrong, Missed}, agrees), Judged({RightlyLeft}, agrees), Anything());
    CountAll(questions, Anything());
  }

  function Anything<T>(): T -> bool {
    (x: T) => true
  }

  // ---------------------------------------------------------------- the labels of an axis

  /** A case's own label, and the one answered, if any. */
  datatype Pair = Pair(truth: string, answer: Option<string>)

  function Labels(pairs: seq<Pair>): set<string> {
    set p | p in pairs :: p.truth
  }

  function IsRight(): Pair -> bool {
    (pair: Pair) => pair.answer == Some(pair.truth)
  }

  function IsA(name: string): Pair -> bool {
    (pair: Pair) => pair.truth == name
  }

  function Says(name: string): Pair -> bool {
    (pair: Pair) => pair.answer == Some(name)
  }

  function Found(name: string): Pair -> bool {
    (pair: Pair) => pair.truth == name && pair.answer == Some(name)
  }

  function Lost(name: string): Pair -> bool {
    (pair: Pair) => pair.truth == name && pair.answer != Some(name)
  }

  /** Whether an answer wrongly names this label. */
  function Claims(): (Pair, string) -> bool {
    (pair: Pair, name: string) => pair.truth != name && pair.answer == Some(name)
  }

  function LabelScore(pairs: seq<Pair>, name: string): Counts {
    Counts(Count(pairs, Found(name)), Count(pairs, Down(Claims(), name)), Count(pairs, Lost(name)))
  }

  /** What one answer counts for on one label. */
  function OnLabel(pair: Pair, name: string): Counts {
    Counts(if pair.truth == name && pair.answer == Some(name) then 1 else 0,
           if pair.truth != name && pair.answer == Some(name) then 1 else 0,
           if pair.truth == name && pair.answer != Some(name) then 1 else 0)
  }

  lemma LabelScoreSnoc(pairs: seq<Pair>, n: nat, name: string)
    requires n < |pairs|
    ensures LabelScore(pairs[..n + 1], name) == LabelScore(pairs[..n], name).Plus(OnLabel(pairs[n], name))
  {
    hide Count;
    CountSnoc(pairs, n, Found(name));
    CountSnoc(pairs, n, Down(Claims(), name));
    CountSnoc(pairs, n, Lost(name));
  }

  /** One answer counted, on its case's own label and, if wrong, on a known label it named. */
  method CountOne(counted: map<string, Counts>, pair: Pair) returns (after: map<string, Counts>)
    requires pair.truth in counted
    ensures after.Keys == counted.Keys
    ensures forall name :: name in counted ==> after[name] == counted[name].Plus(OnLabel(pair, name))
  {
    after := counted;
    if pair.answer != Some(pair.truth) {
      after := after[pair.truth := after[pair.truth].Plus(Counts(0, 0, 1))];
      if pair.answer.Some? && pair.answer.value in counted {
        after := after[pair.answer.value := after[pair.answer.value].Plus(Counts(0, 1, 0))];
      }
    } else {
      after := after[pair.truth := after[pair.truth].Plus(Counts(1, 0, 0))];
    }
  }

  method LabelCounts(pairs: seq<Pair>) returns (counted: map<string, Counts>)
    ensures counted.Keys == Labels(pairs)
    ensures forall name :: name in counted ==> counted[name] == LabelScore(pairs, name)
  {
    var labels := Labels(pairs);
    counted := map name | name in labels :: NOTHING;
    assert forall name :: LabelScore(pairs[..0], name) == NOTHING;
    hide LabelScore, OnLabel;
    for i := 0 to |pairs|
      invariant counted.Keys == labels
      invariant forall name :: name in labels ==> counted[name] == LabelScore(pairs[..i], name)
    {
      var pair := pairs[i];
      assert pair.truth in labels;
      ghost var was := counted;
      counted := CountOne(counted, pair);
      forall name | name in labels ensures counted[name] == LabelScore(pairs[..i + 1], name) {
        LabelScoreSnoc(pairs, i, name);
      }
    }
    assert pairs[..|pairs|] == pairs;
  }

  /** A label's hits and misses are its occurrences, and its hits and false positives its mentions. */
  lemma LabelsAreConserved(pairs: seq<Pair>, name: string)
    ensures var c := LabelScore(pairs, name);
            && c.truePositives + c.falseNegatives == Count(pairs, IsA(name))
            && c.truePositives + c.falsePositives == Count(pairs, Says(name))
  {
    CountOfEither(pairs, Found(name), Lost(name), IsA(name));
    CountOfEither(pairs, Found(name), Down(Claims(), name), Says(name));
  }

  /** The labels of a set of answers, each once, in any order. */
  ghost predicate Enumerates(labels: seq<string>, pairs: seq<Pair>) {
    Distinct(labels) && forall name :: name in labels <==> name in Labels(pairs)
  }

  function FalsePositivesOf(pairs: seq<Pair>): string -> nat {
    (name: string) => LabelScore(pairs, name).falsePositives
  }

  function NamesAnotherOf(labels: seq<string>): Pair -> bool {
    (pair: Pair) => pair.answer.Some? && pair.answer.value != pair.truth && pair.answer.value in labels
  }

  /** Over all the labels, the false positives are the wrong answers that name a known label. */
  lemma FalsePositivesAreWrongAnswers(labels: seq<string>, pairs: seq<Pair>)
    requires Enumerates(labels, pairs)
    ensures Tally(labels, FalsePositivesOf(pairs)) == Count(pairs, NamesAnotherOf(labels))
  {
    RowsOrColumns(pairs, labels, Claims());
    TallyAgrees(labels, FalsePositivesOf(pairs), InColumn(pairs, Claims()));
    forall pair | pair in pairs ensures InRow(labels, Claims())(pair) == Mark(NamesAnotherOf(labels))(pair) {
      OneClaim(labels, pair);
    }
    TallyAgrees(pairs, InRow(labels, Claims()), Mark(NamesAnotherOf(labels)));
    CountIsTally(pairs, NamesAnotherOf(labels));
  }

  lemma OneClaim(labels: seq<string>, pair: Pair)
    requires Distinct(labels)
    ensures Count(labels, Across(Claims(), pair)) == if NamesAnotherOf(labels)(pair) then 1 else 0
  {
    if pair.answer.Some? && pair.answer.value != pair.truth {
      CountOfOne(labels, pair.answer.value, Across(Claims(), pair));
    } else {
      CountAll(labels, Across(Claims(), pair));
    }
  }
}
