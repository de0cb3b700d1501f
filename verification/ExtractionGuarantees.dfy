/** What the extraction counts count, said of the fields and the answers themselves, and when an extraction is
    perfect. */
module ExtractionGuarantees {
  import opened Options
  import opened Ratios
  import opened Tallies
  import opened Confusion
  import opened Scoring

  // ---------------------------------------------------------------- one case

  /** Whether a value was answered for this field at all. */
  predicate HasAnswer<V>(field: Field<V>, predicted: map<string, Scalar<V>>) {
    field.name in predicted && predicted[field.name].Given?
  }

  /** A value is stated, and the value answered agrees with it. */
  predicate ReadRightly<V>(field: Field<V>, predicted: map<string, Scalar<V>>, agrees: (V, V) -> bool) {
    && field.truth.Given? && HasAnswer(field, predicted)
    && agrees(field.truth.value, predicted[field.name].value)
  }

  /** A value was answered, and the case states another one or that there is none. */
  predicate ReadWrongly<V>(field: Field<V>, predicted: map<string, Scalar<V>>, agrees: (V, V) -> bool) {
    && HasAnswer(field, predicted)
    && (field.truth.Given? ==> !agrees(field.truth.value, predicted[field.name].value))
  }

  /** A value is stated, and none was answered. */
  predicate LeftOut<V>(field: Field<V>, predicted: map<string, Scalar<V>>) {
    field.truth.Given? && !HasAnswer(field, predicted)
  }

  function RightOnes<V>(predicted: map<string, Scalar<V>>, agrees: (V, V) -> bool): Field<V> -> bool {
    (field: Field<V>) => ReadRightly(field, predicted, agrees)
  }

  function WrongOnes<V>(predicted: map<string, Scalar<V>>, agrees: (V, V) -> bool): Field<V> -> bool {
    (field: Field<V>) => ReadWrongly(field, predicted, agrees)
  }

  function LeftOnes<V>(predicted: map<string, Scalar<V>>): Field<V> -> bool {
    (field: Field<V>) => LeftOut(field, predicted)
  }

  lemma {:induction false} CountAsked<V>(fields: seq<Field<V>>, predicted: map<string, Scalar<V>>,
                                         asked: Question<V> -> bool, stated: Field<V> -> bool)
    requires forall f :: f in fields ==> (asked(Question(f, Answer(predicted, f.name))) <==> stated(f))
    ensures Count(Asked(fields, predicted), asked) == Count(fields, stated)
    decreases |fields|
  {
    if fields != [] {
      var questions := Asked(fields, predicted);
      assert questions[1..] == Asked(fields[1..], predicted);
      assert questions[0] == Question(fields[0], Answer(predicted, fields[0].name));
      CountAsked(fields[1..], predicted, asked, stated);
    }
  }

  function LostOnes<V>(predicted: map<string, Scalar<V>>, agrees: (V, V) -> bool): Field<V> -> bool {
    (field: Field<V>) => ReadWrongly(field, predicted, agrees) || LeftOut(field, predicted)
  }

  /** The true positives are the fields read rightly, the false positives those read wrongly, and the false
      negatives those read wrongly and those left out. */
  lemma WhatIsCounted<V>(fields: seq<Field<V>>, predicted: map<string, Scalar<V>>, agrees: (V, V) -> bool)
    ensures var counts := Score(Asked(fields, predicted), agrees);
            && counts.truePositives == Count(fields, RightOnes(predicted, agrees))
            && counts.falsePositives == Count(fields, WrongOnes(predicted, agrees))
            && counts.falseNegatives
            == Count(fields, WrongOnes(predicted, agrees)) + Count(fields, LeftOnes(predicted))
  {
    hide Asked, Count;
    CountAsked(fields, predicted, Judged(FOUND, agrees), RightOnes(predicted, agrees));
    CountAsked(fields, predicted, Judged(INVENTED, agrees), WrongOnes(predicted, agrees));
    CountAsked(fields, predicted, Judged(LOST, agrees), LostOnes(predicted, agrees));
    CountOfEither(fields, WrongOnes(predicted, agrees), LeftOnes(predicted), LostOnes(predicted, agrees));
  }

  // ---------------------------------------------------------------- all the cases

  /** The question one case puts about one of its fields, and what was answered to it. */
  ghost predicate Asks<V>(c: ExtractionCase<V>, field: Field<V>, answers: Answers<V>, question: Question<V>) {
    && field in c.fields && question.field == field
    && question.answer == if c.id in answers && field.name in answers[c.id] then answers[c.id][field.name] else Absent
  }

  /** All that is asked is some case's question about one of its fields, */
  lemma {:induction false} AskedBy<V>(cases: seq<ExtractionCase<V>>, answers: Answers<V>, q: Question<V>)
    returns (c: ExtractionCase<V>)
    requires q in AllAsked(cases, answers)
    ensures c in cases && Asks(c, q.field, answers, q)
    decreases |cases|
  {
    var last, rest := cases[|cases| - 1], cases[..|cases| - 1];
    assert cases == rest + [last];
    if q in Asked(last.fields, Predicted(answers, last.id)) {
      c := last;
    } else {
      c := AskedBy(rest, answers, q);
    }
  }

  /** and every field of every case is asked for, answered as that case was answered. */
  lemma {:induction false} QuestionOf<V>(cases: seq<ExtractionCase<V>>, answers: Answers<V>, c: ExtractionCase<V>,
                                         field: Field<V>)
    returns (q: Question<V>)
    requires c in cases && field in c.fields
    ensures q in AllAsked(cases, answers) && Asks(c, field, answers, q)
    decreases |cases|
  {
    var last, rest := cases[|cases| - 1], cases[..|cases| - 1];
    assert cases == rest + [last];
    if c == last {
      var j :| 0 <= j < |last.fields| && last.fields[j] == field;
      q := Asked(last.fields, Predicted(answers, last.id))[j];
    } else {
      q := QuestionOf(rest, answers, c, field);
    }
  }

  /** What was answered in one case, if it was answered at all. */
  function AnsweredFor<V>(c: ExtractionCase<V>, answers: Answers<V>): map<string, Scalar<V>> {
    if c.id in answers then answers[c.id] else map[]
  }

  function RightIn<V>(answers: Answers<V>, agrees: (V, V) -> bool): ExtractionCase<V> -> nat {
    (c: ExtractionCase<V>) => Count(c.fields, RightOnes(AnsweredFor(c, answers), agrees))
  }

  function WrongIn<V>(answers: Answers<V>, agrees: (V, V) -> bool): ExtractionCase<V> -> nat {
    (c: ExtractionCase<V>) => Count(c.fields, WrongOnes(AnsweredFor(c, answers), agrees))
  }

  function LeftIn<V>(answers: Answers<V>): ExtractionCase<V> -> nat {
    (c: ExtractionCase<V>) => Count(c.fields, LeftOnes(AnsweredFor(c, answers)))
  }

  /** The counts of all that is asked are those of the cases' own fields, added up. */
  lemma {:induction false} CountedCaseByCase<V>(cases: seq<ExtractionCase<V>>, answers: Answers<V>,
                                                agrees: (V, V) -> bool)
    ensures var counts := Score(AllAsked(cases, answers), agrees);
            && counts.truePositives == Tally(cases, RightIn(answers, agrees))
            && counts.falsePositives == Tally(cases, WrongIn(answers, agrees))
            && counts.falseNegatives == Tally(cases, WrongIn(answers, agrees)) + Tally(cases, LeftIn(answers))
    decreases |cases|
  {
    if |cases| > 0 {
      var n := |cases| - 1;
      var last := cases[n];
      CountedCaseByCase(cases[..n], answers, agrees);
      ScoreConcat(AllAsked(cases[..n], answers), Asked(last.fields, Predicted(answers, last.id)), agrees);
      WhatIsCounted(last.fields, Predicted(answers, last.id), agrees);
      assert cases[..n + 1] == cases;
      TallySnoc(cases, n, RightIn(answers, agrees));
      TallySnoc(cases, n, WrongIn(answers, agrees));
      TallySnoc(cases, n, LeftIn(answers));
      hide Score, Asked, ReadRightly, ReadWrongly, LeftOut;
    }
  }

  /** Over all fields of all cases: precision is the share read rightly of all that was answered, recall the
      share of those, of the values stated and of the values invented. */
  lemma WhatIsMeasured<V>(scores: Scores<ExtractionMetrics>, cases: seq<ExtractionCase<V>>,
                          answers: Option<Answers<V>>, agrees: (V, V) -> bool)
    requires IsExtractionOf(scores, cases, answers, agrees) && scores.Scored?
    ensures var right := Tally(cases, RightIn(answers.value, agrees));
            var wrong := Tally(cases, WrongIn(answers.value, agrees));
            var left := Tally(cases, LeftIn(answers.value));
            && scores.metrics.overall.precision == Ratio(right, right + wrong)
            && scores.metrics.overall.recall == Ratio(right, right + wrong + left)
            && scores.metrics.overall.f1 == Ratio(2 * right, 2 * right + 2 * wrong + left)
  {
    hide Count, Tally, Score, AllAsked;
    CountedCaseByCase(cases, answers.value, agrees);
    SharesOf(Score(AllAsked(cases, answers.value), agrees));
    hide Ratio, Counts.Precision, Counts.Recall, Counts.F1;
  }

  lemma SharesOf(c: Counts)
    ensures AxisOf(c) == Axis(Ratio(c.truePositives, c.truePositives + c.falsePositives),
                              Ratio(c.truePositives, c.truePositives + c.falseNegatives),
                              Ratio(2 * c.truePositives, 2 * c.truePositives + c.falsePositives + c.falseNegatives))
  {
  }

  /** Some case states a value under one of these names. */
  ghost predicate SomeStated<V>(cases: seq<ExtractionCase<V>>, among: string -> bool) {
    exists c, field :: c in cases && field in c.fields && among(field.name) && field.truth.Given?
  }

  /** Under these names, every value a case states was answered, and by an agreeing one. */
  ghost predicate AllReadRightly<V>(cases: seq<ExtractionCase<V>>, answers: Answers<V>, agrees: (V, V) -> bool,
                                          among: string -> bool) {
    forall c, field :: c in cases && field in c.fields && among(field.name) && field.truth.Given? ==>
      ReadRightly(field, AnsweredFor(c, answers), agrees)
  }

  /** Under these names, no value was answered where the case states there is none. */
  ghost predicate NothingInvented<V>(cases: seq<ExtractionCase<V>>, answers: Answers<V>, among: string -> bool) {
    forall c, field :: c in cases && field in c.fields && among(field.name) && field.truth.Absent? ==>
      !HasAnswer(field, AnsweredFor(c, answers))
  }

  ghost predicate Perfect<V>(cases: seq<ExtractionCase<V>>, answers: Answers<V>, agrees: (V, V) -> bool,
                                   among: string -> bool) {
    && SomeStated(cases, among)
    && AllReadRightly(cases, answers, agrees, among)
    && NothingInvented(cases, answers, among)
  }

  /** The same, said of the questions. */
  ghost predicate PerfectlyAsked<V>(questions: seq<Question<V>>, agrees: (V, V) -> bool, among: string -> bool) {
    && (exists q :: q in questions && among(q.field.name) && Judge(q, agrees) == Right)
    && (forall q :: q in questions && among(q.field.name) ==> Judge(q, agrees) in {Right, RightlyLeft})
  }

  lemma JudgedOf<V>(c: ExtractionCase<V>, field: Field<V>, answers: Answers<V>, agrees: (V, V) -> bool, q: Question<V>)
    requires Asks(c, field, answers, q)
    ensures Judge(q, agrees) == Right <==> ReadRightly(field, AnsweredFor(c, answers), agrees)
    ensures Judge(q, agrees) == RightlyLeft
       <==> field.truth.Absent? && !HasAnswer(field, AnsweredFor(c, answers))
  {
  }

  lemma PerfectIsAskedPerfectly<V>(cases: seq<ExtractionCase<V>>, answers: Answers<V>, agrees: (V, V) -> bool,
                                   among: string -> bool)
    requires Perfect(cases, answers, agrees, among)
    ensures PerfectlyAsked(AllAsked(cases, answers), agrees, among)
  {
    hide Judge, ReadRightly, HasAnswer, AllAsked;
    forall q | q in AllAsked(cases, answers) && among(q.field.name) ensures Judge(q, agrees) in {Right, RightlyLeft} {
      var c := AskedBy(cases, answers, q);
      JudgedOf(c, q.field, answers, agrees, q);
    }
    var c, field :| c in cases && field in c.fields && among(field.name) && field.truth.Given?;
    var q := QuestionOf(cases, answers, c, field);
    JudgedOf(c, field, answers, agrees, q);
  }

  lemma AskedPerfectlyIsPerfect<V>(cases: seq<ExtractionCase<V>>, answers: Answers<V>, agrees: (V, V) -> bool,
                                   among: string -> bool)
    requires PerfectlyAsked(AllAsked(cases, answers), agrees, among)
    ensures Perfect(cases, answers, agrees, among)
  {
    hide Judge, AllAsked;
    forall c, field | c in cases && field in c.fields && among(field.name)
      ensures field.truth.Given? ==> ReadRightly(field, AnsweredFor(c, answers), agrees)
      ensures field.truth.Absent? ==> !HasAnswer(field, AnsweredFor(c, answers))
    {
      var q := QuestionOf(cases, answers, c, field);
      JudgedOf(c, field, answers, agrees, q);
    }
    var q :| q in AllAsked(cases, answers) && among(q.field.name) && Judge(q, agrees) == Right;
    var c := AskedBy(cases, answers, q);
    JudgedOf(c, q.field, answers, agrees, q);
  }

  // ---------------------------------------------------------------- the measurement

  function AnyName(): string -> bool {
    (name: string) => true
  }

  function Only(name: string): string -> bool {
    (other: string) => other == name
  }

  lemma PerfectOverall<V>(questions: seq<Question<V>>, agrees: (V, V) -> bool)
    ensures Score(questions, agrees).F1() == 1.0 <==> PerfectlyAsked(questions, agrees, AnyName())
    ensures Score(questions, agrees).F1() == 1.0 ==>
              Score(questions, agrees).Precision() == 1.0 && Score(questions, agrees).Recall() == 1.0
  {
    ProportionsOf(Score(questions, agrees));
    CountAll(questions, Judged(FOUND, agrees));
    CountAll(questions, Judged(INVENTED, agrees));
    CountAll(questions, Judged(LOST, agrees));
    hide Judge, Count, Counts.F1, Counts.Precision, Counts.Recall;
  }

  lemma PerfectOnName<V>(questions: seq<Question<V>>, agrees: (V, V) -> bool, name: string)
    ensures ScoreOf(questions, agrees, name).F1() == 1.0 <==> PerfectlyAsked(questions, agrees, Only(name))
  {
    ProportionsOf(ScoreOf(questions, agrees, name));
    CountAll(questions, Down(About(FOUND, agrees), name));
    CountAll(questions, Down(About(INVENTED, agrees), name));
    CountAll(questions, Down(About(LOST, agrees), name));
    hide Judge, Count, Counts.F1, Counts.Precision, Counts.Recall;
  }

  /** The overall axis is all ones exactly when some case states a value, every stated value was answered by an
      agreeing one, and nothing was invented; and a field's own F1 is one exactly when that holds of the field. */
  lemma PerfectExtraction<V>(scores: Scores<ExtractionMetrics>, cases: seq<ExtractionCase<V>>,
                             answers: Option<Answers<V>>, agrees: (V, V) -> bool)
    requires IsExtractionOf(scores, cases, answers, agrees) && scores.Scored?
    ensures scores.metrics.overall == Axis(1.0, 1.0, 1.0)
       <==> Perfect(cases, answers.value, agrees, AnyName())
    ensures forall name :: name in scores.metrics.byField ==>
              (scores.metrics.byField[name] == 1.0 <==> Perfect(cases, answers.value, agrees, Only(name)))
  {
    var questions := AllAsked(cases, answers.value);
    PerfectOverall(questions, agrees);
    PerfectEitherWay(cases, answers.value, agrees, AnyName());
    hide AllAsked, Score, ScoreOf, Perfect, PerfectlyAsked;
    forall name | name in scores.metrics.byField
      ensures scores.metrics.byField[name] == 1.0 <==> Perfect(cases, answers.value, agrees, Only(name))
    {
      PerfectOnName(questions, agrees, name);
      PerfectEitherWay(cases, answers.value, agrees, Only(name));
    }
  }

  lemma PerfectEitherWay<V>(cases: seq<ExtractionCase<V>>, answers: Answers<V>, agrees: (V, V) -> bool,
                            among: string -> bool)
    ensures Perfect(cases, answers, agrees, among)
       <==> PerfectlyAsked(AllAsked(cases, answers), agrees, among)
  {
    hide AllAsked;
    if Perfect(cases, answers, agrees, among) {
      PerfectIsAskedPerfectly(cases, answers, agrees, among);
    }
    if PerfectlyAsked(AllAsked(cases, answers), agrees, among) {
      AskedPerfectlyIsPerfect(cases, answers, agrees, among);
    }
  }

  /** What is reported as answered is how many of the cases have an answer of their own. */
  lemma HowManyWereAnswered<V>(scores: Scores<ExtractionMetrics>, cases: seq<ExtractionCase<V>>,
                               answers: Option<Answers<V>>, agrees: (V, V) -> bool)
    requires IsExtractionOf(scores, cases, answers, agrees) && scores.Scored?
    ensures scores.answered == |set i | 0 <= i < |cases| && cases[i].id in answers.value|
  {
    CountIsSize(cases, IsAnsweredIn(answers.value));
    assert Places(cases, IsAnsweredIn(answers.value)) == set i | 0 <= i < |cases| && cases[i].id in answers.value;
  }
}
