/** What a run reads off a set of cases and the answers to them.

    Field counts are added up over all fields, label metrics are averaged over all labels, and neither
    depends on the order anything comes in. */
module Scoring {
  import opened Options
  import opened Tallies
  import opened Confusion

  datatype Axis = Axis(precision: real, recall: real, f1: real)

  /** The three outcomes of scoring a set. */
  datatype Scores<M> = NoCases | NotAnswered | Scored(answered: nat, metrics: M)

  // ---------------------------------------------------------------- extraction

  datatype ExtractionCase<V> = ExtractionCase(id: string, fields: seq<Field<V>>)

  type Answers<V> = map<string, map<string, Scalar<V>>>

  datatype ExtractionMetrics = ExtractionMetrics(overall: Axis, byField: map<string, real>)

  function Predicted<V>(answers: Answers<V>, id: string): map<string, Scalar<V>> {
    if id in answers then answers[id] else map[]
  }

  /** Every field of every case, with what was answered for it. */
  function AllAsked<V>(cases: seq<ExtractionCase<V>>, answers: Answers<V>): seq<Question<V>> {
    if |cases| == 0 then
      []
    else
      var last := cases[|cases| - 1];
      AllAsked(cases[..|cases| - 1], answers) + Asked(last.fields, Predicted(answers, last.id))
  }

  function Names<V(==)>(cases: seq<ExtractionCase<V>>): set<string> {
    set c, f | c in cases && f in c.fields :: f.name
  }

  function IsAnsweredIn<V>(answers: Answers<V>): ExtractionCase<V> -> bool {
    (c: ExtractionCase<V>) => c.id in answers
  }

  function About<V>(judgements: set<Judgement>, agrees: (V, V) -> bool): (Question<V>, string) -> bool {
    (question: Question<V>, name: string) => question.field.name == name && Judge(question, agrees) in judgements
  }

  /** One field's counts over every case that states it. */
  function ScoreOf<V>(questions: seq<Question<V>>, agrees: (V, V) -> bool, name: string): Counts {
    Counts(Count(questions, Down(About(FOUND, agrees), name)),
           Count(questions, Down(About(INVENTED, agrees), name)),
           Count(questions, Down(About(LOST, agrees), name)))
  }

  /** What a question counts for on one name. */
  function WorthFor<V>(question: Question<V>, agrees: (V, V) -> bool, name: string): Counts {
    if question.field.name == name then Worth(question, agrees) else NOTHING
  }

  lemma ScoreOfSnoc<V>(questions: seq<Question<V>>, question: Question<V>, agrees: (V, V) -> bool, name: string)
    ensures ScoreOf(questions + [question], agrees, name)
         == ScoreOf(questions, agrees, name).Plus(WorthFor(question, agrees, name))
  {
    OneScore(question, agrees, name);
    hide Judge, Count, About;
    CountConcat(questions, [question], Down(About(FOUND, agrees), name));
    CountConcat(questions, [question], Down(About(INVENTED, agrees), name));
    CountConcat(questions, [question], Down(About(LOST, agrees), name));
  }

  lemma OneScore<V>(question: Question<V>, agrees: (V, V) -> bool, name: string)
    ensures ScoreOf([question], agrees, name) == WorthFor(question, agrees, name)
  {
    assert [question][1..] == [];
    assert forall judgements :: Count([question], Down(About(judgements, agrees), name))
             == if question.field.name == name && Judge(question, agrees) in judgements then 1 else 0;
  }

  /** The marks of all the questions are the marks of each name's own, over any names that cover them. */
  lemma MarksByName<V>(questions: seq<Question<V>>, names: seq<string>, judgements: set<Judgement>,
                       agrees: (V, V) -> bool)
    requires Distinct(names) && forall q :: q in questions ==> q.field.name in names
    ensures Tally(names, InColumn(questions, About(judgements, agrees))) == Count(questions, Judged(judgements, agrees))
  {
    var about := About(judgements, agrees);
    RowsOrColumns(questions, names, about);
    forall q | q in questions ensures InRow(names, about)(q) == Mark(Judged(judgements, agrees))(q) {
      if Judge(q, agrees) in judgements {
        CountOfOne(names, q.field.name, Across(about, q));
      } else {
        CountAll(names, Across(about, q));
      }
    }
    TallyAgrees(questions, InRow(names, about), Mark(Judged(judgements, agrees)));
    CountIsTally(questions, Judged(judgements, agrees));
  }

  /** The counts of a sequence of names, added up. */
  function TotalOf<V>(names: seq<string>, questions: seq<Question<V>>, agrees: (V, V) -> bool): Counts {
    Counts(Tally(names, InColumn(questions, About(FOUND, agrees))),
           Tally(names, InColumn(questions, About(INVENTED, agrees))),
           Tally(names, InColumn(questions, About(LOST, agrees))))
  }

  lemma FieldByFieldIsScore<V>(names: seq<string>, questions: seq<Question<V>>, agrees: (V, V) -> bool)
    requires Distinct(names) && forall q :: q in questions ==> q.field.name in names
    ensures TotalOf(names, questions, agrees) == Score(questions, agrees)
  {
    MarksByName(questions, names, FOUND, agrees);
    MarksByName(questions, names, INVENTED, agrees);
    MarksByName(questions, names, LOST, agrees);
  }

  lemma TotalOfSnoc<V>(names: seq<string>, name: string, questions: seq<Question<V>>, agrees: (V, V) -> bool)
    ensures TotalOf(names + [name], questions, agrees)
         == TotalOf(names, questions, agrees).Plus(ScoreOf(questions, agrees, name))
  {
    var more := names + [name];
    assert more[..|names| + 1] == more && more[..|names|] == names;
    TallySnoc(more, |names|, InColumn(questions, About(FOUND, agrees)));
    TallySnoc(more, |names|, InColumn(questions, About(INVENTED, agrees)));
    TallySnoc(more, |names|, InColumn(questions, About(LOST, agrees)));
  }

  /** Every question asked is about a field some case states. */
  lemma {:induction false} AskedIsNamed<V>(cases: seq<ExtractionCase<V>>, answers: Answers<V>)
    ensures forall q :: q in AllAsked(cases, answers) ==> q.field.name in Names(cases)
    decreases |cases|
  {
    if |cases| > 0 {
      var last := cases[|cases| - 1];
      AskedIsNamed(cases[..|cases| - 1], answers);
      forall q | q in Asked(last.fields, Predicted(answers, last.id)) ensures q.field.name in Names(cases) {
        assert last in cases && q.field in last.fields;
      }
      forall name | name in Names(cases[..|cases| - 1]) ensures name in Names(cases) {
        var c, f :| c in cases[..|cases| - 1] && f in c.fields && f.name == name;
        assert c in cases;
      }
    }
  }

  /** No cases, not answered, or the axis of all the questions together and each field's own F1. */
  ghost predicate IsExtractionOf<V>(scores: Scores<ExtractionMetrics>, cases: seq<ExtractionCase<V>>,
                                    answers: Option<Answers<V>>, agrees: (V, V) -> bool) {
    && (scores == NoCases <==> |cases| == 0)
    && (scores == NotAnswered <==> |cases| > 0 && answers.None?)
    && (scores.Scored? ==>
          var questions := AllAsked(cases, answers.value);
          && scores.answered == Count(cases, IsAnsweredIn(answers.value))
          && scores.metrics.overall == AxisOf(Score(questions, agrees))
          && scores.metrics.byField.Keys == Names(cases)
          && forall name :: name in scores.metrics.byField
               ==> scores.metrics.byField[name] == ScoreOf(questions, agrees, name).F1())
  }

  /** Scores every field of every case, and reads the overall axis off their sum. */
  method MeasureExtraction<V(==)>(cases: seq<ExtractionCase<V>>, answers: Option<Answers<V>>, agrees: (V, V) -> bool)
    returns (scores: Scores<ExtractionMetrics>)
    ensures IsExtractionOf(scores, cases, answers, agrees)
  {
    if |cases| == 0 {
      return NoCases;
    }
    if answers == None {
      return NotAnswered;
    }
    var perField, answered := ScoreFields(cases, answers.value, agrees);
    ghost var questions := AllAsked(cases, answers.value);
    AskedIsNamed(cases, answers.value);
    var totals := AddUp(perField, questions, agrees);
    scores := Scores.Scored(answered,
                              ExtractionMetrics(AxisOf(totals), map name | name in perField :: perField[name].F1()));
  }

  function AxisOf(c: Counts): Axis {
    Axis(c.Precision(), c.Recall(), c.F1())
  }

  /** The loop over one case's fields, on top of the counts of what was asked before it. */
  method ScoreCase<V>(perField: map<string, Counts>, fields: seq<Field<V>>, predicted: map<string, Scalar<V>>,
                      agrees: (V, V) -> bool, ghost before: seq<Question<V>>)
    returns (after: map<string, Counts>)
    requires forall j :: 0 <= j < |fields| ==> fields[j].name in perField
    requires forall name :: name in perField ==> perField[name] == ScoreOf(before, agrees, name)
    ensures after.Keys == perField.Keys
    ensures forall name :: name in after ==> after[name] == ScoreOf(before + Asked(fields, predicted), agrees, name)
  {
    hide ScoreOf, Score, Worth;
    after := perField;
    ghost var added := Asked(fields, predicted);
    assert before + added[..0] == before;
    for j := 0 to |fields|
      invariant after.Keys == perField.Keys
      invariant forall name :: name in after ==> after[name] == ScoreOf(before + added[..j], agrees, name)
    {
      var name := fields[j].name;
      ghost var asked := before + added[..j];
      var one := FieldCounts([fields[j]], predicted, agrees);
      assert Asked([fields[j]], predicted) == [added[j]];
      ScoreOfOne(added[j], agrees);
      forall other ensures ScoreOf(asked + [added[j]], agrees, other)
                        == ScoreOf(asked, agrees, other).Plus(if other == name then one else NOTHING) {
        ScoreOfSnoc(asked, added[j], agrees, other);
      }
      after := after[name := after[name].Plus(one)];
      assert asked + [added[j]] == before + added[..j + 1];
    }
    assert added[..|fields|] == added;
  }

  /** The loop over the cases and their fields. */
  method ScoreFields<V(==)>(cases: seq<ExtractionCase<V>>, answers: Answers<V>, agrees: (V, V) -> bool)
    returns (perField: map<string, Counts>, answered: nat)
    ensures perField.Keys == Names(cases)
    ensures forall name :: name in perField ==> perField[name] == ScoreOf(AllAsked(cases, answers), agrees, name)
    ensures answered == Count(cases, IsAnsweredIn(answers))
  {
    perField := map name | name in Names(cases) :: NOTHING;
    answered := 0;
    ghost var asked: seq<Question<V>> := [];
    assert cases[..0] == [] && forall name :: ScoreOf(asked, agrees, name) == NOTHING;
    hide ScoreOf, Count;
    for i := 0 to |cases|
      invariant perField.Keys == Names(cases)
      invariant asked == AllAsked(cases[..i], answers)
      invariant forall name :: name in perField ==> perField[name] == ScoreOf(asked, agrees, name)
      invariant answered == Count(cases[..i], IsAnsweredIn(answers))
    {
      var c := cases[i];
      CountSnoc(cases, i, IsAnsweredIn(answers));
      answered := answered + if c.id in answers then 1 else 0;
      var predicted := Predicted(answers, c.id);
      forall j | 0 <= j < |c.fields| ensures c.fields[j].name in perField {
        assert c in cases && c.fields[j] in c.fields;
      }
      perField := ScoreCase(perField, c.fields, predicted, agrees, asked);
      asked := asked + Asked(c.fields, predicted);
      assert cases[..i + 1][..i] == cases[..i];
    }
    assert cases[..|cases|] == cases;
  }

  /** The loop over the fields' own counts, in whatever order the mapping gives them. */
  method AddUp<V>(perField: map<string, Counts>, ghost questions: seq<Question<V>>, ghost agrees: (V, V) -> bool)
    returns (totals: Counts)
    requires forall name :: name in perField ==> perField[name] == ScoreOf(questions, agrees, name)
    requires forall q :: q in questions ==> q.field.name in perField
    ensures totals == Score(questions, agrees)
  {
    totals := NOTHING;
    var remaining := perField.Keys;
    ghost var done: seq<string> := [];
    assert TotalOf(done, questions, agrees) == NOTHING;
    hide TotalOf, ScoreOf, Score;
    while remaining != {}
      invariant remaining <= perField.Keys
      invariant Distinct(done) && forall name :: name in done <==> name in perField.Keys - remaining
      invariant totals == TotalOf(done, questions, agrees)
    {
      var name :| name in remaining;
      assert name !in done;
      TotalOfSnoc(done, name, questions, agrees);
      totals := totals.Plus(perField[name]);
      remaining := remaining - {name};
      done := done + [name];
    }
    FieldByFieldIsScore(done, questions, agrees);
  }

  /** The counts of each case's own fields, added up over the cases. */
  function CaseByCase<V>(cases: seq<ExtractionCase<V>>, answers: Answers<V>, agrees: (V, V) -> bool): Counts {
    if |cases| == 0 then
      NOTHING
    else
      var last := cases[|cases| - 1];
      CaseByCase(cases[..|cases| - 1], answers, agrees)
        .Plus(Score(Asked(last.fields, Predicted(answers, last.id)), agrees))
  }

  lemma {:induction false} CaseByCaseIsScore<V>(cases: seq<ExtractionCase<V>>, answers: Answers<V>,
                                                agrees: (V, V) -> bool)
    ensures CaseByCase(cases, answers, agrees) == Score(AllAsked(cases, answers), agrees)
    decreases |cases|
  {
    if |cases| > 0 {
      var last := cases[|cases| - 1];
      CaseByCaseIsScore(cases[..|cases| - 1], answers, agrees);
      ScoreConcat(AllAsked(cases[..|cases| - 1], answers), Asked(last.fields, Predicted(answers, last.id)), agrees);
    }
  }

  /** Totals summed field by field, over the names in any order, are totals summed case by case. */
  lemma FieldByFieldIsCaseByCase<V>(names: seq<string>, cases: seq<ExtractionCase<V>>, answers: Answers<V>,
                                    agrees: (V, V) -> bool)
    requires Distinct(names) && forall name :: name in names <==> name in Names(cases)
    ensures TotalOf(names, AllAsked(cases, answers), agrees) == CaseByCase(cases, answers, agrees)
  {
    AskedIsNamed(cases, answers);
    FieldByFieldIsScore(names, AllAsked(cases, answers), agrees);
    CaseByCaseIsScore(cases, answers, agrees);
  }

  // ---------------------------------------------------------------- the labels, averaged

  function MetricOf(counted: map<string, Counts>, metric: Counts -> real): string -> real {
    (name: string) => if name in counted then metric(counted[name]) else 0.0
  }

  /** The plain mean over the labels, for every way of listing them. */
  ghost predicate IsMacroAverage(average: real, counted: map<string, Counts>, metric: Counts -> real) {
    forall labels :: Distinct(labels) && (forall name :: name in labels <==> name in counted)
      ==> average == Mean(labels, MetricOf(counted, metric))
  }

  function Mean(labels: seq<string>, value: string -> real): real {
    if labels == [] then 0.0 else Sum(labels, value) / |labels| as real
  }

  lemma SumSnoc(labels: seq<string>, name: string, value: string -> real)
    ensures Sum(labels + [name], value) == Sum(labels, value) + value(name)
  {
    SumConcat(labels, [name], value);
    assert [name][1..] == [];
  }

  /** Two enumerations of the same names are reorderings of each other. */
  lemma {:induction false} SameNames(a: seq<string>, b: seq<string>)
    requires Distinct(a) && Distinct(b) && forall name :: name in a <==> name in b
    ensures multiset(a) == multiset(b)
  {
    forall name ensures multiset(a)[name] == multiset(b)[name] {
      OccursOnce(a, name);
      OccursOnce(b, name);
    }
  }

  lemma {:induction false} OccursOnce(a: seq<string>, name: string)
    requires Distinct(a)
    ensures multiset(a)[name] == if name in a then 1 else 0
    decreases |a|
  {
    if a != [] {
      assert a == [a[0]] + a[1..];
      OccursOnce(a[1..], name);
    }
  }

  method MacroAverage(counted: map<string, Counts>, metric: Counts -> real) returns (average: real)
    ensures IsMacroAverage(average, counted, metric)
  {
    var remaining, sum := counted.Keys, 0.0;
    ghost var done: seq<string> := [];
    while remaining != {}
      invariant remaining <= counted.Keys
      invariant Distinct(done) && forall name :: name in done <==> name in counted.Keys - remaining
      invariant sum == Sum(done, MetricOf(counted, metric))
      invariant |done| + |remaining| == |counted|
    {
      var name :| name in remaining;
      assert name !in done;
      SumSnoc(done, name, MetricOf(counted, metric));
      sum := sum + metric(counted[name]);
      remaining := remaining - {name};
      done := done + [name];
    }
    average := if |counted| == 0 then 0.0 else sum / |counted| as real;
    forall labels | Distinct(labels) && forall name :: name in labels <==> name in counted
      ensures average == Mean(labels, MetricOf(counted, metric))
    {
      SameNames(labels, done);
      SumPermutes(labels, done, MetricOf(counted, metric));
      assert |labels| == |multiset(labels)| == |multiset(done)| == |done|;
    }
  }
}
