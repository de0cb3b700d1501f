/** What each classification metric means, axis by axis: whose answers it reads and what it takes to be perfect. */
module ClassificationGuarantees {
  import opened Options
  import opened Ratios
  import opened Tallies
  import opened Confusion
  import opened Scoring
  import opened Classification

  // ---------------------------------------------------------------- the three averages of an axis

  function PrecisionOn(pairs: seq<Pair>): string -> real {
    (name: string) => Ratio(Count(pairs, Found(name)), Count(pairs, Says(name)))
  }

  function RecallOn(pairs: seq<Pair>): string -> real {
    (name: string) => Ratio(Count(pairs, Found(name)), Count(pairs, IsA(name)))
  }

  function F1On(pairs: seq<Pair>): string -> real {
    (name: string) => Ratio(2 * Count(pairs, Found(name)), Count(pairs, Says(name)) + Count(pairs, IsA(name)))
  }

  lemma MeansAgree(labels: seq<string>, f: string -> real, g: string -> real)
    requires forall name :: name in labels ==> f(name) == g(name)
    ensures Mean(labels, f) == Mean(labels, g)
  {
    SumMonotone(labels, f, g);
  }

  /** Over the labels of an axis, in any order: its precision averages the share found of all the answers that name the
      label, its recall the share found of all the cases of the label, its F1 the share of both together. */
  lemma WhatAnAxisAverages(axis: Axis, pairs: seq<Pair>, labels: seq<string>)
    requires IsAxisOf(axis, pairs) && Enumerates(labels, pairs)
    ensures axis == Axis(Mean(labels, PrecisionOn(pairs)), Mean(labels, RecallOn(pairs)), Mean(labels, F1On(pairs)))
  {
    var counted := LabelScores(pairs);
    hide Mean, Count, Ratio;
    assert forall name :: name in labels <==> name in counted;
    forall name | name in labels
      ensures && MetricOf(counted, Precision())(name) == PrecisionOn(pairs)(name)
              && MetricOf(counted, Recall())(name) == RecallOn(pairs)(name)
              && MetricOf(counted, F1())(name) == F1On(pairs)(name)
    {
      LabelsAreConserved(pairs, name);
    }
    hide LabelScore, LabelScores;
    MeansAgree(labels, MetricOf(counted, Precision()), PrecisionOn(pairs));
    MeansAgree(labels, MetricOf(counted, Recall()), RecallOn(pairs));
    MeansAgree(labels, MetricOf(counted, F1()), F1On(pairs));
  }

  // ---------------------------------------------------------------- each metric on its own

  /** Each axis is perfect exactly when its own answers are right, routing exactly when the queues are, and the curve is
      read exactly where both kinds of case were scored and is perfect exactly when the scores tell them apart. */
  lemma WhatEachMetricReads(scores: Scores<ClassificationMetrics>, cases: seq<ClassificationCase>, answers: Concluded)
    requires cases != [] && IsScoredFrom(scores, cases, answers)
    ensures var m := scores.metrics;
            && (m.risk.f1 == 1.0 <==>
                  forall c :: c in cases ==> c.id in answers && answers[c.id].fraudRisk == c.fraudRisk)
            && (m.severity.f1 == 1.0 <==>
                  forall c :: c in cases ==> c.id in answers && answers[c.id].severity == c.severity)
            && (m.routing == 1.0 <==>
                  forall c :: c in cases ==> c.id in answers && answers[c.id].queue == c.queue)
            && (m.curve == Some(1.0) <==> WellRanked(cases, answers))
  {
    PerfectAxis(scores.metrics.risk, Risk(cases, answers));
    PerfectAxis(scores.metrics.severity, Severity(cases, answers));
    PerfectRouting(cases, answers);
    PerfectCurve(cases, answers);
    RiskIsRight(cases, answers);
    SeverityIsRight(cases, answers);
    hide IsAxisOf, WellRanked, Curve, ScoresOf, Count, Ratio, Risk, Severity;
  }

  lemma RiskIsRight(cases: seq<ClassificationCase>, answers: Concluded)
    ensures (forall p :: p in Risk(cases, answers) ==> IsRight()(p))
       <==> forall c :: c in cases ==> c.id in answers && answers[c.id].fraudRisk == c.fraudRisk
  {
    var risk := Risk(cases, answers);
    forall c | c in cases ensures exists p :: p in risk && p == RiskPair(answers, c) {
      var i :| 0 <= i < |cases| && cases[i] == c;
      assert risk[i] in risk;
    }
    forall p | p in risk ensures exists c :: c in cases && p == RiskPair(answers, c) {
      var i :| 0 <= i < |risk| && risk[i] == p;
      assert cases[i] in cases;
    }
    hide Risk;
  }

  lemma SeverityIsRight(cases: seq<ClassificationCase>, answers: Concluded)
    ensures (forall p :: p in Severity(cases, answers) ==> IsRight()(p))
       <==> forall c :: c in cases ==> c.id in answers && answers[c.id].severity == c.severity
  {
    var severity := Severity(cases, answers);
    forall c | c in cases ensures exists p :: p in severity && p == SeverityPair(answers, c) {
      var i :| 0 <= i < |cases| && cases[i] == c;
      assert severity[i] in severity;
    }
    forall p | p in severity ensures exists c :: c in cases && p == SeverityPair(answers, c) {
      var i :| 0 <= i < |severity| && severity[i] == p;
      assert cases[i] in cases;
    }
    hide Severity;
  }

  /** The curve is of the scores of the answered cases, and of nothing else; with none of either kind there is none. */
  lemma WhenThereIsACurve(scores: Scores<ClassificationMetrics>, cases: seq<ClassificationCase>, answers: Concluded)
    requires IsScoredFrom(scores, cases, answers)
    ensures scores.metrics.curve.Some?
       <==> && (exists c :: c in cases && c.id in answers && c.fraudPositive)
            && (exists c :: c in cases && c.id in answers && !c.fraudPositive)
  {
    var positives, negatives := ScoresOf(cases, answers, true), ScoresOf(cases, answers, false);
    ScoresAreOfCases(cases, answers, true);
    ScoresAreOfCases(cases, answers, false);
    hide ScoresOf, IsAxisOf;
    forall c | c in cases && c.id in answers
      ensures answers[c.id].fraudScore in ScoresOf(cases, answers, c.fraudPositive)
    {
      assert IsScoreOf(cases, answers, c.fraudPositive, answers[c.id].fraudScore);
    }
    assert positives != [] ==> IsScoreOf(cases, answers, true, positives[0]);
    assert negatives != [] ==> IsScoreOf(cases, answers, false, negatives[0]);
  }

  /** What is reported as answered is how many of the cases have an answer of their own. */
  lemma HowManyWereAnswered(scores: Scores<ClassificationMetrics>, cases: seq<ClassificationCase>, answers: Concluded)
    requires IsScoredFrom(scores, cases, answers)
    ensures scores.answered == |set i | 0 <= i < |cases| && cases[i].id in answers|
  {
    CountIsSize(cases, HasAnswer(answers));
    assert Places(cases, HasAnswer(answers)) == set i | 0 <= i < |cases| && cases[i].id in answers;
  }
}
