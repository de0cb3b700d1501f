/** What a run reads off the classification cases: two axes, routing, and the fraud score's curve. */
module Classification {
  import opened Options
  import opened Ratios
  import opened Tallies
  import opened Confusion
  import opened AveragePrecision
  import opened Scoring

  datatype ClassificationCase =
    ClassificationCase(id: string, fraudRisk: string, severity: string, queue: string, fraudPositive: bool)

  datatype ClassificationAnswer =
    ClassificationAnswer(fraudRisk: string, severity: string, queue: string, fraudScore: real)

  datatype ClassificationMetrics =
    ClassificationMetrics(risk: Axis, severity: Axis, routing: real, curve: Option<real>)

  type Concluded = map<string, ClassificationAnswer>

  function Precision(): Counts -> real {
    (c: Counts) => c.Precision()
  }

  function Recall(): Counts -> real {
    (c: Counts) => c.Recall()
  }

  function F1(): Counts -> real {
    (c: Counts) => c.F1()
  }

  function LabelScores(pairs: seq<Pair>): map<string, Counts> {
    map name | name in Labels(pairs) :: LabelScore(pairs, name)
  }

  /** An axis is its labels' own precision, recall and F1, each averaged over the labels. */
  ghost predicate IsAxisOf(axis: Axis, pairs: seq<Pair>) {
    && IsMacroAverage(axis.precision, LabelScores(pairs), Precision())
    && IsMacroAverage(axis.recall, LabelScores(pairs), Recall())
    && IsMacroAverage(axis.f1, LabelScores(pairs), F1())
  }

  method MeasureAxis(pairs: seq<Pair>) returns (axis: Axis)
    ensures IsAxisOf(axis, pairs)
  {
    var counted := LabelCounts(pairs);
    assert counted == LabelScores(pairs);
    var precision := MacroAverage(counted, Precision());
    var recall := MacroAverage(counted, Recall());
    var f1 := MacroAverage(counted, F1());
    axis := Axis(precision, recall, f1);
  }

  function RiskPair(answers: Concluded, c: ClassificationCase): Pair {
    Pair(c.fraudRisk, if c.id in answers then Some(answers[c.id].fraudRisk) else None)
  }

  function SeverityPair(answers: Concluded, c: ClassificationCase): Pair {
    Pair(c.severity, if c.id in answers then Some(answers[c.id].severity) else None)
  }

  function Risk(cases: seq<ClassificationCase>, answers: Concluded): seq<Pair> {
    seq(|cases|, i requires 0 <= i < |cases| => RiskPair(answers, cases[i]))
  }

  function Severity(cases: seq<ClassificationCase>, answers: Concluded): seq<Pair> {
    seq(|cases|, i requires 0 <= i < |cases| => SeverityPair(answers, cases[i]))
  }

  function HasAnswer(answers: Concluded): ClassificationCase -> bool {
    (c: ClassificationCase) => c.id in answers
  }

  function WellRouted(answers: Concluded): ClassificationCase -> bool {
    (c: ClassificationCase) => c.id in answers && answers[c.id].queue == c.queue
  }

  /** The fraud scores of the answered cases of one label, in the cases' order. */
  function ScoresOf(cases: seq<ClassificationCase>, answers: Concluded, positive: bool): seq<real> {
    if |cases| == 0 then
      []
    else
      var last := cases[|cases| - 1];
      ScoresOf(cases[..|cases| - 1], answers, positive)
        + if last.id in answers && last.fraudPositive == positive then [answers[last.id].fraudScore] else []
  }

  function Curve(positives: seq<real>, negatives: seq<real>): Option<real> {
    if positives == [] || negatives == [] then None else Some(MeanPrecision(positives, negatives))
  }

  method MeasureClassification(cases: seq<ClassificationCase>, answers: Option<Concluded>)
    returns (scores: Scores<ClassificationMetrics>)
    ensures IsClassificationOf(scores, cases, answers)
  {
    if cases == [] {
      return NoCases;
    }
    if answers == None {
      return NotAnswered;
    }
    var given := answers.value;
    var risk, severity, positives, negatives, routing, answered := Gather(cases, given);
    var riskAxis := MeasureAxis(risk);
    var severityAxis := MeasureAxis(severity);
    var curve := AveragePrecision.AveragePrecision(positives, negatives);
    hide IsAxisOf, Risk, Severity, ScoresOf;
    scores := Scores.Scored(answered, ClassificationMetrics(riskAxis, severityAxis, Ratio(routing, |cases|), curve));
  }

  /** The loop over the cases. */
  method Gather(cases: seq<ClassificationCase>, given: Concluded)
    returns (risk: seq<Pair>, severity: seq<Pair>, positives: seq<real>, negatives: seq<real>, routing: nat,
             answered: nat)
    ensures risk == Risk(cases, given) && severity == Severity(cases, given)
    ensures positives == ScoresOf(cases, given, true) && negatives == ScoresOf(cases, given, false)
    ensures routing == Count(cases, WellRouted(given)) && answered == Count(cases, HasAnswer(given))
  {
    risk, severity, positives, negatives, routing, answered := [], [], [], [], 0, 0;
    assert cases[..0] == [];
    for i := 0 to |cases|
      invariant risk == Risk(cases[..i], given) && severity == Severity(cases[..i], given)
      invariant positives == ScoresOf(cases[..i], given, true) && negatives == ScoresOf(cases[..i], given, false)
      invariant routing == Count(cases[..i], WellRouted(given)) && answered == Count(cases[..i], HasAnswer(given))
    {
      var c := cases[i];
      OneMoreCase(cases, given, i);
      hide Risk, Severity, ScoresOf, Count, WellRouted, HasAnswer, RiskPair, SeverityPair;
      answered := answered + if c.id in given then 1 else 0;
      risk := risk + [RiskPair(given, c)];
      severity := severity + [SeverityPair(given, c)];
      routing := routing + if c.id in given && given[c.id].queue == c.queue then 1 else 0;
      if c.id in given {
        if c.fraudPositive {
          positives := positives + [given[c.id].fraudScore];
        } else {
          negatives := negatives + [given[c.id].fraudScore];
        }
      }
    }
    assert cases[..|cases|] == cases;
  }

  lemma OneMoreCase(cases: seq<ClassificationCase>, given: Concluded, i: nat)
    requires i < |cases|
    ensures Risk(cases[..i + 1], given) == Risk(cases[..i], given) + [RiskPair(given, cases[i])]
    ensures Severity(cases[..i + 1], given) == Severity(cases[..i], given) + [SeverityPair(given, cases[i])]
    ensures forall positive :: ScoresOf(cases[..i + 1], given, positive) == ScoresOf(cases[..i], given, positive)
              + if cases[i].id in given && cases[i].fraudPositive == positive
                then [given[cases[i].id].fraudScore] else []
    ensures Count(cases[..i + 1], WellRouted(given)) == Count(cases[..i], WellRouted(given))
              + if cases[i].id in given && given[cases[i].id].queue == cases[i].queue then 1 else 0
    ensures Count(cases[..i + 1], HasAnswer(given)) == Count(cases[..i], HasAnswer(given))
              + if cases[i].id in given then 1 else 0
  {
    CountSnoc(cases, i, WellRouted(given));
    CountSnoc(cases, i, HasAnswer(given));
    hide Count;
    assert cases[..i + 1][..i] == cases[..i];
  }

  /** No cases, not answered, or both axes, routing and the curve. */
  ghost predicate IsClassificationOf(scores: Scores<ClassificationMetrics>, cases: seq<ClassificationCase>,
                                     answers: Option<Concluded>) {
    && (scores == NoCases <==> cases == [])
    && (scores == NotAnswered <==> cases != [] && answers == None)
    && (scores.Scored? ==> IsScoredFrom(scores, cases, answers.value))
  }

  ghost predicate IsScoredFrom(scores: Scores<ClassificationMetrics>, cases: seq<ClassificationCase>,
                               answers: Concluded) {
    && scores.Scored?
    && scores.answered == Count(cases, HasAnswer(answers))
    && IsAxisOf(scores.metrics.risk, Risk(cases, answers))
    && IsAxisOf(scores.metrics.severity, Severity(cases, answers))
    && scores.metrics.routing == Ratio(Count(cases, WellRouted(answers)), |cases|)
    && scores.metrics.curve == Curve(ScoresOf(cases, answers, true), ScoresOf(cases, answers, false))
  }

  // ---------------------------------------------------------------- what perfect scores mean

  lemma MeanIsAProportion(labels: seq<string>, value: string -> real)
    requires labels != [] && forall name :: name in labels ==> 0.0 <= value(name) <= 1.0
    ensures 0.0 <= Mean(labels, value) <= 1.0
    ensures Mean(labels, value) == 1.0 <==> forall name :: name in labels ==> value(name) == 1.0
  {
    ProportionsAddUp(labels, value);
    Quotient(Sum(labels, value), |labels| as real);
  }

  lemma Enumeration(names: set<string>) returns (labels: seq<string>)
    ensures Distinct(labels) && forall name :: name in labels <==> name in names
    decreases |names|
  {
    if names == {} {
      labels := [];
    } else {
      var name :| name in names;
      var rest := Enumeration(names - {name});
      labels := rest + [name];
    }
  }

  /** A label's F1 is 1 exactly when it was neither lost nor claimed in vain. */
  lemma PerfectLabel(pairs: seq<Pair>, name: string)
    requires name in Labels(pairs)
    ensures var c := LabelScore(pairs, name);
            && (c.Recall() == 1.0 <==> forall p :: p in pairs && p.truth == name ==> IsRight()(p))
            && (c.F1() == 1.0 ==> c.Recall() == 1.0)
            && ((forall p :: p in pairs ==> IsRight()(p)) ==> c.F1() == 1.0 && c.Precision() == 1.0)
  {
    ProportionsOf(LabelScore(pairs, name));
    CountAll(pairs, Lost(name));
    CountAll(pairs, Found(name));
    CountAll(pairs, Down(Claims(), name));
    var p :| p in pairs && p.truth == name;
    assert Found(name)(p) || Lost(name)(p);
  }

  /** The averages of an axis are proportions, and its F1 is 1 exactly when every answer is right. */
  lemma PerfectAxis(axis: Axis, pairs: seq<Pair>)
    requires pairs != [] && IsAxisOf(axis, pairs)
    ensures 0.0 <= axis.precision <= 1.0 && 0.0 <= axis.recall <= 1.0 && 0.0 <= axis.f1 <= 1.0
    ensures axis.f1 == 1.0 <==> forall p :: p in pairs ==> IsRight()(p)
    ensures axis.recall == 1.0 <==> forall p :: p in pairs ==> IsRight()(p)
    ensures axis.f1 == 1.0 ==> axis.precision == 1.0
  {
    var counted := LabelScores(pairs);
    assert pairs[0].truth in counted;
    forall name | name in counted
      ensures && 0.0 <= counted[name].Precision() <= 1.0
              && 0.0 <= counted[name].Recall() <= 1.0
              && 0.0 <= counted[name].F1() <= 1.0
    {
      ProportionsOf(counted[name]);
    }
    AverageIsAProportion(axis.precision, counted, Precision());
    AverageIsAProportion(axis.recall, counted, Recall());
    AverageIsAProportion(axis.f1, counted, F1());
    PerfectLabels(pairs);
  }

  lemma AverageIsAProportion(average: real, counted: map<string, Counts>, metric: Counts -> real)
    requires counted != map[] && IsMacroAverage(average, counted, metric)
    requires forall name :: name in counted ==> 0.0 <= metric(counted[name]) <= 1.0
    ensures 0.0 <= average <= 1.0
    ensures average == 1.0 <==> forall name :: name in counted ==> metric(counted[name]) == 1.0
  {
    var labels := Enumeration(counted.Keys);
    var some :| some in counted;
    assert some in labels;
    MeanIsAProportion(labels, MetricOf(counted, metric));
  }

  lemma PerfectLabels(pairs: seq<Pair>)
    ensures var counted, right := LabelScores(pairs), forall p :: p in pairs ==> IsRight()(p);
            && ((forall name :: name in counted ==> counted[name].Recall() == 1.0) <==> right)
            && ((forall name :: name in counted ==> counted[name].F1() == 1.0) <==> right)
            && (right ==> forall name :: name in counted ==> counted[name].Precision() == 1.0)
  {
    var counted := LabelScores(pairs);
    forall name | name in counted
      ensures counted[name].Recall() == 1.0 <==> forall p :: p in pairs && p.truth == name ==> IsRight()(p)
      ensures counted[name].F1() == 1.0 ==> counted[name].Recall() == 1.0
      ensures (forall p :: p in pairs ==> IsRight()(p)) ==> counted[name].F1() == counted[name].Precision() == 1.0
    {
      PerfectLabel(pairs, name);
    }
    hide LabelScore;
    assert forall p :: p in pairs ==> p.truth in counted;
  }

  ghost predicate AllRight(cases: seq<ClassificationCase>, answers: Concluded) {
    forall c :: c in cases ==>
      && c.id in answers
      && answers[c.id].fraudRisk == c.fraudRisk
      && answers[c.id].severity == c.severity
      && answers[c.id].queue == c.queue
  }

  /** Both kinds of case were scored, and every fraud above every case that is none. */
  ghost predicate WellRanked(cases: seq<ClassificationCase>, answers: Concluded) {
    && (exists c :: c in cases && c.id in answers && c.fraudPositive)
    && (exists c :: c in cases && c.id in answers && !c.fraudPositive)
    && forall c, d :: c in cases && d in cases && c.id in answers && d.id in answers
         && c.fraudPositive && !d.fraudPositive
         ==> answers[d.id].fraudScore < answers[c.id].fraudScore
  }

  ghost predicate IsScoreOf(cases: seq<ClassificationCase>, answers: Concluded, positive: bool, score: real) {
    exists c :: c in cases && c.id in answers && c.fraudPositive == positive && answers[c.id].fraudScore == score
  }

  lemma {:induction false} ScoresAreOfCases(cases: seq<ClassificationCase>, answers: Concluded, positive: bool)
    ensures forall score :: score in ScoresOf(cases, answers, positive) <==> IsScoreOf(cases, answers, positive, score)
    decreases |cases|
  {
    if |cases| > 0 {
      var front, last := cases[..|cases| - 1], cases[|cases| - 1];
      ScoresAreOfCases(front, answers, positive);
      assert cases == front + [last];
    }
  }

  lemma PerfectCurve(cases: seq<ClassificationCase>, answers: Concluded)
    ensures Curve(ScoresOf(cases, answers, true), ScoresOf(cases, answers, false)) == Some(1.0)
       <==> WellRanked(cases, answers)
  {
    var positives, negatives := ScoresOf(cases, answers, true), ScoresOf(cases, answers, false);
    ScoresAreOfCases(cases, answers, true);
    ScoresAreOfCases(cases, answers, false);
    hide ScoresOf, MeanPrecision;
    forall c | c in cases && c.id in answers
      ensures answers[c.id].fraudScore in ScoresOf(cases, answers, c.fraudPositive)
    {
      assert IsScoreOf(cases, answers, c.fraudPositive, answers[c.id].fraudScore);
    }
    if positives != [] && negatives != [] {
      AreaIsAProportion(positives, negatives);
      assert IsScoreOf(cases, answers, true, positives[0]) && IsScoreOf(cases, answers, false, negatives[0]);
    }
  }

  /** Every metric of a run is a proportion. */
  lemma MetricsAreProportions(scores: Scores<ClassificationMetrics>, cases: seq<ClassificationCase>, answers: Concluded)
    requires cases != [] && IsScoredFrom(scores, cases, answers)
    ensures IsProportional(scores.metrics.risk) && IsProportional(scores.metrics.severity)
    ensures 0.0 <= scores.metrics.routing <= 1.0
    ensures scores.metrics.curve.Some? ==> 0.0 <= scores.metrics.curve.value <= 1.0
  {
    PerfectAxis(scores.metrics.risk, Risk(cases, answers));
    PerfectAxis(scores.metrics.severity, Severity(cases, answers));
    CountAll(cases, WellRouted(answers));
    RatioIsAProportion(Count(cases, WellRouted(answers)), |cases|);
    var positives, negatives := ScoresOf(cases, answers, true), ScoresOf(cases, answers, false);
    hide IsAxisOf, ScoresOf, WellRouted, Risk, Severity, MeanPrecision;
    if positives != [] && negatives != [] {
      AreaIsAProportion(positives, negatives);
    }
  }

  predicate IsProportional(axis: Axis) {
    0.0 <= axis.precision <= 1.0 && 0.0 <= axis.recall <= 1.0 && 0.0 <= axis.f1 <= 1.0
  }

  /** A run reads 1 on every metric exactly when it answered every case right on every name it was asked
      for, and its fraud score tells every fraud from every case that is none. */
  lemma PerfectRun(scores: Scores<ClassificationMetrics>, cases: seq<ClassificationCase>, answers: Concluded)
    requires cases != [] && IsScoredFrom(scores, cases, answers)
    ensures scores.metrics == ClassificationMetrics(Axis(1.0, 1.0, 1.0), Axis(1.0, 1.0, 1.0), 1.0, Some(1.0))
       <==> AllRight(cases, answers) && WellRanked(cases, answers)
  {
    PerfectAxis(scores.metrics.risk, Risk(cases, answers));
    PerfectAxis(scores.metrics.severity, Severity(cases, answers));
    PerfectCurve(cases, answers);
    PerfectRouting(cases, answers);
    PairsAreRight(cases, answers);
    hide IsAxisOf, WellRanked, Curve, ScoresOf, WellRouted, Risk, Severity;
  }

  lemma PerfectRouting(cases: seq<ClassificationCase>, answers: Concluded)
    requires cases != []
    ensures Ratio(Count(cases, WellRouted(answers)), |cases|) == 1.0
       <==> forall c :: c in cases ==> WellRouted(answers)(c)
  {
    CountAll(cases, WellRouted(answers));
    RatioIsAProportion(Count(cases, WellRouted(answers)), |cases|);
  }

  lemma PairsAreRight(cases: seq<ClassificationCase>, answers: Concluded)
    ensures AllRight(cases, answers)
       <==> && (forall p :: p in Risk(cases, answers) ==> IsRight()(p))
            && (forall p :: p in Severity(cases, answers) ==> IsRight()(p))
            && (forall c :: c in cases ==> WellRouted(answers)(c))
  {
    var risk, severity := Risk(cases, answers), Severity(cases, answers);
    if forall p :: p in risk ==> IsRight()(p) {
      forall c | c in cases ensures c.id in answers && answers[c.id].fraudRisk == c.fraudRisk {
        var i :| 0 <= i < |cases| && cases[i] == c;
        assert risk[i] in risk;
      }
    }
    if forall p :: p in severity ==> IsRight()(p) {
      forall c | c in cases ensures c.id in answers && answers[c.id].severity == c.severity {
        var i :| 0 <= i < |cases| && cases[i] == c;
        assert severity[i] in severity;
      }
    }
  }
}
