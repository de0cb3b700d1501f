/** From scores to the named measurements the gate judges: what a run measures is what a run may record. */
module Measuring {
  import opened Options
  import opened Confusion
  import opened Scoring
  import C = Classification
  import R = Retrieval
  import G = Gate
  import B = Baselines

  /** The three sets of a run, each with its version. */
  datatype Golden<V> = Golden(
    extractionVersion: nat, extraction: seq<ExtractionCase<V>>,
    retrievalVersion: nat, retrieval: seq<R.RetrievalCase>,
    classificationVersion: nat, classification: seq<C.ClassificationCase>)

  function SetsOf<V>(golden: Golden<V>): G.Sets {
    G.Sets(G.SetRecord(golden.extractionVersion, |golden.extraction|),
           G.SetRecord(golden.retrievalVersion, |golden.retrieval|),
           G.SetRecord(golden.classificationVersion, |golden.classification|))
  }

  // ---------------------------------------------------------------- names

  function FieldMetric(field: string): string {
    "extraction.field." + field + ".f1"
  }

  /** A field's metric name gives the field back. */
  lemma FieldMetricsApart(a: string, b: string)
    ensures FieldMetric(a) == FieldMetric(b) ==> a == b
  {
    var x, y := FieldMetric(a), FieldMetric(b);
    assert x[17..|x| - 3] == a && y[17..|y| - 3] == b;
  }

  function FieldMetrics(byField: map<string, real>): map<string, real> {
    assert forall a, b :: FieldMetric(a) == FieldMetric(b) ==> a == b by {
      forall a, b ensures FieldMetric(a) == FieldMetric(b) ==> a == b {
        FieldMetricsApart(a, b);
      }
    }
    map field | field in byField :: FieldMetric(field) := byField[field]
  }

  function AxisNames(of: string, axis: Axis): map<string, real> {
    map[of + ".precision" := axis.precision, of + ".recall" := axis.recall, of + ".f1" := axis.f1]
  }

  function IfAny(name: string, value: Option<real>): map<string, real> {
    if value.Some? then map[name := value.value] else map[]
  }

  function ExtractionNames(m: ExtractionMetrics): map<string, real> {
    AxisNames("extraction", m.overall) + FieldMetrics(m.byField)
  }

  function RetrievalNames(m: R.RetrievalMetrics): map<string, real> {
    map["retrieval.hit_rate" := m.hitRate] + map["retrieval.mrr" := m.meanRank]
    + IfAny("retrieval.citation_validity", m.citationValidity)
  }

  function ClassificationNames(m: C.ClassificationMetrics): map<string, real> {
    AxisNames("classification.fraud_risk", m.risk) + AxisNames("classification.severity", m.severity)
    + map["classification.routing_accuracy" := m.routing] + IfAny("classification.fraud_pr_auc", m.curve)
  }

  /** One capability's measurement: a set nobody scored has no metric. */
  function Measured<M>(capability: G.Capability, sets: G.Sets, scores: Scores<M>, names: M -> map<string,
                       real>): G.Measurement {
    var version, cases := sets.Of(capability).version, sets.Of(capability).cases;
    match scores
    case NoCases => G.Measurement(capability, version, G.NoCases, cases, 0, map[])
    case NotAnswered => G.Measurement(capability, version, G.NotAnswered, cases, 0, map[])
    case Scored(answered, metrics) => G.Measurement(capability, version, G.Scored, cases, answered, names(metrics))
  }

  // ---------------------------------------------------------------- proportions under their own prefix

  ghost predicate AreProportionsOf(capability: G.Capability, metrics: map<string, real>) {
    && (forall name :: name in metrics ==> G.Belongs(name, capability))
    && (forall name :: name in metrics ==> 0.0 <= metrics[name] <= 1.0)
  }

  lemma MeasuredIsInOrder<M>(capability: G.Capability, sets: G.Sets, scores: Scores<M>, names: M -> map<string, real>)
    requires scores.Scored? ==> AreProportionsOf(capability, names(scores.metrics))
    ensures B.IsMeasurementOf(Measured(capability, sets, scores, names), sets)
    ensures Measured(capability, sets, scores, names).capability == capability
  {
  }

  lemma ThreeAreARun(a: G.Measurement, b: G.Measurement, c: G.Measurement, sets: G.Sets)
    requires a.capability == G.Extraction && b.capability == G.Retrieval && c.capability == G.Classification
    requires B.IsMeasurementOf(a, sets) && B.IsMeasurementOf(b, sets) && B.IsMeasurementOf(c, sets)
    ensures B.IsRun([a, b, c], sets)
  {
    hide B.IsMeasurementOf;
  }

  lemma TogetherInOrder(capability: G.Capability, a: map<string, real>, b: map<string, real>)
    requires AreProportionsOf(capability, a) && AreProportionsOf(capability, b)
    ensures AreProportionsOf(capability, a + b)
  {
    hide G.Belongs;
  }

  lemma OneInOrder(capability: G.Capability, name: string, value: Option<real>)
    requires G.Belongs(name, capability) && (value.Some? ==> 0.0 <= value.value <= 1.0)
    ensures AreProportionsOf(capability, IfAny(name, value))
  {
    hide G.Belongs;
  }

  lemma AxisInOrder(capability: G.Capability, of: string, axis: Axis)
    requires C.IsProportional(axis) && G.Prefix(capability) <= of + "."
    ensures AreProportionsOf(capability, AxisNames(of, axis))
  {
    Extended(capability, of, "precision");
    Extended(capability, of, "recall");
    Extended(capability, of, "f1");
    assert of + "." + "precision" == of + ".precision" && of + "." + "recall" == of + ".recall";
    assert of + "." + "f1" == of + ".f1";
    hide G.Belongs, G.Prefix;
  }

  lemma Extended(capability: G.Capability, of: string, rest: string)
    requires G.Prefix(capability) <= of + "."
    ensures G.Belongs(of + "." + rest, capability)
  {
    var name := of + "." + rest;
    assert name[..|G.Prefix(capability)|] == (of + ".")[..|G.Prefix(capability)|];
  }

  lemma FieldsInOrder(byField: map<string, real>)
    requires forall field :: field in byField ==> 0.0 <= byField[field] <= 1.0
    ensures AreProportionsOf(G.Extraction, FieldMetrics(byField))
  {
    forall name | name in FieldMetrics(byField) ensures G.Belongs(name, G.Extraction) {
      var field :| field in byField && name == FieldMetric(field);
      assert name[..11] == "extraction.";
    }
  }

  lemma ExtractedAreProportions<V>(scores: Scores<ExtractionMetrics>, cases: seq<ExtractionCase<V>>,
                                   answers: Option<Answers<V>>, agrees: (V, V) -> bool)
    requires IsExtractionOf(scores, cases, answers, agrees) && scores.Scored?
    ensures C.IsProportional(scores.metrics.overall)
    ensures forall field :: field in scores.metrics.byField ==> 0.0 <= scores.metrics.byField[field] <= 1.0
  {
    var m, questions := scores.metrics, AllAsked(cases, answers.value);
    hide AllAsked, Score, ScoreOf;
    ProportionsOf(Score(questions, agrees));
    forall field | field in m.byField ensures 0.0 <= m.byField[field] <= 1.0 {
      ProportionsOf(ScoreOf(questions, agrees, field));
    }
  }

  lemma ExtractionIsInOrder<V>(scores: Scores<ExtractionMetrics>, cases: seq<ExtractionCase<V>>,
                               answers: Option<Answers<V>>, agrees: (V, V) -> bool)
    requires IsExtractionOf(scores, cases, answers, agrees) && scores.Scored?
    ensures AreProportionsOf(G.Extraction, ExtractionNames(scores.metrics))
  {
    var m := scores.metrics;
    ExtractedAreProportions(scores, cases, answers, agrees);
    hide IsExtractionOf, AreProportionsOf;
    FieldsInOrder(m.byField);
    AxisInOrder(G.Extraction, "extraction", m.overall);
    TogetherInOrder(G.Extraction, AxisNames("extraction", m.overall), FieldMetrics(m.byField));
  }

  lemma RetrievalIsInOrder(scores: Scores<R.RetrievalMetrics>, cases: seq<R.RetrievalCase>,
                           answers: Option<R.Retrieved>,
                           topK: nat)
    requires R.IsRetrievalOf(scores, cases, answers, topK) && scores.Scored? && topK >= 1
    ensures AreProportionsOf(G.Retrieval, RetrievalNames(scores.metrics))
  {
    var m := scores.metrics;
    R.MetricsAreProportions(cases, answers.value, topK);
    hide R.MetricsFor, AreProportionsOf;
    OneInOrder(G.Retrieval, "retrieval.hit_rate", Some(m.hitRate));
    OneInOrder(G.Retrieval, "retrieval.mrr", Some(m.meanRank));
    OneInOrder(G.Retrieval, "retrieval.citation_validity", m.citationValidity);
    var both := map["retrieval.hit_rate" := m.hitRate] + map["retrieval.mrr" := m.meanRank];
    TogetherInOrder(G.Retrieval, map["retrieval.hit_rate" := m.hitRate], map["retrieval.mrr" := m.meanRank]);
    TogetherInOrder(G.Retrieval, both, IfAny("retrieval.citation_validity", m.citationValidity));
  }

  lemma ClassificationIsInOrder(scores: Scores<C.ClassificationMetrics>, cases: seq<C.ClassificationCase>,
                                answers: Option<C.Concluded>)
    requires C.IsClassificationOf(scores, cases, answers) && scores.Scored?
    ensures AreProportionsOf(G.Classification, ClassificationNames(scores.metrics))
  {
    var m := scores.metrics;
    hide C.IsScoredFrom, AreProportionsOf;
    C.MetricsAreProportions(scores, cases, answers.value);
    hide C.IsClassificationOf, AxisNames, IfAny;
    var risk := AxisNames("classification.fraud_risk", m.risk);
    var severity := AxisNames("classification.severity", m.severity);
    var routing := IfAny("classification.routing_accuracy", Some(m.routing));
    AxisInOrder(G.Classification, "classification.fraud_risk", m.risk);
    AxisInOrder(G.Classification, "classification.severity", m.severity);
    OneInOrder(G.Classification, "classification.routing_accuracy", Some(m.routing));
    OneInOrder(G.Classification, "classification.fraud_pr_auc", m.curve);
    TogetherInOrder(G.Classification, risk, severity);
    TogetherInOrder(G.Classification, risk + severity, routing);
    TogetherInOrder(G.Classification, risk + severity + routing, IfAny("classification.fraud_pr_auc", m.curve));
  }

  // ---------------------------------------------------------------- a whole run

  /** Scores the three sets, and names what was scored: what comes out is what the gate takes for a run. */
  method Measure<V(==)>(golden: Golden<V>, extracted: Option<Answers<V>>, retrieved: Option<R.Retrieved>,
                        concluded: Option<C.Concluded>, agrees: (V, V) -> bool, topK: nat)
    returns (extraction: Scores<ExtractionMetrics>, retrieval: Scores<R.RetrievalMetrics>,
             classification: Scores<C.ClassificationMetrics>, measurements: seq<G.Measurement>)
    requires topK >= 1
    ensures IsExtractionOf(extraction, golden.extraction, extracted, agrees)
    ensures R.IsRetrievalOf(retrieval, golden.retrieval, retrieved, topK)
    ensures C.IsClassificationOf(classification, golden.classification, concluded)
    ensures measurements == [Measured(G.Extraction, SetsOf(golden), extraction, ExtractionNames),
                             Measured(G.Retrieval, SetsOf(golden), retrieval, RetrievalNames),
                             Measured(G.Classification, SetsOf(golden), classification, ClassificationNames)]
    ensures B.IsRun(measurements, SetsOf(golden))
  {
    extraction := MeasureExtraction(golden.extraction, extracted, agrees);
    retrieval := R.MeasureRetrieval(golden.retrieval, retrieved, topK);
    classification := C.MeasureClassification(golden.classification, concluded);
    hide IsExtractionOf, R.IsRetrievalOf, C.IsClassificationOf, AreProportionsOf, ExtractionNames, RetrievalNames,
         ClassificationNames, Measured, B.IsMeasurementOf, B.IsRun;
    if extraction.Scored? {
      ExtractionIsInOrder(extraction, golden.extraction, extracted, agrees);
    }
    if retrieval.Scored? {
      RetrievalIsInOrder(retrieval, golden.retrieval, retrieved, topK);
    }
    if classification.Scored? {
      ClassificationIsInOrder(classification, golden.classification, concluded);
    }
    var sets := SetsOf(golden);
    MeasuredIsInOrder(G.Extraction, sets, extraction, ExtractionNames);
    MeasuredIsInOrder(G.Retrieval, sets, retrieval, RetrievalNames);
    MeasuredIsInOrder(G.Classification, sets, classification, ClassificationNames);
    var first := Measured(G.Extraction, sets, extraction, ExtractionNames);
    var second := Measured(G.Retrieval, sets, retrieval, RetrievalNames);
    var third := Measured(G.Classification, sets, classification, ClassificationNames);
    ThreeAreARun(first, second, third, sets);
    measurements := [first, second, third];
  }
}
