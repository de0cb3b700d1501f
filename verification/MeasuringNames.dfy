/** Which number stands under which name, and what a measurement says of its set. */
module MeasuringNames {
  import opened Options
  import opened Scoring
  import opened Measuring
  import C = Classification
  import R = Retrieval
  import G = Gate

  /** The name is measured, at this value. */
  ghost predicate Reads(metrics: map<string, real>, name: string, value: real) {
    name in metrics && metrics[name] == value
  }

  /** The name is measured at the value if there is one, and otherwise is not. */
  ghost predicate ReadsIfAny(metrics: map<string, real>, name: string, value: Option<real>) {
    if value.Some? then Reads(metrics, name, value.value) else name !in metrics
  }

  // ---------------------------------------------------------------- extraction

  lemma AxisReads(of: string, axis: Axis)
    ensures Reads(AxisNames(of, axis), of + ".precision", axis.precision)
    ensures Reads(AxisNames(of, axis), of + ".recall", axis.recall)
    ensures Reads(AxisNames(of, axis), of + ".f1", axis.f1)
    ensures AxisNames(of, axis).Keys == {of + ".precision", of + ".recall", of + ".f1"}
  {
    assert |of + ".precision"| != |of + ".recall"| && |of + ".recall"| != |of + ".f1"|;
  }

  lemma FieldsRead(byField: map<string, real>)
    ensures forall field :: field in byField ==> Reads(FieldMetrics(byField), FieldMetric(field), byField[field])
    ensures forall name :: name in FieldMetrics(byField) <==>
              exists field :: field in byField && name == FieldMetric(field)
  {
    forall a, b ensures FieldMetric(a) == FieldMetric(b) ==> a == b {
      FieldMetricsApart(a, b);
    }
    hide FieldMetric;
  }

  lemma FieldNameIsNoAxis(field: string)
    ensures FieldMetric(field) !in {"extraction.precision", "extraction.recall", "extraction.f1"}
  {
    var name := FieldMetric(field);
    assert name[11] == 'f' && name[12] == 'i';
    assert "extraction.precision"[11] == 'p' && "extraction.recall"[11] == 'r' && "extraction.f1"[12] == '1';
  }

  /** The overall precision, recall and F1 under their three names, each field's F1 under the field's own, and no
      other name. */
  lemma ExtractionReads(m: ExtractionMetrics)
    ensures var metrics := ExtractionNames(m);
            && Reads(metrics, "extraction.precision", m.overall.precision)
            && Reads(metrics, "extraction.recall", m.overall.recall)
            && Reads(metrics, "extraction.f1", m.overall.f1)
            && (forall field :: field in m.byField ==>
                  Reads(metrics, "extraction.field." + field + ".f1", m.byField[field]))
            && (forall name :: name in metrics <==>
                  || name in {"extraction.precision", "extraction.recall", "extraction.f1"}
                  || exists field :: field in m.byField && name == "extraction.field." + field + ".f1")
  {
    AxisReads("extraction", m.overall);
    assert "extraction" + ".precision" == "extraction.precision" && "extraction" + ".recall" == "extraction.recall";
    assert "extraction" + ".f1" == "extraction.f1";
    FieldsRead(m.byField);
    forall field ensures FieldMetric(field) !in {"extraction.precision", "extraction.recall", "extraction.f1"} {
      FieldNameIsNoAxis(field);
    }
    hide AxisNames, FieldMetrics;
  }

  // ---------------------------------------------------------------- retrieval

  lemma RetrievalReads(m: R.RetrievalMetrics)
    ensures var metrics := RetrievalNames(m);
            && Reads(metrics, "retrieval.hit_rate", m.hitRate)
            && Reads(metrics, "retrieval.mrr", m.meanRank)
            && ReadsIfAny(metrics, "retrieval.citation_validity", m.citationValidity)
            && metrics.Keys <= {"retrieval.hit_rate", "retrieval.mrr", "retrieval.citation_validity"}
  {
    assert |"retrieval.hit_rate"| == 18 && |"retrieval.mrr"| == 13 && |"retrieval.citation_validity"| == 27;
  }

  // ---------------------------------------------------------------- classification

  function RiskNames(): set<string> {
    {"classification.fraud_risk.precision", "classification.fraud_risk.recall", "classification.fraud_risk.f1"}
  }

  function SeverityNames(): set<string> {
    {"classification.severity.precision", "classification.severity.recall", "classification.severity.f1"}
  }

  lemma ClassificationReads(m: C.ClassificationMetrics)
    ensures var metrics := ClassificationNames(m);
            && Reads(metrics, "classification.fraud_risk.precision", m.risk.precision)
            && Reads(metrics, "classification.fraud_risk.recall", m.risk.recall)
            && Reads(metrics, "classification.fraud_risk.f1", m.risk.f1)
            && Reads(metrics, "classification.severity.precision", m.severity.precision)
            && Reads(metrics, "classification.severity.recall", m.severity.recall)
            && Reads(metrics, "classification.severity.f1", m.severity.f1)
            && Reads(metrics, "classification.routing_accuracy", m.routing)
            && ReadsIfAny(metrics, "classification.fraud_pr_auc", m.curve)
            && metrics.Keys <= RiskNames() + SeverityNames()
                               + {"classification.routing_accuracy", "classification.fraud_pr_auc"}
  {
    RiskReads(m.risk);
    SeverityReads(m.severity);
    OthersAreMarked();
    hide AxisNames, RiskNames, SeverityNames;
  }

  /** Two characters that tell the four groups of names apart. */
  predicate Marked(name: string, first: char, second: char) {
    |name| > 21 && name[15] == first && name[21] == second
  }

  lemma RiskReads(axis: Axis)
    ensures var metrics := AxisNames("classification.fraud_risk", axis);
            && Reads(metrics, "classification.fraud_risk.precision", axis.precision)
            && Reads(metrics, "classification.fraud_risk.recall", axis.recall)
            && Reads(metrics, "classification.fraud_risk.f1", axis.f1)
            && metrics.Keys <= RiskNames()
            && forall name :: name in metrics ==> Marked(name, 'f', 'r')
  {
    var of := "classification.fraud_risk";
    AxisReads(of, axis);
    assert of + ".precision" == "classification.fraud_risk.precision" && of + ".f1" == "classification.fraud_risk.f1";
    assert of + ".recall" == "classification.fraud_risk.recall";
  }

  lemma SeverityReads(axis: Axis)
    ensures var metrics := AxisNames("classification.severity", axis);
            && Reads(metrics, "classification.severity.precision", axis.precision)
            && Reads(metrics, "classification.severity.recall", axis.recall)
            && Reads(metrics, "classification.severity.f1", axis.f1)
            && metrics.Keys <= SeverityNames()
            && forall name :: name in metrics ==> Marked(name, 's', 't')
  {
    var of := "classification.severity";
    AxisReads(of, axis);
    assert of + ".precision" == "classification.severity.precision" && of + ".f1" == "classification.severity.f1";
    assert of + ".recall" == "classification.severity.recall";
  }

  lemma OthersAreMarked()
    ensures Marked("classification.routing_accuracy", 'r', 'g')
    ensures Marked("classification.fraud_pr_auc", 'f', 'p')
  {
  }

  // ---------------------------------------------------------------- the measurement around them

  /** A measurement is of its own set as it is: that set's version and its number of cases, the reading it came to, and
      the answers and metrics only where it was scored. */
  lemma WhatAMeasurementSays<V, M>(golden: Golden<V>, capability: G.Capability, scores: Scores<M>,
                                   names: M -> map<string, real>)
    ensures var m := Measured(capability, SetsOf(golden), scores, names);
            && m.capability == capability
            && m.version == (match capability
                             case Extraction => golden.extractionVersion
                             case Retrieval => golden.retrievalVersion
                             case Classification => golden.classificationVersion)
            && m.cases == (match capability
                           case Extraction => |golden.extraction|
                           case Retrieval => |golden.retrieval|
                           case Classification => |golden.classification|)
            && (m.reading == G.NoCases <==> scores == NoCases)
            && (m.reading == G.NotAnswered <==> scores == NotAnswered)
            && (m.reading == G.Scored <==> scores.Scored?)
            && (scores.Scored? ==> m.answered == scores.answered && m.metrics == names(scores.metrics))
            && (!scores.Scored? ==> m.answered == 0 && m.metrics == map[])
  {
  }
}
