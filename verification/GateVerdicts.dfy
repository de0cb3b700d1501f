/** What each row and each failure says, number by number, and when a run passes, said of the metrics
    themselves. */
module GateVerdicts {
  import opened Options
  import opened Rounding
  import opened SortedNames
  import opened Tallies
  import opened Gate
  import opened GateGuarantees

  /** The baseline's value of one of this capability's metrics: one whose name starts with the capability's. */
  ghost predicate IsRecordedAt(baseline: Baseline, capability: Capability, name: string, at: real) {
    && name in baseline.metrics && baseline.metrics[name] == at
    && match capability
       case Extraction => "extraction." <= name
       case Retrieval => "retrieval." <= name
       case Classification => "classification." <= name
  }

  ghost predicate IsRecorded(baseline: Baseline, capability: Capability, name: string) {
    exists at :: IsRecordedAt(baseline, capability, name, at)
  }

  /** The record of a capability's set. */
  ghost predicate IsSetOf(baseline: Baseline, capability: Capability, record: SetRecord) {
    match capability
    case Extraction => record == baseline.sets.extraction
    case Retrieval => record == baseline.sets.retrieval
    case Classification => record == baseline.sets.classification
  }

  /** Whether a measured value is under its declared floor. */
  predicate IsUnder(m: Measurement, name: string, rules: Rules) {
    name in m.metrics && name in rules.floors && m.metrics[name] < rules.floors[name]
  }

  /** Whether it fell, to nine places, past the tolerance. */
  predicate IsFallen(m: Measurement, name: string, at: real, rules: Rules, nine: real -> real) {
    name in m.metrics && nine(at - m.metrics[name]) > rules.tolerance
  }

  lemma LookedUp(m: Measurement, name: string, baseline: Baseline)
    ensures Get(m.metrics, name) == if name in m.metrics then Some(m.metrics[name]) else None
    ensures forall at :: Get(MetricsOf(baseline, m.capability), name) == Some(at)
                    <==> IsRecordedAt(baseline, m.capability, name, at)
    ensures Get(MetricsOf(baseline, m.capability), name) == None <==> !IsRecorded(baseline, m.capability, name)
  {
    if Get(MetricsOf(baseline, m.capability), name).Some? {
      assert IsRecordedAt(baseline, m.capability, name, baseline.metrics[name]);
    }
  }

  /** The row of a metric, cell by cell: what its capability holds, what was measured and recorded under the name, the
      second taken from the first, and the one verdict that the numbers call for. */
  ghost predicate ReadsRight(row: Row, m: Measurement, name: string, baseline: Baseline, rules: Rules,
                             nine: real -> real) {
    && row.capability == m.capability && row.cases == m.cases && row.answered == m.answered
    && row.metric == Some(name)
    && (row.value == if name in m.metrics then Some(m.metrics[name]) else None)
    && (forall at :: row.baseline == Some(at) <==> IsRecordedAt(baseline, m.capability, name, at))
    && (row.delta == if row.value.Some? && row.baseline.Some? then Some(row.value.value - row.baseline.value) else None)
    && (row.verdict == NotMeasured <==> name !in m.metrics)
    && (row.verdict == BelowFloor <==> IsUnder(m, name, rules))
    && (row.verdict == Adopted <==>
          name in m.metrics && !IsUnder(m, name, rules) && !IsRecorded(baseline, m.capability, name))
    && (row.verdict == Regressed <==>
          && !IsUnder(m, name, rules)
          && row.baseline.Some? && IsFallen(m, name, row.baseline.value, rules, nine))
    && row.verdict in {NotMeasured, BelowFloor, Adopted, Regressed, Ok}
  }

  lemma RowReadsRight(m: Measurement, name: string, baseline: Baseline, rules: Rules, nine: real -> real)
    ensures ReadsRight(RowOf(m, name, baseline, rules, nine), m, name, baseline, rules, nine)
  {
    LookedUp(m, name, baseline);
    hide MetricsOf, IsRecorded, IsRecordedAt;
  }

  /** The one row of a capability with nothing measured and nothing recorded. */
  ghost predicate ReadsEmpty(row: Row, m: Measurement, baseline: Baseline) {
    && m.metrics == map[] && (forall name :: !IsRecorded(baseline, m.capability, name))
    && row.capability == m.capability && row.cases == m.cases && row.answered == m.answered
    && row.metric == None && row.value == None && row.baseline == None && row.delta == None
    && (row.verdict == NoCase <==> m.reading == NoCases)
    && (row.verdict == NotImplemented <==> m.reading != NoCases)
  }

  ghost predicate ReadsAsIts(row: Row, m: Measurement, baseline: Baseline, rules: Rules, nine: real -> real) {
    match row.metric
    case None => ReadsEmpty(row, m, baseline)
    case Some(name) =>
      && ReadsRight(row, m, name, baseline, rules, nine)
      && (name in m.metrics || IsRecorded(baseline, m.capability, name))
  }

  /** Every row of a comparable run reads right: either it is some capability's row of a metric measured or recorded,
      or its empty row. */
  lemma RowsReadRight(outcome: Outcome, measurements: seq<Measurement>, baseline: Baseline, rules: Rules, topK: nat,
                      nine: real -> real, row: Row)
    requires IsOutcome(outcome, measurements, baseline, rules, topK, nine) && Comparable(measurements, baseline, topK)
    requires row in outcome.rows
    ensures exists i :: 0 <= i < |measurements| && ReadsAsIts(row, measurements[i], baseline, rules, nine)
  {
    hide FiresOn, IsRowOf, ReadsAsIts;
    var i :| 0 <= i < |measurements| && IsRowOf(row, measurements[i], baseline, rules, nine);
    RowReadsAsIts(row, measurements[i], baseline, rules, nine);
  }

  lemma RowReadsAsIts(row: Row, m: Measurement, baseline: Baseline, rules: Rules, nine: real -> real)
    requires IsRowOf(row, m, baseline, rules, nine)
    ensures ReadsAsIts(row, m, baseline, rules, nine)
  {
    hide RowOf, ReadsRight, IsRecorded;
    forall name ensures name in NamesOf(m, baseline) <==> name in m.metrics || IsRecorded(baseline, m.capability, name)
    {
      LookedUp(m, name, baseline);
    }
    hide NamesOf;
    match row.metric {
      case None =>
        assert ReadsEmpty(row, m, baseline);
      case Some(name) =>
        RowReadsRight(m, name, baseline, rules, nine);
    }
  }

  /** Under another question every capability's row only says so, with its cases and answers. */
  lemma IncomparableRowsSaySo(outcome: Outcome, measurements: seq<Measurement>, baseline: Baseline, rules: Rules,
                              topK: nat, nine: real -> real, i: nat)
    requires IsOutcome(outcome, measurements, baseline, rules, topK, nine) && !Comparable(measurements, baseline, topK)
    requires i < |measurements|
    ensures |outcome.rows| == |measurements| && |outcome.failures| == 1
    ensures var (row, m) := (outcome.rows[i], measurements[i]);
            && row.capability == m.capability && row.cases == m.cases && row.answered == m.answered
            && row.metric == None && row.value == None && row.baseline == None && row.delta == None
            && row.verdict == Incomparable
  {
  }

  // ---------------------------------------------------------------- the failures and their numbers

  /** A failure says what happened, with the numbers it happened at. */
  ghost predicate SaysRight(f: Failure, m: Measurement, baseline: Baseline, rules: Rules, nine: real -> real) {
    match f
    case LostCases(capability, held, recorded) =>
      && capability == m.capability && held == m.cases && m.cases < recorded
      && exists record :: IsSetOf(baseline, m.capability, record) && recorded == record.cases
    case Unmeasured(name, at) => name !in m.metrics && IsRecordedAt(baseline, m.capability, name, at)
    case UnderFloor(name, value, floor) =>
      && IsUnder(m, name, rules) && value == m.metrics[name] && floor == rules.floors[name]
    case Fell(name, value, at) =>
      && IsRecordedAt(baseline, m.capability, name, at) && IsFallen(m, name, at, rules, nine)
      && value == m.metrics[name]
    case _ => false
  }

  lemma FiresExactlyWhenItSays(f: Failure, m: Measurement, baseline: Baseline, rules: Rules, nine: real -> real)
    ensures FiresOn(f, m, baseline, rules, nine) <==> SaysRight(f, m, baseline, rules, nine)
  {
    if f.Unmeasured? || f.UnderFloor? || f.Fell? {
      LookedUp(m, f.name, baseline);
    } else {
      assert IsSetOf(baseline, m.capability, baseline.sets.Of(m.capability));
    }
    hide IsRecorded, Belongs;
  }

  /** The failures of a comparable run are exactly what happened to its capabilities. */
  lemma FailuresSayRight(outcome: Outcome, measurements: seq<Measurement>, baseline: Baseline, rules: Rules, topK: nat,
                         nine: real -> real, f: Failure)
    requires IsOutcome(outcome, measurements, baseline, rules, topK, nine) && Comparable(measurements, baseline, topK)
    ensures f in outcome.failures
       <==> exists i :: 0 <= i < |measurements| && SaysRight(f, measurements[i], baseline, rules, nine)
  {
    hide FiresOn, SaysRight, IsRowOf;
    forall i | 0 <= i < |measurements|
      ensures FiresOn(f, measurements[i], baseline, rules, nine)
         <==> SaysRight(f, measurements[i], baseline, rules, nine)
    {
      FiresExactlyWhenItSays(f, measurements[i], baseline, rules, nine);
    }
  }

  /** The versions a refusal to compare lists are those of the sets scored at another one, and only those. */
  lemma {:induction false} VersionsListed(measurements: seq<Measurement>, baseline: Baseline, one: Apart)
    ensures one in VersionsApart(measurements, baseline)
       <==> exists i, record :: 0 <= i < |measurements| && IsSetOf(baseline, measurements[i].capability, record)
              && one == Apart(measurements[i].capability, record.version, measurements[i].version)
              && record.version != measurements[i].version
    decreases |measurements|
  {
    if |measurements| > 0 {
      var n := |measurements| - 1;
      var last := measurements[n];
      VersionsListed(measurements[..n], baseline, one);
      assert IsSetOf(baseline, last.capability, baseline.sets.Of(last.capability));
      forall i | 0 <= i < n ensures measurements[..n][i] == measurements[i] {
      }
    }
  }

  // ---------------------------------------------------------------- the order they come in

  /** Of two rows, in this order: the first capability's first; of one capability, what was measured before what is only
      recorded; and of names only recorded, the smaller one first. */
  ghost predicate ComesFirst(a: Row, b: Row, measurements: seq<Measurement>) {
    exists i, j :: 0 <= i <= j < |measurements|
      && a.capability == measurements[i].capability && b.capability == measurements[j].capability
      && (i == j ==> BothNamed(a, b) && (b.value.Some? ==> a.value.Some?)
                     && (a.value == None ==> AtMost(a.metric.value, b.metric.value)))
  }

  ghost predicate BothNamed(a: Row, b: Row) {
    a.metric.Some? && b.metric.Some?
  }

  lemma RowsOfOneInOrder(names: seq<string>, m: Measurement, baseline: Baseline, rules: Rules, nine: real -> real,
                         k: nat, l: nat)
    requires IsListing(names, m, baseline) && k < l < |RowsOver(names, m, baseline, rules, nine)|
    ensures var (a, b) := (RowsOver(names, m, baseline, rules, nine)[k], RowsOver(names, m, baseline, rules, nine)[l]);
            && a.capability == m.capability && b.capability == m.capability
            && BothNamed(a, b) && (b.value.Some? ==> a.value.Some?)
            && (a.value == None ==> AtMost(a.metric.value, b.metric.value))
  {
    hide MetricsOf, VerdictOn, Distinct, AtMost;
    var n :| 0 <= n <= |names| && IsListedUpTo(names, n, m, baseline);
    assert k < n ==> names[..n][k] in names[..n];
    assert l >= n ==> names[n..][l - n] in names[n..];
    assert k >= n ==> names[n..][k - n] in names[n..] && AtMost(names[n..][k - n], names[n..][l - n]);
  }

  lemma RowsAreOf(names: seq<string>, m: Measurement, baseline: Baseline, rules: Rules, nine: real -> real)
    ensures forall row :: row in RowsOver(names, m, baseline, rules, nine) ==> row.capability == m.capability
  {
  }

  lemma {:induction false} AllRowsAreOf(measurements: seq<Measurement>, listings: seq<seq<string>>, baseline: Baseline,
                                        rules: Rules, nine: real -> real, row: Row)
    requires |listings| == |measurements| && row in AllRows(measurements, listings, baseline, rules, nine)
    ensures exists i :: 0 <= i < |measurements| && row.capability == measurements[i].capability
    decreases |measurements|
  {
    var n := |measurements| - 1;
    RowsAreOf(listings[n], measurements[n], baseline, rules, nine);
    hide RowsOver;
    if row in AllRows(measurements[..n], listings[..n], baseline, rules, nine) {
      AllRowsAreOf(measurements[..n], listings[..n], baseline, rules, nine, row);
    }
  }

  lemma {:induction false} AllRowsInOrder(measurements: seq<Measurement>, listings: seq<seq<string>>,
                                          baseline: Baseline, rules: Rules, nine: real -> real, k: nat, l: nat)
    requires |listings| == |measurements|
    requires forall i :: 0 <= i < |listings| ==> IsListing(listings[i], measurements[i], baseline)
    requires k < l < |AllRows(measurements, listings, baseline, rules, nine)|
    ensures ComesFirst(AllRows(measurements, listings, baseline, rules, nine)[k],
                       AllRows(measurements, listings, baseline, rules, nine)[l], measurements)
    decreases |measurements|
  {
    hide IsListing, RowsOver;
    var n := |measurements| - 1;
    var front := AllRows(measurements[..n], listings[..n], baseline, rules, nine);
    var own := RowsOver(listings[n], measurements[n], baseline, rules, nine);
    var rows := AllRows(measurements, listings, baseline, rules, nine);
    RowsAreOf(listings[n], measurements[n], baseline, rules, nine);
    if l < |front| {
      AllRowsInOrder(measurements[..n], listings[..n], baseline, rules, nine, k, l);
    } else if k < |front| {
      assert rows[k] in front && rows[l] == own[l - |front|];
      AllRowsAreOf(measurements[..n], listings[..n], baseline, rules, nine, rows[k]);
      var i :| 0 <= i < n && rows[k].capability == measurements[i].capability;
      assert rows[l].capability == measurements[n].capability;
    } else {
      RowsOfOneInOrder(listings[n], measurements[n], baseline, rules, nine, k - |front|, l - |front|);
      assert rows[k] == own[k - |front|] && rows[l] == own[l - |front|];
    }
  }

  /** The rows of a comparable run come capability by capability as measured; within one, the metrics measured come
      before those only recorded, and these in ascending order. */
  lemma RowsComeInOrder(outcome: Outcome, measurements: seq<Measurement>, baseline: Baseline, rules: Rules,
                        nine: real -> real, k: nat, l: nat)
    requires IsOrdered(outcome, measurements, baseline, rules, nine) && k < l < |outcome.rows|
    ensures ComesFirst(outcome.rows[k], outcome.rows[l], measurements)
  {
    var listings :| IsReport(outcome, listings, measurements, baseline, rules, nine);
    AllRowsInOrder(measurements, listings, baseline, rules, nine, k, l);
  }

  /** A metric that is under its floor and fell says both, the floor first. */
  lemma FloorComesFirst(name: string, value: real, at: real, floor: real, tolerance: real, nine: real -> real)
    requires value < floor && nine(at - value) > tolerance
    ensures Broken(name, Some(value), Some(at), Some(floor), tolerance, nine)
         == [UnderFloor(name, value, floor), Fell(name, value, at)]
  {
  }

  // ---------------------------------------------------------------- passing

  /** A run passes exactly when it was asked what the baseline was asked, or the baseline records no metric, and for
      every capability: its set is no smaller, everything recorded is measured, nothing is under its floor, and
      nothing fell, to nine places, past the tolerance. */
  lemma WhatPassingTakes(measurements: seq<Measurement>, baseline: Baseline, rules: Rules, topK: nat,
                         nine: real -> real)
    ensures Passes(measurements, baseline, rules, topK, nine)
       <==> && (baseline.metrics == map[]
                || (baseline.topK == topK
                    && forall i, record :: 0 <= i < |measurements|
                         && IsSetOf(baseline, measurements[i].capability, record)
                         ==> record.version == measurements[i].version))
            && (forall i, record :: 0 <= i < |measurements| && IsSetOf(baseline, measurements[i].capability, record)
                  ==> record.cases <= measurements[i].cases)
            && (forall i, name, at :: 0 <= i < |measurements|
                  && IsRecordedAt(baseline, measurements[i].capability, name, at)
                  ==> name in measurements[i].metrics && !IsFallen(measurements[i], name, at, rules, nine))
            && (forall i, name :: 0 <= i < |measurements| ==> !IsUnder(measurements[i], name, rules))
  {
    forall i | 0 <= i < |measurements|
      ensures PassesOne(measurements[i], baseline, rules, nine) <==> PassesAlone(measurements[i], baseline, rules, nine)
    {
      OnePasses(measurements[i], baseline, rules, nine);
    }
    forall c: Capability, record ensures IsSetOf(baseline, c, record) <==> record == baseline.sets.Of(c) {
    }
    hide PassesOne, IsSetOf, IsRecordedAt, IsFallen, IsUnder;
  }

  ghost predicate PassesAlone(m: Measurement, baseline: Baseline, rules: Rules, nine: real -> real) {
    && (forall record :: IsSetOf(baseline, m.capability, record) ==> record.cases <= m.cases)
    && (forall name, at :: IsRecordedAt(baseline, m.capability, name, at)
          ==> name in m.metrics && !IsFallen(m, name, at, rules, nine))
    && (forall name :: !IsUnder(m, name, rules))
  }

  lemma OnePasses(m: Measurement, baseline: Baseline, rules: Rules, nine: real -> real)
    ensures PassesOne(m, baseline, rules, nine) <==> PassesAlone(m, baseline, rules, nine)
  {
    var recorded := MetricsOf(baseline, m.capability);
    forall name, at
      ensures IsRecordedAt(baseline, m.capability, name, at) <==> name in recorded && recorded[name] == at
    {
    }
    assert IsSetOf(baseline, m.capability, baseline.sets.Of(m.capability));
    assert forall name :: name in recorded ==> IsRecordedAt(baseline, m.capability, name, recorded[name]);
    assert forall name :: (IsUnder(m, name, rules)
                           <==> name in m.metrics && name in rules.floors && m.metrics[name] < rules.floors[name]);
    hide MetricsOf, IsRecordedAt, IsUnder;
  }

  /** A fall of the tolerance is allowed, and of more than half a billionth over it is not; between numbers whose
      difference has nine places, and under a tolerance that has, nothing beyond the tolerance is. */
  lemma TheToleranceIsAllowed(value: real, at: real, tolerance: real, nine: real -> real)
    requires Rounds(nine, NINE) && Whole(tolerance * NINE)
    ensures at - value <= tolerance ==> !HasRegressed(value, at, tolerance, nine)
    ensures (at - value - tolerance) * NINE > 0.5 ==> HasRegressed(value, at, tolerance, nine)
    ensures Whole((at - value) * NINE) ==> (HasRegressed(value, at, tolerance, nine) <==> at - value > tolerance)
  {
    FixedAtNine(nine, tolerance);
    assert Lands(nine(at - value), at - value, NINE);
    if Whole((at - value) * NINE) {
      FixedAtNine(nine, at - value);
    }
  }
}
