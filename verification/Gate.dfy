/** The declared rules, and what they make of one run's measurements against a baseline.

    A baseline and a measurement hold their metrics by name, and a name carries its capability as a
    prefix. The order in which a mapping gives its names is left open. */
module Gate {
  import opened Options
  import opened SortedNames
  import opened Tallies

  datatype Capability = Extraction | Retrieval | Classification

  function Prefix(capability: Capability): string {
    match capability
    case Extraction => "extraction."
    case Retrieval => "retrieval."
    case Classification => "classification."
  }

  predicate Belongs(name: string, capability: Capability) {
    Prefix(capability) <= name
  }

  datatype Reading = Scored | NoCases | NotAnswered

  datatype Measurement = Measurement(capability: Capability, version: nat, reading: Reading, cases: nat,
                                     answered: nat, metrics: map<string, real>)

  datatype SetRecord = SetRecord(version: nat, cases: nat)

  /** One record for every capability. */
  datatype Sets = Sets(extraction: SetRecord, retrieval: SetRecord, classification: SetRecord) {
    function Of(capability: Capability): SetRecord {
      match capability
      case Extraction => extraction
      case Retrieval => retrieval
      case Classification => classification
    }
  }

  datatype Baseline = Baseline(tag: string, topK: nat, sets: Sets, metrics: map<string, real>)

  datatype Rules = Rules(tolerance: real, floors: map<string, real>)

  // ---------------------------------------------------------------- what a run can come to

  datatype Verdict = Ok | Adopted | Regressed | BelowFloor | NotMeasured | NoCase | NotImplemented | Incomparable

  datatype Row = Row(capability: Capability, metric: Option<string>, cases: nat, answered: nat,
                     value: Option<real>, baseline: Option<real>, delta: Option<real>, verdict: Verdict)

  datatype Apart = Apart(capability: Capability, recorded: nat, scored: nat)

  /** A rule that fired, with the numbers its message gives. */
  datatype Failure =
    | OtherSettings(recorded: nat, run: nat)
    | OtherVersions(apart: seq<Apart>)
    | LostCases(capability: Capability, held: nat, recorded: nat)
    | Unmeasured(name: string, at: real)
    | UnderFloor(name: string, value: real, floor: real)
    | Fell(name: string, value: real, at: real)

  datatype Outcome = Outcome(rows: seq<Row>, failures: seq<Failure>) {
    predicate Passed() {
      failures == []
    }
  }

  // ---------------------------------------------------------------- one metric

  function Get<T>(entries: map<string, T>, name: string): Option<T> {
    if name in entries then Some(entries[name]) else None
  }

  function MetricsOf(baseline: Baseline, capability: Capability): map<string, real> {
    map name | name in baseline.metrics && Belongs(name, capability) :: baseline.metrics[name]
  }

  predicate HasRegressed(value: real, atBaseline: real, tolerance: real, nine: real -> real) {
    nine(atBaseline - value) > tolerance
  }

  function VerdictOn(value: Option<real>, atBaseline: Option<real>, floor: Option<real>, tolerance: real,
                     nine: real -> real): Verdict {
    if value == None then NotMeasured
    else if floor.Some? && value.value < floor.value then BelowFloor
    else if atBaseline == None then Adopted
    else if HasRegressed(value.value, atBaseline.value, tolerance, nine) then Regressed
    else Ok
  }

  /** What one metric fails by, the floor before the fall. */
  function Broken(name: string, value: Option<real>, atBaseline: Option<real>, floor: Option<real>, tolerance: real,
                  nine: real -> real): seq<Failure>
    requires value == None ==> atBaseline.Some?
  {
    if value == None then
      [Unmeasured(name, atBaseline.value)]
    else
      (if floor.Some? && value.value < floor.value then [UnderFloor(name, value.value, floor.value)] else [])
      + if atBaseline.Some? && HasRegressed(value.value, atBaseline.value, tolerance, nine)
        then [Fell(name, value.value, atBaseline.value)] else []
  }

  method FailuresOf(name: string, value: Option<real>, atBaseline: Option<real>, floor: Option<real>, tolerance: real,
                    nine: real -> real)
    returns (failures: seq<Failure>)
    requires value == None ==> atBaseline.Some?
    ensures failures == Broken(name, value, atBaseline, floor, tolerance, nine)
    ensures forall f :: f in failures <==> Breaks(f, name, value, atBaseline, floor, tolerance, nine)
    ensures failures == [] <==> VerdictOn(value, atBaseline, floor, tolerance, nine) in {Ok, Adopted}
  {
    if value == None {
      return [Unmeasured(name, atBaseline.value)];
    }
    failures := [];
    if floor.Some? && value.value < floor.value {
      failures := failures + [UnderFloor(name, value.value, floor.value)];
    }
    if atBaseline.Some? && HasRegressed(value.value, atBaseline.value, tolerance, nine) {
      failures := failures + [Fell(name, value.value, atBaseline.value)];
    }
  }

  predicate Breaks(f: Failure, name: string, value: Option<real>, atBaseline: Option<real>, floor: Option<real>,
                   tolerance: real, nine: real -> real) {
    match f
    case Unmeasured(n, at) => n == name && value == None && atBaseline == Some(at)
    case UnderFloor(n, v, least) => n == name && value == Some(v) && floor == Some(least) && v < least
    case Fell(n, v, at) =>
      n == name && value == Some(v) && atBaseline == Some(at) && HasRegressed(v, at, tolerance, nine)
    case _ => false
  }

  // ---------------------------------------------------------------- one capability

  /** The names a capability has a row for: what was measured, and what is recorded. */
  function NamesOf(m: Measurement, baseline: Baseline): set<string> {
    m.metrics.Keys + MetricsOf(baseline, m.capability).Keys
  }

  function RowOf(m: Measurement, name: string, baseline: Baseline, rules: Rules, nine: real -> real): Row {
    var value, at := Get(m.metrics, name), Get(MetricsOf(baseline, m.capability), name);
    Row(m.capability, Some(name), m.cases, m.answered, value, at,
        if value == None || at == None then None else Some(value.value - at.value),
        VerdictOn(value, at, Get(rules.floors, name), rules.tolerance, nine))
  }

  function EmptyRow(m: Measurement): Row {
    Row(m.capability, None, m.cases, m.answered, None, None, None,
        if m.reading == NoCases then NoCase else NotImplemented)
  }

  function IncomparableRow(m: Measurement): Row {
    Row(m.capability, None, m.cases, m.answered, None, None, None, Incomparable)
  }

  predicate IsRowOf(row: Row, m: Measurement, baseline: Baseline, rules: Rules, nine: real -> real) {
    match row.metric
    case None => NamesOf(m, baseline) == {} && row == EmptyRow(m)
    case Some(name) => name in NamesOf(m, baseline) && row == RowOf(m, name, baseline, rules, nine)
  }

  predicate LosesCases(m: Measurement, baseline: Baseline) {
    m.cases < baseline.sets.Of(m.capability).cases
  }

  predicate FiresOn(f: Failure, m: Measurement, baseline: Baseline, rules: Rules, nine: real -> real) {
    match f
    case LostCases(capability, held, recorded) =>
      LosesCases(m, baseline) && f == LostCases(m.capability, m.cases, baseline.sets.Of(m.capability).cases)
    case Unmeasured(name, _) => name in NamesOf(m, baseline) && BreaksOn(f, name, m, baseline, rules, nine)
    case UnderFloor(name, _, _) => name in NamesOf(m, baseline) && BreaksOn(f, name, m, baseline, rules, nine)
    case Fell(name, _, _) => name in NamesOf(m, baseline) && BreaksOn(f, name, m, baseline, rules, nine)
    case _ => false
  }

  predicate BreaksOn(f: Failure, name: string, m: Measurement, baseline: Baseline, rules: Rules, nine: real -> real) {
    Breaks(f, name, Get(m.metrics, name), Get(MetricsOf(baseline, m.capability), name), Get(rules.floors, name),
           rules.tolerance, nine)
  }

  /** Names in the order some mapping gives them. */
  method InOrder(names: set<string>) returns (order: seq<string>)
    ensures forall name :: name in order <==> name in names
    ensures Distinct(order)
  {
    order := [];
    var remaining := names;
    while remaining != {}
      invariant remaining <= names && Distinct(order)
      invariant forall name :: name in order <==> name in names - remaining
    {
      var name :| name in remaining;
      assert name !in order;
      order := order + [name];
      remaining := remaining - {name};
    }
  }

  /** The names a capability is judged on, in order: those measured as their mapping gives them, then those
      only recorded, sorted. */
  ghost predicate IsListing(names: seq<string>, m: Measurement, baseline: Baseline) {
    && Distinct(names)
    && exists k :: 0 <= k <= |names| && IsListedUpTo(names, k, m, baseline)
  }

  ghost predicate IsListedUpTo(names: seq<string>, k: nat, m: Measurement, baseline: Baseline)
    requires k <= |names|
  {
    && (forall name :: name in names[..k] <==> name in m.metrics)
    && (forall name :: name in names[k..] <==> name in MetricsOf(baseline, m.capability) && name !in m.metrics)
    && Ascending(names[k..])
  }

  method NamesInOrder(m: Measurement, baseline: Baseline) returns (names: seq<string>)
    ensures IsListing(names, m, baseline)
    ensures Distinct(names) && forall name :: name in names <==> name in NamesOf(m, baseline)
  {
    var recorded := MetricsOf(baseline, m.capability);
    var measured := InOrder(m.metrics.Keys);
    var gone := Sorted(recorded.Keys - m.metrics.Keys);
    names := measured + gone;
    assert names[..|measured|] == measured && names[|measured|..] == gone;
    assert IsListedUpTo(names, |measured|, m, baseline);
    forall i, j | 0 <= i < j < |names| ensures names[i] != names[j] {
      assert i < |measured| ==> names[i] in measured;
      assert j >= |measured| ==> names[j] in gone;
    }
  }

  function BrokenBy(name: string, m: Measurement, baseline: Baseline, rules: Rules, nine: real -> real): seq<Failure> {
    var value, at := Get(m.metrics, name), Get(MetricsOf(baseline, m.capability), name);
    if value == None && at == None then [] else Broken(name, value, at, Get(rules.floors, name), rules.tolerance, nine)
  }

  function BrokenOver(names: seq<string>, m: Measurement, baseline: Baseline, rules: Rules,
                      nine: real -> real): seq<Failure>
  {
    if |names| == 0 then
      []
    else
      var n := |names| - 1;
      BrokenOver(names[..n], m, baseline, rules, nine) + BrokenBy(names[n], m, baseline, rules, nine)
  }

  function LostBy(m: Measurement, baseline: Baseline): seq<Failure> {
    if LosesCases(m, baseline) then [LostCases(m.capability, m.cases, baseline.sets.Of(m.capability).cases)] else []
  }

  function RowsOver(names: seq<string>, m: Measurement, baseline: Baseline, rules: Rules,
                    nine: real -> real): seq<Row> {
    if names == [] then [EmptyRow(m)]
    else seq(|names|, i requires 0 <= i < |names| => RowOf(m, names[i], baseline, rules, nine))
  }

  lemma OneRow(row: Row)
    ensures Distinct([row])
  {
  }

  /** Exactly the rows and the failures of one capability, no row twice. */
  ghost predicate JudgesOne(rows: seq<Row>, failures: seq<Failure>, m: Measurement, baseline: Baseline, rules: Rules,
                            nine: real -> real) {
    && Distinct(rows)
    && (forall row :: row in rows <==> IsRowOf(row, m, baseline, rules, nine))
    && (forall f :: f in failures <==> FiresOn(f, m, baseline, rules, nine))
  }

  /** The rows and failures of one capability, name by name. */
  method JudgeOne(m: Measurement, baseline: Baseline, rules: Rules, nine: real -> real)
    returns (ghost names: seq<string>, rows: seq<Row>, failures: seq<Failure>)
    ensures IsListing(names, m, baseline)
    ensures rows == RowsOver(names, m, baseline, rules, nine)
    ensures failures == LostBy(m, baseline) + BrokenOver(names, m, baseline, rules, nine)
    ensures JudgesOne(rows, failures, m, baseline, rules, nine)
  {
    hide IsListing, NamesOf, MetricsOf, IsRowOf, FiresOn, RowOf, BreaksOn, BrokenOver, EmptyRow, Distinct;
    rows, failures := [], [];
    if m.cases < baseline.sets.Of(m.capability).cases {
      failures := [LostCases(m.capability, m.cases, baseline.sets.Of(m.capability).cases)];
    }
    var order := NamesInOrder(m, baseline);
    names := order;
    var own, broken := JudgeNames(order, m, baseline, rules, nine);
    if order == [] {
      NoNames(m, baseline, rules, nine);
      OneRow(EmptyRow(m));
      NothingBroken(m, baseline, rules, nine);
      return order, [EmptyRow(m)], failures;
    }
    RowsAreRight(own, order, m, baseline, rules, nine);
    FailuresAreRight(failures, broken, order, m, baseline, rules, nine);
    rows, failures := own, failures + broken;
  }

  lemma NothingBroken(m: Measurement, baseline: Baseline, rules: Rules, nine: real -> real)
    ensures BrokenOver([], m, baseline, rules, nine) == []
  {
  }

  lemma NoNames(m: Measurement, baseline: Baseline, rules: Rules, nine: real -> real)
    requires forall name :: name !in NamesOf(m, baseline)
    ensures forall row :: row == EmptyRow(m) <==> IsRowOf(row, m, baseline, rules, nine)
    ensures forall f :: FiresOn(f, m, baseline, rules, nine) <==> f in LostBy(m, baseline)
  {
    hide Belongs, BreaksOn;
  }

  lemma RowsAreRight(rows: seq<Row>, names: seq<string>, m: Measurement, baseline: Baseline, rules: Rules,
                     nine: real -> real)
    requires names != [] && Distinct(names) && forall name :: name in names <==> name in NamesOf(m, baseline)
    requires |rows| == |names| && forall i :: 0 <= i < |rows| ==> rows[i] == RowOf(m, names[i], baseline, rules, nine)
    ensures Distinct(rows) && forall row :: row in rows <==> IsRowOf(row, m, baseline, rules, nine)
  {
    hide VerdictOn, MetricsOf, NamesOf;
    assert names[0] in names;
    forall i, j | 0 <= i < j < |rows| ensures rows[i] != rows[j] {
      assert rows[i].metric == Some(names[i]) && rows[j].metric == Some(names[j]);
    }
    forall row | IsRowOf(row, m, baseline, rules, nine) ensures row in rows {
      assert row.metric.Some? && row.metric.value in names;
      var i :| 0 <= i < |names| && names[i] == row.metric.value;
      assert rows[i] == row;
    }
    forall row | row in rows ensures IsRowOf(row, m, baseline, rules, nine) {
      var i :| 0 <= i < |rows| && rows[i] == row;
      assert names[i] in names;
    }
  }

  lemma FailuresAreRight(lost: seq<Failure>, broken: seq<Failure>, names: seq<string>, m: Measurement,
                         baseline: Baseline, rules: Rules, nine: real -> real)
    requires forall name :: name in names <==> name in NamesOf(m, baseline)
    requires lost == if LosesCases(m, baseline)
                     then [LostCases(m.capability, m.cases, baseline.sets.Of(m.capability).cases)] else []
    requires forall f :: f in broken <==> exists name :: name in names && BreaksOn(f, name, m, baseline, rules, nine)
    ensures forall f :: f in lost + broken <==> FiresOn(f, m, baseline, rules, nine)
  {
    hide NamesOf, MetricsOf;
    forall f ensures f in lost + broken <==> FiresOn(f, m, baseline, rules, nine) {
      if f.Unmeasured? || f.UnderFloor? || f.Fell? {
        assert forall name :: BreaksOn(f, name, m, baseline, rules, nine) ==> name == f.name;
      }
    }
  }

  /** One metric: its row, and what it fails by. */
  method JudgeName(name: string, m: Measurement, baseline: Baseline, rules: Rules, nine: real -> real)
    returns (row: Row, broken: seq<Failure>)
    requires name in NamesOf(m, baseline)
    ensures row == RowOf(m, name, baseline, rules, nine)
    ensures broken == BrokenBy(name, m, baseline, rules, nine)
  {
    var recorded := MetricsOf(baseline, m.capability);
    assert name in m.metrics || name in recorded;
    hide MetricsOf, HasRegressed, Broken;
    var value, at, floor := Get(m.metrics, name), Get(recorded, name), Get(rules.floors, name);
    row := Row(m.capability, Some(name), m.cases, m.answered, value, at,
               if value == None || at == None then None else Some(value.value - at.value),
               VerdictOn(value, at, floor, rules.tolerance, nine));
    broken := FailuresOf(name, value, at, floor, rules.tolerance, nine);
  }

  /** The loop over the names of one capability. */
  method JudgeNames(names: seq<string>, m: Measurement, baseline: Baseline, rules: Rules, nine: real -> real)
    returns (rows: seq<Row>, failures: seq<Failure>)
    requires Distinct(names) && forall name :: name in names ==> name in NamesOf(m, baseline)
    ensures |rows| == |names| && forall i :: 0 <= i < |rows| ==> rows[i] == RowOf(m, names[i], baseline, rules, nine)
    ensures failures == BrokenOver(names, m, baseline, rules, nine)
    ensures forall f :: f in failures <==> exists name :: name in names && BreaksOn(f, name, m, baseline, rules, nine)
  {
    rows, failures := [], [];
    for i := 0 to |names|
      invariant |rows| == i && forall j :: 0 <= j < i ==> rows[j] == RowOf(m, names[j], baseline, rules, nine)
      invariant failures == BrokenOver(names[..i], m, baseline, rules, nine)
    {
      hide RowOf, BrokenBy, NamesOf;
      assert names[i] in names && names[..i + 1][..i] == names[..i];
      var row, broken := JudgeName(names[i], m, baseline, rules, nine);
      rows := rows + [row];
      failures := failures + broken;
    }
    assert names[..|names|] == names;
    BrokenOverBreaks(names, m, baseline, rules, nine);
  }

  /** The failures listed over some names are those that some name breaks a rule by. */
  lemma {:induction false} BrokenOverBreaks(names: seq<string>, m: Measurement, baseline: Baseline, rules: Rules,
                                            nine: real -> real)
    requires forall name :: name in names ==> name in NamesOf(m, baseline)
    ensures forall f :: f in BrokenOver(names, m, baseline, rules, nine)
                 <==> exists name :: name in names && BreaksOn(f, name, m, baseline, rules, nine)
    decreases |names|
  {
    if |names| > 0 {
      var n := |names| - 1;
      BrokenOverBreaks(names[..n], m, baseline, rules, nine);
      BrokenByBreaks(names[n], m, baseline, rules, nine);
      hide BrokenBy, BreaksOn, NamesOf;
      assert names == names[..n] + [names[n]];
      assert forall name :: name in names <==> name in names[..n] || name == names[n];
    }
  }

  lemma BrokenByBreaks(name: string, m: Measurement, baseline: Baseline, rules: Rules, nine: real -> real)
    requires name in NamesOf(m, baseline)
    ensures forall f :: f in BrokenBy(name, m, baseline, rules, nine) <==> BreaksOn(f, name, m, baseline, rules, nine)
  {
    hide Belongs;
  }

  // ---------------------------------------------------------------- one run

  /** The sets scored at another version than the one recorded. */
  function VersionsApart(measurements: seq<Measurement>, baseline: Baseline): seq<Apart> {
    if |measurements| == 0 then
      []
    else
      var last := measurements[|measurements| - 1];
      var recorded := baseline.sets.Of(last.capability).version;
      VersionsApart(measurements[..|measurements| - 1], baseline)
        + if last.version != recorded then [Apart(last.capability, recorded, last.version)] else []
  }

  /** An empty baseline compares with anything; any other needs the same depth and the same set versions. */
  predicate Comparable(measurements: seq<Measurement>, baseline: Baseline, topK: nat) {
    || baseline.metrics == map[]
    || (baseline.topK == topK
        && forall i :: 0 <= i < |measurements|
             ==> measurements[i].version == baseline.sets.Of(measurements[i].capability).version)
  }

  method OtherQuestion(baseline: Baseline, measurements: seq<Measurement>, topK: nat) returns (other: Option<Failure>)
    ensures other == None <==> Comparable(measurements, baseline, topK)
    ensures other.Some? ==>
        other.value == if baseline.topK != topK then OtherSettings(baseline.topK, topK)
                       else OtherVersions(VersionsApart(measurements, baseline))
  {
    if baseline.metrics == map[] {
      return None;
    }
    if baseline.topK != topK {
      return Some(OtherSettings(baseline.topK, topK));
    }
    var apart: seq<Apart> := [];
    for i := 0 to |measurements|
      invariant apart == VersionsApart(measurements[..i], baseline)
      invariant apart == [] <==> forall j :: 0 <= j < i
                                   ==> measurements[j].version == baseline.sets.Of(measurements[j].capability).version
    {
      var m := measurements[i];
      var recorded := baseline.sets.Of(m.capability).version;
      assert measurements[..i + 1][..i] == measurements[..i];
      if m.version != recorded {
        apart := apart + [Apart(m.capability, recorded, m.version)];
      }
    }
    assert measurements[..|measurements|] == measurements;
    other := if apart == [] then None else Some(OtherVersions(apart));
  }

  /** What the gate makes of a run whose baseline answers the same question. */
  ghost predicate IsJudgement(outcome: Outcome, measurements: seq<Measurement>, baseline: Baseline, rules: Rules,
                              nine: real -> real) {
    && (forall row :: row in outcome.rows
          <==> exists i :: 0 <= i < |measurements| && IsRowOf(row, measurements[i], baseline, rules, nine))
    && (forall f :: f in outcome.failures
          <==> exists i :: 0 <= i < |measurements| && FiresOn(f, measurements[i], baseline, rules, nine))
  }

  function AllRows(measurements: seq<Measurement>, listings: seq<seq<string>>, baseline: Baseline, rules: Rules,
                   nine: real -> real): seq<Row>
    requires |listings| == |measurements|
  {
    if |measurements| == 0 then
      []
    else
      var n := |measurements| - 1;
      AllRows(measurements[..n], listings[..n], baseline, rules, nine)
        + RowsOver(listings[n], measurements[n], baseline, rules, nine)
  }

  function AllBroken(measurements: seq<Measurement>, listings: seq<seq<string>>, baseline: Baseline, rules: Rules,
                     nine: real -> real): seq<Failure>
    requires |listings| == |measurements|
  {
    if |measurements| == 0 then
      []
    else
      var n := |measurements| - 1;
      AllBroken(measurements[..n], listings[..n], baseline, rules, nine)
        + (LostBy(measurements[n], baseline) + BrokenOver(listings[n], measurements[n], baseline, rules, nine))
  }

  /** Capability by capability, and name by name of each one's listing. */
  ghost predicate IsReport(outcome: Outcome, listings: seq<seq<string>>, measurements: seq<Measurement>,
                           baseline: Baseline, rules: Rules, nine: real -> real) {
    && |listings| == |measurements|
    && (forall i :: 0 <= i < |listings| ==> IsListing(listings[i], measurements[i], baseline))
    && outcome.rows == AllRows(measurements, listings, baseline, rules, nine)
    && outcome.failures == AllBroken(measurements, listings, baseline, rules, nine)
  }

  ghost predicate IsOrdered(outcome: Outcome, measurements: seq<Measurement>, baseline: Baseline, rules: Rules,
                            nine: real -> real) {
    exists listings :: IsReport(outcome, listings, measurements, baseline, rules, nine)
  }

  lemma ReportGrows(outcome: Outcome, listings: seq<seq<string>>, done: seq<Measurement>, names: seq<string>,
                    m: Measurement, baseline: Baseline, rules: Rules, nine: real -> real)
    requires IsReport(outcome, listings, done, baseline, rules, nine) && IsListing(names, m, baseline)
    ensures IsReport(Outcome(outcome.rows + RowsOver(names, m, baseline, rules, nine),
                             outcome.failures + (LostBy(m, baseline) + BrokenOver(names, m, baseline, rules, nine))),
                     listings + [names], done + [m], baseline, rules, nine)
  {
    hide IsListing, RowsOver, LostBy, BrokenOver;
    assert (done + [m])[..|done|] == done && (listings + [names])[..|done|] == listings;
  }

  ghost predicate OnePerCapability(measurements: seq<Measurement>) {
    forall i, j :: 0 <= i < j < |measurements| ==> measurements[i].capability != measurements[j].capability
  }

  /** What judging a run comes to: nothing is compared under another question, and otherwise every metric is. */
  ghost predicate IsOutcome(outcome: Outcome, measurements: seq<Measurement>, baseline: Baseline, rules: Rules,
                            topK: nat, nine: real -> real) {
    if Comparable(measurements, baseline, topK) then
      && IsJudgement(outcome, measurements, baseline, rules, nine)
      && (OnePerCapability(measurements) ==> Distinct(outcome.rows))
    else
      && outcome.failures == [if baseline.topK != topK then OtherSettings(baseline.topK, topK)
                              else OtherVersions(VersionsApart(measurements, baseline))]
      && outcome.rows == seq(|measurements|, i requires 0 <= i < |measurements| => IncomparableRow(measurements[i]))
  }

  method Judge(measurements: seq<Measurement>, baseline: Baseline, rules: Rules, topK: nat, nine: real -> real)
    returns (outcome: Outcome)
    ensures IsOutcome(outcome, measurements, baseline, rules, topK, nine)
    ensures Comparable(measurements, baseline, topK) ==> IsOrdered(outcome, measurements, baseline, rules, nine)
  {
    var other := OtherQuestion(baseline, measurements, topK);
    if other.Some? {
      return Outcome(seq(|measurements|, i requires 0 <= i < |measurements| => IncomparableRow(measurements[i])),
                     [other.value]);
    }
    hide IsRowOf, FiresOn, IsReport, IsJudgement;
    var rows, failures := JudgeAll(measurements, baseline, rules, nine);
    outcome := Outcome(rows, failures);
  }

  /** The loop over the capabilities, once nothing stands in the way of comparing. */
  method JudgeAll(measurements: seq<Measurement>, baseline: Baseline, rules: Rules, nine: real -> real)
    returns (rows: seq<Row>, failures: seq<Failure>)
    ensures IsOrdered(Outcome(rows, failures), measurements, baseline, rules, nine)
    ensures IsJudgement(Outcome(rows, failures), measurements, baseline, rules, nine)
    ensures OnePerCapability(measurements) ==> Distinct(rows)
  {
    rows, failures := [], [];
    ghost var listings: seq<seq<string>> := [];
    hide IsPartial, JudgesOne, IsListing, RowsOver, BrokenOver, LostBy, IsOrdered, IsJudgement, OnePerCapability,
         Distinct;
    NothingIsPartial(baseline, rules, nine);
    assert measurements[..0] == [];
    for i := 0 to |measurements|
      invariant IsPartial(rows, failures, listings, measurements[..i], baseline, rules, nine)
    {
      ghost var names;
      var own, broken;
      names, own, broken := JudgeOne(measurements[i], baseline, rules, nine);
      PartialGrows(rows, failures, listings, measurements[..i], names, own, broken, measurements[i], baseline, rules,
                   nine);
      assert measurements[..i + 1] == measurements[..i] + [measurements[i]];
      rows, failures, listings := rows + own, failures + broken, listings + [names];
    }
    assert measurements[..|measurements|] == measurements;
    PartialIsWhole(rows, failures, listings, measurements, baseline, rules, nine);
  }

  lemma NothingIsPartial(baseline: Baseline, rules: Rules, nine: real -> real)
    ensures IsPartial([], [], [], [], baseline, rules, nine)
  {
  }

  lemma PartialIsWhole(rows: seq<Row>, failures: seq<Failure>, listings: seq<seq<string>>,
                       measurements: seq<Measurement>, baseline: Baseline, rules: Rules, nine: real -> real)
    requires IsPartial(rows, failures, listings, measurements, baseline, rules, nine)
    ensures IsOrdered(Outcome(rows, failures), measurements, baseline, rules, nine)
    ensures IsJudgement(Outcome(rows, failures), measurements, baseline, rules, nine)
    ensures OnePerCapability(measurements) ==> Distinct(rows)
  {
    hide IsReport, IsJudgement, Distinct;
  }

  ghost predicate IsPartial(rows: seq<Row>, failures: seq<Failure>, listings: seq<seq<string>>, done: seq<Measurement>,
                            baseline: Baseline, rules: Rules, nine: real -> real) {
    && IsReport(Outcome(rows, failures), listings, done, baseline, rules, nine)
    && IsJudgement(Outcome(rows, failures), done, baseline, rules, nine)
    && (OnePerCapability(done) ==> Distinct(rows))
  }

  lemma PartialGrows(rows: seq<Row>, failures: seq<Failure>, listings: seq<seq<string>>, done: seq<Measurement>,
                     names: seq<string>, own: seq<Row>, broken: seq<Failure>, m: Measurement, baseline: Baseline,
                     rules: Rules, nine: real -> real)
    requires IsPartial(rows, failures, listings, done, baseline, rules, nine)
    requires IsListing(names, m, baseline) && own == RowsOver(names, m, baseline, rules, nine)
    requires broken == LostBy(m, baseline) + BrokenOver(names, m, baseline, rules, nine)
    requires JudgesOne(own, broken, m, baseline, rules, nine)
    ensures IsPartial(rows + own, failures + broken, listings + [names], done + [m], baseline, rules, nine)
  {
    hide JudgesOne, IsReport, IsJudgement, IsListing, RowsOver, BrokenOver, LostBy, Distinct;
    ReportGrows(Outcome(rows, failures), listings, done, names, m, baseline, rules, nine);
    JudgementGrows(rows, failures, own, broken, done, m, baseline, rules, nine);
    if OnePerCapability(done + [m]) {
      FewerAreApart(done, m);
      RowsStayDistinct(rows, failures, own, broken, done, m, baseline, rules, nine);
    }
  }

  lemma FewerAreApart(done: seq<Measurement>, m: Measurement)
    requires OnePerCapability(done + [m])
    ensures OnePerCapability(done) && forall i :: 0 <= i < |done| ==> done[i].capability != m.capability
  {
    var all := done + [m];
    assert forall i :: 0 <= i < |done| ==> all[i] == done[i];
    assert all[|done|] == m;
  }

  lemma JudgementGrows(rows: seq<Row>, failures: seq<Failure>, own: seq<Row>, broken: seq<Failure>,
                       done: seq<Measurement>, m: Measurement, baseline: Baseline, rules: Rules, nine: real -> real)
    requires IsJudgement(Outcome(rows, failures), done, baseline, rules, nine)
    requires JudgesOne(own, broken, m, baseline, rules, nine)
    ensures IsJudgement(Outcome(rows + own, failures + broken), done + [m], baseline, rules, nine)
  {
    hide IsRowOf, FiresOn;
    var all := done + [m];
    assert forall i :: 0 <= i < |done| ==> all[i] == done[i];
    assert all[|done|] == m;
  }

  lemma RowsStayDistinct(rows: seq<Row>, failures: seq<Failure>, own: seq<Row>, broken: seq<Failure>,
                         done: seq<Measurement>, m: Measurement, baseline: Baseline, rules: Rules, nine: real -> real)
    requires IsJudgement(Outcome(rows, failures), done, baseline, rules, nine) && Distinct(rows)
    requires JudgesOne(own, broken, m, baseline, rules, nine)
    requires forall i :: 0 <= i < |done| ==> done[i].capability != m.capability
    ensures Distinct(rows + own)
  {
    forall row | row in rows ensures row.capability != m.capability {
      assert exists i :: 0 <= i < |done| && IsRowOf(row, done[i], baseline, rules, nine);
    }
    forall row | row in own ensures row.capability == m.capability {
      assert IsRowOf(row, m, baseline, rules, nine);
    }
    var all := rows + own;
    forall i, j | 0 <= i < j < |all| ensures all[i] != all[j] {
      assert i < |rows| ==> all[i] in rows;
      assert j >= |rows| ==> all[j] in own;
    }
  }
}
