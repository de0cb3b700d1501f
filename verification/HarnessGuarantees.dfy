/** What recording can never give up, over any sequence of runs. */
module HarnessGuarantees {
  import opened Rounding
  import opened Gate
  import opened GateGuarantees
  import opened Baselines
  import opened Harness

  ghost predicate GoodTerms(terms: Terms) {
    Rounds(terms.six, SIX) && Rounds(terms.nine, NINE)
  }

  ghost predicate GoodRun(run: Run) {
    IsRun(run.measurements, run.sets)
  }

  ghost predicate AllReadable(files: Files) {
    forall path :: path in files ==> Readable(files[path])
  }

  /** What recording over a baseline never gives up. */
  ghost predicate Keeps(before: Baseline, after: Baseline) {
    && after.tag == before.tag
    && before.metrics.Keys <= after.metrics.Keys
    && (forall c: Capability :: before.sets.Of(c).cases <= after.sets.Of(c).cases)
    && (before.metrics != map[] ==>
          && after.topK == before.topK
          && forall c: Capability :: after.sets.Of(c).version == before.sets.Of(c).version)
  }

  /** No metric is lower by more than `slack`. */
  ghost predicate Within(before: Baseline, after: Baseline, slack: real) {
    forall name :: name in before.metrics && name in after.metrics
      ==> before.metrics[name] - slack <= after.metrics[name]
  }

  /** Every floored metric was recorded from a value that met its floor. */
  ghost predicate AboveFloors(baseline: Baseline, terms: Terms) {
    forall name :: name in baseline.metrics && name in terms.rules.floors
      ==> terms.six(terms.rules.floors[name]) <= baseline.metrics[name]
  }

  ghost predicate RecordsAt(path: string, files: Files, run: Run, terms: Terms) {
    run.arguments.record && Destination(run.arguments) == path && RunPasses(files, run, terms)
  }

  /** How far one recording can lower a metric: the tolerance, and half a unit of either rounding. */
  function Slack(terms: Terms): real {
    terms.rules.tolerance + 0.0000005 + 0.0000000005
  }

  ghost predicate OnGrid(baseline: Baseline) {
    forall name :: name in baseline.metrics ==> WholeMillionths(baseline.metrics[name])
  }

  /** A bound on what one recording costs: where the tolerance and the record are both whole millionths,
      the tolerance itself. */
  ghost predicate Bounds(slack: real, terms: Terms, gridded: bool) {
    slack >= Slack(terms) || (gridded && WholeMillionths(terms.rules.tolerance) && slack >= terms.rules.tolerance)
  }

  lemma EveryCapabilityRan(run: Run, c: Capability) returns (i: nat)
    requires GoodRun(run)
    ensures i < 3 && run.measurements[i].capability == c && IsMeasurementOf(run.measurements[i], run.sets)
  {
    i := match c case Extraction => 0 case Retrieval => 1 case Classification => 2;
  }

  lemma OneFall(before: real, value: real, terms: Terms, gridded: bool, slack: real)
    requires GoodTerms(terms) && Bounds(slack, terms, gridded) && (gridded ==> WholeMillionths(before))
    requires !HasRegressed(value, before, terms.rules.tolerance, terms.nine)
    ensures before - slack <= terms.six(value)
  {
    var drop := before - value;
    assert -0.5 <= (terms.nine(drop) - drop) * NINE <= 0.5;
    assert -0.5 <= (terms.six(value) - value) * SIX <= 0.5;
    if slack < Slack(terms) {
      var least := before - terms.rules.tolerance;
      WholeLess(before * SIX, terms.rules.tolerance * SIX);
      assert Whole(terms.six(value) * SIX);
      NoWholeBetween(terms.six(value) * SIX, least * SIX);
    }
  }

  lemma WholeLess(a: real, b: real)
    requires Whole(a) && Whole(b)
    ensures Whole(a - b)
  {
    assert (a.Floor - b.Floor) as real == a - b;
  }

  lemma NoWholeBetween(a: real, b: real)
    requires Whole(a) && Whole(b) && b - 1.0 < a
    ensures b <= a
  {
    assert (b.Floor - a.Floor) as real == b - a;
  }

  /** A metric recorded before is measured again, and falls by no more than the slack. */
  lemma MetricIsKept(before: Baseline, run: Run, terms: Terms, name: string, gridded: bool, slack: real)
    requires GoodTerms(terms) && GoodRun(run) && Readable(before) && name in before.metrics
    requires Bounds(slack, terms, gridded) && (gridded ==> OnGrid(before))
    requires Passes(run.measurements, before, terms.rules, run.arguments.topK, terms.nine)
    ensures name in NewRecord(run, terms).metrics
    ensures before.metrics[name] - slack <= NewRecord(run, terms).metrics[name]
  {
    hide GoodTerms, Bounds, HasRegressed, NewRecord, WholeMillionths, Passes, Readable;
    var value := MeasuredAgain(before, run, terms, name);
    OneFall(before.metrics[name], value, terms, gridded, slack);
  }

  /** The value a recorded metric is recorded from the next time. */
  lemma MeasuredAgain(before: Baseline, run: Run, terms: Terms, name: string) returns (value: real)
    requires GoodRun(run) && Readable(before) && name in before.metrics
    requires Passes(run.measurements, before, terms.rules, run.arguments.topK, terms.nine)
    ensures name in NewRecord(run, terms).metrics && NewRecord(run, terms).metrics[name] == terms.six(value)
    ensures !HasRegressed(value, before.metrics[name], terms.rules.tolerance, terms.nine)
  {
    hide HasRegressed;
    var c :| Belongs(name, c);
    var i := EveryCapabilityRan(run, c);
    var m := run.measurements[i];
    assert PassesOne(m, before, terms.rules, terms.nine);
    assert name in MetricsOf(before, c);
    RecordedOf(run.arguments.tag, run.sets, run.measurements, run.arguments.topK, terms.six, i);
    assert name in MetricsOf(NewRecord(run, terms), c);
    value := m.metrics[name];
  }

  lemma FloorsAreKept(before: Baseline, run: Run, terms: Terms)
    requires GoodTerms(terms) && GoodRun(run)
    requires Passes(run.measurements, before, terms.rules, run.arguments.topK, terms.nine)
    ensures AboveFloors(NewRecord(run, terms), terms)
  {
    var after := NewRecord(run, terms);
    RecordedIsReadable(run.arguments.tag, run.sets, run.measurements, run.arguments.topK, terms.six);
    forall name | name in after.metrics && name in terms.rules.floors
      ensures terms.six(terms.rules.floors[name]) <= after.metrics[name]
    {
      var c :| Belongs(name, c);
      var i := EveryCapabilityRan(run, c);
      assert PassesOne(run.measurements[i], before, terms.rules, terms.nine);
      RecordedOf(run.arguments.tag, run.sets, run.measurements, run.arguments.topK, terms.six, i);
      assert name in MetricsOf(after, c);
    }
  }

  /** One recording over a baseline keeps its tag, names, cases, versions and depth. */
  lemma RecordingKeeps(before: Baseline, run: Run, terms: Terms, gridded: bool, slack: real)
    requires Bounds(slack, terms, gridded) && (gridded ==> OnGrid(before))
    requires GoodTerms(terms) && GoodRun(run) && Readable(before) && before.tag == run.arguments.tag
    requires Passes(run.measurements, before, terms.rules, run.arguments.topK, terms.nine)
    ensures Keeps(before, NewRecord(run, terms)) && Within(before, NewRecord(run, terms), slack)
  {
    var after := NewRecord(run, terms);
    forall c: Capability
      ensures before.sets.Of(c).cases <= after.sets.Of(c).cases
      ensures before.metrics != map[] ==> after.sets.Of(c).version == before.sets.Of(c).version
    {
      var i := EveryCapabilityRan(run, c);
      assert PassesOne(run.measurements[i], before, terms.rules, terms.nine);
    }
    forall name | name in before.metrics
      ensures name in after.metrics && before.metrics[name] - slack <= after.metrics[name]
    {
      MetricIsKept(before, run, terms, name, gridded, slack);
    }
  }

  lemma RecordsAreOnGrid(run: Run, terms: Terms)
    requires GoodTerms(terms) && GoodRun(run)
    ensures OnGrid(NewRecord(run, terms))
  {
    forall i | 0 <= i < 3 ensures IsMeasurementOf(run.measurements[i], run.sets) {
    }
    RecordedThree(run.measurements, terms.six);
    assert forall x :: WholeMillionths(terms.six(x)) by {
      forall x ensures WholeMillionths(terms.six(x)) {
        assert Whole(terms.six(x) * SIX);
      }
    }
    hide WholeMillionths, Rounds, IsMeasurementOf, RecordedMetrics;
  }

  // ---------------------------------------------------------------- any sequence of runs

  ghost function AfterAll(files: Files, runs: seq<Run>, terms: Terms): Files
    decreases |runs|
  {
    if |runs| == 0 then files else After(AfterAll(files, runs[..|runs| - 1], terms), runs[|runs| - 1], terms)
  }

  /** How often a path was recorded. */
  ghost function RecordingsAt(path: string, files: Files, runs: seq<Run>, terms: Terms): nat
    decreases |runs|
  {
    if |runs| == 0 then 0
    else
      RecordingsAt(path, files, runs[..|runs| - 1], terms)
      + if RecordsAt(path, AfterAll(files, runs[..|runs| - 1], terms), runs[|runs| - 1], terms) then 1 else 0
  }

  ghost predicate GoodRuns(runs: seq<Run>) {
    forall i :: 0 <= i < |runs| ==> GoodRun(runs[i])
  }

  lemma OneRunReadable(files: Files, run: Run, terms: Terms)
    requires GoodTerms(terms) && GoodRun(run) && AllReadable(files)
    ensures AllReadable(After(files, run, terms))
  {
    RecordedIsReadable(run.arguments.tag, run.sets, run.measurements, run.arguments.topK, terms.six);
    hide Readable, RunPasses, NewRecord;
    assert NewRecord(run, terms)
        == Recorded(run.arguments.tag, run.sets, run.measurements, run.arguments.topK, terms.six);
  }

  lemma {:induction false} RunsStayReadable(files: Files, runs: seq<Run>, terms: Terms)
    requires GoodTerms(terms) && GoodRuns(runs) && AllReadable(files)
    ensures AllReadable(AfterAll(files, runs, terms))
    decreases |runs|
  {
    if |runs| > 0 {
      RunsStayReadable(files, runs[..|runs| - 1], terms);
      OneRunReadable(AfterAll(files, runs[..|runs| - 1], terms), runs[|runs| - 1], terms);
    }
  }

  /** Nothing a run does loses a recorded baseline, or changes one it did not record. */
  lemma OneRun(files: Files, run: Run, terms: Terms, path: string, gridded: bool, slack: real)
    requires GoodTerms(terms) && GoodRun(run) && path in files && Readable(files[path])
    requires Bounds(slack, terms, gridded) && (gridded ==> OnGrid(files[path]))
    ensures path in After(files, run, terms)
    ensures !RecordsAt(path, files, run, terms) ==> After(files, run, terms)[path] == files[path]
    ensures RecordsAt(path, files, run, terms) ==>
        && Keeps(files[path], After(files, run, terms)[path])
        && Within(files[path], After(files, run, terms)[path], slack)
        && OnGrid(After(files, run, terms)[path])
  {
    hide Passes, Keeps, Within, OnGrid, Readable, Bounds, NewRecord;
    if RecordsAt(path, files, run, terms) {
      RecordingKeeps(files[path], run, terms, gridded, slack);
      RecordsAreOnGrid(run, terms);
    }
  }

  function Times(n: nat, slack: real): real {
    n as real * slack
  }

  lemma OnceMore(a: Baseline, b: Baseline, c: Baseline, n: nat, slack: real)
    requires Keeps(a, b) && Keeps(b, c) && Within(a, b, Times(n, slack)) && Within(b, c, slack)
    ensures Keeps(a, c) && Within(a, c, Times(n + 1, slack))
  {
    assert Times(n + 1, slack) == Times(n, slack) + slack;
  }

  lemma NothingLost(a: Baseline, slack: real)
    ensures Keeps(a, a) && Within(a, a, Times(0, slack))
  {
    assert Times(0, slack) == 0.0;
  }

  lemma RatchetStep(start: Baseline, middle: Files, last: Run, terms: Terms, path: string, gridded: bool, slack: real,
                    n: nat)
    requires GoodTerms(terms) && GoodRun(last) && path in middle && Readable(middle[path])
    requires Bounds(slack, terms, gridded) && (gridded ==> OnGrid(middle[path]))
    requires Keeps(start, middle[path]) && Within(start, middle[path], Times(n, slack))
    ensures path in After(middle, last, terms) && (gridded ==> OnGrid(After(middle, last, terms)[path]))
    ensures Keeps(start, After(middle, last, terms)[path])
    ensures var more := n + if RecordsAt(path, middle, last, terms) then 1 else 0;
            Within(start, After(middle, last, terms)[path], Times(more, slack))
  {
    hide After, RecordsAt, GoodTerms, GoodRun, OnGrid, Bounds, Readable, Keeps, Within, Times;
    OneRun(middle, last, terms, path, gridded, slack);
    if RecordsAt(path, middle, last, terms) {
      OnceMore(start, middle[path], After(middle, last, terms)[path], n, slack);
    }
  }

  /** Over any runs, a recorded baseline keeps its tag and every metric name, its case counts never shrink, its
      versions and depth stay as they are once it records a metric, and after n recordings a metric is down by
      n times the slack at most. */
  lemma {:induction false} Ratchet(files: Files, runs: seq<Run>, terms: Terms, path: string, gridded: bool, slack: real)
    requires GoodTerms(terms) && GoodRuns(runs) && AllReadable(files) && path in files
    requires Bounds(slack, terms, gridded) && (gridded ==> OnGrid(files[path]))
    ensures path in AfterAll(files, runs, terms)
    ensures Keeps(files[path], AfterAll(files, runs, terms)[path])
    ensures Within(files[path], AfterAll(files, runs, terms)[path],
                   Times(RecordingsAt(path, files, runs, terms), slack))
    ensures gridded ==> OnGrid(AfterAll(files, runs, terms)[path])
    decreases |runs|
  {
    hide After, RecordsAt, GoodTerms, GoodRun, OnGrid, Bounds, Readable, Keeps, Within, Times;
    if |runs| == 0 {
      NothingLost(files[path], slack);
    } else {
      var front, last := runs[..|runs| - 1], runs[|runs| - 1];
      Ratchet(files, front, terms, path, gridded, slack);
      RunsStayReadable(files, front, terms);
      var middle, n := AfterAll(files, front, terms), RecordingsAt(path, files, front, terms);
      RatchetStep(files[path], middle, last, terms, path, gridded, slack, n);
    }
  }

  /** The bound for any rules: the tolerance and both halves, once for each recording. */
  lemma MetricsFallByTheSlack(files: Files, runs: seq<Run>, terms: Terms, path: string, name: string)
    requires GoodTerms(terms) && GoodRuns(runs) && AllReadable(files) && path in files && name in files[path].metrics
    ensures var after, n := AfterAll(files, runs, terms), RecordingsAt(path, files, runs, terms);
            && path in after && name in after[path].metrics
            && files[path].metrics[name] - n as real * (terms.rules.tolerance + 0.0000005 + 0.0000000005)
                 <= after[path].metrics[name]
  {
    hide GoodTerms, GoodRuns, AllReadable, OnGrid, AfterAll, RecordingsAt;
    Ratchet(files, runs, terms, path, false, Slack(terms));
  }

  /** Under a tolerance of whole millionths, as the declared two points are, what the harness recorded itself
      falls by the tolerance alone. */
  lemma MetricsFallByTheTolerance(files: Files, runs: seq<Run>, terms: Terms, path: string, name: string)
    requires GoodTerms(terms) && GoodRuns(runs) && AllReadable(files) && path in files && name in files[path].metrics
    requires OnGrid(files[path]) && WholeMillionths(terms.rules.tolerance)
    ensures var after, n := AfterAll(files, runs, terms), RecordingsAt(path, files, runs, terms);
            && path in after && name in after[path].metrics
            && files[path].metrics[name] - n as real * terms.rules.tolerance <= after[path].metrics[name]
  {
    hide GoodTerms, GoodRuns, AllReadable, OnGrid, AfterAll, RecordingsAt, Whole;
    Ratchet(files, runs, terms, path, true, terms.rules.tolerance);
  }

  /** Whatever was recorded is above its floors, the first recording of a tag included. */
  lemma {:induction false} RecordedAboveFloors(files: Files, runs: seq<Run>, terms: Terms, path: string)
    requires GoodTerms(terms) && GoodRuns(runs)
    requires path in files ==> AboveFloors(files[path], terms)
    ensures path in AfterAll(files, runs, terms) ==> AboveFloors(AfterAll(files, runs, terms)[path], terms)
    decreases |runs|
  {
    if |runs| > 0 {
      var front, last := runs[..|runs| - 1], runs[|runs| - 1];
      RecordedAboveFloors(files, front, terms, path);
      var middle := AfterAll(files, front, terms);
      hide Passes, AboveFloors, GoodTerms, NewRecord;
      if last.arguments.record && RunPasses(middle, last, terms) {
        FloorsAreKept(JudgedAgainst(middle, last, terms.six).value, last, terms);
      }
    }
  }

  lemma PassingMeetsFloors(measurements: seq<Measurement>, baseline: Baseline, rules: Rules, topK: nat,
                           nine: real -> real)
    requires Passes(measurements, baseline, rules, topK, nine)
    ensures FloorsMet(measurements, rules)
  {
    forall i | 0 <= i < |measurements| ensures MeetsFloors(measurements[i], rules) {
      assert PassesOne(measurements[i], baseline, rules, nine);
    }
  }

  /** A run that was recorded passes again, whether or not it records again, and records the same. */
  lemma RecordedRunPassesAgain(files: Files, run: Run, terms: Terms, record: bool)
    requires GoodTerms(terms) && GoodRun(run) && terms.rules.tolerance >= HALF_A_MILLIONTH
    requires run.arguments.record && ExitOf(files, run, terms) == Passed
    ensures var again, after := run.(arguments := run.arguments.(record := record)), After(files, run, terms);
            ExitOf(after, again, terms) == Passed && After(after, again, terms) == after
  {
    var again := run.(arguments := run.arguments.(record := record));
    var baseline := JudgedAgainst(files, run, terms.six).value;
    PassingMeetsFloors(run.measurements, baseline, terms.rules, run.arguments.topK, terms.nine);
    OwnBaselinePasses(run.arguments.tag, run.sets, run.measurements, terms.rules, run.arguments.topK, terms.six,
                      terms.nine);
    hide Passes, FloorsMet, Recorded;
    var after := After(files, run, terms);
    assert after[Destination(run.arguments)] == NewRecord(run, terms);
  }

  /** Where nothing was recorded, only a recording run can be made, and it is judged on the floors alone. */
  lemma FirstRunIsJudgedOnTheFloors(files: Files, run: Run, terms: Terms)
    requires GoodRun(run) && Destination(run.arguments) !in files
    ensures ExitOf(files, run, terms)
         == if !run.arguments.record then Unrunnable
            else if FloorsMet(run.measurements, terms.rules) then Passed
            else Failed
  {
    if run.arguments.record {
      var empty := Unrecorded(run.arguments.tag, run.sets, run.arguments.topK, terms.six);
      assert empty.metrics == map[] && empty.sets == run.sets;
      forall i | 0 <= i < |run.measurements|
        ensures PassesOne(run.measurements[i], empty, terms.rules, terms.nine)
           <==> MeetsFloors(run.measurements[i], terms.rules)
      {
        assert IsMeasurementOf(run.measurements[i], run.sets);
      }
      hide PassesOne, MeetsFloors;
    }
  }
}
