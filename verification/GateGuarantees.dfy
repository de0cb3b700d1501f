/** What passing the gate means, and what does not change it. */
module GateGuarantees {
  import opened Options
  import opened Rounding
  import opened Gate

  /** A capability passes when its set lost no case, every metric recorded for it was measured, and no
      metric is under its floor or fell too far. */
  ghost predicate PassesOne(m: Measurement, baseline: Baseline, rules: Rules, nine: real -> real) {
    && !LosesCases(m, baseline)
    && MetricsOf(baseline, m.capability).Keys <= m.metrics.Keys
    && (forall name :: name in m.metrics && name in rules.floors ==> rules.floors[name] <= m.metrics[name])
    && (forall name :: name in m.metrics && name in MetricsOf(baseline, m.capability)
          ==> !HasRegressed(m.metrics[name], MetricsOf(baseline, m.capability)[name], rules.tolerance, nine))
  }

  ghost predicate Passes(measurements: seq<Measurement>, baseline: Baseline, rules: Rules, topK: nat,
                         nine: real -> real) {
    && Comparable(measurements, baseline, topK)
    && forall i :: 0 <= i < |measurements| ==> PassesOne(measurements[i], baseline, rules, nine)
  }

  /** A capability passes exactly when nothing fires on it. */
  lemma NothingFires(m: Measurement, baseline: Baseline, rules: Rules, nine: real -> real)
    ensures PassesOne(m, baseline, rules, nine) <==> forall f :: !FiresOn(f, m, baseline, rules, nine)
  {
    var recorded := MetricsOf(baseline, m.capability);
    if LosesCases(m, baseline) {
      assert FiresOn(LostCases(m.capability, m.cases, baseline.sets.Of(m.capability).cases), m, baseline, rules, nine);
    }
    forall name | name in recorded && name !in m.metrics
      ensures exists f :: FiresOn(f, m, baseline, rules, nine)
    {
      assert FiresOn(Unmeasured(name, recorded[name]), m, baseline, rules, nine);
    }
    forall name | name in m.metrics && name in rules.floors && m.metrics[name] < rules.floors[name]
      ensures exists f :: FiresOn(f, m, baseline, rules, nine)
    {
      assert FiresOn(UnderFloor(name, m.metrics[name], rules.floors[name]), m, baseline, rules, nine);
    }
    forall name | name in m.metrics && name in recorded
               && HasRegressed(m.metrics[name], recorded[name], rules.tolerance, nine)
      ensures exists f :: FiresOn(f, m, baseline, rules, nine)
    {
      assert FiresOn(Fell(name, m.metrics[name], recorded[name]), m, baseline, rules, nine);
    }
  }

  /** The outcome of judging a run is a pass exactly when the run passes. */
  lemma PassedMeansPasses(outcome: Outcome, measurements: seq<Measurement>, baseline: Baseline, rules: Rules, topK: nat,
                          nine: real -> real)
    requires IsOutcome(outcome, measurements, baseline, rules, topK, nine)
    ensures outcome.Passed() <==> Passes(measurements, baseline, rules, topK, nine)
  {
    if Comparable(measurements, baseline, topK) {
      hide FiresOn, IsRowOf, PassesOne;
      forall i | 0 <= i < |measurements|
        ensures PassesOne(measurements[i], baseline, rules, nine)
           <==> forall f :: !FiresOn(f, measurements[i], baseline, rules, nine)
      {
        NothingFires(measurements[i], baseline, rules, nine);
      }
      assert outcome.failures != [] ==> outcome.failures[0] in outcome.failures;
      if outcome.failures == [] {
        forall i, f | 0 <= i < |measurements| ensures !FiresOn(f, measurements[i], baseline, rules, nine) {
          assert f !in outcome.failures;
        }
      }
    }
  }

  ghost predicate GoodVerdict(verdict: Verdict) {
    verdict in {Ok, Adopted, NoCase, NotImplemented}
  }

  /** A capability's rows all read well exactly when it passes, but for its cases. */
  lemma RowsOfOne(m: Measurement, baseline: Baseline, rules: Rules, nine: real -> real)
    ensures PassesOne(m, baseline, rules, nine)
       <==> && !LosesCases(m, baseline)
            && forall row :: IsRowOf(row, m, baseline, rules, nine) ==> GoodVerdict(row.verdict)
  {
    hide Belongs;
    forall name | name in NamesOf(m, baseline)
      ensures IsRowOf(RowOf(m, name, baseline, rules, nine), m, baseline, rules, nine)
    {
    }
    forall name | name in NamesOf(m, baseline)
      ensures GoodVerdict(RowOf(m, name, baseline, rules, nine).verdict)
         <==> && name in m.metrics
              && (name in rules.floors ==> rules.floors[name] <= m.metrics[name])
              && (name in MetricsOf(baseline, m.capability) ==>
                    !HasRegressed(m.metrics[name], MetricsOf(baseline, m.capability)[name], rules.tolerance, nine))
    {
    }
    hide RowOf, MetricsOf, HasRegressed;
    assert forall name :: name in m.metrics ==> name in NamesOf(m, baseline);
  }

  /** A run passes exactly when its baseline is comparable, no set lost cases, and every row's verdict is
      ok, adopted, no cases or not implemented. */
  lemma PassesExactlyWhen(outcome: Outcome, measurements: seq<Measurement>, baseline: Baseline, rules: Rules, topK: nat,
                          nine: real -> real)
    requires IsOutcome(outcome, measurements, baseline, rules, topK, nine)
    ensures outcome.Passed()
       <==> && Comparable(measurements, baseline, topK)
            && (forall i :: 0 <= i < |measurements| ==> !LosesCases(measurements[i], baseline))
            && forall row :: row in outcome.rows ==> GoodVerdict(row.verdict)
  {
    PassedMeansPasses(outcome, measurements, baseline, rules, topK, nine);
    if Comparable(measurements, baseline, topK) {
      hide FiresOn, IsRowOf, PassesOne, LosesCases, GoodVerdict;
      forall i | 0 <= i < |measurements|
        ensures PassesOne(measurements[i], baseline, rules, nine)
           <==> && !LosesCases(measurements[i], baseline)
                && forall row :: IsRowOf(row, measurements[i], baseline, rules, nine) ==> GoodVerdict(row.verdict)
      {
        RowsOfOne(measurements[i], baseline, rules, nine);
      }
    }
  }

  ghost predicate IsRowFor(rows: seq<Row>, k: int, name: string) {
    0 <= k < |rows| && rows[k].metric == Some(name)
  }

  /** In a comparable run every metric measured, and every metric recorded for a capability that was run,
      has exactly one row, and no other name has one. */
  lemma OneRowForEach(outcome: Outcome, measurements: seq<Measurement>, baseline: Baseline, rules: Rules, topK: nat,
                      nine: real -> real, name: string)
    requires IsOutcome(outcome, measurements, baseline, rules, topK, nine) && Comparable(measurements, baseline, topK)
    requires OnePerCapability(measurements)
    requires forall i, n :: 0 <= i < |measurements| && n in measurements[i].metrics
               ==> Belongs(n, measurements[i].capability)
    ensures (exists k :: IsRowFor(outcome.rows, k, name))
       <==> exists i :: 0 <= i < |measurements| && name in NamesOf(measurements[i], baseline)
    ensures forall k, l :: IsRowFor(outcome.rows, k, name) && IsRowFor(outcome.rows, l, name) ==> k == l
  {
    hide FiresOn, RowOf, Belongs;
    forall i | 0 <= i < |measurements| && name in NamesOf(measurements[i], baseline)
      ensures exists k :: IsRowFor(outcome.rows, k, name)
    {
      var row := RowOf(measurements[i], name, baseline, rules, nine);
      RowNames(measurements[i], name, baseline, rules, nine);
      assert IsRowOf(row, measurements[i], baseline, rules, nine);
      assert row in outcome.rows;
      var k :| 0 <= k < |outcome.rows| && outcome.rows[k] == row;
      assert IsRowFor(outcome.rows, k, name);
    }
    forall k | IsRowFor(outcome.rows, k, name)
      ensures exists i :: 0 <= i < |measurements| && name in NamesOf(measurements[i], baseline)
                       && outcome.rows[k] == RowOf(measurements[i], name, baseline, rules, nine)
    {
      assert outcome.rows[k] in outcome.rows;
    }
    forall i, j | 0 <= i < |measurements| && 0 <= j < |measurements|
               && name in NamesOf(measurements[i], baseline) && name in NamesOf(measurements[j], baseline)
      ensures i == j
    {
      OwnPrefix(measurements[i], baseline, name);
      OwnPrefix(measurements[j], baseline, name);
      OnePrefix(name, measurements[i].capability, measurements[j].capability);
    }
  }

  lemma RowNames(m: Measurement, name: string, baseline: Baseline, rules: Rules, nine: real -> real)
    ensures RowOf(m, name, baseline, rules, nine).metric == Some(name)
  {
  }

  lemma OwnPrefix(m: Measurement, baseline: Baseline, name: string)
    requires name in NamesOf(m, baseline) && (name in m.metrics ==> Belongs(name, m.capability))
    ensures Belongs(name, m.capability)
  {
  }

  /** A name carries one prefix only. */
  lemma OnePrefix(name: string, a: Capability, b: Capability)
    requires Belongs(name, a) && Belongs(name, b)
    ensures a == b
  {
    assert name[0] == Prefix(a)[0] == Prefix(b)[0];
  }

  // ---------------------------------------------------------------- raising a metric

  /** The same run, but that some metrics came out higher. */
  ghost predicate AtLeastAsGood(m: Measurement, better: Measurement) {
    && better == m.(metrics := better.metrics)
    && better.metrics.Keys == m.metrics.Keys
    && forall name :: name in m.metrics ==> m.metrics[name] <= better.metrics[name]
  }

  /** Raising any measured value never turns a pass into a failure. */
  lemma RaisingNeverFails(measurements: seq<Measurement>, better: seq<Measurement>, baseline: Baseline, rules: Rules,
                          topK: nat, nine: real -> real)
    requires Rounds(nine, NINE) && Passes(measurements, baseline, rules, topK, nine)
    requires |better| == |measurements|
    requires forall i :: 0 <= i < |better| ==> AtLeastAsGood(measurements[i], better[i])
    ensures Passes(better, baseline, rules, topK, nine)
  {
    forall i | 0 <= i < |better| ensures PassesOne(better[i], baseline, rules, nine) {
      var m, recorded := measurements[i], MetricsOf(baseline, measurements[i].capability);
      assert AtLeastAsGood(m, better[i]) && PassesOne(m, baseline, rules, nine);
      hide MetricsOf;
      forall name | name in m.metrics && name in recorded
        ensures !HasRegressed(better[i].metrics[name], recorded[name], rules.tolerance, nine)
      {
        assert nine(recorded[name] - better[i].metrics[name]) <= nine(recorded[name] - m.metrics[name]);
      }
    }
  }
}
