/** What a run leaves behind as a tag's baseline, and what judging it against its own record comes to. */
module Baselines {
  import opened Rounding
  import opened Gate
  import opened GateGuarantees

  /** The metrics of every scored capability, to six places. */
  function RecordedMetrics(measurements: seq<Measurement>, six: real -> real): map<string, real> {
    if |measurements| == 0 then
      map[]
    else
      var last := measurements[|measurements| - 1];
      RecordedMetrics(measurements[..|measurements| - 1], six)
        + if last.reading == Scored then Rounded(last.metrics, six) else map[]
  }

  function Rounded(metrics: map<string, real>, six: real -> real): map<string, real> {
    map name | name in metrics :: six(metrics[name])
  }

  function Recorded(tag: string, sets: Sets, measurements: seq<Measurement>, topK: nat, six: real -> real): Baseline {
    Baseline(tag, topK, sets, RecordedMetrics(measurements, six))
  }

  function Unrecorded(tag: string, sets: Sets, topK: nat, six: real -> real): Baseline {
    Recorded(tag, sets, [], topK, six)
  }

  // ---------------------------------------------------------------- what a run measures

  /** A measurement in good order: metrics only where scored, all of them proportions, each under the
      prefix of its capability. */
  ghost predicate IsMeasurementOf(m: Measurement, sets: Sets) {
    && m.version == sets.Of(m.capability).version
    && m.cases == sets.Of(m.capability).cases
    && (m.reading != Scored ==> m.metrics == map[])
    && (forall name :: name in m.metrics ==> Belongs(name, m.capability))
    && (forall name :: name in m.metrics ==> 0.0 <= m.metrics[name] <= 1.0)
  }

  /** All three capabilities, extraction first and classification last. */
  ghost predicate IsRun(measurements: seq<Measurement>, sets: Sets) {
    && |measurements| == 3
    && measurements[0].capability == Extraction
    && measurements[1].capability == Retrieval
    && measurements[2].capability == Classification
    && forall i :: 0 <= i < 3 ==> IsMeasurementOf(measurements[i], sets)
  }

  /** What a capability recorded is what it measured, to six places. */
  lemma RecordedOf(tag: string, sets: Sets, measurements: seq<Measurement>, topK: nat, six: real -> real, i: nat)
    requires IsRun(measurements, sets) && i < 3
    ensures MetricsOf(Recorded(tag, sets, measurements, topK, six), measurements[i].capability)
         == Rounded(measurements[i].metrics, six)
  {
    var a, b, c := measurements[0], measurements[1], measurements[2];
    RecordedThree(measurements, six);
    assert IsMeasurementOf(a, sets) && IsMeasurementOf(b, sets) && IsMeasurementOf(c, sets);
    hide Belongs, RecordedMetrics;
    OwnPart(Recorded(tag, sets, measurements, topK, six), Rounded(a.metrics, six), Rounded(b.metrics, six),
            Rounded(c.metrics, six));
  }

  /** A baseline of three capabilities' metrics gives each its own back. */
  lemma OwnPart(baseline: Baseline, a: map<string, real>, b: map<string, real>, c: map<string, real>)
    requires baseline.metrics == a + b + c
    requires forall name :: name in a ==> Belongs(name, Extraction)
    requires forall name :: name in b ==> Belongs(name, Retrieval)
    requires forall name :: name in c ==> Belongs(name, Classification)
    ensures MetricsOf(baseline, Extraction) == a
    ensures MetricsOf(baseline, Retrieval) == b
    ensures MetricsOf(baseline, Classification) == c
  {
    forall name, x, y | Belongs(name, x) && Belongs(name, y) ensures x == y {
      OnePrefix(name, x, y);
    }
    hide Belongs;
    PartOf(baseline, Extraction, a);
    PartOf(baseline, Retrieval, b);
    PartOf(baseline, Classification, c);
  }

  lemma PartOf(baseline: Baseline, capability: Capability, own: map<string, real>)
    requires forall name :: name in own
               <==> name in baseline.metrics && Belongs(name, capability)
    requires forall name :: name in own ==> baseline.metrics[name] == own[name]
    ensures MetricsOf(baseline, capability) == own
  {
    hide Belongs;
  }

  lemma RecordedThree(measurements: seq<Measurement>, six: real -> real)
    requires |measurements| == 3
    requires forall i :: 0 <= i < 3 && measurements[i].reading != Scored ==> measurements[i].metrics == map[]
    ensures RecordedMetrics(measurements, six)
         == Rounded(measurements[0].metrics, six) + Rounded(measurements[1].metrics, six)
            + Rounded(measurements[2].metrics, six)
  {
    var a, b, c := measurements[0], measurements[1], measurements[2];
    assert measurements[..2][..1] == [a] && measurements[..2][1] == b;
    assert measurements[..1][..0] == [];
    assert RecordedMetrics([a], six) == Rounded(a.metrics, six);
    assert RecordedMetrics(measurements[..2], six) == Rounded(a.metrics, six) + Rounded(b.metrics, six);
  }

  /** What is recorded can be read back: every name is a capability's, and every value a proportion. */
  ghost predicate Readable(baseline: Baseline) {
    && (forall name :: name in baseline.metrics ==> exists c :: Belongs(name, c))
    && (forall name :: name in baseline.metrics ==> 0.0 <= baseline.metrics[name] <= 1.0)
  }

  /** In a comparable run every metric measured or recorded has exactly one row, and no other name has one. */
  lemma EveryMetricHasOneRow(outcome: Outcome, sets: Sets, measurements: seq<Measurement>, baseline: Baseline,
                             rules: Rules,
                             topK: nat, nine: real -> real, name: string)
    requires IsRun(measurements, sets) && Readable(baseline) && Comparable(measurements, baseline, topK)
    requires IsOutcome(outcome, measurements, baseline, rules, topK, nine)
    ensures (exists k :: IsRowFor(outcome.rows, k, name))
       <==> name in baseline.metrics || exists i :: 0 <= i < 3 && name in measurements[i].metrics
    ensures forall k, l :: IsRowFor(outcome.rows, k, name) && IsRowFor(outcome.rows, l, name) ==> k == l
  {
    forall i, n | 0 <= i < 3 && n in measurements[i].metrics ensures Belongs(n, measurements[i].capability) {
      assert IsMeasurementOf(measurements[i], sets);
    }
    hide IsOutcome, Comparable, IsRowFor;
    OneRowForEach(outcome, measurements, baseline, rules, topK, nine, name);
    hide Belongs;
    if name in baseline.metrics {
      var c :| Belongs(name, c);
      var i := match c case Extraction => 0 case Retrieval => 1 case Classification => 2;
      assert measurements[i].capability == c;
      assert name in NamesOf(measurements[i], baseline);
    }
  }

  lemma RecordedIsReadable(tag: string, sets: Sets, measurements: seq<Measurement>, topK: nat, six: real -> real)
    requires IsRun(measurements, sets) && Rounds(six, SIX)
    ensures Readable(Recorded(tag, sets, measurements, topK, six))
  {
    var own := Recorded(tag, sets, measurements, topK, six);
    forall i | 0 <= i < 3 ensures IsMeasurementOf(measurements[i], sets) {
    }
    RecordedThree(measurements, six);
    forall name | name in own.metrics
      ensures (exists c :: Belongs(name, c)) && 0.0 <= own.metrics[name] <= 1.0
    {
      var i := RecordedFrom(measurements, six, name);
      RoundedAreProportions(measurements[i], sets, six);
      assert Belongs(name, measurements[i].capability);
    }
  }

  /** The measurement a recorded metric is from. */
  lemma RecordedFrom(measurements: seq<Measurement>, six: real -> real, name: string) returns (i: nat)
    requires |measurements| == 3
    requires forall i :: 0 <= i < 3 && measurements[i].reading != Scored ==> measurements[i].metrics == map[]
    requires name in RecordedMetrics(measurements, six)
    ensures i < 3 && name in measurements[i].metrics
    ensures RecordedMetrics(measurements, six)[name] == Rounded(measurements[i].metrics, six)[name]
  {
    RecordedThree(measurements, six);
    hide RecordedMetrics;
    i := if name in measurements[2].metrics then 2 else if name in measurements[1].metrics then 1 else 0;
  }

  lemma RoundedAreProportions(m: Measurement, sets: Sets, six: real -> real)
    requires IsMeasurementOf(m, sets) && Rounds(six, SIX)
    ensures forall name :: name in m.metrics ==> 0.0 <= Rounded(m.metrics, six)[name] <= 1.0
  {
    forall name | name in m.metrics ensures 0.0 <= six(m.metrics[name]) <= 1.0 {
      ProportionsStay(six, m.metrics[name]);
    }
  }

  // ---------------------------------------------------------------- a run judged by its own record

  const HALF_A_MILLIONTH := 0.0000005

  /** Recording to six places and comparing to nine never makes a metric fall, for every value there is,
      exactly when the tolerance is at least half a unit of the sixth place. */
  lemma RecordingIsNotARegression(tolerance: real, six: real -> real, nine: real -> real)
    requires Rounds(six, SIX) && Rounds(nine, NINE)
    ensures tolerance >= HALF_A_MILLIONTH
       <==> forall v :: 0.0 <= v <= 1.0 ==> !HasRegressed(v, six(v), tolerance, nine)
  {
    if tolerance >= HALF_A_MILLIONTH {
      forall v | 0.0 <= v <= 1.0 ensures !HasRegressed(v, six(v), tolerance, nine) {
        OwnRecordStands(v, tolerance, six, nine);
      }
    } else {
      OwnRecordFalls(tolerance, six, nine);
    }
  }

  lemma OwnRecordStands(v: real, tolerance: real, six: real -> real, nine: real -> real)
    requires Rounds(six, SIX) && Rounds(nine, NINE) && tolerance >= HALF_A_MILLIONTH
    ensures !HasRegressed(v, six(v), tolerance, nine)
  {
    assert (six(v) - v) * SIX <= 0.5;
    FixedAtNine(nine, HALF_A_MILLIONTH);
    assert nine(six(v) - v) <= nine(HALF_A_MILLIONTH);
  }

  /** Just over half a unit rounds up, and the nine places see a whole half. */
  const WITNESS := 0.00000050025

  lemma OwnRecordFalls(tolerance: real, six: real -> real, nine: real -> real)
    requires Rounds(six, SIX) && Rounds(nine, NINE) && tolerance < HALF_A_MILLIONTH
    ensures HasRegressed(WITNESS, six(WITNESS), tolerance, nine)
  {
    var recorded := six(WITNESS);
    assert Whole(recorded * SIX) && -0.5 <= (recorded - WITNESS) * SIX <= 0.5;
    assert Whole(1.0);
    WholeApart(recorded * SIX, 1.0);
    var drop := nine(recorded - WITNESS);
    assert Whole(drop * NINE) && -0.5 <= (drop - (recorded - WITNESS)) * NINE <= 0.5;
    assert Whole(500.0);
    WholeApart(drop * NINE, 500.0);
  }

  ghost predicate MeetsFloors(m: Measurement, rules: Rules) {
    forall name :: name in m.metrics && name in rules.floors ==> rules.floors[name] <= m.metrics[name]
  }

  ghost predicate FloorsMet(measurements: seq<Measurement>, rules: Rules) {
    forall i :: 0 <= i < |measurements| ==> MeetsFloors(measurements[i], rules)
  }

  /** Judged against the baseline recorded from itself, a run passes exactly when it meets the floors. */
  lemma OwnBaselinePasses(tag: string, sets: Sets, measurements: seq<Measurement>, rules: Rules, topK: nat,
                          six: real -> real, nine: real -> real)
    requires IsRun(measurements, sets) && Rounds(six, SIX) && Rounds(nine, NINE)
    requires rules.tolerance >= HALF_A_MILLIONTH
    ensures Passes(measurements, Recorded(tag, sets, measurements, topK, six), rules, topK, nine)
       <==> FloorsMet(measurements, rules)
    ensures Comparable(measurements, Recorded(tag, sets, measurements, topK, six), topK)
  {
    var own := Recorded(tag, sets, measurements, topK, six);
    forall i | 0 <= i < 3
      ensures PassesOne(measurements[i], own, rules, nine) <==> MeetsFloors(measurements[i], rules)
    {
      var m := measurements[i];
      assert IsMeasurementOf(m, sets);
      RecordedOf(tag, sets, measurements, topK, six, i);
      forall name | name in m.metrics
        ensures !HasRegressed(m.metrics[name], MetricsOf(own, m.capability)[name], rules.tolerance, nine)
      {
        OwnRecordStands(m.metrics[name], rules.tolerance, six, nine);
      }
    }
    assert forall i :: 0 <= i < 3 ==> IsMeasurementOf(measurements[i], sets);
    hide PassesOne, MetricsOf, MeetsFloors;
  }

  /** So only the floor rule can fire on it. */
  lemma OnlyFloorsFire(outcome: Outcome, tag: string, sets: Sets, measurements: seq<Measurement>, rules: Rules,
                       topK: nat,
                       six: real -> real, nine: real -> real)
    requires IsRun(measurements, sets) && Rounds(six, SIX) && Rounds(nine, NINE)
    requires rules.tolerance >= HALF_A_MILLIONTH
    requires IsOutcome(outcome, measurements, Recorded(tag, sets, measurements, topK, six), rules, topK, nine)
    ensures forall f :: f in outcome.failures ==> f.UnderFloor?
    ensures outcome.Passed() <==> FloorsMet(measurements, rules)
  {
    var own := Recorded(tag, sets, measurements, topK, six);
    OwnBaselinePasses(tag, sets, measurements, rules, topK, six, nine);
    PassedMeansPasses(outcome, measurements, own, rules, topK, nine);
    hide Passes, FloorsMet;
    forall f | f in outcome.failures ensures f.UnderFloor? {
      var i :| 0 <= i < 3 && FiresOn(f, measurements[i], own, rules, nine);
      OnlyFloorsOn(f, tag, sets, measurements, rules, topK, six, nine, i);
    }
  }

  lemma OnlyFloorsOn(f: Failure, tag: string, sets: Sets, measurements: seq<Measurement>, rules: Rules, topK: nat,
                     six: real -> real, nine: real -> real, i: nat)
    requires IsRun(measurements, sets) && Rounds(six, SIX) && Rounds(nine, NINE) && i < 3
    requires rules.tolerance >= HALF_A_MILLIONTH
    requires FiresOn(f, measurements[i], Recorded(tag, sets, measurements, topK, six), rules, nine)
    ensures f.UnderFloor?
  {
    var m := measurements[i];
    assert IsMeasurementOf(m, sets);
    RecordedOf(tag, sets, measurements, topK, six, i);
    if f.Fell? {
      OwnRecordStands(m.metrics[f.name], rules.tolerance, six, nine);
    }
  }
}
