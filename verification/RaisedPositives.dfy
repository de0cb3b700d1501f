/** When raising one positive's score is safe: never a smaller area, whatever the negatives score. */
module RaisedPositives {
  import opened Ratios
  import opened Tallies
  import opened AveragePrecision

  function Equals(x: real): real -> bool {
    (y: real) => y == x
  }

  function HeldBy(scores: seq<real>, x: real): nat {
    Count(scores, Equals(x))
  }

  /** No score in [low, high) is held by two positives. */
  ghost predicate Untied(positives: seq<real>, low: real, high: real) {
    forall x :: low <= x < high ==> HeldBy(positives, x) <= 1
  }

  // ---------------------------------------------------------------- one score apart from the others

  function Others(scores: seq<real>, i: nat): seq<real>
    requires i < |scores|
  {
    scores[..i] + scores[i + 1..]
  }

  lemma CountApart(scores: seq<real>, i: nat, holds: real -> bool)
    requires i < |scores|
    ensures Count(scores, holds) == Count(Others(scores, i), holds) + if holds(scores[i]) then 1 else 0
  {
    var x := scores[i];
    assert scores == scores[..i] + ([x] + scores[i + 1..]);
    CountConcat(scores[..i], [x] + scores[i + 1..], holds);
    CountConcat(scores[..i], scores[i + 1..], holds);
    assert ([x] + scores[i + 1..])[1..] == scores[i + 1..];
  }

  lemma SumApart(scores: seq<real>, i: nat, value: real -> real)
    requires i < |scores|
    ensures Sum(scores, value) == Sum(Others(scores, i), value) + value(scores[i])
  {
    var x := scores[i];
    assert scores == scores[..i] + ([x] + scores[i + 1..]);
    SumConcat(scores[..i], [x] + scores[i + 1..], value);
    SumConcat(scores[..i], scores[i + 1..], value);
    assert ([x] + scores[i + 1..])[1..] == scores[i + 1..];
  }

  lemma OthersStay(scores: seq<real>, i: nat, x: real)
    requires i < |scores|
    ensures Others(scores[i := x], i) == Others(scores, i)
  {
  }

  lemma InOthers(scores: seq<real>, i: nat, j: nat)
    requires i < |scores| && j < |scores| && i != j
    ensures scores[j] in Others(scores, i)
  {
    assert scores[j] == Others(scores, i)[if j < i then j else j - 1];
  }

  lemma FromOthers(scores: seq<real>, i: nat, x: real) returns (j: nat)
    requires i < |scores| && x in Others(scores, i)
    ensures j < |scores| && j != i && scores[j] == x
  {
    var k :| 0 <= k < |Others(scores, i)| && Others(scores, i)[k] == x;
    j := if k < i then k else k + 1;
  }

  /** Raising one score counts it at every threshold it passes, and changes no other count. */
  lemma RaisedCount(scores: seq<real>, i: nat, high: real, threshold: real)
    requires i < |scores| && scores[i] < high
    ensures Count(scores[i := high], AtLeast(threshold))
         == Count(scores, AtLeast(threshold)) + if scores[i] < threshold <= high then 1 else 0
  {
    CountApart(scores, i, AtLeast(threshold));
    CountApart(scores[i := high], i, AtLeast(threshold));
    OthersStay(scores, i, high);
  }

  // ---------------------------------------------------------------- passing nobody

  /** A positive raised past no other keeps its rank, and can only leave negatives behind. */
  lemma RaiseAlone(positives: seq<real>, i: nat, high: real, negatives: seq<real>)
    requires i < |positives| && positives[i] < high
    requires forall x :: x in Others(positives, i) ==> x < positives[i] || high <= x
    ensures MeanPrecision(positives, negatives) <= MeanPrecision(positives[i := high], negatives)
  {
    var raised, others, low := positives[i := high], Others(positives, i), positives[i];
    var before, after := PrecisionOver(positives, negatives), PrecisionOver(raised, negatives);
    OthersStay(positives, i, high);
    forall x | x in others ensures before(x) <= after(x) {
      RaisedCount(positives, i, high, x);
      RatioRises(Count(positives, AtLeast(x)), Count(raised, AtLeast(x)), Count(negatives, AtLeast(x)));
    }
    OwnPrecisionRises(positives, i, high, negatives);
    SumMonotone(others, before, after);
    SumApart(positives, i, before);
    SumApart(raised, i, after);
    Scaled(Sum(positives, before), Sum(raised, after), |positives| as real);
  }

  lemma OwnPrecisionRises(positives: seq<real>, i: nat, high: real, negatives: seq<real>)
    requires i < |positives| && positives[i] < high
    requires forall x :: x in Others(positives, i) ==> x < positives[i] || high <= x
    ensures PrecisionAt(positives, negatives, positives[i]) <= PrecisionAt(positives[i := high], negatives, high)
  {
    var low, others, raised := positives[i], Others(positives, i), positives[i := high];
    OthersStay(positives, i, high);
    CountApart(positives, i, AtLeast(low));
    CountApart(raised, i, AtLeast(high));
    CountMonotone(others, AtLeast(low), AtLeast(high));
    CountMonotone(others, AtLeast(high), AtLeast(low));
    CountMonotone(negatives, AtLeast(high), AtLeast(low));
    var found := Count(positives, AtLeast(low));
    RatioFalls(found, found + Count(negatives, AtLeast(high)), found + Count(negatives, AtLeast(low)));
  }

  // ---------------------------------------------------------------- passing others, one at a time

  function Between(scores: seq<real>, low: real, high: real): set<nat> {
    set j: nat | j < |scores| && low < scores[j] < high
  }

  lemma HighestOf(scores: seq<real>, among: set<nat>) returns (j: nat)
    requires among != {} && forall k :: k in among ==> k < |scores|
    ensures j in among && forall k :: k in among ==> scores[k] <= scores[j]
    decreases |among|
  {
    j :| j in among;
    if among != {j} {
      assert among - {j} != {};
      var k := HighestOf(scores, among - {j});
      j := if scores[k] > scores[j] then k else j;
    }
  }

  lemma TwoHold(scores: seq<real>, j: nat, k: nat)
    requires j < |scores| && k < |scores| && j != k && scores[j] == scores[k]
    ensures HeldBy(scores, scores[j]) >= 2
  {
    var others, x := Others(scores, j), scores[j];
    CountApart(scores, j, Equals(x));
    InOthers(scores, j, k);
    CountAll(others, Equals(x));
    assert Equals(x)(scores[k]);
  }

  lemma RaisedStaysUntied(scores: seq<real>, j: nat, high: real, low: real)
    requires j < |scores| && scores[j] < high && Untied(scores, low, high)
    ensures Untied(scores[j := high], low, scores[j])
  {
    var raised := scores[j := high];
    OthersStay(scores, j, high);
    forall x | low <= x < scores[j] ensures HeldBy(raised, x) <= 1 {
      CountApart(scores, j, Equals(x));
      CountApart(raised, j, Equals(x));
      assert HeldBy(scores, x) <= 1;
    }
  }

  /** Where no two positives tie on the way, raising one never lowers the area. The highest one passed goes
      to the new score first, and the raised one then only needs to take its place. */
  lemma {:induction false} RaisingUntiedNeverHurts(positives: seq<real>, i: nat, high: real, negatives: seq<real>)
    requires i < |positives| && positives[i] < high && Untied(positives, positives[i], high)
    ensures MeanPrecision(positives, negatives) <= MeanPrecision(positives[i := high], negatives)
    decreases Between(positives, positives[i], high)
  {
    var low, between := positives[i], Between(positives, positives[i], high);
    if between == {} {
      forall x | x in Others(positives, i) ensures x < low || high <= x {
        var k := FromOthers(positives, i, x);
        assert k !in between;
        if x == low {
          TwoHold(positives, i, k);
        }
      }
      RaiseAlone(positives, i, high, negatives);
    } else {
      var j := HighestOf(positives, between);
      var passed := positives[j];
      forall x | x in Others(positives, j) ensures x < passed || high <= x {
        var k := FromOthers(positives, j, x);
        assert k in between ==> x <= passed;
        if x == passed {
          TwoHold(positives, j, k);
        }
      }
      RaiseAlone(positives, j, high, negatives);
      var first := positives[j := high];
      RaisedStaysUntied(positives, j, high, low);
      assert Between(first, low, passed) <= between - {j};
      RaisingUntiedNeverHurts(first, i, passed, negatives);
      assert multiset(first[i := passed]) == multiset(positives[i := high]);
      OrderIsIgnored(first[i := passed], negatives, positives[i := high], negatives);
    }
  }

  // ---------------------------------------------------------------- passing a tie

  /** What one more positive above adds to the precision at a positive, against a single negative. */
  function Step(rank: nat): real {
    Ratio(rank + 1, rank + 2) - Ratio(rank, rank + 1)
  }

  function Pair(rank: nat): nat {
    (rank + 1) * (rank + 2)
  }

  lemma StepIs(rank: nat)
    ensures Step(rank) * Pair(rank) as real == 1.0
  {
    var a, b := (rank + 1) as real, (rank + 2) as real;
    Quotient(a, b);
    Quotient(a - 1.0, a);
    var p, q := a / b, (a - 1.0) / a;
    assert (p - q) * (a * b) == (p * b) * a - (q * a) * b;
    assert (p * b) * a - (q * a) * b == a * a - (a - 1.0) * (a + 1.0);
    assert Pair(rank) as real == a * b;
  }

  lemma {:induction false} PairsGrow(near: nat, far: nat)
    requires near <= far
    ensures 0 < Pair(near) <= Pair(far) && (near < far ==> Pair(near) < Pair(far))
    decreases far
  {
    if near < far {
      PairsGrow(near, far - 1);
      assert Pair(far) - Pair(far - 1) == 2 * (far + 1);
    }
  }

  lemma StepShrinks(near: nat, far: nat)
    requires near <= far
    ensures Step(far) <= Step(near)
    ensures near < far ==> Step(far) < Step(near)
  {
    StepIs(near);
    StepIs(far);
    PairsGrow(near, far);
    hide Step, Pair;
    InverseFalls(Step(near), Pair(near) as real, Step(far), Pair(far) as real);
  }

  function StepAt(scores: seq<real>, above: nat): real -> real {
    (x: real) => Step(above + Count(scores, AtLeast(x)))
  }

  /** Passing untied positives one by one adds up to what passing them takes away; a tie adds up to less. */
  lemma {:induction false} StepsAddUp(scores: seq<real>, above: nat)
    ensures var all := Ratio(above + |scores| + 1, above + |scores| + 2) - Ratio(above + 1, above + 2);
            && Sum(scores, StepAt(scores, above)) <= all
            && ((exists x :: HeldBy(scores, x) >= 2) ==> Sum(scores, StepAt(scores, above)) < all)
    decreases |scores|
  {
    if scores != [] {
      var k := Highest(scores);
      var rest, held := Others(scores, k), HeldBy(scores, scores[k]);
      TopStep(scores, k, above);
      HighestIsCounted(scores, k);
      StepShrinks(above + 1, above + held);
      StepsAddUp(rest, above + 1);
      OneStep(above + 1);
      forall x | HeldBy(scores, x) >= 2 ensures held >= 2 || HeldBy(rest, x) >= 2 {
        CountApart(scores, k, Equals(x));
      }
      hide Sum, Step, StepAt, Ratio;
    }
  }

  /** Passing the highest ones: one step at its rank, and the rest one rank further down. */
  lemma TopStep(scores: seq<real>, k: nat, above: nat)
    requires k < |scores| && forall x :: x in scores ==> x <= scores[k]
    ensures Sum(scores, StepAt(scores, above))
         == Sum(Others(scores, k), StepAt(Others(scores, k), above + 1)) + Step(above + HeldBy(scores, scores[k]))
  {
    hide Sum, Step, Count, StepAt, HeldBy, Others, AtLeast;
    HighestIsCounted(scores, k);
    RestSteps(scores, k, above);
    SumApart(scores, k, StepAt(scores, above));
    StepAtIs(scores, above, scores[k]);
  }

  lemma StepAtIs(scores: seq<real>, above: nat, x: real)
    ensures StepAt(scores, above)(x) == Step(above + Count(scores, AtLeast(x)))
  {
  }

  lemma RestSteps(scores: seq<real>, k: nat, above: nat)
    requires k < |scores| && forall x :: x in scores ==> x <= scores[k]
    ensures Sum(Others(scores, k), StepAt(scores, above))
         == Sum(Others(scores, k), StepAt(Others(scores, k), above + 1))
  {
    var rest, steps, later := Others(scores, k), StepAt(scores, above), StepAt(Others(scores, k), above + 1);
    hide Sum, Step;
    forall x | x in rest ensures steps(x) == later(x) {
      var j := FromOthers(scores, k, x);
      assert scores[j] in scores;
      CountApart(scores, k, AtLeast(x));
      assert above + Count(scores, AtLeast(x)) == above + 1 + Count(rest, AtLeast(x));
    }
    SumMonotone(rest, steps, later);
  }

  lemma OneStep(rank: nat)
    ensures Step(rank) == Ratio(rank + 1, rank + 2) - Ratio(rank, rank + 1)
  {
  }

  lemma {:induction false} Highest(scores: seq<real>) returns (k: nat)
    requires scores != []
    ensures k < |scores| && forall x :: x in scores ==> x <= scores[k]
    decreases |scores|
  {
    k := 0;
    if |scores| > 1 {
      var j := Highest(scores[1..]);
      k := if scores[j + 1] > scores[0] then j + 1 else 0;
      assert scores == [scores[0]] + scores[1..];
    }
  }

  lemma HighestIsCounted(scores: seq<real>, k: nat)
    requires k < |scores| && forall x :: x in scores ==> x <= scores[k]
    ensures Count(scores, AtLeast(scores[k])) == HeldBy(scores, scores[k]) >= 1
  {
    CountMonotone(scores, AtLeast(scores[k]), Equals(scores[k]));
    CountMonotone(scores, Equals(scores[k]), AtLeast(scores[k]));
    CountApart(scores, k, Equals(scores[k]));
  }

  function Passed(scores: seq<real>, low: real, high: real): seq<real> {
    if scores == [] then []
    else (if low < scores[0] < high then [scores[0]] else []) + Passed(scores[1..], low, high)
  }

  /** The scores from a threshold up are those from the new score up, and the passed ones in between. */
  lemma {:induction false} PassedCounts(scores: seq<real>, low: real, high: real, x: real)
    requires low < x < high
    ensures Count(scores, AtLeast(x)) == Count(scores, AtLeast(high)) + Count(Passed(scores, low, high), AtLeast(x))
    ensures HeldBy(Passed(scores, low, high), x) == HeldBy(scores, x)
    decreases |scores|
  {
    if scores != [] {
      PassedCounts(scores[1..], low, high, x);
      if low < scores[0] < high {
        assert Passed(scores, low, high)[1..] == Passed(scores[1..], low, high);
      } else {
        assert Passed(scores, low, high) == Passed(scores[1..], low, high);
      }
    }
  }

  lemma {:induction false} PassedSize(scores: seq<real>, low: real, high: real)
    requires low < high
    ensures Count(scores, AtLeast(low))
         == Count(scores, AtLeast(high)) + |Passed(scores, low, high)| + HeldBy(scores, low)
    decreases |scores|
  {
    if scores != [] {
      PassedSize(scores[1..], low, high);
    }
  }

  lemma {:induction false} SumOverPassed(scores: seq<real>, low: real, high: real, f: real -> real, g: real -> real,
                                         step: real -> real)
    requires forall x :: x in scores ==> g(x) == f(x) + if low < x < high then step(x) else 0.0
    ensures Sum(scores, g) == Sum(scores, f) + Sum(Passed(scores, low, high), step)
    decreases |scores|
  {
    if scores != [] {
      SumOverPassed(scores[1..], low, high, f, g, step);
      if low < scores[0] < high {
        assert Passed(scores, low, high)[1..] == Passed(scores[1..], low, high);
      } else {
        assert Passed(scores, low, high) == Passed(scores[1..], low, high);
      }
    }
  }

  /** Against one negative where the raised one lands, only the passed positives' precisions change. */
  lemma OthersStep(positives: seq<real>, i: nat, high: real, x: real)
    requires i < |positives| && positives[i] < high && x in Others(positives, i) && x != high
    ensures var others := Others(positives, i);
            var passed := Passed(others, positives[i], high);
            PrecisionAt(positives[i := high], [high], x) == PrecisionAt(positives, [high], x)
              + if positives[i] < x < high then StepAt(passed, Count(others, AtLeast(high)))(x) else 0.0
  {
    var low, others := positives[i], Others(positives, i);
    assert [high][1..] == [];
    assert Count([high], AtLeast(x)) == if x <= high then 1 else 0;
    RaisedCount(positives, i, high, x);
    CountApart(positives, i, AtLeast(x));
    if low < x < high {
      PassedCounts(others, low, high, x);
    }
  }

  lemma RaisedOne(positives: seq<real>, i: nat, high: real)
    requires i < |positives| && positives[i] < high && high !in positives
    ensures var others, low := Others(positives, i), positives[i];
            var above, passed := Count(others, AtLeast(high)), |Passed(others, low, high)|;
            var rank := above + passed + HeldBy(positives, low);
            && HeldBy(positives, low) == HeldBy(others, low) + 1
            && PrecisionAt(positives, [high], low) == Ratio(rank, rank + 1)
            && PrecisionAt(positives[i := high], [high], high) == Ratio(above + 1, above + 2)
  {
    var others, low := Others(positives, i), positives[i];
    assert [high][1..] == [];
    OthersStay(positives, i, high);
    CountApart(positives, i, AtLeast(low));
    CountApart(positives, i, Equals(low));
    CountApart(positives[i := high], i, AtLeast(high));
    PassedSize(others, low, high);
    assert Count([high], AtLeast(low)) == Count([high], AtLeast(high)) == 1;
  }

  /** The precisions of the positives that were not raised, before and after. */
  lemma OthersSum(positives: seq<real>, i: nat, high: real)
    requires i < |positives| && positives[i] < high && high !in positives
    ensures var others := Others(positives, i);
            var passed := Passed(others, positives[i], high);
            Sum(others, PrecisionOver(positives[i := high], [high]))
              == Sum(others, PrecisionOver(positives, [high]))
                 + Sum(passed, StepAt(passed, Count(others, AtLeast(high))))
  {
    var low, others, raised := positives[i], Others(positives, i), positives[i := high];
    var above, passed := Count(others, AtLeast(high)), Passed(others, low, high);
    var before, after := PrecisionOver(positives, [high]), PrecisionOver(raised, [high]);
    forall x | x in others
      ensures after(x) == before(x) + if low < x < high then StepAt(passed, above)(x) else 0.0
    {
      var j := FromOthers(positives, i, x);
      assert positives[j] in positives;
      OthersStep(positives, i, high, x);
    }
    hide PrecisionAt, Count, Passed, Sum;
    SumOverPassed(others, low, high, before, after, StepAt(passed, above));
  }

  /** Past a tie it is not safe: one negative at the new score, and the area falls. */
  lemma RaisingPastATieHurts(positives: seq<real>, i: nat, high: real)
    requires i < |positives| && positives[i] < high && high !in positives && !Untied(positives, positives[i], high)
    ensures MeanPrecision(positives[i := high], [high]) < MeanPrecision(positives, [high])
  {
    hide PrecisionAt, Count, Passed, Sum, StepAt, Untied;
    var low, others, raised := positives[i], Others(positives, i), positives[i := high];
    var above, passed := Count(others, AtLeast(high)), Passed(others, low, high);
    var before, after := PrecisionOver(positives, [high]), PrecisionOver(raised, [high]);
    OthersStay(positives, i, high);
    OthersSum(positives, i, high);
    SumApart(positives, i, before);
    SumApart(raised, i, after);
    RaisedOne(positives, i, high);
    StepsAddUp(passed, above);
    TiesArePassed(positives, i, high);
    RatioRises(above + |passed| + 1, above + |passed| + HeldBy(positives, low), 1);
    assert Sum(raised, after) < Sum(positives, before);
    ScaledStrictly(Sum(raised, after), Sum(positives, before), |positives| as real);
  }

  lemma TiesArePassed(positives: seq<real>, i: nat, high: real)
    requires i < |positives| && positives[i] < high && !Untied(positives, positives[i], high)
    ensures || HeldBy(positives, positives[i]) >= 2
            || exists x :: HeldBy(Passed(Others(positives, i), positives[i], high), x) >= 2
  {
    var low, others := positives[i], Others(positives, i);
    var x :| low <= x < high && HeldBy(positives, x) > 1;
    if x != low {
      CountApart(positives, i, Equals(x));
      PassedCounts(others, low, high, x);
      assert HeldBy(Passed(others, low, high), x) >= 2;
    }
  }

  lemma ScaledStrictly(x: real, y: real, d: real)
    requires d > 0.0 && x < y
    ensures x / d < y / d
  {
    var a, b := x / d, y / d;
    assert a * d == x && b * d == y;
    Unscaled(b, a, d);
  }

  /** Raising a positive to a score no other holds lowers the area for no negatives at all exactly when no
      two positives, the raised one included, hold the same score on the way. */
  lemma RaisingIsSafeExactlyWhen(positives: seq<real>, i: nat, high: real)
    requires i < |positives| && positives[i] < high && high !in positives
    ensures (forall negatives: seq<real> ::
               MeanPrecision(positives, negatives) <= MeanPrecision(positives[i := high], negatives))
       <==> Untied(positives, positives[i], high)
  {
    var raised := positives[i := high];
    if Untied(positives, positives[i], high) {
      forall negatives: seq<real> ensures MeanPrecision(positives, negatives) <= MeanPrecision(raised, negatives) {
        RaisingUntiedNeverHurts(positives, i, high, negatives);
      }
    } else {
      RaisingPastATieHurts(positives, i, high);
    }
  }

  // ---------------------------------------------------------------- an instance

  lemma SumOfThree(a: real, b: real, c: real, f: real -> real)
    ensures Sum([a, b, c], f) == f(a) + f(b) + f(c)
  {
    assert [a, b, c][1..] == [b, c] && [b, c][1..] == [c] && [c][1..] == [];
    assert Sum([c], f) == f(c);
    assert Sum([b, c], f) == f(b) + f(c);
  }

  lemma CountOfThree(a: real, b: real, c: real, t: real)
    ensures Count([a, b, c], AtLeast(t))
         == (if a >= t then 1 else 0) + (if b >= t then 1 else 0) + if c >= t then 1 else 0
  {
    assert [a, b, c][1..] == [b, c] && [b, c][1..] == [c] && [c][1..] == [];
    assert Count([c], AtLeast(t)) == if c >= t then 1 else 0;
    assert Count([b, c], AtLeast(t)) == (if b >= t then 1 else 0) + if c >= t then 1 else 0;
  }

  lemma ThreeAgainstOne(a: real, b: real, c: real, t: real, negative: real)
    requires t <= negative
    ensures var found := (if a >= t then 1 else 0) + (if b >= t then 1 else 0) + if c >= t then 1 else 0;
            PrecisionAt([a, b, c], [negative], t) == Ratio(found, found + 1)
  {
    CountOfThree(a, b, c, t);
    assert [negative][1..] == [];
    assert Count([negative], AtLeast(t)) == 1;
  }

  lemma MeanOfThree(a: real, b: real, c: real, negative: real, value: real)
    requires var at := PrecisionOver([a, b, c], [negative]); at(a) + at(b) + at(c) == 3.0 * value
    ensures MeanPrecision([a, b, c], [negative]) == value
  {
    hide PrecisionAt;
    SumOfThree(a, b, c, PrecisionOver([a, b, c], [negative]));
  }

  /** Two tied positives passed: the area falls, tied with the negative at the new score or still under it. */
  lemma RaisingAPositiveCanHurt(negative: real)
    requires negative >= 3.0
    ensures MeanPrecision([2.0, 2.0, 1.0], [negative]) == 25.0 / 36.0
    ensures [2.0, 2.0, 1.0][2 := 3.0] == [2.0, 2.0, 3.0]
    ensures MeanPrecision([2.0, 2.0, 3.0], [negative]) == 2.0 / 3.0 < 25.0 / 36.0
  {
    hide PrecisionAt, MeanPrecision;
    ThreeAgainstOne(2.0, 2.0, 1.0, 1.0, negative);
    ThreeAgainstOne(2.0, 2.0, 1.0, 2.0, negative);
    MeanOfThree(2.0, 2.0, 1.0, negative, 25.0 / 36.0);
    ThreeAgainstOne(2.0, 2.0, 3.0, 2.0, negative);
    ThreeAgainstOne(2.0, 2.0, 3.0, 3.0, negative);
    MeanOfThree(2.0, 2.0, 3.0, negative, 2.0 / 3.0);
  }

  lemma OneTwoThree(n: nat)
    ensures Ratio(3, 3 + n) + Ratio(1, 1 + n) <= 2.0 * Ratio(2, 2 + n)
  {
    var a, b, c := 1.0 + n as real, 2.0 + n as real, 3.0 + n as real;
    Quotient(1.0, a);
    Quotient(2.0, b);
    Quotient(3.0, c);
    Products(n as real);
    hide Ratio;
    Cleared(1.0 / a, a, 1.0, 2.0 / b, b, 3.0 / c, c);
  }

  lemma Cleared(p: real, a: real, one: real, q: real, b: real, r: real, c: real)
    requires one == 1.0 && p * a == one && q * b == 2.0 && r * c == 3.0
    requires a > 0.0 && b > 0.0 && c > 0.0 && 3.0 * (a * b) + b * c <= 4.0 * (a * c)
    ensures r + p <= 2.0 * q
  {
    var d := a * (b * c);
    assert d == b * (a * c) == c * (a * b);
    Times(p, a, b * c);
    Times(q, b, a * c);
    Times(r, c, a * b);
    assert d > 0.0;
    assert (r + p) * d == r * d + p * d && (2.0 * q) * d == 2.0 * (q * d);
    Unscaled(r + p, 2.0 * q, d);
  }

  lemma Times(x: real, y: real, z: real)
    ensures x * (y * z) == (x * y) * z
  {
  }

  lemma Products(n: real)
    requires n >= 0.0
    ensures 3.0 * ((1.0 + n) * (2.0 + n)) + (2.0 + n) * (3.0 + n) <= 4.0 * ((1.0 + n) * (3.0 + n))
    ensures (1.0 + n) * (2.0 + n) * (3.0 + n) > 0.0
  {
    var s := n * n;
    assert (1.0 + n) * (2.0 + n) == s + 3.0 * n + 2.0;
    assert (2.0 + n) * (3.0 + n) == s + 5.0 * n + 6.0;
    assert (1.0 + n) * (3.0 + n) == s + 4.0 * n + 3.0;
    assert s >= 0.0;
    assert (s + 3.0 * n + 2.0) * (3.0 + n) > 0.0;
  }

  /** Joining another at the new score can outweigh the tie left behind: here no negatives lower the area,
      though two positives tie on the way. */
  lemma JoiningCanOutweighATie(negatives: seq<real>)
    ensures !Untied([1.0, 1.0, 2.0], 1.0, 2.0)
    ensures [1.0, 1.0, 2.0][0 := 2.0] == [2.0, 1.0, 2.0]
    ensures MeanPrecision([1.0, 1.0, 2.0], negatives) <= MeanPrecision([2.0, 1.0, 2.0], negatives)
  {
    TwoTie();
    JoinedPrecisions(negatives);
    hide Untied, PrecisionAt, Ratio, Count, MeanPrecision;
    PrecisionOfThree(1.0, 1.0, 2.0, 1.0, negatives);
    PrecisionOfThree(1.0, 1.0, 2.0, 2.0, negatives);
    PrecisionOfThree(2.0, 1.0, 2.0, 1.0, negatives);
    PrecisionOfThree(2.0, 1.0, 2.0, 2.0, negatives);
    ThreeCompare(1.0, 1.0, 2.0, 2.0, 1.0, 2.0, negatives);
  }

  lemma TwoTie()
    ensures !Untied([1.0, 1.0, 2.0], 1.0, 2.0)
  {
    TwoHold([1.0, 1.0, 2.0], 0, 1);
  }

  lemma JoinedPrecisions(negatives: seq<real>)
    ensures var low, high := Count(negatives, AtLeast(1.0)), Count(negatives, AtLeast(2.0));
            Ratio(3, 3 + low) + Ratio(1, 1 + high) <= 2.0 * Ratio(2, 2 + high)
  {
    var low, high := Count(negatives, AtLeast(1.0)), Count(negatives, AtLeast(2.0));
    CountMonotone(negatives, AtLeast(2.0), AtLeast(1.0));
    hide Ratio, Count;
    RatioFalls(3, 3 + high, 3 + low);
    OneTwoThree(high);
  }

  lemma PrecisionOfThree(a: real, b: real, c: real, t: real, negatives: seq<real>)
    ensures var found := (if a >= t then 1 else 0) + (if b >= t then 1 else 0) + if c >= t then 1 else 0;
            PrecisionAt([a, b, c], negatives, t) == Ratio(found, found + Count(negatives, AtLeast(t)))
  {
    CountOfThree(a, b, c, t);
    hide Count;
  }

  lemma ThreeCompare(a: real, b: real, c: real, d: real, e: real, f: real, negatives: seq<real>)
    requires var before, after := PrecisionOver([a, b, c], negatives), PrecisionOver([d, e, f], negatives);
             before(a) + before(b) + before(c) <= after(d) + after(e) + after(f)
    ensures MeanPrecision([a, b, c], negatives) <= MeanPrecision([d, e, f], negatives)
  {
    hide PrecisionAt;
    SumOfThree(a, b, c, PrecisionOver([a, b, c], negatives));
    SumOfThree(d, e, f, PrecisionOver([d, e, f], negatives));
    hide Sum;
    Scaled(Sum([a, b, c], PrecisionOver([a, b, c], negatives)),
           Sum([d, e, f], PrecisionOver([d, e, f], negatives)), 3.0);
  }
}
