/** Average precision as the loop over tied groups computes it, and the order-free number it must be.

    Scores are reals, and so is the arithmetic. */
module AveragePrecision {
  import opened Options
  import opened Ratios
  import opened Tallies

  datatype Scored = Scored(score: real, positive: bool)

  // ---------------------------------------------------------------- the order-free definition

  function AtLeast(threshold: real): real -> bool {
    (score: real) => score >= threshold
  }

  /** Of the cases scoring at least this high, the share that is positive. */
  function PrecisionAt(positives: seq<real>, negatives: seq<real>, threshold: real): real {
    var found, other := Count(positives, AtLeast(threshold)), Count(negatives, AtLeast(threshold));
    Ratio(found, found + other)
  }

  function PrecisionOver(positives: seq<real>, negatives: seq<real>): real -> real {
    (threshold: real) => PrecisionAt(positives, negatives, threshold)
  }

  /** The mean, over the positives, of the precision at each one's own score. */
  function MeanPrecision(positives: seq<real>, negatives: seq<real>): real
    requires positives != []
  {
    Sum(positives, PrecisionOver(positives, negatives)) / |positives| as real
  }

  // ---------------------------------------------------------------- the loop

  function Labelled(scores: seq<real>, positive: bool): seq<Scored> {
    seq(|scores|, i requires 0 <= i < |scores| => Scored(scores[i], positive))
  }

  ghost predicate Descending(ranked: seq<Scored>) {
    forall i, j :: 0 <= i <= j < |ranked| ==> ranked[i].score >= ranked[j].score
  }

  function Spliced(ranked: seq<Scored>, i: nat, x: Scored): seq<Scored>
    requires i <= |ranked|
  {
    ranked[..i] + [x] + ranked[i..]
  }

  lemma SplicedHolds(ranked: seq<Scored>, i: nat, x: Scored)
    requires i <= |ranked|
    ensures multiset(Spliced(ranked, i, x)) == multiset(ranked) + multiset{x}
  {
    assert ranked == ranked[..i] + ranked[i..];
  }

  lemma SplicedAt(ranked: seq<Scored>, i: nat, x: Scored, j: nat)
    requires i <= |ranked| && j <= |ranked|
    ensures |Spliced(ranked, i, x)| == |ranked| + 1
    ensures Spliced(ranked, i, x)[j] == if j < i then ranked[j] else if j == i then x else ranked[j - 1]
  {
  }

  lemma InsertKeepsDescending(ranked: seq<Scored>, i: nat, x: Scored)
    requires Descending(ranked) && i <= |ranked|
    requires forall j :: 0 <= j < i ==> ranked[j].score >= x.score
    requires i < |ranked| ==> ranked[i].score < x.score
    ensures Descending(Spliced(ranked, i, x))
  {
    SplicedAt(ranked, i, x, 0);
    hide Spliced;
    forall j: nat, k: nat | j <= k <= |ranked|
      ensures Spliced(ranked, i, x)[j].score >= Spliced(ranked, i, x)[k].score
    {
      SplicedAt(ranked, i, x, j);
      SplicedAt(ranked, i, x, k);
    }
  }

  /** Where a case goes in a ranking: after everything that scores as high. */
  method Place(ranked: seq<Scored>, x: Scored) returns (i: nat)
    ensures i <= |ranked| && forall j :: 0 <= j < i ==> ranked[j].score >= x.score
    ensures i < |ranked| ==> ranked[i].score < x.score
  {
    i := 0;
    while i < |ranked| && ranked[i].score >= x.score
      invariant 0 <= i <= |ranked|
      invariant forall j :: 0 <= j < i ==> ranked[j].score >= x.score
    {
      i := i + 1;
    }
  }

  /** Sorts by score, highest first. */
  method Sorted(items: seq<Scored>) returns (ranked: seq<Scored>)
    ensures Descending(ranked) && multiset(ranked) == multiset(items)
  {
    ranked := [];
    for n := 0 to |items|
      invariant Descending(ranked) && multiset(ranked) == multiset(items[..n])
    {
      var i := Place(ranked, items[n]);
      InsertKeepsDescending(ranked, i, items[n]);
      SplicedHolds(ranked, i, items[n]);
      assert items[..n + 1] == items[..n] + [items[n]];
      ranked := Spliced(ranked, i, items[n]);
    }
    assert items[..|items|] == items;
  }

  function IsPositive(): Scored -> bool {
    (x: Scored) => x.positive
  }

  function Scores(threshold: real): Scored -> bool {
    (x: Scored) => x.score >= threshold
  }

  function PositiveScores(threshold: real): Scored -> bool {
    (x: Scored) => x.positive && x.score >= threshold
  }

  /** What one case adds to the area: a positive its precision, a negative nothing. */
  function Gain(ranked: seq<Scored>): Scored -> real {
    (x: Scored) => if x.positive then GroupPrecision(ranked, x.score) else 0.0
  }

  function GroupPrecision(ranked: seq<Scored>, threshold: real): real {
    var found, seen := Count(ranked, PositiveScores(threshold)), Count(ranked, Scores(threshold));
    Ratio(found, seen)
  }

  /** At the end of a group of equal scores, the counters are the counts at that score. */
  lemma GroupCounts(ranked: seq<Scored>, position: nat, threshold: real)
    requires Descending(ranked) && 0 < position <= |ranked|
    requires ranked[position - 1].score == threshold
    requires position < |ranked| ==> ranked[position].score < threshold
    ensures Count(ranked, Scores(threshold)) == position
    ensures Count(ranked, PositiveScores(threshold)) == Count(ranked[..position], IsPositive())
  {
    var a, b := ranked[..position], ranked[position..];
    assert ranked == a + b;
    CountConcat(a, b, Scores(threshold));
    CountConcat(a, b, PositiveScores(threshold));
    forall x | x in a ensures x.score >= threshold {
    }
    forall x | x in b ensures x.score < threshold {
    }
    CountAll(a, Scores(threshold));
    CountAll(b, Scores(threshold));
    CountAll(b, PositiveScores(threshold));
    CountMonotone(a, PositiveScores(threshold), IsPositive());
    CountMonotone(a, IsPositive(), PositiveScores(threshold));
  }

  /** A group of equal scores gains its precision once for each positive in it. */
  lemma {:induction false} GroupGain(group: seq<Scored>, ranked: seq<Scored>, threshold: real)
    requires forall x :: x in group ==> x.score == threshold
    ensures Sum(group, Gain(ranked)) == Count(group, IsPositive()) as real * GroupPrecision(ranked, threshold)
  {
    if group != [] {
      GroupGain(group[1..], ranked, threshold);
      var rest, p := Count(group[1..], IsPositive()) as real, GroupPrecision(ranked, threshold);
      assert (1.0 + rest) * p == p + rest * p;
    }
  }

  /** A proportion of the positives, read as what it is a proportion of. */
  ghost predicate StandsFor(share: real, count: real, value: real) {
    share * count == value
  }

  function Widened(area: real, recall: real, previous: real, precision: real): real {
    area + (recall - previous) * precision
  }

  /** What a step that takes the positives found from `before` to `found` adds up to. */
  function Gained(before: nat, found: nat, precision: real): real {
    (found as real - before as real) * precision
  }

  lemma StepUp(area: real, recall: real, previous: real, precision: real, count: real, sum: real, found: nat,
               before: nat)
    requires StandsFor(area, count, sum)
    requires StandsFor(recall, count, found as real) && StandsFor(previous, count, before as real)
    ensures StandsFor(Widened(area, recall, previous, precision), count, sum + Gained(before, found, precision))
  {
    assert ((recall - previous) * precision) * count == (recall * count - previous * count) * precision;
  }

  lemma RecallStands(found: nat, count: real)
    requires count > 0.0
    ensures StandsFor(found as real / count, count, found as real)
  {
    Quotient(found as real, count);
  }

  method AveragePrecision(positives: seq<real>, negatives: seq<real>) returns (area: Option<real>)
    ensures area == if positives == [] || negatives == [] then None
                    else Some(MeanPrecision(positives, negatives))
  {
    if positives == [] || negatives == [] {
      return None;
    }
    var ranked := Sorted(Labelled(positives, true) + Labelled(negatives, false));
    hide Sum, Gain, MeanPrecision;
    var total := AreaUnder(ranked, |positives| as real);
    RankedIsMean(positives, negatives, ranked, total);
    area := Some(total);
  }

  /** One step for each group of equal scores, from the top of the ranking. */
  method AreaUnder(ranked: seq<Scored>, positiveCount: real) returns (area: real)
    requires Descending(ranked) && positiveCount > 0.0
    ensures StandsFor(area, positiveCount, Sum(ranked, Gain(ranked)))
  {
    assert Count(ranked[..0], IsPositive()) == 0 && Sum(ranked[..0], Gain(ranked)) == 0.0;
    var found, seen, position := 0, 0, 0;
    var previousRecall := 0.0;
    area := 0.0;
    assert StandsFor(0.0, positiveCount, 0.0);
    hide Ratio, Count, Sum, Gain, IsPositive, Descending, StandsFor, Widened, Gained;
    while position < |ranked|
      invariant 0 <= position <= |ranked| && seen == position
      invariant found == Count(ranked[..position], IsPositive())
      invariant StandsFor(previousRecall, positiveCount, found as real)
      invariant StandsFor(area, positiveCount, Sum(ranked[..position], Gain(ranked)))
    {
      var threshold := ranked[position].score;
      ghost var start, before := position, found;
      while position < |ranked| && ranked[position].score == threshold
        invariant start <= position <= |ranked| && seen == position
        invariant position == start ==> ranked[position].score == threshold
        invariant forall i :: start <= i < position ==> ranked[i].score == threshold
        invariant found == Count(ranked[..position], IsPositive())
        decreases |ranked| - position
      {
        CountSnoc(ranked, position, IsPositive());
        found := found + if ranked[position].positive then 1 else 0;
        seen := seen + 1;
        position := position + 1;
      }
      GroupSum(ranked, start, position, threshold);
      var recall := found as real / positiveCount;
      RecallStands(found, positiveCount);
      assert StandsFor(recall, positiveCount, found as real);
      StepUp(area, recall, previousRecall, Ratio(found, seen), positiveCount,
             Sum(ranked[..start], Gain(ranked)), found, before);
      area := Widened(area, recall, previousRecall, Ratio(found, seen));
      previousRecall := recall;
    }
    assert ranked[..|ranked|] == ranked;
  }

  /** One step of the outer loop gains the group's precision for each positive it found. */
  lemma GroupSum(ranked: seq<Scored>, start: nat, position: nat, threshold: real)
    requires Descending(ranked) && start < position <= |ranked|
    requires forall i :: start <= i < position ==> ranked[i].score == threshold
    requires position < |ranked| ==> ranked[position].score != threshold
    ensures var before, found := Count(ranked[..start], IsPositive()), Count(ranked[..position], IsPositive());
            Sum(ranked[..position], Gain(ranked))
              == Sum(ranked[..start], Gain(ranked)) + Gained(before, found, Ratio(found, position))
  {
    hide Sum, Count, Gain, Ratio, IsPositive;
    var group := ranked[start..position];
    assert ranked[position - 1].score == threshold;
    assert position < |ranked| ==> ranked[position - 1].score >= ranked[position].score;
    assert ranked[..position] == ranked[..start] + group;
    GroupCounts(ranked, position, threshold);
    GroupGain(group, ranked, threshold);
    SumConcat(ranked[..start], group, Gain(ranked));
    CountConcat(ranked[..start], group, IsPositive());
  }

  lemma {:induction false} LabelledCount(scores: seq<real>, positive: bool, threshold: real)
    ensures Count(Labelled(scores, positive), Scores(threshold)) == Count(scores, AtLeast(threshold))
    ensures Count(Labelled(scores, positive), PositiveScores(threshold))
         == if positive then Count(scores, AtLeast(threshold)) else 0
  {
    if scores != [] {
      assert Labelled(scores, positive)[1..] == Labelled(scores[1..], positive);
      LabelledCount(scores[1..], positive, threshold);
    }
  }

  lemma {:induction false} LabelledSum(scores: seq<real>, positive: bool, ranked: seq<Scored>, value: real -> real)
    requires forall t :: GroupPrecision(ranked, t) == value(t)
    ensures Sum(Labelled(scores, positive), Gain(ranked)) == if positive then Sum(scores, value) else 0.0
  {
    if scores != [] {
      assert Labelled(scores, positive)[1..] == Labelled(scores[1..], positive);
      LabelledSum(scores[1..], positive, ranked, value);
    }
  }

  /** The ranking's own group precision is the order-free one. */
  lemma RankedPrecision(positives: seq<real>, negatives: seq<real>, ranked: seq<Scored>, t: real)
    requires multiset(ranked) == multiset(Labelled(positives, true) + Labelled(negatives, false))
    ensures GroupPrecision(ranked, t) == PrecisionAt(positives, negatives, t)
  {
    var p, n := Labelled(positives, true), Labelled(negatives, false);
    CountPermutes(ranked, p + n, Scores(t));
    CountPermutes(ranked, p + n, PositiveScores(t));
    CountConcat(p, n, Scores(t));
    CountConcat(p, n, PositiveScores(t));
    LabelledCount(positives, true, t);
    LabelledCount(negatives, false, t);
  }

  lemma RankedSum(positives: seq<real>, negatives: seq<real>, ranked: seq<Scored>)
    requires multiset(ranked) == multiset(Labelled(positives, true) + Labelled(negatives, false))
    ensures Sum(ranked, Gain(ranked)) == Sum(positives, PrecisionOver(positives, negatives))
  {
    var p, n := Labelled(positives, true), Labelled(negatives, false);
    forall t ensures GroupPrecision(ranked, t) == PrecisionOver(positives, negatives)(t) {
      RankedPrecision(positives, negatives, ranked, t);
    }
    hide Sum, Gain, PrecisionOver, Labelled, GroupPrecision;
    SumPermutes(ranked, p + n, Gain(ranked));
    SumConcat(p, n, Gain(ranked));
    LabelledSum(positives, true, ranked, PrecisionOver(positives, negatives));
    LabelledSum(negatives, false, ranked, PrecisionOver(positives, negatives));
  }

  lemma RankedIsMean(positives: seq<real>, negatives: seq<real>, ranked: seq<Scored>, total: real)
    requires positives != []
    requires multiset(ranked) == multiset(Labelled(positives, true) + Labelled(negatives, false))
    requires StandsFor(total, |positives| as real, Sum(ranked, Gain(ranked)))
    ensures total == MeanPrecision(positives, negatives)
  {
    RankedSum(positives, negatives, ranked);
    hide Sum, Gain, PrecisionOver, StandsFor;
    Determined(total, |positives| as real, Sum(positives, PrecisionOver(positives, negatives)));
  }

  lemma Determined(share: real, count: real, value: real)
    requires count > 0.0 && StandsFor(share, count, value)
    ensures share == value / count
  {
    Quotient(value, count);
    Unscaled(share, value / count, count);
    Unscaled(value / count, share, count);
  }

  // ---------------------------------------------------------------- what the number says

  /** The order the scores come in does not matter. */
  lemma OrderIsIgnored(positives: seq<real>, negatives: seq<real>, p: seq<real>, n: seq<real>)
    requires positives != [] && multiset(p) == multiset(positives) && multiset(n) == multiset(negatives)
    ensures p != [] && MeanPrecision(p, n) == MeanPrecision(positives, negatives)
  {
    assert |p| == |multiset(p)| == |positives|;
    forall t ensures PrecisionAt(p, n, t) == PrecisionAt(positives, negatives, t) {
      CountPermutes(p, positives, AtLeast(t));
      CountPermutes(n, negatives, AtLeast(t));
    }
    SumPermutes(p, positives, PrecisionOver(p, n));
    SumMonotone(positives, PrecisionOver(p, n), PrecisionOver(positives, negatives));
  }

  /** At a positive's own score there is something found, and nothing but positives exactly when no
      negative scores as high. */
  lemma OwnPrecision(positives: seq<real>, negatives: seq<real>, score: real)
    requires score in positives
    ensures 0.0 < PrecisionAt(positives, negatives, score) <= 1.0
    ensures PrecisionAt(positives, negatives, score) == 1.0 <==> forall n :: n in negatives ==> n < score
  {
    CountAll(positives, AtLeast(score));
    CountAll(negatives, AtLeast(score));
    assert AtLeast(score)(score);
    var found, other := Count(positives, AtLeast(score)), Count(negatives, AtLeast(score));
    RatioIsAProportion(found, found + other);
    assert other == 0 <==> forall n :: n in negatives ==> !AtLeast(score)(n);
  }

  /** The precisions at the positives' own scores add up to the number of positives at most, and to
      that only when all of them are 1. */
  lemma PrecisionsAddUp(positives: seq<real>, negatives: seq<real>)
    requires positives != []
    ensures var total := Sum(positives, PrecisionOver(positives, negatives));
            0.0 < total <= |positives| as real
    ensures Sum(positives, PrecisionOver(positives, negatives)) == |positives| as real
       <==> forall p :: p in positives ==> PrecisionAt(positives, negatives, p) == 1.0
  {
    var f := PrecisionOver(positives, negatives);
    forall p | p in positives ensures 0.0 < f(p) <= 1.0 {
      OwnPrecision(positives, negatives, p);
    }
    hide Sum, PrecisionAt;
    ProportionsAddUp(positives, f);
    assert positives[0] in positives;
  }

  /** The area lies in (0, 1], and is 1 exactly when every positive scores strictly above every negative. */
  lemma AreaIsAProportion(positives: seq<real>, negatives: seq<real>)
    requires positives != []
    ensures 0.0 < MeanPrecision(positives, negatives) <= 1.0
    ensures MeanPrecision(positives, negatives) == 1.0
       <==> forall p, n :: p in positives && n in negatives ==> n < p
  {
    forall p | p in positives
      ensures PrecisionAt(positives, negatives, p) == 1.0 <==> forall n :: n in negatives ==> n < p
    {
      OwnPrecision(positives, negatives, p);
    }
    hide Sum, PrecisionAt, PrecisionOver;
    PrecisionsAddUp(positives, negatives);
    Quotient(Sum(positives, PrecisionOver(positives, negatives)), |positives| as real);
  }

  /** When nothing is told apart, the area is the share of positives. */
  lemma TiesGiveThePrevalence(positives: seq<real>, negatives: seq<real>, score: real)
    requires positives != []
    requires (forall p :: p in positives ==> p == score) && (forall n :: n in negatives ==> n == score)
    ensures MeanPrecision(positives, negatives) == Ratio(|positives|, |positives| + |negatives|)
  {
    var share := Ratio(|positives|, |positives| + |negatives|);
    TiedPrecision(positives, negatives, score);
    hide Ratio, Sum, PrecisionAt;
    SumConstant(positives, PrecisionOver(positives, negatives), share);
    Undo(|positives| as real, share);
  }

  lemma TiedPrecision(positives: seq<real>, negatives: seq<real>, score: real)
    requires (forall p :: p in positives ==> p == score) && (forall n :: n in negatives ==> n == score)
    ensures PrecisionAt(positives, negatives, score) == Ratio(|positives|, |positives| + |negatives|)
  {
    CountAll(positives, AtLeast(score));
    CountAll(negatives, AtLeast(score));
    hide Ratio, Count;
    assert forall x :: x == score ==> AtLeast(score)(x);
  }

  lemma Undo(size: real, share: real)
    requires size > 0.0
    ensures (size * share) / size == share
  {
  }

  /** Lowering a negative's score never lowers the area. */
  lemma LoweringANegativeNeverHurts(positives: seq<real>, negatives: seq<real>, i: nat, lower: real)
    requires positives != [] && i < |negatives| && lower <= negatives[i]
    ensures MeanPrecision(positives, negatives) <= MeanPrecision(positives, negatives[i := lower])
  {
    var lowered := negatives[i := lower];
    forall p | p in positives
      ensures PrecisionOver(positives, negatives)(p) <= PrecisionOver(positives, lowered)(p)
    {
      CountLowered(negatives, i, lower, p);
      CountAll(positives, AtLeast(p));
      assert AtLeast(p)(p);
      RatioFalls(Count(positives, AtLeast(p)), Count(positives, AtLeast(p)) + Count(lowered, AtLeast(p)),
                 Count(positives, AtLeast(p)) + Count(negatives, AtLeast(p)));
    }
    SumMonotone(positives, PrecisionOver(positives, negatives), PrecisionOver(positives, lowered));
    Scaled(Sum(positives, PrecisionOver(positives, negatives)), Sum(positives, PrecisionOver(positives, lowered)),
          |positives| as real);
  }

  lemma CountLowered(scores: seq<real>, i: nat, lower: real, threshold: real)
    requires i < |scores| && lower <= scores[i]
    ensures Count(scores[i := lower], AtLeast(threshold)) <= Count(scores, AtLeast(threshold))
  {
    assert scores == scores[..i] + ([scores[i]] + scores[i + 1..]);
    assert scores[i := lower] == scores[..i] + ([lower] + scores[i + 1..]);
    CountConcat(scores[..i], [scores[i]] + scores[i + 1..], AtLeast(threshold));
    CountConcat(scores[..i], [lower] + scores[i + 1..], AtLeast(threshold));
    CountConcat([scores[i]], scores[i + 1..], AtLeast(threshold));
    CountConcat([lower], scores[i + 1..], AtLeast(threshold));
  }
}
