/** What a run reads off the retrieval cases: hits at a depth, reciprocal ranks, and citations that resolve. */
module Retrieval {
  import opened Options
  import opened Ratios
  import opened Tallies
  import opened Scoring

  /** A clause under its edition; the page is where it stands, and no part of what it is. */
  datatype Identity = Identity(clause: string, edition: string)

  datatype Clause = Clause(identity: Identity, page: Option<nat>)

  datatype RetrievalCase = RetrievalCase(id: string, expected: seq<Clause>)

  datatype RetrievalAnswer = RetrievalAnswer(retrieved: seq<Clause>, cited: seq<Clause>)

  type Retrieved = map<string, RetrievalAnswer>

  datatype RetrievalMetrics = RetrievalMetrics(hitRate: real, meanRank: real, citationValidity: Option<real>)

  function Identities(clauses: seq<Clause>): set<Identity> {
    set clause | clause in clauses :: clause.identity
  }

  /** Where a ranking first names an expected clause, counted from zero; its length where it never does. */
  function FirstExpected(ranked: seq<Clause>, expected: seq<Clause>): (n: nat)
    ensures n <= |ranked|
    ensures forall i :: 0 <= i < n ==> ranked[i].identity !in Identities(expected)
    ensures n < |ranked| ==> ranked[n].identity in Identities(expected)
  {
    if ranked == [] || ranked[0].identity in Identities(expected) then 0 else 1 + FirstExpected(ranked[1..], expected)
  }

  function Firsts(ranked: seq<Clause>, depth: nat): seq<Clause> {
    if depth <= |ranked| then ranked[..depth] else ranked
  }

  /** Whether the two lists meet within the depth. */
  predicate HitAt(ranked: seq<Clause>, expected: seq<Clause>, depth: nat) {
    Identities(Firsts(ranked, depth)) * Identities(expected) != {}
  }

  function RankOf(ranked: seq<Clause>, expected: seq<Clause>): real {
    var n := FirstExpected(ranked, expected);
    if n == |ranked| then 0.0 else 1.0 / (n + 1) as real
  }

  method ReciprocalRank(ranked: seq<Clause>, expected: seq<Clause>) returns (rank: real)
    ensures rank == RankOf(ranked, expected)
  {
    var wanted := Identities(expected);
    for i := 0 to |ranked|
      invariant i <= FirstExpected(ranked, expected)
    {
      if ranked[i].identity in wanted {
        return 1.0 / (i + 1) as real;
      }
    }
    return 0.0;
  }

  /** A case is hit at a depth exactly when its reciprocal rank is at least one over that depth. */
  lemma HitsAreRanks(ranked: seq<Clause>, expected: seq<Clause>, depth: nat)
    requires depth >= 1
    ensures HitAt(ranked, expected, depth) <==> RankOf(ranked, expected) >= 1.0 / depth as real
    ensures 0.0 <= RankOf(ranked, expected) <= 1.0
  {
    var n := FirstExpected(ranked, expected);
    HitIsAPlace(ranked, expected, depth);
    hide HitAt;
    if n < |ranked| {
      OneOver(n + 1, depth);
      OneOver(n + 1, 1);
    } else {
      OneOver(depth, 1);
    }
  }

  lemma HitIsAPlace(ranked: seq<Clause>, expected: seq<Clause>, depth: nat)
    ensures HitAt(ranked, expected, depth)
       <==> FirstExpected(ranked, expected) < |ranked| && FirstExpected(ranked, expected) < depth
  {
    var n, firsts := FirstExpected(ranked, expected), Firsts(ranked, depth);
    if n < |ranked| && n < depth {
      assert firsts[n] == ranked[n];
      assert firsts[n].identity in Identities(firsts) * Identities(expected);
    }
    if HitAt(ranked, expected, depth) {
      var identity :| identity in Identities(firsts) * Identities(expected);
      var i :| 0 <= i < |firsts| && firsts[i].identity == identity;
      assert ranked[i].identity in Identities(expected) && n <= i;
    }
  }

  lemma OneOver(a: nat, b: nat)
    requires a >= 1 && b >= 1
    ensures 0.0 < 1.0 / a as real
    ensures 1.0 / a as real >= 1.0 / b as real <==> a <= b
  {
    var x, y := 1.0 / a as real, 1.0 / b as real;
    Quotient(1.0, a as real);
    Quotient(1.0, b as real);
    if a <= b {
      InverseFalls(x, a as real, y, b as real);
    } else {
      InverseFalls(y, b as real, x, a as real);
    }
  }

  // ---------------------------------------------------------------- citations

  /** The clause a citation names, as it was retrieved: the later of two under one identity. */
  function Found(retrieved: seq<Clause>, identity: Identity): Option<Clause>
    decreases |retrieved|
  {
    if |retrieved| == 0 then None
    else if retrieved[|retrieved| - 1].identity == identity then Some(retrieved[|retrieved| - 1])
    else Found(retrieved[..|retrieved| - 1], identity)
  }

  /** A citation resolves when its clause was retrieved, and the pages agree where both carry one. */
  function Resolves(retrieved: seq<Clause>): Clause -> bool {
    (citation: Clause) =>
      var found := Found(retrieved, citation.identity);
      found.Some? && (citation.page == None || found.value.page == None || citation.page == found.value.page)
  }

  method CitationCounts(retrieved: seq<Clause>, cited: seq<Clause>) returns (valid: nat, total: nat)
    ensures valid == Count(cited, Resolves(retrieved)) && total == |cited|
  {
    var resolved := Resolved(retrieved);
    valid := 0;
    assert cited[..0] == [];
    for i := 0 to |cited|
      invariant valid == Count(cited[..i], Resolves(retrieved))
    {
      var citation := cited[i];
      CountSnoc(cited, i, Resolves(retrieved));
      if citation.identity in resolved {
        var found := resolved[citation.identity];
        if citation.page == None || found.page == None || citation.page == found.page {
          valid := valid + 1;
        }
      }
    }
    assert cited[..|cited|] == cited;
    total := |cited|;
  }

  /** The retrieved clauses by identity, a later one in place of an earlier. */
  method Resolved(retrieved: seq<Clause>) returns (resolved: map<Identity, Clause>)
    ensures forall identity :: Found(retrieved, identity)
                            == if identity in resolved then Some(resolved[identity]) else None
  {
    resolved := map[];
    for i := 0 to |retrieved|
      invariant forall identity :: Found(retrieved[..i], identity)
                                == if identity in resolved then Some(resolved[identity]) else None
    {
      assert retrieved[..i + 1][..i] == retrieved[..i];
      resolved := resolved[retrieved[i].identity := retrieved[i]];
    }
    assert retrieved[..|retrieved|] == retrieved;
  }

  // ---------------------------------------------------------------- the measurement

  function RetrievedFor(answers: Retrieved, c: RetrievalCase): seq<Clause> {
    if c.id in answers then answers[c.id].retrieved else []
  }

  function CitedFor(answers: Retrieved, c: RetrievalCase): seq<Clause> {
    if c.id in answers then answers[c.id].cited else []
  }

  function IsHit(answers: Retrieved, topK: nat): RetrievalCase -> bool {
    (c: RetrievalCase) => HitAt(RetrievedFor(answers, c), c.expected, topK)
  }

  function CaseRank(answers: Retrieved): RetrievalCase -> real {
    (c: RetrievalCase) => RankOf(RetrievedFor(answers, c), c.expected)
  }

  function CaseCited(answers: Retrieved): RetrievalCase -> nat {
    (c: RetrievalCase) => |CitedFor(answers, c)|
  }

  function CaseResolved(answers: Retrieved): RetrievalCase -> nat {
    (c: RetrievalCase) => Count(CitedFor(answers, c), Resolves(RetrievedFor(answers, c)))
  }

  function WasAnswered(answers: Retrieved): RetrievalCase -> bool {
    (c: RetrievalCase) => c.id in answers
  }

  function MetricsFor(cases: seq<RetrievalCase>, answers: Retrieved, topK: nat): RetrievalMetrics
    requires cases != []
  {
    var cited, resolved := Tally(cases, CaseCited(answers)), Tally(cases, CaseResolved(answers));
    RetrievalMetrics(Ratio(Count(cases, IsHit(answers, topK)), |cases|),
                     Sum(cases, CaseRank(answers)) / |cases| as real,
                     if cited == 0 then None else Some(Ratio(resolved, cited)))
  }

  /** No cases, not answered, or the three metrics over all the cases. */
  ghost predicate IsRetrievalOf(scores: Scores<RetrievalMetrics>, cases: seq<RetrievalCase>, answers: Option<Retrieved>,
                                topK: nat) {
    && (scores == NoCases <==> cases == [])
    && (scores == NotAnswered <==> cases != [] && answers == None)
    && (scores.Scored? ==>
          scores == Scored(Count(cases, WasAnswered(answers.value)), MetricsFor(cases, answers.value, topK)))
  }

  /** Citation validity is read only where something was cited. */
  method MeasureRetrieval(cases: seq<RetrievalCase>, answers: Option<Retrieved>, topK: nat)
    returns (scores: Scores<RetrievalMetrics>)
    ensures IsRetrievalOf(scores, cases, answers, topK)
  {
    if cases == [] {
      return NoCases;
    }
    if answers == None {
      return NotAnswered;
    }
    var given := answers.value;
    var hits, ranks, cited, resolved, answered := 0, 0.0, 0, 0, 0;
    assert cases[..0] == [];
    for i := 0 to |cases|
      invariant hits == Count(cases[..i], IsHit(given, topK))
      invariant ranks == Sum(cases[..i], CaseRank(given))
      invariant cited == Tally(cases[..i], CaseCited(given)) && resolved == Tally(cases[..i], CaseResolved(given))
      invariant answered == Count(cases[..i], WasAnswered(given))
    {
      var c := cases[i];
      var retrieved := RetrievedFor(given, c);
      OneMoreCase(cases, i, given, topK);
      hide Count, Sum, Tally, HitAt, RankOf;
      answered := answered + if c.id in given then 1 else 0;
      hits := hits + if HitAt(retrieved, c.expected, topK) then 1 else 0;
      var rank := ReciprocalRank(retrieved, c.expected);
      ranks := ranks + rank;
      var valid, total := CitationCounts(retrieved, CitedFor(given, c));
      cited := cited + total;
      resolved := resolved + valid;
    }
    assert cases[..|cases|] == cases;
    scores := Scored(answered, RetrievalMetrics(Ratio(hits, |cases|), ranks / |cases| as real,
                                                if cited == 0 then None else Some(Ratio(resolved, cited))));
  }

  lemma OneMoreCase(cases: seq<RetrievalCase>, i: nat, given: Retrieved, topK: nat)
    requires i < |cases|
    ensures Count(cases[..i + 1], IsHit(given, topK))
         == Count(cases[..i], IsHit(given, topK)) + if IsHit(given, topK)(cases[i]) then 1 else 0
    ensures Sum(cases[..i + 1], CaseRank(given)) == Sum(cases[..i], CaseRank(given)) + CaseRank(given)(cases[i])
    ensures Tally(cases[..i + 1], CaseCited(given)) == Tally(cases[..i], CaseCited(given)) + CaseCited(given)(cases[i])
    ensures Tally(cases[..i + 1], CaseResolved(given))
         == Tally(cases[..i], CaseResolved(given)) + CaseResolved(given)(cases[i])
    ensures Count(cases[..i + 1], WasAnswered(given))
         == Count(cases[..i], WasAnswered(given)) + if cases[i].id in given then 1 else 0
  {
    CountSnoc(cases, i, IsHit(given, topK));
    CountSnoc(cases, i, WasAnswered(given));
    TallySnoc(cases, i, CaseCited(given));
    TallySnoc(cases, i, CaseResolved(given));
    assert cases[..i + 1] == cases[..i] + [cases[i]];
    SumConcat(cases[..i], [cases[i]], CaseRank(given));
    assert [cases[i]][1..] == [];
  }

  // ---------------------------------------------------------------- what the numbers say together

  lemma MetricsAreProportions(cases: seq<RetrievalCase>, answers: Retrieved, topK: nat)
    requires cases != [] && topK >= 1
    ensures var m := MetricsFor(cases, answers, topK);
            && 0.0 <= m.hitRate <= 1.0 && 0.0 <= m.meanRank <= 1.0
            && (m.citationValidity.Some? ==> 0.0 <= m.citationValidity.value <= 1.0)
  {
    var ranks := CaseRank(answers);
    CountAll(cases, IsHit(answers, topK));
    RatioIsAProportion(Count(cases, IsHit(answers, topK)), |cases|);
    ResolvedAreCited(cases, answers);
    RatioIsAProportion(Tally(cases, CaseResolved(answers)), Tally(cases, CaseCited(answers)));
    forall c | c in cases ensures 0.0 <= ranks(c) <= 1.0 {
      HitsAreRanks(RetrievedFor(answers, c), c.expected, 1);
    }
    hide Count, Tally, Sum, RankOf, HitAt, Ratio;
    ProportionsAddUp(cases, ranks);
    MeanIsAProportion(Sum(cases, ranks), |cases| as real);
  }

  lemma MeanIsAProportion(sum: real, size: real)
    requires 0.0 <= sum <= size && size > 0.0
    ensures 0.0 <= sum / size <= 1.0
  {
    Quotient(sum, size);
    Scaled(0.0, sum, size);
  }

  /** Some number of shares of one size. */
  function Shares(n: nat, share: real): real {
    n as real * share
  }

  lemma {:induction false} RanksReach(cases: seq<RetrievalCase>, answers: Retrieved, topK: nat, share: real)
    requires topK >= 1 && share == 1.0 / topK as real
    ensures Shares(Count(cases, IsHit(answers, topK)), share) <= Sum(cases, CaseRank(answers))
    decreases |cases|
  {
    if cases == [] {
      assert Shares(0, share) == 0.0;
    } else {
      RanksReach(cases[1..], answers, topK, share);
      HitReaches(RetrievedFor(answers, cases[0]), cases[0].expected, topK, share);
      OneMoreShare(Count(cases[1..], IsHit(answers, topK)), share);
      hide Shares, HitAt, RankOf;
    }
  }

  lemma HitReaches(ranked: seq<Clause>, expected: seq<Clause>, topK: nat, share: real)
    requires topK >= 1 && share == 1.0 / topK as real
    ensures 0.0 <= RankOf(ranked, expected) && (HitAt(ranked, expected, topK) ==> share <= RankOf(ranked, expected))
  {
    hide HitAt, RankOf;
    HitsAreRanks(ranked, expected, topK);
  }

  lemma OneMoreShare(n: nat, share: real)
    ensures Shares(n + 1, share) == Shares(n, share) + share
  {
  }

  /** The mean rank is never far below the hit rate: a hit at depth k ranks at least one over k. */
  lemma MeanRankFollowsHitRate(cases: seq<RetrievalCase>, answers: Retrieved, topK: nat)
    requires cases != [] && topK >= 1
    ensures var m := MetricsFor(cases, answers, topK); m.hitRate * (1.0 / topK as real) <= m.meanRank
  {
    var hits, share := Count(cases, IsHit(answers, topK)), 1.0 / topK as real;
    hide Count, Sum, Tally, Shares;
    RanksReach(cases, answers, topK, share);
    SharesOfMean(hits, |cases|, share, Sum(cases, CaseRank(answers)));
  }

  lemma SharesOfMean(hits: nat, size: nat, share: real, sum: real)
    requires size >= 1 && Shares(hits, share) <= sum
    ensures Ratio(hits, size) * share <= sum / size as real
  {
    Scaled(Shares(hits, share), sum, size as real);
    Regrouped(hits as real, share, size as real);
  }

  lemma Regrouped(a: real, b: real, d: real)
    requires d > 0.0
    ensures (a * b) / d == (a / d) * b
  {
    var q := a / d;
    assert q * d == a;
    assert (q * b) * d == (q * d) * b;
  }

  lemma {:induction false} ResolvedAreCited(cases: seq<RetrievalCase>, answers: Retrieved)
    ensures Tally(cases, CaseResolved(answers)) <= Tally(cases, CaseCited(answers))
    decreases |cases|
  {
    if cases != [] {
      ResolvedAreCited(cases[1..], answers);
      CountAll(CitedFor(answers, cases[0]), Resolves(RetrievedFor(answers, cases[0])));
    }
  }
}
