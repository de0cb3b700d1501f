/** What the three retrieval metrics mean, said of the clauses and where they stand. */
module RetrievalGuarantees {
  import opened Options
  import opened Ratios
  import opened Tallies
  import opened Scoring
  import opened Retrieval

  // ---------------------------------------------------------------- one case

  /** A clause the case asks for, under the same edition, wherever in the source it stands. */
  predicate IsExpected(clause: Clause, expected: seq<Clause>) {
    exists e :: e in expected && e.identity == clause.identity
  }

  ghost predicate FirstIsAt(ranked: seq<Clause>, expected: seq<Clause>, n: nat) {
    && n < |ranked| && IsExpected(ranked[n], expected)
    && forall i :: 0 <= i < n ==> !IsExpected(ranked[i], expected)
  }

  lemma ExpectedIsWanted(clause: Clause, expected: seq<Clause>)
    ensures IsExpected(clause, expected) <==> clause.identity in Identities(expected)
  {
  }

  /** The rank is one over the place, counted from one, where an expected clause first stands, and nothing exactly
      where none was retrieved. */
  lemma WhatARankSays(ranked: seq<Clause>, expected: seq<Clause>)
    ensures forall n: nat :: FirstIsAt(ranked, expected, n) ==> RankOf(ranked, expected) == 1.0 / (n + 1) as real
    ensures RankOf(ranked, expected) == 0.0 <==> forall clause :: clause in ranked ==> !IsExpected(clause, expected)
    ensures RankOf(ranked, expected) == 1.0 <==> FirstIsAt(ranked, expected, 0)
  {
    var first := FirstExpected(ranked, expected);
    forall clause ensures IsExpected(clause, expected) <==> clause.identity in Identities(expected) {
      ExpectedIsWanted(clause, expected);
    }
    hide IsExpected, Identities;
    if first < |ranked| {
      assert FirstIsAt(ranked, expected, first) && ranked[first] in ranked;
      OneOver(first + 1, 1);
      OneOver(1, first + 1);
    }
  }

  /** A case is hit exactly when one of the first `depth` clauses retrieved is expected. */
  lemma WhatAHitSays(ranked: seq<Clause>, expected: seq<Clause>, depth: nat)
    ensures HitAt(ranked, expected, depth)
       <==> exists i :: 0 <= i < depth && i < |ranked| && IsExpected(ranked[i], expected)
  {
    HitIsAPlace(ranked, expected, depth);
    forall clause ensures IsExpected(clause, expected) <==> clause.identity in Identities(expected) {
      ExpectedIsWanted(clause, expected);
    }
    hide HitAt, Identities, IsExpected;
    var first := FirstExpected(ranked, expected);
    if first < |ranked| {
      assert IsExpected(ranked[first], expected);
    }
  }

  /** The last clause retrieved under a citation's identity, and whether the two could be on one page. */
  ghost predicate ResolvesTo(retrieved: seq<Clause>, citation: Clause, n: nat) {
    && n < |retrieved| && retrieved[n].identity == citation.identity
    && (forall i :: n < i < |retrieved| ==> retrieved[i].identity != citation.identity)
    && (citation.page == None || retrieved[n].page == None || citation.page == retrieved[n].page)
  }

  lemma {:induction false} FoundIsLast(retrieved: seq<Clause>, identity: Identity)
    ensures match Found(retrieved, identity)
            case None => forall i :: 0 <= i < |retrieved| ==> retrieved[i].identity != identity
            case Some(clause) =>
              exists n :: 0 <= n < |retrieved| && retrieved[n] == clause && clause.identity == identity
                && forall i :: n < i < |retrieved| ==> retrieved[i].identity != identity
    decreases |retrieved|
  {
    if |retrieved| > 0 && retrieved[|retrieved| - 1].identity != identity {
      FoundIsLast(retrieved[..|retrieved| - 1], identity);
    }
  }

  lemma WhatResolves(retrieved: seq<Clause>, citation: Clause)
    ensures Resolves(retrieved)(citation) <==> exists n :: ResolvesTo(retrieved, citation, n)
  {
    FoundIsLast(retrieved, citation.identity);
    if Resolves(retrieved)(citation) {
      var clause := Found(retrieved, citation.identity).value;
      var n :| 0 <= n < |retrieved| && retrieved[n] == clause && clause.identity == citation.identity
               && forall i :: n < i < |retrieved| ==> retrieved[i].identity != citation.identity;
      assert ResolvesTo(retrieved, citation, n);
    }
  }

  // ---------------------------------------------------------------- all the cases

  ghost predicate IsHitCase(c: RetrievalCase, answers: Retrieved, topK: nat) {
    && c.id in answers
    && exists i :: 0 <= i < topK && i < |answers[c.id].retrieved| && IsExpected(answers[c.id].retrieved[i], c.expected)
  }

  ghost predicate IsFirstCase(c: RetrievalCase, answers: Retrieved) {
    c.id in answers && FirstIsAt(answers[c.id].retrieved, c.expected, 0)
  }

  ghost predicate IsFoundCase(c: RetrievalCase, answers: Retrieved) {
    c.id in answers && exists clause :: clause in answers[c.id].retrieved && IsExpected(clause, c.expected)
  }

  /** The citation is one the case's answer makes. */
  ghost predicate IsCited(c: RetrievalCase, answers: Retrieved, citation: Clause) {
    c.id in answers && citation in answers[c.id].cited
  }

  ghost predicate SomethingCited(cases: seq<RetrievalCase>, answers: Retrieved) {
    exists c, citation :: c in cases && IsCited(c, answers, citation)
  }

  /** Every citation resolves to a clause its own case retrieved. */
  ghost predicate AllResolve(cases: seq<RetrievalCase>, answers: Retrieved) {
    forall c, citation :: c in cases && IsCited(c, answers, citation) ==>
      exists n :: ResolvesTo(answers[c.id].retrieved, citation, n)
  }

  lemma CaseMeans(c: RetrievalCase, answers: Retrieved, topK: nat)
    ensures IsHit(answers, topK)(c) <==> IsHitCase(c, answers, topK)
    ensures CaseRank(answers)(c) == 1.0 <==> IsFirstCase(c, answers)
    ensures CaseRank(answers)(c) == 0.0 <==> !IsFoundCase(c, answers)
    ensures 0.0 <= CaseRank(answers)(c) <= 1.0
  {
    hide HitAt, RankOf, IsExpected, FirstIsAt;
    WhatAHitSays(RetrievedFor(answers, c), c.expected, topK);
    WhatARankSays(RetrievedFor(answers, c), c.expected);
    HitsAreRanks(RetrievedFor(answers, c), c.expected, 1);
    NothingIsFirst(c.expected);
  }

  lemma NothingIsFirst(expected: seq<Clause>)
    ensures !FirstIsAt([], expected, 0)
  {
  }

  /** The rates are shares: the hits of the cases, the ranks of the cases, and the resolved of the cited. */
  lemma TheRatesAreShares(scores: Scores<RetrievalMetrics>, cases: seq<RetrievalCase>, answers: Option<Retrieved>,
                          topK: nat)
    requires IsRetrievalOf(scores, cases, answers, topK) && scores.Scored?
    ensures scores.metrics.hitRate == Ratio(Count(cases, IsHit(answers.value, topK)), |cases|)
    ensures scores.metrics.meanRank == Sum(cases, CaseRank(answers.value)) / |cases| as real
    ensures var resolved := Tally(cases, CaseResolved(answers.value));
            var cited := Tally(cases, CaseCited(answers.value));
            scores.metrics.citationValidity.Some? ==> scores.metrics.citationValidity == Some(Ratio(resolved, cited))
  {
  }

  /** The hit rate is one where every case is hit and nothing where none is; the mean rank is one exactly when an
      expected clause is ranked first in every case, and nothing exactly when none is retrieved in any. */
  lemma WhatTheRanksSay(scores: Scores<RetrievalMetrics>, cases: seq<RetrievalCase>, answers: Option<Retrieved>,
                        topK: nat)
    requires IsRetrievalOf(scores, cases, answers, topK) && scores.Scored?
    ensures var m := scores.metrics;
            && (m.hitRate == 1.0 <==> forall c :: c in cases ==> IsHitCase(c, answers.value, topK))
            && (m.hitRate == 0.0 <==> forall c :: c in cases ==> !IsHitCase(c, answers.value, topK))
            && (m.meanRank == 1.0 <==> forall c :: c in cases ==> IsFirstCase(c, answers.value))
            && (m.meanRank == 0.0 <==> forall c :: c in cases ==> !IsFoundCase(c, answers.value))
  {
    var hits, ranks := Count(cases, IsHit(answers.value, topK)), CaseRank(answers.value);
    forall c ensures IsHit(answers.value, topK)(c) <==> IsHitCase(c, answers.value, topK)
             ensures ranks(c) == 1.0 <==> IsFirstCase(c, answers.value)
             ensures ranks(c) == 0.0 <==> !IsFoundCase(c, answers.value)
             ensures 0.0 <= ranks(c) <= 1.0
    {
      CaseMeans(c, answers.value, topK);
    }
    hide IsHitCase, IsFirstCase, IsFoundCase, IsHit, CaseRank, Count, Tally, Sum, Ratio;
    CountAll(cases, IsHit(answers.value, topK));
    RatioIsAProportion(hits, |cases|);
    ProportionsAddUp(cases, ranks);
    MeanIsWhole(Sum(cases, ranks), |cases|);
  }

  lemma MeanIsWhole(sum: real, size: nat)
    requires 0.0 <= sum && size > 0
    ensures sum / size as real == 1.0 <==> sum == size as real
    ensures sum / size as real == 0.0 <==> sum == 0.0
  {
    Quotient(sum, size as real);
  }

  lemma NoneCited(cases: seq<RetrievalCase>, answers: Retrieved)
    ensures Tally(cases, CaseCited(answers)) == 0 <==> !SomethingCited(cases, answers)
  {
    if Tally(cases, CaseCited(answers)) == 0 {
      forall c, citation | c in cases && IsCited(c, answers, citation) ensures false {
        TallyIsPositive(cases, CaseCited(answers), c);
      }
    } else {
      var c := TallyHasSome(cases, CaseCited(answers));
      assert IsCited(c, answers, answers[c.id].cited[0]);
    }
  }

  lemma {:induction false} TallyIsPositive<T>(items: seq<T>, value: T -> nat, item: T)
    requires item in items
    ensures Tally(items, value) >= value(item)
    decreases |items|
  {
    if items[0] != item {
      TallyIsPositive(items[1..], value, item);
    }
  }

  lemma {:induction false} TallyHasSome<T>(items: seq<T>, value: T -> nat) returns (item: T)
    requires Tally(items, value) > 0
    ensures item in items && value(item) > 0
    decreases |items|
  {
    if value(items[0]) > 0 {
      item := items[0];
    } else {
      item := TallyHasSome(items[1..], value);
    }
  }

  lemma {:induction false} AllCitedResolve(cases: seq<RetrievalCase>, answers: Retrieved)
    ensures Tally(cases, CaseResolved(answers)) == Tally(cases, CaseCited(answers)) <==> AllResolve(cases, answers)
    decreases |cases|
  {
    if cases != [] {
      AllCitedResolve(cases[1..], answers);
      ResolvedAreCited(cases[1..], answers);
      CaseResolves(cases[0], answers);
      hide CaseResolved, CaseCited, IsCited, ResolvesTo;
      assert forall c :: c in cases <==> c == cases[0] || c in cases[1..];
    }
  }

  lemma CaseResolves(c: RetrievalCase, answers: Retrieved)
    ensures CaseResolved(answers)(c) <= CaseCited(answers)(c)
    ensures CaseResolved(answers)(c) == CaseCited(answers)(c)
       <==> forall citation :: IsCited(c, answers, citation) ==>
              exists n :: ResolvesTo(answers[c.id].retrieved, citation, n)
  {
    var retrieved, cited := RetrievedFor(answers, c), CitedFor(answers, c);
    CountAll(cited, Resolves(retrieved));
    hide Resolves, ResolvesTo, Count;
    forall citation ensures Resolves(retrieved)(citation) <==> exists n :: ResolvesTo(retrieved, citation, n) {
      WhatResolves(retrieved, citation);
    }
    assert forall citation :: IsCited(c, answers, citation) <==> citation in cited;
  }

  /** Citation validity is read exactly where something was cited, and is one exactly when every citation resolves. */
  lemma WhatTheCitationsSay(scores: Scores<RetrievalMetrics>, cases: seq<RetrievalCase>, answers: Option<Retrieved>,
                            topK: nat)
    requires IsRetrievalOf(scores, cases, answers, topK) && scores.Scored?
    ensures scores.metrics.citationValidity.Some? <==> SomethingCited(cases, answers.value)
    ensures scores.metrics.citationValidity == Some(1.0)
       <==> SomethingCited(cases, answers.value) && AllResolve(cases, answers.value)
  {
    var cited, resolved := Tally(cases, CaseCited(answers.value)), Tally(cases, CaseResolved(answers.value));
    NoneCited(cases, answers.value);
    AllCitedResolve(cases, answers.value);
    ResolvedAreCited(cases, answers.value);
    hide SomethingCited, AllResolve, Tally, Count, Sum, Ratio;
    RatioIsAProportion(resolved, cited);
  }

  /** What is reported as answered is how many of the cases have an answer of their own. */
  lemma HowManyWereAnswered(scores: Scores<RetrievalMetrics>, cases: seq<RetrievalCase>, answers: Option<Retrieved>,
                            topK: nat)
    requires IsRetrievalOf(scores, cases, answers, topK) && scores.Scored?
    ensures scores.answered == |set i | 0 <= i < |cases| && cases[i].id in answers.value|
  {
    CountIsSize(cases, WasAnswered(answers.value));
    assert Places(cases, WasAnswered(answers.value)) == set i | 0 <= i < |cases| && cases[i].id in answers.value;
  }
}
