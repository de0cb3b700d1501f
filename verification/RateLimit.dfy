/** The token bucket: lazy refill, one token a submission, and what a caller can count on.

    Seconds and tokens are reals. The clock is read once a take, and is an argument here; it is a
    monotonic clock, and what happens on one that runs backwards is `BackwardsClockPaysTwice`. */
module RateLimit {

  datatype Limit = Limit(burst: nat, refillPerSecond: real) {
    /** The configuration refuses anything else. */
    predicate Configured() {
      burst >= 1 && refillPerSecond > 0.0
    }
  }

  type Configured = l: Limit | l.Configured() witness Limit(1, 1.0)

  datatype Admission = Admission(passed: bool, waitSeconds: real)

  datatype Tokens = Tokens(level: real, filledAt: real)

  function Min(a: real, b: real): real {
    if a <= b then a else b
  }

  function Max(a: real, b: real): real {
    if a >= b then a else b
  }

  function Full(limit: Configured, now: real): Tokens {
    Tokens(limit.burst as real, now)
  }

  function Level(limit: Configured, tokens: Tokens, now: real): real {
    Min(limit.burst as real, tokens.level + Max(now - tokens.filledAt, 0.0) * limit.refillPerSecond)
  }

  function Taken(limit: Configured, tokens: Tokens, now: real): (Tokens, Admission) {
    var level := Level(limit, tokens, now);
    if level >= 1.0 then (Tokens(level - 1.0, now), Admission(true, 0.0))
    else (Tokens(level, now), Admission(false, (1.0 - level) / limit.refillPerSecond))
  }

  /** The mutable bucket: a level, and the reading it was brought up to. */
  class Bucket {
    const limit: Configured
    var tokens: real
    var filledAt: real

    function View(): Tokens
      reads this
    {
      Tokens(tokens, filledAt)
    }

    constructor (limit: Configured, now: real)
      ensures this.limit == limit && View() == Full(limit, now)
    {
      this.limit := limit;
      tokens, filledAt := limit.burst as real, now;
    }

    method Take(now: real) returns (admission: Admission)
      modifies this
      ensures (View(), admission) == Taken(limit, old(View()), now)
    {
      var elapsed := Max(now - filledAt, 0.0);
      tokens := Min(limit.burst as real, tokens + elapsed * limit.refillPerSecond);
      filledAt := now;
      if tokens >= 1.0 {
        tokens := tokens - 1.0;
        return Admission(true, 0.0);
      }
      return Admission(false, (1.0 - tokens) / limit.refillPerSecond);
    }
  }

  // ---------------------------------------------------------------- a run of takes

  ghost predicate Sane(limit: Configured, tokens: Tokens) {
    0.0 <= tokens.level <= limit.burst as real
  }

  ghost predicate NeverStepsBack(times: seq<real>) {
    forall i, j :: 0 <= i <= j < |times| ==> times[i] <= times[j]
  }

  ghost predicate Forwards(tokens: Tokens, times: seq<real>) {
    (times != [] ==> tokens.filledAt <= times[0]) && NeverStepsBack(times)
  }

  function After(limit: Configured, tokens: Tokens, times: seq<real>): Tokens
    decreases |times|
  {
    if times == [] then tokens else After(limit, Taken(limit, tokens, times[0]).0, times[1..])
  }

  function Answers(limit: Configured, tokens: Tokens, times: seq<real>): (answers: seq<Admission>)
    ensures |answers| == |times|
    decreases |times|
  {
    if times == [] then []
    else
      var (left, admission) := Taken(limit, tokens, times[0]);
      [admission] + Answers(limit, left, times[1..])
  }

  function Admitted(answers: seq<Admission>): nat {
    if answers == [] then 0 else (if answers[0].passed then 1 else 0) + Admitted(answers[1..])
  }

  function EndOf(tokens: Tokens, times: seq<real>): real {
    if times == [] then tokens.filledAt else times[|times| - 1]
  }

  /** The tokens a span of time gives back. */
  function Returned(limit: Configured, since: real, until: real): real {
    limit.refillPerSecond * (until - since)
  }

  lemma TimeAddsUp(limit: Configured, a: real, b: real, c: real)
    ensures Returned(limit, a, c) == Returned(limit, a, b) + Returned(limit, b, c)
    ensures a <= b ==> Returned(limit, a, b) >= 0.0
    ensures b <= c ==> Returned(limit, b, c) >= 0.0
  {
  }

  /** Elapsed time is paid for once, and never with less than nothing. */
  lemma RefillIsPaid(limit: Configured, tokens: Tokens, now: real)
    requires tokens.filledAt <= now
    ensures Level(limit, tokens, now)
         == Min(limit.burst as real, tokens.level + Returned(limit, tokens.filledAt, now))
    ensures Returned(limit, tokens.filledAt, now) >= 0.0
  {
  }

  lemma TakenIsSane(limit: Configured, tokens: Tokens, now: real)
    requires Sane(limit, tokens)
    ensures Sane(limit, Taken(limit, tokens, now).0)
    ensures Taken(limit, tokens, now).0.filledAt == now
  {
    var elapsed := Max(now - tokens.filledAt, 0.0);
    assert elapsed * limit.refillPerSecond >= 0.0;
  }

  /** Tokens stay between nothing and the burst, whatever the clock says. */
  lemma {:induction false} TokensStayInRange(limit: Configured, tokens: Tokens, times: seq<real>)
    requires Sane(limit, tokens)
    ensures Sane(limit, After(limit, tokens, times))
    decreases |times|
  {
    if times != [] {
      TakenIsSane(limit, tokens, times[0]);
      TokensStayInRange(limit, Taken(limit, tokens, times[0]).0, times[1..]);
    }
  }

  /** The time a clock moves forwards over some readings; what it steps back is not taken off. */
  function ForwardTime(since: real, times: seq<real>): real
    decreases |times|
  {
    if times == [] then 0.0 else Max(times[0] - since, 0.0) + ForwardTime(times[0], times[1..])
  }

  /** One take spends what it admits out of what was there and what the clock's move forwards gives. */
  lemma TakeIsConserved(limit: Configured, tokens: Tokens, now: real)
    ensures var (left, admission) := Taken(limit, tokens, now);
            (if admission.passed then 1.0 else 0.0) + left.level
              <= tokens.level + Returned(limit, 0.0, Max(now - tokens.filledAt, 0.0))
  {
  }

  /** Conservation on any clock: what was admitted and what is left never exceed what was there and what
      every move forwards gave back. */
  lemma {:induction false} TokensAreConservedOnAnyClock(limit: Configured, tokens: Tokens, times: seq<real>)
    requires Sane(limit, tokens)
    ensures Admitted(Answers(limit, tokens, times)) as real + After(limit, tokens, times).level
         <= tokens.level + Returned(limit, 0.0, ForwardTime(tokens.filledAt, times))
    decreases |times|
  {
    if times == [] {
      assert Returned(limit, 0.0, 0.0) == 0.0;
    } else {
      var now := times[0];
      var (left, admission) := Taken(limit, tokens, now);
      var moved, later := Max(now - tokens.filledAt, 0.0), ForwardTime(now, times[1..]);
      TakeIsConserved(limit, tokens, now);
      TakenIsSane(limit, tokens, now);
      hide Taken, Returned;
      var rest := Answers(limit, left, times[1..]);
      assert Answers(limit, tokens, times) == [admission] + rest && ([admission] + rest)[1..] == rest;
      TokensAreConservedOnAnyClock(limit, left, times[1..]);
      SpansAddUp(limit, moved, later);
    }
  }

  lemma SpansAddUp(limit: Configured, a: real, b: real)
    ensures Returned(limit, 0.0, a + b) == Returned(limit, 0.0, a) + Returned(limit, 0.0, b)
  {
  }

  lemma {:induction false} ForwardsIsElapsed(tokens: Tokens, times: seq<real>)
    requires Forwards(tokens, times)
    ensures ForwardTime(tokens.filledAt, times) == EndOf(tokens, times) - tokens.filledAt
    decreases |times|
  {
    if times != [] {
      var next := Tokens(0.0, times[0]);
      assert forall i :: 0 <= i < |times| - 1 ==> times[1..][i] == times[i + 1];
      ForwardsIsElapsed(next, times[1..]);
      assert EndOf(next, times[1..]) == EndOf(tokens, times);
    }
  }

  /** On a clock that does not step back: what was admitted and what is left never exceed what was there and
      what the time elapsed gave back. */
  lemma TokensAreConserved(limit: Configured, tokens: Tokens, times: seq<real>)
    requires Sane(limit, tokens) && Forwards(tokens, times)
    ensures Admitted(Answers(limit, tokens, times)) as real + After(limit, tokens, times).level
         <= tokens.level + Returned(limit, tokens.filledAt, EndOf(tokens, times))
  {
    hide Answers, After, ForwardTime, Returned, Admitted;
    TokensAreConservedOnAnyClock(limit, tokens, times);
    ForwardsIsElapsed(tokens, times);
    SpanIsTime(limit, tokens.filledAt, EndOf(tokens, times));
  }

  lemma SpanIsTime(limit: Configured, since: real, until: real)
    ensures Returned(limit, 0.0, until - since) == Returned(limit, since, until)
  {
  }

  /** Whatever stretch of takes: no more than a burst and the refill of the time between its ends. */
  ghost predicate StretchIsWithin(limit: Configured, tokens: Tokens, times: seq<real>)
    requires times != []
  {
    Admitted(Answers(limit, tokens, times)) as real
      <= limit.burst as real + Returned(limit, times[0], times[|times| - 1])
  }

  /** Any stretch of takes on readings that do not step back, from whatever state the bucket is in, admits
      at most a burst and the refill of the time it spans. */
  lemma StretchIsBounded(limit: Configured, tokens: Tokens, times: seq<real>)
    requires Sane(limit, tokens) && NeverStepsBack(times) && times != []
    ensures StretchIsWithin(limit, tokens, times)
  {
    hide Answers, After, Level, Returned;
    var refilled := Tokens(Level(limit, tokens, times[0]), times[0]);
    RefilledFirst(limit, tokens, times);
    TokensAreConserved(limit, refilled, times);
    TokensStayInRange(limit, refilled, times);
  }

  /** Nobody is refused what is there: as many takes as there are whole tokens are all admitted, however
      close together they come. */
  lemma {:induction false} TokensAreHonoured(limit: Configured, tokens: Tokens, times: seq<real>)
    requires Sane(limit, tokens) && Forwards(tokens, times) && |times| as real <= tokens.level
    ensures Admitted(Answers(limit, tokens, times)) == |times|
    decreases |times|
  {
    if times != [] {
      var (left, admission) := Taken(limit, tokens, times[0]);
      RefillIsPaid(limit, tokens, times[0]);
      TakenIsSane(limit, tokens, times[0]);
      hide Returned;
      TokensAreHonoured(limit, left, times[1..]);
      assert Answers(limit, tokens, times)[1..] == Answers(limit, left, times[1..]);
    }
  }

  /** A bucket of n whole tokens after k takes at its own reading. */
  function Spent(n: nat, k: nat, now: real): Tokens {
    Tokens(if k < n then (n - k) as real else 0.0, now)
  }

  /** What a full bucket answers to takes at one and the same reading: `burst` of them are admitted, and each one
      after them is told to wait for one whole token. */
  lemma OneAtOnce(limit: Configured, k: nat, now: real)
    ensures Full(limit, now) == Spent(limit.burst, 0, now)
    ensures Taken(limit, Spent(limit.burst, k, now), now)
         == (Spent(limit.burst, k + 1, now),
             if k < limit.burst then Admission(true, 0.0) else Admission(false, 1.0 / limit.refillPerSecond))
  {
  }

  /** Nor is a caller that keeps to the refill: takes that each find their token returned are all admitted. */
  lemma {:induction false} SteadyCallersAreAdmitted(limit: Configured, tokens: Tokens, times: seq<real>)
    requires Sane(limit, tokens) && Forwards(tokens, times)
    requires times != [] ==> Level(limit, tokens, times[0]) >= 1.0
    requires forall i :: 0 <= i < |times| - 1 ==> Returned(limit, times[i], times[i + 1]) >= 1.0
    ensures Admitted(Answers(limit, tokens, times)) == |times|
    decreases |times|
  {
    if times != [] {
      var (left, admission) := Taken(limit, tokens, times[0]);
      TakenIsSane(limit, tokens, times[0]);
      if |times| > 1 {
        RefillIsPaid(limit, left, times[1]);
        assert Returned(limit, times[0], times[1]) >= 1.0;
      }
      var rest := times[1..];
      assert forall i :: 0 <= i < |rest| ==> rest[i] == times[i + 1];
      hide Returned;
      SteadyCallersAreAdmitted(limit, left, rest);
      assert Answers(limit, tokens, times)[1..] == Answers(limit, left, rest);
    }
  }

  /** Refilling a bucket just before a take at the same reading changes no answer. */
  lemma RefilledFirst(limit: Configured, tokens: Tokens, times: seq<real>)
    requires Sane(limit, tokens) && times != []
    ensures var refilled := Tokens(Level(limit, tokens, times[0]), times[0]);
            && Sane(limit, refilled)
            && Answers(limit, refilled, times) == Answers(limit, tokens, times)
  {
    var refilled := Tokens(Level(limit, tokens, times[0]), times[0]);
    assert Max(times[0] - tokens.filledAt, 0.0) * limit.refillPerSecond >= 0.0;
    assert Level(limit, refilled, times[0]) == refilled.level;
    assert Taken(limit, refilled, times[0]) == Taken(limit, tokens, times[0]);
  }

  // ---------------------------------------------------------------- refusals

  /** Two states a caller cannot tell apart from some time on: they level alike at every later reading. */
  ghost predicate SameFrom(limit: Configured, a: Tokens, b: Tokens, since: real) {
    forall now :: now >= since ==> Level(limit, a, now) == Level(limit, b, now)
  }

  lemma RefusalLeavesNoTrace(limit: Configured, tokens: Tokens, now: real)
    requires Sane(limit, tokens) && tokens.filledAt <= now && !Taken(limit, tokens, now).1.passed
    ensures SameFrom(limit, Taken(limit, tokens, now).0, tokens, now)
  {
    var left := Taken(limit, tokens, now).0;
    RefillIsPaid(limit, tokens, now);
    hide Returned, Level;
    forall later | later >= now ensures Level(limit, left, later) == Level(limit, tokens, later) {
      RefillIsPaid(limit, left, later);
      RefillIsPaid(limit, tokens, later);
      TimeAddsUp(limit, tokens.filledAt, now, later);
    }
  }

  lemma {:induction false} SameAnswers(limit: Configured, a: Tokens, b: Tokens, times: seq<real>)
    requires times != [] ==> SameFrom(limit, a, b, times[0])
    ensures Answers(limit, a, times) == Answers(limit, b, times)
  {
    if times != [] {
      assert Level(limit, a, times[0]) == Level(limit, b, times[0]);
    }
  }

  function Kept<T>(items: seq<T>, keep: seq<bool>): seq<T>
    requires |items| == |keep|
  {
    if items == [] then []
    else (if keep[0] then [items[0]] else []) + Kept(items[1..], keep[1..])
  }

  lemma {:induction false} KeptAreFromAll<T>(items: seq<T>, keep: seq<bool>)
    requires |items| == |keep|
    ensures forall t :: t in Kept(items, keep) ==> t in items
  {
    if items != [] {
      KeptAreFromAll(items[1..], keep[1..]);
    }
  }

  lemma KeptLater(times: seq<real>, keep: seq<bool>, since: real)
    requires |times| == |keep| && forall i :: 0 <= i < |times| ==> since <= times[i]
    ensures Kept(times, keep) != [] ==> since <= Kept(times, keep)[0]
  {
    KeptAreFromAll(times, keep);
    if Kept(times, keep) != [] {
      assert Kept(times, keep)[0] in times;
    }
  }

  /** Refused takes are invisible: leave any of them out of any run of takes, and every other take is
      answered exactly as it was, its wait included. */
  lemma {:induction false} RefusedTakesAreInvisible(limit: Configured, tokens: Tokens, times: seq<real>,
                                                    keep: seq<bool>)
    requires Sane(limit, tokens) && Forwards(tokens, times) && |keep| == |times|
    requires forall i :: 0 <= i < |times| && !keep[i] ==> !Answers(limit, tokens, times)[i].passed
    ensures Answers(limit, tokens, Kept(times, keep)) == Kept(Answers(limit, tokens, times), keep)
    decreases |times|
  {
    if times != [] {
      var (left, admission) := Taken(limit, tokens, times[0]);
      var answers, rest := Answers(limit, tokens, times), Kept(times[1..], keep[1..]);
      TakenIsSane(limit, tokens, times[0]);
      assert answers[1..] == Answers(limit, left, times[1..]);
      RefusedTakesAreInvisible(limit, left, times[1..], keep[1..]);
      if keep[0] {
        assert Kept(times, keep)[1..] == rest;
      } else {
        assert !answers[0].passed;
        RefusalLeavesNoTrace(limit, tokens, times[0]);
        KeptLater(times[1..], keep[1..], times[0]);
        assert Kept(times, keep) == rest;
        SameAnswers(limit, left, tokens, rest);
      }
    }
  }

  /** The wait a refusal names is exact: on an undisturbed bucket the next take is admitted if and only if
      it comes no earlier. */
  lemma WaitIsExact(limit: Configured, tokens: Tokens, now: real, later: real)
    requires Sane(limit, tokens) && tokens.filledAt <= now <= later
    requires !Taken(limit, tokens, now).1.passed
    ensures var (left, refusal) := Taken(limit, tokens, now);
            Taken(limit, left, later).1.passed <==> later >= now + refusal.waitSeconds
  {
    var (left, refusal) := Taken(limit, tokens, now);
    RefillIsPaid(limit, tokens, now);
    RefillIsPaid(limit, left, later);
    WaitReturnsTheRest(limit, left.level, now, later);
  }

  lemma WaitReturnsTheRest(limit: Configured, level: real, now: real, later: real)
    ensures level + Returned(limit, now, later) >= 1.0 <==> later >= now + (1.0 - level) / limit.refillPerSecond
  {
    var rate, wait := limit.refillPerSecond, (1.0 - level) / limit.refillPerSecond;
    assert rate * wait == 1.0 - level;
    if later - now >= wait {
      assert rate * (later - now) >= rate * wait;
    } else {
      assert rate * (later - now) < rate * wait;
    }
  }

  /** The header's whole seconds (section 10.2.3 of RFC 9110): rounded up, and at least one. */
  function RetryAfter(waitSeconds: real): int {
    var ceiling := -((-waitSeconds).Floor);
    if ceiling >= 1 then ceiling else 1
  }

  /** The header says the least whole number of seconds, and at least one, that is no less than the wait. */
  lemma RetryAfterIsLeast(waitSeconds: real, seconds: int)
    ensures RetryAfter(waitSeconds) >= 1 && RetryAfter(waitSeconds) as real >= waitSeconds
    ensures seconds >= 1 && seconds as real >= waitSeconds ==> RetryAfter(waitSeconds) <= seconds
  {
    var floor := (-waitSeconds).Floor;
    assert floor as real <= -waitSeconds < floor as real + 1.0;
    assert seconds as real >= waitSeconds ==> (-seconds) as real < floor as real + 1.0;
  }

  /** A caller that waits as long as it was told is admitted. */
  lemma RetryAfterSuffices(limit: Configured, tokens: Tokens, now: real, later: real)
    requires Sane(limit, tokens) && tokens.filledAt <= now && !Taken(limit, tokens, now).1.passed
    requires later >= now + RetryAfter(Taken(limit, tokens, now).1.waitSeconds) as real
    ensures Taken(limit, Taken(limit, tokens, now).0, later).1.passed
  {
    var refusal := Taken(limit, tokens, now).1;
    assert RetryAfter(refusal.waitSeconds) as real >= refusal.waitSeconds;
    WaitIsExact(limit, tokens, now, later);
  }

  // ---------------------------------------------------------------- a clock that steps back

  /** Every stretch of these readings stays within its bound, for every limit and every bucket. */
  ghost predicate EveryStretchIsWithin(times: seq<real>) {
    forall limit: Configured, tokens: Tokens, i, j | Sane(limit, tokens) && 0 <= i < j <= |times| ::
      StretchIsWithin(limit, tokens, times[i..j])
  }

  /** Two takes on a full burst of two, the second at an earlier reading: both are admitted, and the bound is
      less than both of them, at any refill. */
  lemma SteppingBackBreaksTheBound(refillPerSecond: real, first: real, second: real)
    requires refillPerSecond > 0.0 && second < first
    ensures var limit: Configured := Limit(2, refillPerSecond);
            Sane(limit, Full(limit, first)) && !StretchIsWithin(limit, Full(limit, first), [first, second])
  {
    var limit: Configured, times := Limit(2, refillPerSecond), [first, second];
    var once := Tokens(1.0, first);
    assert Taken(limit, Full(limit, first), first) == (once, Admission(true, 0.0));
    assert Taken(limit, once, second) == (Tokens(0.0, second), Admission(true, 0.0));
    var taken := Admission(true, 0.0);
    assert times[1..] == [second] && [second][1..] == [];
    assert Answers(limit, once, [second]) == [taken];
    assert Answers(limit, Full(limit, first), times) == [taken] + [taken];
    assert ([taken] + [taken])[1..] == [taken] && [taken][1..] == [];
    assert Admitted([taken]) == 1;
    assert Returned(limit, first, second) < 0.0;
  }

  /** The bound holds for every stretch of some readings exactly when they never step back. */
  lemma BoundHoldsExactlyOnForwardClocks(times: seq<real>)
    ensures EveryStretchIsWithin(times) <==> NeverStepsBack(times)
  {
    if NeverStepsBack(times) {
      forall limit: Configured, tokens: Tokens, i, j | Sane(limit, tokens) && 0 <= i < j <= |times|
        ensures StretchIsWithin(limit, tokens, times[i..j])
      {
        StretchIsBounded(limit, tokens, times[i..j]);
      }
    } else {
      var k := StepBack(times);
      var limit: Configured := Limit(2, 1.0);
      SteppingBackBreaksTheBound(1.0, times[k], times[k + 1]);
      assert times[k..k + 2] == [times[k], times[k + 1]];
    }
  }

  /** Readings that are not in order step back somewhere from one to the next. */
  lemma {:induction false} StepBack(times: seq<real>) returns (k: nat)
    requires !NeverStepsBack(times)
    ensures k + 1 < |times| && times[k + 1] < times[k]
    decreases |times|
  {
    var i, j :| 0 <= i <= j < |times| && times[i] > times[j];
    if times[j - 1] > times[j] {
      k := j - 1;
    } else {
      assert times[..j][i] > times[..j][j - 1];
      k := StepBack(times[..j]);
    }
  }

  /** The bound needs the clock not to run backwards: an earlier reading is stored as it comes, so the
      same second is paid for again. */
  lemma BackwardsClockPaysTwice()
    ensures var limit, times := Limit(1, 1.0), [0.0, 1.0, 0.0, 1.0];
            && !Forwards(Full(limit, 0.0), times)
            && Admitted(Answers(limit, Full(limit, 0.0), times)) == 3
            && 3.0 > limit.burst as real + Returned(limit, times[0], times[3])
  {
    var limit: Configured := Limit(1, 1.0);
    var times := [0.0, 1.0, 0.0, 1.0];
    var refused := Admission(false, 1.0);
    FirstAnswer(limit, Full(limit, 0.0), times);
    FirstAnswer(limit, Tokens(0.0, 0.0), times[1..]);
    FirstAnswer(limit, Tokens(0.0, 1.0), times[1..][1..]);
    FirstAnswer(limit, Tokens(0.0, 0.0), times[1..][1..][1..]);
    assert times[1..][0] == 1.0 && times[1..][1..][0] == 0.0 && times[1..][1..][1..] == [1.0];
    hide Answers, Level;
    var taken := Admission(true, 0.0);
    assert Answers(limit, Full(limit, 0.0), times) == [taken] + ([taken] + ([refused] + [taken]));
    var last := [refused] + [taken];
    assert [taken][1..] == [] && Admitted([taken]) == 1;
    assert last[1..] == [taken] && Admitted(last) == 1;
    assert ([taken] + last)[1..] == last && ([taken] + ([taken] + last))[1..] == [taken] + last;
    assert Admitted([taken] + last) == 2;
    assert !(times[1] <= times[2]);
  }

  lemma FirstAnswer(limit: Configured, tokens: Tokens, times: seq<real>)
    requires times != []
    ensures var level := Level(limit, tokens, times[0]);
            Answers(limit, tokens, times) ==
              if level >= 1.0 then [Admission(true, 0.0)] + Answers(limit, Tokens(level - 1.0, times[0]), times[1..])
              else [Admission(false, (1.0 - level) / limit.refillPerSecond)]
                   + Answers(limit, Tokens(level, times[0]), times[1..])
  {
  }
}
