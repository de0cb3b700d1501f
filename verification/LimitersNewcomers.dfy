/** What a caller that the table does not hold, new or dropped, is answered. */
module LimitersNewcomers {
  import opened Options
  import opened RateLimit
  import opened Tallies
  import opened Limiters
  import opened LimitersGuarantees

  /** The takes from the m-th on, up to the n-th, are this caller's, all at one reading. */
  ghost predicate AllAtOnce(takes: seq<Take>, m: nat, n: nat, c: string, now: real) {
    m <= n <= |takes| && forall j :: m <= j < n ==> takes[j] == Take(c, now)
  }

  /** A table with room for anyone holds whoever was served last. */
  lemma LastIsHeld(limit: Configured, keys: nat, table: Table, take: Take)
    requires keys > 0 && Distinct(Callers(table))
    ensures Find(Served(limit, keys, table, take).0, take.caller).Some?
  {
    var after := Served(limit, keys, table, take).0;
    assert after[|after| - 1].caller == take.caller;
    FindFinds(after, take.caller);
  }

  /** One more of a caller's takes at the same reading. */
  lemma OneMoreSpent(limit: Configured, keys: nat, table: Table, c: string, now: real, k: nat)
    requires keys > 0 && Distinct(Callers(table))
    requires Find(table, c) == if k == 0 then None else Some(Spent(limit.burst, k, now))
    ensures var (after, admission) := Served(limit, keys, table, Take(c, now));
            && Find(after, c) == Some(Spent(limit.burst, k + 1, now))
            && admission == if k < limit.burst then Admission(true, 0.0)
                            else Admission(false, 1.0 / limit.refillPerSecond)
  {
    hide Taken, Full, Spent;
    OneAtOnce(limit, k, now);
    FindLast(limit, keys, table, Take(c, now));
    LastIsHeld(limit, keys, table, Take(c, now));
  }

  lemma {:induction false} SpentInTheTable(limit: Configured, keys: nat, takes: seq<Take>, m: nat, n: nat, c: string,
                                           now: real)
    requires keys > 0 && AllAtOnce(takes, m, n, c, now) && c !in Callers(Serving(limit, keys, takes[..m]))
    ensures Find(Serving(limit, keys, takes[..n]), c)
         == if n == m then None else Some(Spent(limit.burst, n - m, now))
    decreases n
  {
    hide Served, Spent, Distinct, Find, Callers, LastOf, Recency, CallersOf;
    if n == m {
      MissingIsNone(Serving(limit, keys, takes[..m]), c);
    } else {
      SpentInTheTable(limit, keys, takes, m, n - 1, c, now);
      assert takes[..n][..n - 1] == takes[..n - 1] && takes[..n][n - 1] == Take(c, now);
      TableHoldsTheMostRecent(limit, keys, takes[..n - 1]);
      OneMoreSpent(limit, keys, Serving(limit, keys, takes[..n - 1]), c, now, n - 1 - m);
    }
  }

  /** Whoever the table does not hold is admitted a whole burst of times at once, and then told to wait for one token;
      a table that holds nobody admits everyone every time. */
  lemma NewcomersGetABurst(limit: Configured, keys: nat, takes: seq<Take>, m: nat, n: nat, c: string, now: real)
    requires m <= n < |takes| && AllAtOnce(takes, m, n + 1, c, now)
    requires c !in Callers(Serving(limit, keys, takes[..m]))
    ensures AnswerTo(limit, keys, takes, n)
         == if keys == 0 || n - m < limit.burst then Admission(true, 0.0)
            else Admission(false, 1.0 / limit.refillPerSecond)
  {
    var table := Serving(limit, keys, takes[..n]);
    TableHoldsTheMostRecent(limit, keys, takes[..n]);
    hide Spent, Distinct;
    if keys > 0 {
      SpentInTheTable(limit, keys, takes, m, n, c, now);
      OneMoreSpent(limit, keys, table, c, now, n - m);
    } else {
      OneAtOnce(limit, 0, now);
      MissingIsNone(table, c);
    }
  }
}
