/** What a bounded table keeps of one bucket per caller, and what an eviction can cost. */
module LimitersGuarantees {
  import opened Options
  import opened RateLimit
  import opened Tallies
  import opened Limiters

  /** The table after a run of takes, from a table that is empty. */
  function Serving(limit: Configured, keys: nat, takes: seq<Take>): Table {
    if takes == [] then []
    else
      var n := |takes| - 1;
      Served(limit, keys, Serving(limit, keys, takes[..n]), takes[n]).0
  }

  /** What the n-th take of a run is answered. */
  function AnswerTo(limit: Configured, keys: nat, takes: seq<Take>, n: nat): Admission
    requires n < |takes|
  {
    Served(limit, keys, Serving(limit, keys, takes[..n]), takes[n]).1
  }

  function CallersOf(takes: seq<Take>): seq<string> {
    seq(|takes|, i requires 0 <= i < |takes| => takes[i].caller)
  }

  function Without(order: seq<string>, c: string): seq<string> {
    if order == [] then []
    else if order[0] == c then order[1..]
    else [order[0]] + Without(order[1..], c)
  }

  /** Every caller seen, once each, least recently seen first. */
  function Recency(callers: seq<string>): seq<string> {
    if callers == [] then []
    else
      var last := callers[|callers| - 1];
      Without(Recency(callers[..|callers| - 1]), last) + [last]
  }

  lemma {:induction false} WithoutAt(order: seq<string>, i: nat)
    requires Distinct(order) && i < |order|
    ensures Without(order, order[i]) == order[..i] + order[i + 1..]
  {
    if i > 0 {
      assert order[1..][i - 1] == order[i];
      WithoutAt(order[1..], i - 1);
    }
  }

  lemma {:induction false} WithoutAbsent(order: seq<string>, c: string)
    requires c !in order
    ensures Without(order, c) == order
  {
    if order != [] {
      WithoutAbsent(order[1..], c);
    }
  }

  lemma WithoutKeeps(order: seq<string>, c: string)
    requires Distinct(order)
    ensures Distinct(Without(order, c))
    ensures forall d :: d in Without(order, c) <==> d in order && d != c
    ensures |Without(order, c)| == if c in order then |order| - 1 else |order|
    ensures c !in order ==> Without(order, c) == order
  {
    if c in order {
      var i :| 0 <= i < |order| && order[i] == c;
      WithoutAt(order, i);
      hide Without, Distinct;
      assert order == order[..i] + [c] + order[i + 1..];
      CutKeeps(order[..i], c, order[i + 1..]);
    } else {
      WithoutAbsent(order, c);
    }
  }

  lemma CutKeeps(a: seq<string>, c: string, b: seq<string>)
    requires Distinct(a + [c] + b)
    ensures Distinct(a + b)
    ensures forall d :: d in a + b <==> d in a + [c] + b && d != c
  {
    var all := a + [c] + b;
    assert all[|a|] == c;
    assert forall i :: 0 <= i < |a| ==> all[i] == a[i];
    assert forall i :: 0 <= i < |b| ==> all[|a| + 1 + i] == b[i];
    forall d ensures d in a + b <==> d in all && d != c {
      assert d in all <==> d in a || d == c || d in b;
    }
  }

  lemma {:induction false} WithoutSplit(a: seq<string>, b: seq<string>, c: string)
    ensures Without(a + b, c) == if c in a then Without(a, c) + b else a + Without(b, c)
    decreases |a|
  {
    if |a| == 0 {
      assert a + b == b && a + Without(b, c) == Without(b, c);
    } else {
      var rest := a[1..];
      assert (a + b)[1..] == rest + b && (a + b)[0] == a[0];
      assert c in a <==> a[0] == c || c in rest;
      if a[0] != c {
        WithoutSplit(rest, b, c);
        Regrouped(a[0], Without(rest, c), b);
        Regrouped(a[0], rest, Without(b, c));
        assert [a[0]] + rest == a;
      }
    }
  }

  lemma Regrouped(x: string, a: seq<string>, b: seq<string>)
    ensures [x] + (a + b) == ([x] + a) + b
  {
  }

  lemma {:induction false} RecencyIsDistinct(callers: seq<string>)
    ensures Distinct(Recency(callers))
    ensures forall c :: c in Recency(callers) <==> c in callers
  {
    if callers != [] {
      var n := |callers| - 1;
      RecencyIsDistinct(callers[..n]);
      WithoutKeeps(Recency(callers[..n]), callers[n]);
      assert callers == callers[..n] + [callers[n]];
    }
  }

  lemma {:induction false} CallersWithout(table: Table, c: string)
    ensures Callers(Removed(table, c)) == Without(Callers(table), c)
  {
    if table != [] {
      assert Callers(table)[1..] == Callers(table[1..]);
      if table[0].caller != c {
        CallersWithout(table[1..], c);
        assert Callers([table[0]] + Removed(table[1..], c)) == [table[0].caller] + Callers(Removed(table[1..], c));
      }
    }
  }

  /** One take moves its caller to the end and lets the front go, whoever it is. */
  lemma CallersServed(limit: Configured, keys: nat, table: Table, take: Take)
    requires Distinct(Callers(table)) && |table| <= keys
    ensures Callers(Served(limit, keys, table, take).0)
         == LastOf(Without(Callers(table), take.caller) + [take.caller], keys)
    ensures |Served(limit, keys, table, take).0| <= keys
  {
    hide Taken, Full, Without, Distinct, Removed, Find;
    FindIsCaller(table, take.caller);
    WithoutKeeps(Callers(table), take.caller);
    assert |Callers(table)| == |table|;
    if take.caller in Callers(table) {
      CallersWithout(table, take.caller);
      var rest := Removed(table, take.caller);
      var newest := Slot(take.caller, Taken(limit, Find(table, take.caller).value, take.now).0);
      CallersSnoc(rest, newest);
      assert |Callers(rest + [newest])| == |rest| + 1 == |table|;
    } else {
      var newest := Slot(take.caller, Taken(limit, Full(limit, take.now), take.now).0);
      CallersSnoc(table, newest);
      CallersOfLast(table + [newest], keys);
    }
  }

  lemma CallersSnoc(table: Table, newest: Slot)
    ensures Callers(table + [newest]) == Callers(table) + [newest.caller]
  {
  }

  lemma CallersOfLast(table: Table, keys: nat)
    ensures Callers(LastOf(table, keys)) == LastOf(Callers(table), keys)
  {
  }

  lemma DistinctSplit(a: seq<string>, b: seq<string>)
    requires Distinct(a + b)
    ensures Distinct(a) && Distinct(b) && forall c :: c in a ==> c !in b
  {
    var all := a + b;
    assert forall i :: 0 <= i < |a| ==> a[i] == all[i];
    assert forall i :: 0 <= i < |b| ==> b[i] == all[|a| + i];
  }

  lemma SuffixOfRecency(order: seq<string>, c: string, keys: nat)
    requires Distinct(order)
    ensures LastOf(Without(LastOf(order, keys), c) + [c], keys) == LastOf(Without(order, c) + [c], keys)
  {
    if |order| > keys {
      var cut := |order| - keys;
      var a, b := order[..cut], order[cut..];
      assert order == a + b && LastOf(order, keys) == b;
      DistinctSplit(a, b);
      WithoutSplit(a, b, c);
      WithoutKeeps(b, c);
      var before, kept := if c in a then Without(a, c) else a, Without(b, c) + [c];
      hide Without, Distinct, LastOf;
      assert |kept| >= keys;
      assert Without(order, c) + [c] == before + kept;
      LastOfSuffix(before, kept, keys);
    }
  }

  lemma LastOfSuffix<T>(a: seq<T>, b: seq<T>, n: nat)
    requires n <= |b|
    ensures LastOf(a + b, n) == LastOf(b, n)
  {
  }

  /** The bounded table always holds exactly the most recently seen callers, in recency order. */
  lemma {:induction false} TableHoldsTheMostRecent(limit: Configured, keys: nat, takes: seq<Take>)
    ensures Callers(Serving(limit, keys, takes)) == LastOf(Recency(CallersOf(takes)), keys)
    ensures Distinct(Callers(Serving(limit, keys, takes))) && |Serving(limit, keys, takes)| <= keys
  {
    if takes != [] {
      var n := |takes| - 1;
      TableHoldsTheMostRecent(limit, keys, takes[..n]);
      CallersServed(limit, keys, Serving(limit, keys, takes[..n]), takes[n]);
      assert CallersOf(takes)[..n] == CallersOf(takes[..n]);
      RecencyIsDistinct(CallersOf(takes[..n]));
      SuffixOfRecency(Recency(CallersOf(takes[..n])), takes[n].caller, keys);
    }
    RecencyIsDistinct(CallersOf(takes));
  }

  // ---------------------------------------------------------------- one bucket per caller

  /** The distinct callers seen since this one was last seen. */
  function Since(callers: seq<string>, c: string): set<string> {
    if callers == [] || callers[|callers| - 1] == c then {}
    else Since(callers[..|callers| - 1], c) + {callers[|callers| - 1]}
  }

  function Behind(order: seq<string>, p: nat): set<string>
    requires p < |order|
  {
    Members(order[p + 1..])
  }

  function Members(order: seq<string>): set<string> {
    set d | d in order
  }

  /** Moving one caller to the end puts it behind every other, and changes who follows whom no further. */
  lemma MovedBehind(order: seq<string>, q: nat, last: string) returns (p: nat)
    requires Distinct(order) && q < |order| && order[q] != last
    ensures var moved := Without(order, last) + [last];
            && p < |moved| && moved[p] == order[q]
            && Behind(moved, p) == Behind(order, q) + {last}
  {
    if r :| 0 <= r < |order| && order[r] == last {
      WithoutAt(order, r);
      hide Without;
      MovedFrom(order, q, r);
      p := if r < q then q - 1 else q;
    } else {
      WithoutAbsent(order, last);
      p := q;
      assert (order + [last])[p + 1..] == order[q + 1..] + [last];
    }
  }

  lemma MovedFrom(order: seq<string>, q: nat, r: nat)
    requires q < |order| && r < |order| && q != r
    ensures var moved := order[..r] + order[r + 1..] + [order[r]];
            var p := if r < q then q - 1 else q;
            moved[p] == order[q] && Behind(moved, p) == Behind(order, q) + {order[r]}
  {
    var moved := order[..r] + order[r + 1..] + [order[r]];
    if r < q {
      assert moved[q..] == order[q + 1..] + [order[r]];
    } else {
      assert moved[q + 1..] == order[q + 1..r] + order[r + 1..] + [order[r]];
      assert order[q + 1..] == order[q + 1..r] + [order[r]] + order[r + 1..];
    }
  }

  /** In recency order a caller is followed by exactly those seen since. */
  lemma {:induction false} RecencyPosition(callers: seq<string>, c: string) returns (p: nat)
    requires c in callers
    ensures p < |Recency(callers)| && Recency(callers)[p] == c
    ensures Behind(Recency(callers), p) == Since(callers, c)
  {
    var n := |callers| - 1;
    if callers[n] == c {
      p := |Recency(callers)| - 1;
    } else {
      assert callers == callers[..n] + [callers[n]];
      RecencyIsDistinct(callers[..n]);
      var q := RecencyPosition(callers[..n], c);
      p := MovedBehind(Recency(callers[..n]), q, callers[n]);
    }
  }

  lemma {:induction false} DistinctSize(order: seq<string>, members: set<string>)
    requires Distinct(order) && forall c :: c in order <==> c in members
    ensures |order| == |members|
  {
    if order != [] {
      DistinctTail(order);
      DistinctSize(order[1..], members - {order[0]});
    }
  }

  /** A caller is still in the table if and only if fewer than `keys` others were seen since. */
  lemma StillThere(limit: Configured, keys: nat, takes: seq<Take>, c: string)
    requires c in CallersOf(takes)
    ensures Find(Serving(limit, keys, takes), c).Some? <==> |Since(CallersOf(takes), c)| < keys
  {
    var callers, table := CallersOf(takes), Serving(limit, keys, takes);
    var recency := Recency(callers);
    TableHoldsTheMostRecent(limit, keys, takes);
    RecencyIsDistinct(callers);
    var p := RecencyPosition(callers, c);
    DistinctTailFrom(recency, p + 1);
    DistinctSize(recency[p + 1..], Behind(recency, p));
    InLastOf(recency, p, keys);
    FindIsCaller(table, c);
  }

  lemma DistinctTailFrom(order: seq<string>, p: nat)
    requires Distinct(order) && p <= |order|
    ensures Distinct(order[p..])
  {
  }

  lemma InLastOf(order: seq<string>, p: nat, n: nat)
    requires Distinct(order) && p < |order|
    ensures order[p] in LastOf(order, n) <==> |order| - p <= n
  {
    if |order| > n {
      var cut := |order| - n;
      if p >= cut {
        assert order[cut..][p - cut] == order[p];
      } else {
        forall i | 0 <= i < n ensures order[cut..][i] != order[p] {
        }
      }
    }
  }

  lemma FindIsCaller(table: Table, c: string)
    ensures Find(table, c).Some? <==> c in Callers(table)
  {
    FindFinds(table, c);
    if i :| 0 <= i < |table| && table[i].caller == c {
      assert Callers(table)[i] == c;
    }
  }

  lemma {:induction false} FindRemoved(table: Table, c: string, d: string)
    requires c != d
    ensures Find(Removed(table, d), c) == Find(table, c)
  {
    if table != [] && table[0].caller != d {
      FindRemoved(table[1..], c, d);
    }
  }

  lemma {:induction false} FindConcat(a: Table, b: Table, c: string)
    ensures Find(a + b, c) == if Find(a, c).Some? then Find(a, c) else Find(b, c)
  {
    if a == [] {
      assert a + b == b;
    } else {
      assert (a + b)[1..] == a[1..] + b;
      FindConcat(a[1..], b, c);
    }
  }

  /** Another caller's take can cost this one its place, but never changes its tokens. */
  lemma OthersKeepTokens(limit: Configured, keys: nat, table: Table, take: Take, c: string)
    requires Distinct(Callers(table)) && take.caller != c
    ensures var after := Find(Served(limit, keys, table, take).0, c);
            after == None || after == Find(table, c)
  {
    hide Taken, Full;
    if Find(table, take.caller).Some? {
      var left := Taken(limit, Find(table, take.caller).value, take.now).0;
      FindRemoved(table, c, take.caller);
      FindConcat(Removed(table, take.caller), [Slot(take.caller, left)], c);
    } else {
      var newest := Slot(take.caller, Taken(limit, Full(limit, take.now), take.now).0);
      var all := table + [newest];
      FindConcat(table, [newest], c);
      if |all| > keys {
        var cut := |all| - keys;
        assert all == all[..cut] + all[cut..];
        FindConcat(all[..cut], all[cut..], c);
        NotOnBothSides(table, newest, cut, c);
      }
    }
  }

  /** A caller other than the newest sits on one side of the cut only. */
  lemma NotOnBothSides(table: Table, newest: Slot, cut: nat, c: string)
    requires Distinct(Callers(table)) && newest.caller != c && cut <= |table| + 1
    ensures Find((table + [newest])[..cut], c) == None || Find((table + [newest])[cut..], c) == None
  {
    var all := table + [newest];
    var a, b := all[..cut], all[cut..];
    FindFinds(a, c);
    FindFinds(b, c);
    if Find(a, c).Some? {
      var i :| 0 <= i < |a| && a[i].caller == c;
      forall j | 0 <= j < |b| ensures b[j].caller != c {
        assert b[j] == all[cut + j] && a[i] == all[i];
        assert i < |table| && Callers(table)[i] == c;
        assert cut + j < |table| ==> Callers(table)[cut + j] == b[j].caller;
      }
    }
  }

  /** The bucket this caller would have if it had one of its own that is never dropped. */
  function PrivateBucket(limit: Configured, takes: seq<Take>, c: string): Option<Tokens> {
    if takes == [] then None
    else
      var n := |takes| - 1;
      if takes[n].caller != c then PrivateBucket(limit, takes[..n], c)
      else Some(Taken(limit, OwnTokens(limit, takes[..n], takes[n]), takes[n].now).0)
  }

  function OwnTokens(limit: Configured, before: seq<Take>, take: Take): Tokens {
    match PrivateBucket(limit, before, take.caller)
    case Some(tokens) => tokens
    case None => Full(limit, take.now)
  }

  /** Between any two consecutive takes of this caller, fewer than `keys` others were seen. */
  ghost predicate Undisturbed(keys: nat, takes: seq<Take>, c: string) {
    forall m :: 0 <= m < |takes| && takes[m].caller == c && c in CallersOf(takes[..m])
      ==> |Since(CallersOf(takes[..m]), c)| < keys
  }

  lemma {:induction false} NeverSeen(limit: Configured, takes: seq<Take>, c: string)
    ensures PrivateBucket(limit, takes, c).Some? <==> c in CallersOf(takes)
  {
    if takes != [] {
      var n := |takes| - 1;
      NeverSeen(limit, takes[..n], c);
      assert CallersOf(takes) == CallersOf(takes[..n]) + [takes[n].caller];
    }
  }

  lemma {:induction false} SameTokens(limit: Configured, keys: nat, takes: seq<Take>, c: string)
    requires Undisturbed(keys, takes, c)
    ensures var held := Find(Serving(limit, keys, takes), c);
            held == None || held == PrivateBucket(limit, takes, c)
  {
    if takes != [] {
      var n := |takes| - 1;
      var before, table := takes[..n], Serving(limit, keys, takes[..n]);
      forall m | 0 <= m < |before| ensures before[..m] == takes[..m] && before[m] == takes[m] {
      }
      SameTokens(limit, keys, before, c);
      TableHoldsTheMostRecent(limit, keys, before);
      if takes[n].caller != c {
        OthersKeepTokens(limit, keys, table, takes[n], c);
      } else {
        OwnTake(limit, keys, takes, c);
        FindLast(limit, keys, table, takes[n]);
      }
    }
  }

  /** Before an undisturbed caller's next take, the table holds what its own bucket would. */
  lemma OwnTake(limit: Configured, keys: nat, takes: seq<Take>, c: string)
    requires takes != [] && takes[|takes| - 1].caller == c && Undisturbed(keys, takes, c)
    requires var held := Find(Serving(limit, keys, takes[..|takes| - 1]), c);
             held == None || held == PrivateBucket(limit, takes[..|takes| - 1], c)
    ensures Find(Serving(limit, keys, takes[..|takes| - 1]), c) == PrivateBucket(limit, takes[..|takes| - 1], c)
  {
    var before := takes[..|takes| - 1];
    NeverSeen(limit, before, c);
    if c in CallersOf(before) {
      StillThere(limit, keys, before, c);
    }
  }

  lemma FindLast(limit: Configured, keys: nat, table: Table, take: Take)
    requires Distinct(Callers(table))
    ensures var held := Find(Served(limit, keys, table, take).0, take.caller);
            var tokens := match Find(table, take.caller) case Some(t) => t case None => Full(limit, take.now);
            held == None || held == Some(Taken(limit, tokens, take.now).0)
  {
    hide Taken, Full;
    var tokens := match Find(table, take.caller) case Some(t) => t case None => Full(limit, take.now);
    var newest := Slot(take.caller, Taken(limit, tokens, take.now).0);
    assert Find([newest], take.caller) == Some(newest.tokens);
    if Find(table, take.caller).Some? {
      FindFinds(table, take.caller);
      var i :| 0 <= i < |table| && table[i].caller == take.caller;
      WithoutKeeps(Callers(table), take.caller);
      CallersWithout(table, take.caller);
      MissingIsNone(Removed(table, take.caller), take.caller);
      FindConcat(Removed(table, take.caller), [newest], take.caller);
    } else {
      var all := table + [newest];
      FindConcat(table, [newest], take.caller);
      if |all| > keys {
        var cut := |all| - keys;
        assert all == all[..cut] + all[cut..];
        FindConcat(all[..cut], all[cut..], take.caller);
        FindFinds(all[..cut], take.caller);
        FindFinds(table, take.caller);
        FindFinds(all[cut..], take.caller);
      }
    }
  }

  lemma MissingIsNone(table: Table, c: string)
    requires c !in Callers(table)
    ensures Find(table, c) == None
  {
    FindFinds(table, c);
    forall i | 0 <= i < |table| ensures table[i].caller != c {
      assert Callers(table)[i] == table[i].caller;
    }
  }

  /** A caller seen again before `keys` others are is answered as if it had a bucket of its own,
      never dropped and shared with nobody. */
  lemma AnsweredAsIfPrivate(limit: Configured, keys: nat, takes: seq<Take>, n: nat)
    requires n < |takes| && Undisturbed(keys, takes[..n + 1], takes[n].caller)
    ensures AnswerTo(limit, keys, takes, n)
         == Taken(limit, OwnTokens(limit, takes[..n], takes[n]), takes[n].now).1
  {
    var c, prefix := takes[n].caller, takes[..n + 1];
    assert prefix[..n] == takes[..n];
    forall m | 0 <= m < n ensures takes[..n][..m] == prefix[..m] && takes[..n][m] == prefix[m] {
    }
    SameTokens(limit, keys, takes[..n], c);
    OwnTake(limit, keys, prefix, c);
  }

  // ---------------------------------------------------------------- what an eviction costs

  function Admissions(limit: Configured, keys: nat, table: Table, takes: seq<Take>, c: string): nat
    decreases |takes|
  {
    if takes == [] then 0
    else
      var (after, admission) := Served(limit, keys, table, takes[0]);
      (if takes[0].caller == c && admission.passed then 1 else 0)
      + Admissions(limit, keys, after, takes[1..], c)
  }

  /** Whether a take drops this caller: its bucket was there, or was made for this take, and is gone after it. */
  function Drops(table: Table, after: Table, take: Take, c: string): nat {
    if (Find(table, c).Some? || take.caller == c) && Find(after, c).None? then 1 else 0
  }

  /** How many times this caller is dropped from the table. */
  function Evictions(limit: Configured, keys: nat, table: Table, takes: seq<Take>, c: string): nat
    decreases |takes|
  {
    if takes == [] then 0
    else
      var after := Served(limit, keys, table, takes[0]).0;
      Drops(table, after, takes[0], c) + Evictions(limit, keys, after, takes[1..], c)
  }

  ghost predicate Ordered(since: real, takes: seq<Take>) {
    && (takes != [] ==> since <= takes[0].now)
    && forall i, j :: 0 <= i <= j < |takes| ==> takes[i].now <= takes[j].now
  }

  function LastNow(since: real, takes: seq<Take>): real {
    if takes == [] then since else takes[|takes| - 1].now
  }

  /** What this caller could spend at a given time: its level, or the whole burst where no bucket is held. */
  function Spendable(limit: Configured, table: Table, c: string, now: real): real {
    match Find(table, c)
    case Some(tokens) => Level(limit, tokens, now)
    case None => limit.burst as real
  }

  ghost predicate SaneFor(limit: Configured, table: Table, c: string, since: real) {
    match Find(table, c)
    case Some(tokens) => Sane(limit, tokens) && tokens.filledAt <= since
    case None => true
  }

  lemma LevelGrowsSlowly(limit: Configured, tokens: Tokens, since: real, now: real)
    requires Sane(limit, tokens) && tokens.filledAt <= since <= now
    ensures 0.0 <= Level(limit, tokens, now) <= limit.burst as real
    ensures Level(limit, tokens, now) <= Level(limit, tokens, since) + Returned(limit, since, now)
  {
    RefillIsPaid(limit, tokens, since);
    RefillIsPaid(limit, tokens, now);
    hide Returned, Level;
    TimeAddsUp(limit, tokens.filledAt, since, now);
  }

  /** A caller's own take spends what it could spend, and a table of no size gives it a burst back. */
  lemma OwnTakeSpends(limit: Configured, keys: nat, table: Table, take: Take, since: real)
    requires Distinct(Callers(table)) && |table| <= keys && since <= take.now
    requires SaneFor(limit, table, take.caller, since)
    ensures var (after, admission) := Served(limit, keys, table, take);
            && SaneFor(limit, after, take.caller, take.now)
            && (if admission.passed then 1.0 else 0.0) + Spendable(limit, after, take.caller, take.now)
                 <= Spendable(limit, table, take.caller, since) + Returned(limit, since, take.now)
                    + if Find(after, take.caller).None? then limit.burst as real else 0.0
  {
    var tokens := match Find(table, take.caller) case Some(t) => t case None => Full(limit, take.now);
    TimeAddsUp(limit, since, take.now, take.now);
    if Find(table, take.caller).Some? {
      LevelGrowsSlowly(limit, tokens, since, take.now);
    }
    TakenIsSane(limit, tokens, take.now);
    var left := Taken(limit, tokens, take.now).0;
    RefillIsPaid(limit, left, take.now);
    if keys >= 1 {
      OwnTakeStays(limit, keys, table, take);
      FindLast(limit, keys, table, take);
    }
  }

  lemma OwnTakeStays(limit: Configured, keys: nat, table: Table, take: Take)
    requires keys >= 1 && Distinct(Callers(table)) && |table| <= keys
    ensures Find(Served(limit, keys, table, take).0, take.caller).Some?
  {
    hide Taken, Full;
    var after := Served(limit, keys, table, take).0;
    FindFinds(after, take.caller);
    assert after[|after| - 1].caller == take.caller;
  }

  /** From any state of the table, what a caller is admitted is paid for by what it could spend, the time
      that passed, and one more burst for each time it was dropped. */
  lemma {:induction false} EvictionsArePaidInBursts(limit: Configured, keys: nat, table: Table, takes: seq<Take>,
                                                    c: string, since: real)
    requires Distinct(Callers(table)) && |table| <= keys
    requires SaneFor(limit, table, c, since) && Ordered(since, takes)
    ensures Admissions(limit, keys, table, takes, c) as real
         <= Spendable(limit, table, c, since)
            + Bursts(limit, Evictions(limit, keys, table, takes, c))
            + Returned(limit, since, LastNow(since, takes))
    decreases |takes|
  {
    if takes == [] {
      TimeAddsUp(limit, since, since, since);
      SpendableIsPositive(limit, table, c, since);
    } else {
      var take := takes[0];
      var after := Served(limit, keys, table, take).0;
      var (paid, dropped) := OneTake(limit, keys, table, take, c);
      OneTakeIsPaid(limit, keys, table, take, c, since);
      OrderedTail(since, takes);
      ServedIsDistinct(limit, keys, table, take);
      assert Admissions(limit, keys, table, takes, c) == paid + Admissions(limit, keys, after, takes[1..], c);
      assert Evictions(limit, keys, table, takes, c) == dropped + Evictions(limit, keys, after, takes[1..], c);
      hide Served, Callers, Distinct, Spendable, SaneFor, Bursts, Returned, Admissions, Evictions, Ordered, LastNow,
           OneTake;
      var from := if take.caller == c then take.now else since;
      EvictionsArePaidInBursts(limit, keys, after, takes[1..], c, from);
      BurstsAdd(limit, Evictions(limit, keys, after, takes[1..], c));
      TimeAddsUp(limit, since, from, LastNow(from, takes[1..]));
      TimeAddsUp(limit, since, LastNow(from, takes[1..]), LastNow(since, takes));
    }
  }

  /** What one take adds to a caller's admissions, and to the times it was dropped. */
  function OneTake(limit: Configured, keys: nat, table: Table, take: Take, c: string): (nat, nat) {
    var (after, admission) := Served(limit, keys, table, take);
    (if take.caller == c && admission.passed then 1 else 0,
     Drops(table, after, take, c))
  }

  lemma OneTakeIsPaid(limit: Configured, keys: nat, table: Table, take: Take, c: string, since: real)
    requires Distinct(Callers(table)) && |table| <= keys && since <= take.now
    requires SaneFor(limit, table, c, since)
    ensures var after := Served(limit, keys, table, take).0;
            var (paid, dropped) := OneTake(limit, keys, table, take, c);
            var from := if take.caller == c then take.now else since;
            && SaneFor(limit, after, c, from)
            && dropped <= 1
            && paid as real + Spendable(limit, after, c, from)
                 <= Spendable(limit, table, c, since)
                    + (if dropped == 1 then limit.burst as real else 0.0) + Returned(limit, since, from)
  {
    if take.caller == c {
      OwnTakeSpends(limit, keys, table, take, since);
    } else {
      OthersKeepTokens(limit, keys, table, take, c);
      TimeAddsUp(limit, since, since, since);
      OtherTakeCosts(limit, table, Served(limit, keys, table, take).0, c, since);
    }
  }

  lemma OrderedTail(since: real, takes: seq<Take>)
    requires Ordered(since, takes) && takes != []
    ensures Ordered(since, takes[1..]) && Ordered(takes[0].now, takes[1..]) && since <= takes[0].now
    ensures LastNow(takes[0].now, takes[1..]) == LastNow(since, takes)
    ensures since <= LastNow(since, takes[1..]) <= LastNow(since, takes)
  {
  }

  lemma SpendableIsPositive(limit: Configured, table: Table, c: string, since: real)
    requires SaneFor(limit, table, c, since)
    ensures 0.0 <= Spendable(limit, table, c, since)
  {
    if Find(table, c).Some? {
      LevelGrowsSlowly(limit, Find(table, c).value, since, since);
    }
  }

  lemma SpendableIsABurst(limit: Configured, table: Table, c: string, since: real)
    requires SaneFor(limit, table, c, since)
    ensures Spendable(limit, table, c, since) <= limit.burst as real
  {
    if Find(table, c).Some? {
      LevelGrowsSlowly(limit, Find(table, c).value, since, since);
    }
  }

  /** Being dropped costs nobody anything but the burst it comes back with. */
  lemma OtherTakeCosts(limit: Configured, table: Table, after: Table, c: string, since: real)
    requires SaneFor(limit, table, c, since) && (Find(after, c) == None || Find(after, c) == Find(table, c))
    ensures Spendable(limit, after, c, since) <= Spendable(limit, table, c, since)
      + (if Find(table, c).Some? && Find(after, c).None? then limit.burst as real else 0.0)
  {
    SpendableIsPositive(limit, table, c, since);
  }

  function Bursts(limit: Configured, n: nat): real {
    (n * limit.burst) as real
  }

  lemma BurstsAdd(limit: Configured, n: nat)
    ensures Bursts(limit, n + 1) == Bursts(limit, n) + limit.burst as real
  {
    assert (n + 1) * limit.burst == n * limit.burst + limit.burst;
  }

  lemma ServedIsDistinct(limit: Configured, keys: nat, table: Table, take: Take)
    requires Distinct(Callers(table)) && |table| <= keys
    ensures Distinct(Callers(Served(limit, keys, table, take).0)) && |Served(limit, keys, table, take).0| <= keys
  {
    CallersServed(limit, keys, table, take);
    WithoutKeeps(Callers(table), take.caller);
  }

  /** A caller dropped e times during a stretch of takes is admitted at most 1 + e bursts and the refill of
      the time the stretch spans, whatever the table held when the stretch began. */
  lemma StretchOfTakesIsBounded(limit: Configured, keys: nat, earlier: seq<Take>, takes: seq<Take>, c: string)
    requires takes != [] && Ordered((earlier + takes)[0].now, earlier + takes)
    ensures var table := Serving(limit, keys, earlier);
            Admissions(limit, keys, table, takes, c) as real
              <= Bursts(limit, 1 + Evictions(limit, keys, table, takes, c))
                 + Returned(limit, takes[0].now, takes[|takes| - 1].now)
  {
    hide Serving, Served, Returned, Bursts, Callers, Distinct, Spendable;
    var table, since := Serving(limit, keys, earlier), takes[0].now;
    OrderedSplit(earlier, takes);
    TableHoldsTheMostRecent(limit, keys, earlier);
    ServingIsSane(limit, keys, earlier, c, since);
    SpendableIsABurst(limit, table, c, since);
    hide Ordered, SaneFor;
    EvictionsArePaidInBursts(limit, keys, table, takes, c, since);
    BurstsAdd(limit, Evictions(limit, keys, table, takes, c));
  }

  lemma OrderedSplit(earlier: seq<Take>, takes: seq<Take>)
    requires takes != [] && Ordered((earlier + takes)[0].now, earlier + takes)
    ensures Ordered(takes[0].now, takes)
    ensures forall i, j :: 0 <= i <= j < |earlier| ==> earlier[i].now <= earlier[j].now
    ensures forall i :: 0 <= i < |earlier| ==> earlier[i].now <= takes[0].now
  {
    var all := earlier + takes;
    assert forall i :: 0 <= i < |takes| ==> takes[i] == all[|earlier| + i];
    assert forall i :: 0 <= i < |earlier| ==> earlier[i] == all[i];
  }

  lemma {:induction false} ServingIsSane(limit: Configured, keys: nat, takes: seq<Take>, c: string, since: real)
    requires forall i :: 0 <= i < |takes| ==> takes[i].now <= since
    requires forall i, j :: 0 <= i <= j < |takes| ==> takes[i].now <= takes[j].now
    ensures SaneFor(limit, Serving(limit, keys, takes), c, since)
  {
    if takes != [] {
      var n := |takes| - 1;
      var take, table := takes[n], Serving(limit, keys, takes[..n]);
      ServingIsSane(limit, keys, takes[..n], c, take.now);
      TableHoldsTheMostRecent(limit, keys, takes[..n]);
      if take.caller == c {
        OwnTakeSpends(limit, keys, table, take, take.now);
      } else {
        OthersKeepTokens(limit, keys, table, take, c);
      }
    }
  }
}
