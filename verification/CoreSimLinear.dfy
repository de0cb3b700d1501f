/** Every interleaving of attempts is a serial run of the atomic store.

    The proof carries a serial run along with the attempts. A commit appends its call; a replay
    appends a call that changes nothing; a refusal found while performing is inserted where its
    attempt read the key, because by now another attempt may have committed that key. */
module CoreSimLinear {
  import opened CoreSimTables
  import opened CoreSimStore

  function Attempts(calls: seq<Call>): set<nat> {
    set n | 0 <= n < |calls| :: calls[n].attempt
  }

  /** The n-th serial call is an answered attempt's own, answered as the atomic store answers it there,
      and after every attempt that was answered before it began. */
  ghost predicate Explains(t: Tables, calls: seq<Call>, n: nat, attempts: seq<Attempt>)
    requires n < |calls|
  {
    var call := calls[n];
    && call.attempt < |attempts|
    && call.key == attempts[call.attempt].key
    && call.operation == attempts[call.attempt].operation
    && attempts[call.attempt].phase == Answered(AnswerAt(t, calls, n))
    && attempts[call.attempt].earlier <= Attempts(calls[..n])
    && DrawsFresh(Run(t, calls[..n]), call)
  }

  /** A serial run of the atomic store that tells the whole story: it ends in the committed tables,
      and holds exactly one call for each answered attempt and none for any other. */
  ghost predicate Linearizes(t: Tables, calls: seq<Call>, s: System) {
    && Run(t, calls) == s.tables
    && (forall n :: 0 <= n < |calls| ==> Explains(t, calls, n, s.attempts))
    && (forall m, n :: 0 <= m < n < |calls| ==> calls[m].attempt != calls[n].attempt)
    && AnsweredBy(s.attempts) == Attempts(calls)
  }

  /** Where each attempt that found its key unused stood in the serial run when it read it. */
  type Reads = map<nat, nat>

  ghost predicate Pending(t: Tables, calls: seq<Call>, readAt: Reads, s: System, i: nat)
    requires i < |s.attempts|
  {
    var a := s.attempts[i];
    && (!Finished(a) ==> a.earlier <= Attempts(calls))
    && (a.phase.Performing? ==>
          && i in readAt && readAt[i] <= |calls|
          && a.key !in Run(t, calls[..readAt[i]]).keys
          && a.earlier <= Attempts(calls[..readAt[i]]))
  }

  ghost predicate Simulates(t: Tables, calls: seq<Call>, readAt: Reads, s: System) {
    && Linearizes(t, calls, s)
    && forall i :: 0 <= i < |s.attempts| ==> Pending(t, calls, readAt, s, i)
  }

  function Inserted(calls: seq<Call>, p: nat, call: Call): seq<Call>
    requires p <= |calls|
  {
    calls[..p] + [call] + calls[p..]
  }

  /** Reads before the insertion stand where they stood; seen after it stand one call later. */
  function Shifted(readAt: Reads, p: nat): Reads {
    map i | i in readAt :: if readAt[i] <= p then readAt[i] else readAt[i] + 1
  }

  /** A call that changes nothing can be put anywhere; one that writes only at the end. */
  ghost predicate Placeable(t: Tables, calls: seq<Call>, p: nat, call: Call) {
    && p <= |calls|
    && (p == |calls| || Once(Run(t, calls[..p]), call).0 == Run(t, calls[..p]))
    && DrawsFresh(Run(t, calls[..p]), call)
  }

  lemma InsertedRun(t: Tables, calls: seq<Call>, p: nat, call: Call, n: nat)
    requires Placeable(t, calls, p, call) && n <= |calls|
    ensures n <= p ==> Inserted(calls, p, call)[..n] == calls[..n]
    ensures p < n ==> Run(t, Inserted(calls, p, call)[..n + 1]) == Run(t, calls[..n])
  {
    var longer := Inserted(calls, p, call);
    if p < n {
      assert longer[..n + 1] == (calls[..p] + [call]) + calls[p..n];
      assert calls[..n] == calls[..p] + calls[p..n];
      RunConcat(t, calls[..p] + [call], calls[p..n]);
      RunSnoc(t, calls[..p], call);
      RunConcat(t, calls[..p], calls[p..n]);
    }
  }

  lemma InsertedAttempts(calls: seq<Call>, p: nat, call: Call, n: nat)
    requires p <= |calls| && n <= |calls|
    ensures n <= p ==> Attempts(Inserted(calls, p, call)[..n]) == Attempts(calls[..n])
    ensures p <= n ==> Attempts(Inserted(calls, p, call)[..n + 1]) == Attempts(calls[..n]) + {call.attempt}
  {
    var longer := Inserted(calls, p, call);
    if n <= p {
      assert longer[..n] == calls[..n];
    }
    if p <= n {
      forall x | x in Attempts(calls[..n]) ensures x in Attempts(longer[..n + 1]) {
        var m :| 0 <= m < n && calls[m].attempt == x;
        assert longer[if m < p then m else m + 1] == calls[m];
      }
      assert longer[p] == call;
      forall x | x in Attempts(longer[..n + 1]) ensures x in Attempts(calls[..n]) + {call.attempt} {
        var m :| 0 <= m < n + 1 && longer[m].attempt == x;
        assert m != p ==> longer[m] == calls[if m < p then m else m - 1];
      }
    }
  }

  /** An attempt is answered and its call takes its place in the serial run. */
  lemma PlaceCall(t: Tables, calls: seq<Call>, readAt: Reads, s: System, i: nat, p: nat, call: Call)
    requires Simulates(t, calls, readAt, s) && i < |s.attempts| && !Finished(s.attempts[i])
    requires Placeable(t, calls, p, call)
    requires call.attempt == i && call.key == s.attempts[i].key && call.operation == s.attempts[i].operation
    requires s.attempts[i].earlier <= Attempts(calls[..p])
    ensures Simulates(t, Inserted(calls, p, call), Shifted(readAt, p), Placed(t, calls, s, i, p, call))
  {
    var longer, u := Inserted(calls, p, call), Placed(t, calls, s, i, p, call);
    PlacedLinearizes(t, calls, s, i, p, call);
    InsertedAttempts(calls, p, call, |calls|);
    assert longer[..|calls| + 1] == longer && calls[..|calls|] == calls;
    forall j | 0 <= j < |u.attempts| ensures Pending(t, longer, Shifted(readAt, p), u, j) {
      assert Pending(t, calls, readAt, s, j);
      if u.attempts[j].phase.Performing? {
        PlacedRead(t, calls, p, call, readAt[j]);
      }
    }
  }

  /** The attempts once the call is answered; the tables move only when the call went last. */
  function Placed(t: Tables, calls: seq<Call>, s: System, i: nat, p: nat, call: Call): System
    requires i < |s.attempts| && p <= |calls|
  {
    var (after, answer) := Once(Run(t, calls[..p]), call);
    At(s.(tables := if p == |calls| then after else s.tables), i, Answered(answer))
  }

  lemma PlacedRead(t: Tables, calls: seq<Call>, p: nat, call: Call, n: nat)
    requires Placeable(t, calls, p, call) && n <= |calls|
    ensures var m := if n <= p then n else n + 1;
            && Run(t, Inserted(calls, p, call)[..m]) == Run(t, calls[..n])
            && Attempts(calls[..n]) <= Attempts(Inserted(calls, p, call)[..m])
  {
    InsertedRun(t, calls, p, call, n);
    InsertedAttempts(calls, p, call, n);
  }

  /** The longer serial run ends in the tables the attempts are left with. */
  lemma PlacedTables(t: Tables, calls: seq<Call>, s: System, i: nat, p: nat, call: Call)
    requires Run(t, calls) == s.tables && i < |s.attempts| && Placeable(t, calls, p, call)
    ensures Run(t, Inserted(calls, p, call)) == Placed(t, calls, s, i, p, call).tables
  {
    var longer := Inserted(calls, p, call);
    assert calls[..|calls|] == calls;
    if p == |calls| {
      assert longer == calls + [call];
      RunSnoc(t, calls, call);
    } else {
      InsertedRun(t, calls, p, call, |calls|);
      assert longer[..|calls| + 1] == longer;
    }
  }

  lemma PlacedApart(calls: seq<Call>, p: nat, call: Call)
    requires p <= |calls| && call.attempt !in Attempts(calls)
    requires forall m, n :: 0 <= m < n < |calls| ==> calls[m].attempt != calls[n].attempt
    ensures var longer := Inserted(calls, p, call);
            && Attempts(longer) == Attempts(calls) + {call.attempt}
            && forall m, n :: 0 <= m < n < |longer| ==> longer[m].attempt != longer[n].attempt
  {
    var longer := Inserted(calls, p, call);
    InsertedAttempts(calls, p, call, |calls|);
    assert longer[..|calls| + 1] == longer && calls[..|calls|] == calls;
    forall m, n | 0 <= m < n < |longer| ensures longer[m].attempt != longer[n].attempt {
      assert m != p ==> longer[m] == calls[if m < p then m else m - 1];
      assert n != p ==> longer[n] == calls[if n < p then n else n - 1];
    }
  }

  lemma PlacedLinearizes(t: Tables, calls: seq<Call>, s: System, i: nat, p: nat, call: Call)
    requires Linearizes(t, calls, s) && i < |s.attempts| && !Finished(s.attempts[i])
    requires Placeable(t, calls, p, call)
    requires call.attempt == i && call.key == s.attempts[i].key && call.operation == s.attempts[i].operation
    requires s.attempts[i].earlier <= Attempts(calls[..p])
    ensures Linearizes(t, Inserted(calls, p, call), Placed(t, calls, s, i, p, call))
  {
    var longer, u := Inserted(calls, p, call), Placed(t, calls, s, i, p, call);
    hide Explains, Run;
    assert i !in AnsweredBy(s.attempts);
    PlacedTables(t, calls, s, i, p, call);
    PlacedApart(calls, p, call);
    assert AnsweredBy(u.attempts) == AnsweredBy(s.attempts) + {i};
    forall n | 0 <= n < |longer| ensures Explains(t, longer, n, u.attempts) {
      PlacedExplains(t, calls, s, i, p, call, n);
    }
  }

  lemma PlacedExplains(t: Tables, calls: seq<Call>, s: System, i: nat, p: nat, call: Call, n: nat)
    requires Linearizes(t, calls, s) && i < |s.attempts| && !Finished(s.attempts[i])
    requires Placeable(t, calls, p, call) && n <= |calls|
    requires call.attempt == i && call.key == s.attempts[i].key && call.operation == s.attempts[i].operation
    requires s.attempts[i].earlier <= Attempts(calls[..p])
    ensures var answered := At(s, i, Answered(Once(Run(t, calls[..p]), call).1)).attempts;
            Explains(t, Inserted(calls, p, call), n, answered)
  {
    hide Once, Run, DrawsFresh;
    var longer := Inserted(calls, p, call);
    if n < p {
      assert longer[n] == calls[n] && longer[..n] == calls[..n];
      assert Explains(t, calls, n, s.attempts);
    } else if n == p {
      assert longer[..p] == calls[..p];
    } else {
      assert longer[n] == calls[n - 1];
      assert Explains(t, calls, n - 1, s.attempts);
      RunBehind(t, calls, p, call, n - 1);
      InsertedAttempts(calls, p, call, n - 1);
    }
  }

  /** Behind the insertion the tables are those the same call found before it. */
  lemma RunBehind(t: Tables, calls: seq<Call>, p: nat, call: Call, n: nat)
    requires Placeable(t, calls, p, call) && p <= n < |calls|
    ensures Run(t, Inserted(calls, p, call)[..n + 1]) == Run(t, calls[..n])
  {
    if n == p {
      assert Inserted(calls, p, call)[..n + 1] == calls[..p] + [call];
      RunSnoc(t, calls[..p], call);
    } else {
      InsertedRun(t, calls, p, call, n);
    }
  }

  /** A step that answers nobody keeps the serial run as it is. */
  lemma Unanswered(t: Tables, calls: seq<Call>, readAt: Reads, s: System, i: nat, phase: Phase, seen: Reads)
    requires Simulates(t, calls, readAt, s) && i < |s.attempts| && !Finished(s.attempts[i])
    requires !phase.Answered?
    requires forall j :: j in readAt && j != i ==> j in seen && seen[j] == readAt[j]
    requires phase.Performing? ==> i in seen && seen[i] == |calls| && s.attempts[i].key !in s.tables.keys
    ensures Simulates(t, calls, seen, At(s, i, phase))
  {
    var u := At(s, i, phase);
    assert AnsweredBy(u.attempts) == AnsweredBy(s.attempts);
    assert i !in Attempts(calls);
    forall n | 0 <= n < |calls| ensures Explains(t, calls, n, u.attempts) {
      assert Explains(t, calls, n, s.attempts);
    }
    assert calls[..|calls|] == calls;
    forall j | 0 <= j < |u.attempts| ensures Pending(t, calls, seen, u, j) {
      assert Pending(t, calls, readAt, s, j);
    }
  }

  lemma BeginSimulates(t: Tables, calls: seq<Call>, readAt: Reads, s: System, key: Key, operation: Operation)
    requires Simulates(t, calls, readAt, s)
    ensures Simulates(t, calls, readAt, Step(s, Begin(key, operation)))
  {
    var u := Step(s, Begin(key, operation));
    forall n | 0 <= n < |calls| ensures Explains(t, calls, n, u.attempts) {
      assert Explains(t, calls, n, s.attempts);
    }
    assert AnsweredBy(u.attempts) == AnsweredBy(s.attempts);
    forall j | 0 <= j < |s.attempts| ensures Pending(t, calls, readAt, u, j) {
      assert Pending(t, calls, readAt, s, j);
    }
  }

  /** A replay: the attempt's call goes last and finds the key there. */
  lemma ReplaySimulates(t: Tables, calls: seq<Call>, readAt: Reads, s: System, i: nat)
    returns (longer: seq<Call>, seen: Reads)
    requires Simulates(t, calls, readAt, s) && i < |s.attempts| && !Finished(s.attempts[i])
    requires s.attempts[i].key in s.tables.keys
    ensures Simulates(t, longer, seen,
      At(s, i, Answered(Replayed(s.tables.keys[s.attempts[i].key], s.attempts[i].operation))))
  {
    var call := Call(i, s.attempts[i].key, s.attempts[i].operation, 0, 0);
    assert calls[..|calls|] == calls;
    assert Pending(t, calls, readAt, s, i);
    PlaceCall(t, calls, readAt, s, i, |calls|, call);
    longer, seen := Inserted(calls, |calls|, call), Shifted(readAt, |calls|);
  }

  lemma ExplainedDrawFresh(t: Tables, calls: seq<Call>, s: System)
    requires Linearizes(t, calls, s)
    ensures AllDrawFresh(t, calls)
  {
    forall n | 0 <= n < |calls| ensures DrawsFresh(Run(t, calls[..n]), calls[n]) {
      assert Explains(t, calls, n, s.attempts);
    }
  }

  /** What is refused at the end of a serial run is refused, and changes nothing, at any point before it
      where the key is unused. */
  lemma RefusedAtRead(t: Tables, calls: seq<Call>, p: nat, call: Call)
    requires p <= |calls| && AllDrawFresh(t, calls) && call.key !in Run(t, calls[..p]).keys
    requires Perform(Run(t, calls), call.operation, call.id, call.now).Refused?
    ensures Placeable(t, calls, p, call)
    ensures Once(Run(t, calls[..p]), call).1 == Perform(Run(t, calls), call.operation, call.id, call.now)
  {
    RunGrows(t, calls, p, |calls|);
    assert calls[..|calls|] == calls;
    RefusedBefore(Run(t, calls[..p]), Run(t, calls), call);
    hide Run, Perform, Grows;
  }

  lemma RefusedBefore(t: Tables, u: Tables, call: Call)
    requires Grows(t, u) && Perform(u, call.operation, call.id, call.now).Refused?
    ensures Perform(t, call.operation, call.id, call.now) == Perform(u, call.operation, call.id, call.now)
  {
  }

  /** A refusal: what performing could not find now was not there when the key was read either. */
  lemma RefusalSimulates(t: Tables, calls: seq<Call>, readAt: Reads, s: System, i: nat, id: Uuid, now: int)
    returns (longer: seq<Call>, seen: Reads)
    requires Simulates(t, calls, readAt, s) && i < |s.attempts| && s.attempts[i].phase.Performing?
    requires Perform(s.tables, s.attempts[i].operation, id, now).Refused?
    ensures Simulates(t, longer, seen, At(s, i, Answered(Perform(s.tables, s.attempts[i].operation, id, now))))
  {
    var p := readAt[i];
    var call := Call(i, s.attempts[i].key, s.attempts[i].operation, id, now);
    assert Pending(t, calls, readAt, s, i);
    ExplainedDrawFresh(t, calls, s);
    RefusedAtRead(t, calls, p, call);
    assert calls[..|calls|] == calls;
    hide Run, Once, Perform, Pending, Linearizes, DrawsFresh, AllDrawFresh;
    PlaceCall(t, calls, readAt, s, i, p, call);
    longer, seen := Inserted(calls, p, call), Shifted(readAt, p);
  }

  lemma CommitSimulates(t: Tables, calls: seq<Call>, readAt: Reads, s: System, i: nat)
    returns (longer: seq<Call>, seen: Reads)
    requires Inv(s) && Simulates(t, calls, readAt, s) && Enabled(s, Commit(i))
    ensures Simulates(t, longer, seen, Step(s, Commit(i)))
  {
    CommitIsOnce(s, i);
    assert calls[..|calls|] == calls;
    assert Pending(t, calls, readAt, s, i);
    PlaceCall(t, calls, readAt, s, i, |calls|, CallOf(s, i));
    longer, seen := Inserted(calls, |calls|, CallOf(s, i)), Shifted(readAt, |calls|);
  }

  lemma StepSimulates(t: Tables, calls: seq<Call>, readAt: Reads, s: System, e: Event)
    returns (longer: seq<Call>, seen: Reads)
    requires Inv(s) && Simulates(t, calls, readAt, s) && Enabled(s, e)
    ensures Simulates(t, longer, seen, Step(s, e))
  {
    longer, seen := calls, readAt;
    match e {
      case Begin(key, operation) => BeginSimulates(t, calls, readAt, s, key, operation);
      case Remember(i) =>
        if s.attempts[i].key in s.tables.keys {
          longer, seen := ReplaySimulates(t, calls, readAt, s, i);
        } else {
          seen := readAt[i := |calls|];
          Unanswered(t, calls, readAt, s, i, Performing, seen);
        }
      case PerformRows(i, id, now) =>
        if Perform(s.tables, s.attempts[i].operation, id, now).Refused? {
          longer, seen := RefusalSimulates(t, calls, readAt, s, i, id, now);
        } else {
          Unanswered(t, calls, readAt, s, i, Step(s, e).attempts[i].phase, seen);
        }
      case InsertKey(i) => Unanswered(t, calls, readAt, s, i, Step(s, e).attempts[i].phase, seen);
      case Commit(i) => longer, seen := CommitSimulates(t, calls, readAt, s, i);
      case Reread(i) =>
        assert KeyedRight(s, i);
        longer, seen := ReplaySimulates(t, calls, readAt, s, i);
      case Crash(i) => Unanswered(t, calls, readAt, s, i, Lost, seen);
    }
  }

  lemma {:induction false} ExecuteSimulates(t: Tables, calls: seq<Call>, readAt: Reads, s: System, es: seq<Event>)
    returns (longer: seq<Call>, seen: Reads)
    requires Inv(s) && Simulates(t, calls, readAt, s) && Possible(s, es)
    ensures Simulates(t, longer, seen, Execute(s, es))
    decreases |es|
  {
    if es == [] {
      return calls, readAt;
    }
    longer, seen := StepSimulates(t, calls, readAt, s, es[0]);
    StepKeepsInv(s, es[0]);
    longer, seen := ExecuteSimulates(t, longer, seen, Step(s, es[0]), es[1..]);
  }

  /** The main theorem: whatever the interleaving, the crashes and the retries, there is one serial run
      of the atomic store that ends in the committed tables, answers every attempt as it was answered,
      and keeps the order of attempts that did not overlap. */
  lemma Linearizable(policies: set<string>, es: seq<Event>)
    requires Possible(Start(policies), es)
    ensures exists calls :: Linearizes(Seeded(policies), calls, Execute(Start(policies), es))
  {
    var s := Start(policies);
    assert Attempts([]) == AnsweredBy(s.attempts);
    var calls, seen := ExecuteSimulates(Seeded(policies), [], map[], s, es);
  }

  // ---------------------------------------------------------------- what it means for a key

  /** Whether the n-th call of a serial run is the one that wrote. */
  ghost predicate Effective(t: Tables, calls: seq<Call>, n: nat)
    requires n < |calls|
  {
    calls[n].key !in Run(t, calls[..n]).keys && AnswerAt(t, calls, n).Replied?
  }

  /** A key remembered at the end was written by exactly one call, whose answer is what it remembers. */
  lemma {:induction false} EffectOf(t: Tables, calls: seq<Call>, key: Key) returns (n: nat)
    requires key !in t.keys && key in Run(t, calls).keys
    ensures n < |calls| && calls[n].key == key && Effective(t, calls, n)
    ensures Run(t, calls).keys[key]
         == Remembered(RequestFingerprint(calls[n].operation), AnswerAt(t, calls, n).response)
    decreases |calls|
  {
    var last := |calls| - 1;
    assert calls == calls[..last] + [calls[last]];
    RunSnoc(t, calls[..last], calls[last]);
    hide Run, Perform;
    if key in Run(t, calls[..last]).keys {
      n := EffectOf(t, calls[..last], key);
      assert calls[..last][..n] == calls[..n];
    } else {
      n := last;
    }
  }

  lemma OneEffectPerKey(t: Tables, calls: seq<Call>, m: nat, n: nat)
    requires m < n < |calls| && calls[m].key == calls[n].key && AllDrawFresh(t, calls)
    requires Effective(t, calls, m)
    ensures !Effective(t, calls, n)
    ensures Run(t, calls[..n + 1]) == Run(t, calls[..n])
    ensures AnswerAt(t, calls, n) ==
      if calls[n].operation == calls[m].operation then AnswerAt(t, calls, m) else Refused(IdempotencyKeyReuse)
  {
    assert calls[..m + 1] == calls[..m] + [calls[m]];
    RunSnoc(t, calls[..m], calls[m]);
    RunGrows(t, calls, m + 1, n);
    assert calls[..n + 1] == calls[..n] + [calls[n]];
    RunSnoc(t, calls[..n], calls[n]);
  }
}
